/**
 * The instance identifier that the arena gives every troop it puts in the
 * queue: the template `${troop.id}-${timestamp}-${counter}` of
 * src/pages/Arena.tsx:33, with the two numbers written in decimal the way a
 * JavaScript template literal writes a non-negative integer.
 *
 * The point of the identifier is that it can tell apart two entries made from
 * the same catalog troop. This module proves the fact that makes that work:
 * the last dash-separated field of an identifier reads back as the counter it
 * was built with, whatever the troop id and the timestamp are.
 */
module QueueIds {

  datatype Option<T> = None | Some(value: T)

  predicate IsDigit(c: char) {
    '0' <= c <= '9'
  }

  predicate AllDigits(s: string) {
    forall i :: 0 <= i < |s| ==> IsDigit(s[i])
  }

  /** The character of one decimal digit. */
  function DigitChar(d: nat): (c: char)
    requires d < 10
    ensures IsDigit(c)
    ensures c as int - '0' as int == d
  {
    (('0' as int) + d) as char
  }

  /** A natural number in decimal, without leading zeros (JavaScript's `${n}`). */
  function DecimalString(n: nat): (s: string)
    ensures |s| >= 1
    ensures AllDigits(s)
    ensures |s| > 1 ==> s[0] != '0'
    decreases n
  {
    if n < 10 then [DigitChar(n)] else DecimalString(n / 10) + [DigitChar(n % 10)]
  }

  /** The value of a string of decimal digits, most significant digit first. */
  function DigitsValue(s: string): nat
    requires AllDigits(s)
  {
    if |s| == 0 then 0
    else DigitsValue(s[..|s| - 1]) * 10 + (s[|s| - 1] as int - '0' as int)
  }

  /** Reads a decimal number; fails on the empty string and on any non-digit. */
  function ParseDecimal(s: string): (r: Option<nat>)
    ensures r.Some? <==> |s| >= 1 && AllDigits(s)
  {
    if |s| >= 1 && AllDigits(s) then Some(DigitsValue(s)) else None
  }

  lemma {:induction false} DecimalRoundTrip(n: nat)
    ensures ParseDecimal(DecimalString(n)) == Some(n)
    decreases n
  {
    var s := DecimalString(n);
    if n < 10 {
      assert s[..|s| - 1] == [];
    } else {
      DecimalRoundTrip(n / 10);
      assert s[..|s| - 1] == DecimalString(n / 10);
      assert DigitsValue(s) == (n / 10) * 10 + n % 10;
    }
  }

  /**
   * The text after the last '-' (the whole string when there is none): the
   * last element of `s.split("-")`.
   */
  function LastField(s: string): (r: string)
    ensures '-' !in r
    ensures |r| <= |s|
  {
    if |s| == 0 then []
    else if s[|s| - 1] == '-' then []
    else LastField(s[..|s| - 1]) + [s[|s| - 1]]
  }

  lemma {:induction false} LastFieldAfterDash(prefix: string, field: string)
    requires '-' !in field
    ensures LastField(prefix + "-" + field) == field
    decreases |field|
  {
    var s := prefix + "-" + field;
    if |field| > 0 {
      var init := field[..|field| - 1];
      assert s[..|s| - 1] == prefix + "-" + init;
      assert '-' !in init by {
        forall i | 0 <= i < |init| ensures init[i] != '-' {
          assert init[i] == field[i];
        }
      }
      LastFieldAfterDash(prefix, init);
      assert field == init + [field[|field| - 1]];
    } else {
      assert s[|s| - 1] == '-';
    }
  }

  /**
   * The counter carried by an identifier: its last dash-separated field read
   * as a decimal number, or -1 when that field is not a number.
   */
  function Serial(queueId: string): int {
    match ParseDecimal(LastField(queueId))
    case Some(n) => n
    case None => -1
  }

  /** The identifier template of src/pages/Arena.tsx:33. */
  function FormatQueueId(troopId: string, timestamp: nat, counter: nat): (queueId: string)
    ensures Serial(queueId) == counter
  {
    var field := DecimalString(counter);
    assert '-' !in field by {
      forall i | 0 <= i < |field| ensures field[i] != '-' {
        assert IsDigit(field[i]);
      }
    }
    LastFieldAfterDash(troopId + "-" + DecimalString(timestamp), field);
    DecimalRoundTrip(counter);
    troopId + "-" + DecimalString(timestamp) + "-" + field
  }

  /**
   * Identifiers made with different counters differ, even for the same troop
   * and the same timestamp, and whatever the troop ids and timestamps are.
   */
  lemma DistinctCountersDistinctIds(id1: string, ts1: nat, c1: nat, id2: string, ts2: nat, c2: nat)
    requires c1 != c2
    ensures FormatQueueId(id1, ts1, c1) != FormatQueueId(id2, ts2, c2)
  {
    assert Serial(FormatQueueId(id1, ts1, c1)) != Serial(FormatQueueId(id2, ts2, c2));
  }
}
