/**
 * The read-only troop catalog of the arena page (src/pages/Arena.tsx:8-24)
 * and the two kingdom filters that lay it out as selection buttons
 * (src/pages/Arena.tsx:122-123 and 144-145).
 */
module Troops {

  datatype Kingdom = Blue | Red

  /** A catalog entry: the `Troop` interface. */
  datatype Troop = Troop(id: string, emoji: string, name: string, kingdom: Kingdom)

  const Knight := Troop("1", "⚔️", "Knight", Blue)
  const Archer := Troop("2", "🏹", "Archer", Blue)
  const Wizard := Troop("3", "🧙", "Wizard", Blue)
  const Dragon := Troop("4", "🐉", "Dragon", Blue)
  const Skeleton := Troop("5", "💀", "Skeleton", Red)
  const Goblin := Troop("6", "👹", "Goblin", Red)
  const FireSpirit := Troop("7", "🔥", "Fire Spirit", Red)
  const Zombie := Troop("8", "🧟", "Zombie", Red)

  /** The `troops` array, in its source order. */
  const Catalog: seq<Troop> := [Knight, Archer, Wizard, Dragon, Skeleton, Goblin, FireSpirit, Zombie]

  /** `ts.filter((t) => t.kingdom === k)`: keeps the troops of one kingdom. */
  function OfKingdom(ts: seq<Troop>, k: Kingdom): (r: seq<Troop>)
    ensures |r| <= |ts|
    ensures forall i :: 0 <= i < |r| ==> r[i].kingdom == k
  {
    if ts == [] then []
    else if ts[0].kingdom == k then [ts[0]] + OfKingdom(ts[1..], k)
    else OfKingdom(ts[1..], k)
  }

  /** A troop is shown under a kingdom exactly when it is in the list and belongs to it. */
  lemma {:induction false} OfKingdomMembers(ts: seq<Troop>, k: Kingdom, t: Troop)
    ensures t in OfKingdom(ts, k) <==> t in ts && t.kingdom == k
  {
    if ts != [] {
      OfKingdomMembers(ts[1..], k, t);
      assert ts == [ts[0]] + ts[1..];
    }
  }

  /** Filtering a non-empty list: its head is kept exactly when it belongs to the kingdom. */
  lemma OfKingdomHead(ts: seq<Troop>, k: Kingdom)
    requires ts != []
    ensures multiset(OfKingdom(ts, k))
            == (if ts[0].kingdom == k then multiset{ts[0]} else multiset{}) + multiset(OfKingdom(ts[1..], k))
  {
  }

  /** The two filters split any list of troops: together they keep each troop exactly once. */
  lemma {:induction false} KingdomsPartition(ts: seq<Troop>)
    ensures multiset(OfKingdom(ts, Blue)) + multiset(OfKingdom(ts, Red)) == multiset(ts)
  {
    if ts != [] {
      KingdomsPartition(ts[1..]);
      OfKingdomHead(ts, Blue);
      OfKingdomHead(ts, Red);
      assert ts == [ts[0]] + ts[1..];
    }
  }

  /** The catalog's eight troops have pairwise distinct ids. */
  lemma CatalogIdsDistinct()
    ensures |Catalog| == 8
    ensures forall i, j :: 0 <= i < j < |Catalog| ==> Catalog[i].id != Catalog[j].id
  {
  }

  /** The blue half of the selection panel: four troops, in catalog order. */
  lemma CatalogBlue()
    ensures OfKingdom(Catalog, Blue) == [Knight, Archer, Wizard, Dragon]
  {
    var c := Catalog;
    assert OfKingdom(c[7..], Blue) == [];
    assert OfKingdom(c[6..], Blue) == [];
    assert OfKingdom(c[5..], Blue) == [];
    assert OfKingdom(c[4..], Blue) == [];
    assert OfKingdom(c[3..], Blue) == [Dragon];
    assert OfKingdom(c[2..], Blue) == [Wizard, Dragon];
    assert OfKingdom(c[1..], Blue) == [Archer, Wizard, Dragon];
  }

  /** The red half of the selection panel: four troops, in catalog order. */
  lemma CatalogRed()
    ensures OfKingdom(Catalog, Red) == [Skeleton, Goblin, FireSpirit, Zombie]
  {
    var c := Catalog;
    assert OfKingdom(c[7..], Red) == [Zombie];
    assert OfKingdom(c[6..], Red) == [FireSpirit, Zombie];
    assert OfKingdom(c[5..], Red) == [Goblin, FireSpirit, Zombie];
    assert OfKingdom(c[4..], Red) == c[4..];
    assert OfKingdom(c[3..], Red) == c[4..];
    assert OfKingdom(c[2..], Red) == c[4..];
    assert OfKingdom(c[1..], Red) == c[4..];
  }
}
