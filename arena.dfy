/**
 * The `Arena` component's troop-queue state (src/pages/Arena.tsx:26-72): the
 * three `useState` cells become fields, and each handler becomes a method
 * that updates them in one atomic step.
 */
module ArenaPage {
  import opened Troops
  import opened QueueIds
  import opened ArenaSpec

  class Arena {
    var queue: seq<Queued>
    var deployedTroops: seq<Deployed>
    var counter: nat

    /** The three cells as one value, the state `ArenaSpec.Step` acts on. */
    function State(): ArenaState
      reads this
    {
      ArenaState(queue, deployedTroops, counter)
    }

    predicate Valid()
      reads this
    {
      ArenaSpec.Valid(State())
    }

    /** Mounting the component: all three cells at their initial values. */
    constructor ()
      ensures Valid()
      ensures queue == [] && deployedTroops == [] && counter == 0
      ensures State() == Initial
    {
      queue := [];
      deployedTroops := [];
      counter := 0;
    }

    /**
     * `enqueue(troop)` (src/pages/Arena.tsx:32-35); `timestamp` is what
     * `Date.now()` returned. The troop goes to the back with the identifier
     * built from the counter before the call; the log is untouched.
     */
    method Enqueue(troop: Troop, timestamp: nat)
      requires Valid()
      modifies this
      ensures Valid()
      ensures queue == old(queue) + [Queued(troop, FormatQueueId(troop.id, timestamp, old(counter)))]
      ensures Serial(queue[|queue| - 1].queueId) == old(counter)
      ensures deployedTroops == old(deployedTroops)
      ensures counter == old(counter) + 1
      ensures State() == Step(old(State()), Handler.Enqueue(troop, timestamp))
    {
      EnqueuePreservesValid(State(), troop, timestamp);
      var queueId := FormatQueueId(troop.id, timestamp, counter);
      queue := queue + [Queued(troop, queueId)];
      counter := counter + 1;
    }

    /**
     * `dequeue()` (src/pages/Arena.tsx:41-51). On an empty queue nothing
     * changes; otherwise the front entry leaves the queue and is appended to
     * the log with its position set to the log's old length.
     */
    method Dequeue()
      requires Valid()
      modifies this
      ensures Valid()
      ensures old(queue) == [] ==> queue == [] && deployedTroops == old(deployedTroops)
      ensures old(queue) != [] ==>
                && queue == old(queue)[1..]
                && deployedTroops == old(deployedTroops) + [Deployed(old(queue)[0], |old(deployedTroops)|)]
      ensures counter == old(counter)
      ensures State() == Step(old(State()), Handler.Dequeue)
    {
      DequeuePreservesValid(State());
      ghost var next := AfterDequeue(State());
      if |queue| == 0 {
        return;
      }
      var firstTroop, rest := queue[0], queue[1..];
      queue := rest;
      deployedTroops := Deploy(deployedTroops, firstTroop);
      assert State() == next;
    }

    /** `clearQueue()` (src/pages/Arena.tsx:57-58): empties the queue and nothing else. */
    method ClearQueue()
      requires Valid()
      modifies this
      ensures Valid()
      ensures queue == []
      ensures deployedTroops == old(deployedTroops) && counter == old(counter)
      ensures State() == Step(old(State()), Handler.ClearQueue)
    {
      ClearQueuePreservesValid(State());
      queue := [];
    }

    /** `clearDeployed()` (src/pages/Arena.tsx:62-63): empties the log and nothing else. */
    method ClearDeployed()
      requires Valid()
      modifies this
      ensures Valid()
      ensures deployedTroops == []
      ensures queue == old(queue) && counter == old(counter)
      ensures State() == Step(old(State()), Handler.ClearDeployed)
    {
      ClearDeployedPreservesValid(State());
      deployedTroops := [];
    }

    /** `resetAll()` (src/pages/Arena.tsx:67-70): back to the initial state from any state. */
    method ResetAll()
      modifies this
      ensures Valid()
      ensures queue == [] && deployedTroops == [] && counter == 0
      ensures State() == Step(old(State()), Handler.ResetAll)
    {
      queue := [];
      deployedTroops := [];
      counter := 0;
    }
  }
}
