# Troop queue of the battle arena

This project models the troop queue of the "lovable-kingdom-clash" arena page, which teaches FIFO (first in, first out) queues. The page keeps three pieces of state:

- `queue`: troops waiting to be deployed, each tagged with a generated `queueId`.
- `deployedTroops`: the append-only log of deployed troops, each tagged with the `position` it was deployed at.
- `counter`: a number that keeps the generated ids apart.

Five handlers change that state: `enqueue`, `dequeue`, `clearQueue`, `clearDeployed` and `resetAll`. A fixed catalog of eight troops in two kingdoms supplies what can be enqueued.

The project has four modules:

- `QueueIds` (queue_ids.dfy) models the identifier template `${troop.id}-${timestamp}-${counter}`. Numbers are written in decimal. It proves that the counter can be read back from the identifier's last dash-separated field.
- `Troops` (troops.dfy) holds the `Troop` record, the catalog and the kingdom filter behind the selection buttons.
- `ArenaSpec` (arena_spec.dfy) is the state machine as values: one function per handler (`AfterEnqueue`, `AfterDequeue`, `AfterClearQueue`, `AfterClearDeployed`; `resetAll` gives `Initial`), `Step` choosing among them, `Run` for a sequence of calls, and the invariant `Valid`. It also holds the lemmas:
  - positions equal log indices;
  - the deployed troops followed by the queue (the "lineup") are conserved by dequeue and extended at the end by enqueue;
  - the FIFO law;
  - queue length after k enqueues and j non-empty dequeues;
  - reset gives the initial state;
  - the ids on the page are pairwise distinct.
- `ArenaPage` (arena.dfy) is the component itself: a class `Arena` with the three cells as fields and one method per handler. Each method states its new field values and proves that it makes exactly the transition `ArenaSpec.Step` describes. So every `ArenaSpec` lemma also applies to the class.

`Date.now()` is a `timestamp: nat` parameter of `Enqueue`. Nothing is assumed about it: the id uniqueness proof holds for every choice of timestamps.

The model follows the code as written:

- `Arena.tsx` has no castle health and no attack markers, so none are modelled.
- `dequeue` returns nothing. For an empty queue it only shows a notification.
- `resetAll` puts the counter back to 0, so the counter only increases between resets. After a reset, a new id equals one handed out before the reset whenever the troop and the `Date.now()` value agree; `ArenaSpec.IdRepeatsAcrossReset` shows this. The model proves uniqueness for the entries on the page. A reset removes every earlier entry from the page.

## Model

| member | source | states |
|---|---|---|
| QueueIds.DecimalString | src/pages/Arena.tsx:33 | a counter or timestamp inside the id is a non-empty string of decimal digits with no leading zero, so it contains no dash |
| QueueIds.DecimalRoundTrip | src/pages/Arena.tsx:33 | reading the decimal text of n gives back n |
| QueueIds.LastFieldAfterDash | src/pages/Arena.tsx:33 | the last dash-separated field of `prefix-field` is `field` when `field` has no dash, whatever the prefix |
| QueueIds.FormatQueueId | src/pages/Arena.tsx:33 | the id `${troop.id}-${timestamp}-${counter}` carries its counter in its last field, for any troop id and timestamp |
| QueueIds.DistinctCountersDistinctIds | src/pages/Arena.tsx:33 | ids built with different counters differ, even for the same troop and timestamp |
| Troops.OfKingdom | src/pages/Arena.tsx:122-123 | the kingdom filter keeps only troops of that kingdom and never more than it is given |
| Troops.OfKingdomMembers | src/pages/Arena.tsx:144-145 | a troop is listed under a kingdom exactly when it is in the list and belongs to that kingdom |
| Troops.KingdomsPartition | src/pages/Arena.tsx:122-145 | the blue and red filters together list every troop exactly once (multiset equality) |
| Troops.CatalogIdsDistinct | src/pages/Arena.tsx:15-24 | the catalog has eight troops with pairwise distinct ids |
| Troops.CatalogBlue | src/pages/Arena.tsx:15-24 | the blue filter of the catalog is exactly Knight, Archer, Wizard, Dragon, in catalog order |
| Troops.CatalogRed | src/pages/Arena.tsx:15-24 | the red filter of the catalog is exactly Skeleton, Goblin, Fire Spirit, Zombie, in catalog order |
| ArenaSpec.Admit | src/pages/Arena.tsx:33-34 | the entry made by enqueue is the given troop, and its id carries the current counter |
| ArenaSpec.Stripped | src/pages/Arena.tsx:29 | taking the positions off the log keeps its length and each entry at its index |
| ArenaSpec.Deploy | src/pages/Arena.tsx:51 | appending with `position: prev.length` extends the log by exactly the deployed entry and keeps every position equal to its index |
| ArenaSpec.AfterEnqueue | src/pages/Arena.tsx:32-35 | enqueue adds its entry at the end of the lineup and of the queue, leaves the log alone and raises the counter by 1 |
| ArenaSpec.AfterDequeue | src/pages/Arena.tsx:41-51 | dequeue leaves lineup and counter unchanged; on an empty queue it changes nothing at all; otherwise the queue loses its front and the log gains it at the end with position equal to the old log length |
| ArenaSpec.AfterClearQueue | src/pages/Arena.tsx:57-58 | exactly the deployed prefix of the lineup remains: the queue is empty, the log and the counter are unchanged |
| ArenaSpec.AfterClearDeployed | src/pages/Arena.tsx:62-63 | exactly the queued suffix of the lineup remains: the log is empty, the queue and the counter are unchanged |
| ArenaSpec.ResetAfterAnyRun | src/pages/Arena.tsx:67-70 | after any sequence of handler calls, resetAll gives the initial state |
| ArenaSpec.IdRepeatsAcrossReset | src/pages/Arena.tsx:33-70 | because resetAll restarts the counter, enqueueing the same troop with the same timestamp before and after a reset produces the same id |
| ArenaSpec.SerialsAppend | src/pages/Arena.tsx:33-35 | appending an entry that carries the current counter keeps counters increasing and below the incremented counter |
| ArenaSpec.SerialsSlice | src/pages/Arena.tsx:58-63 | what a clear leaves (a contiguous part of the lineup) keeps increasing counters |
| ArenaSpec.EnqueuePreservesValid | src/pages/Arena.tsx:32-35 | enqueue preserves the invariant |
| ArenaSpec.DequeuePreservesValid | src/pages/Arena.tsx:41-51 | dequeue preserves the invariant |
| ArenaSpec.ClearQueuePreservesValid | src/pages/Arena.tsx:57-58 | clearQueue preserves the invariant |
| ArenaSpec.ClearDeployedPreservesValid | src/pages/Arena.tsx:62-63 | clearDeployed preserves the invariant |
| ArenaSpec.StepPreservesValid | src/pages/Arena.tsx:32-72 | every handler preserves the invariant: positions equal indices, and counters along the lineup are increasing and below `counter` |
| ArenaSpec.RunPreservesValid | src/pages/Arena.tsx:28-72 | any sequence of handler calls preserves the invariant |
| ArenaSpec.ValidIdsDistinct | src/pages/Arena.tsx:33-35 | in a valid state, ids are pairwise distinct within the queue, within the log, and between the two |
| ArenaSpec.ReachableIdsDistinct | src/pages/Arena.tsx:28-72 | from the initial state, after any calls and any timestamps, log positions equal indices and all ids on the page are pairwise distinct |
| ArenaSpec.ArrivalsNumbered | src/pages/Arena.tsx:33-35 | the i-th enqueue of a run gets the start counter plus i as its counter, and there is one arrival per enqueue |
| ArenaSpec.EnqueueConserves | src/pages/Arena.tsx:33-35 | an enqueue moves its entry from the troops still to arrive to the end of the lineup, and moves one unit of counter along with it |
| ArenaSpec.DequeueConserves | src/pages/Arena.tsx:49-51 | a dequeue changes neither the lineup, nor the counter, nor what is still to arrive |
| ArenaSpec.RunConserves | src/pages/Arena.tsx:34-51 | with no clears or resets, the lineup afterwards is the lineup before followed by the enqueued entries in call order, and the counter grows by the number of enqueues |
| ArenaSpec.FifoOrder | src/pages/Arena.tsx:34-51 | from the initial state with no clears, the log holds exactly the first troops enqueued in enqueue order, and the queue holds the rest in the same order |
| ArenaSpec.QueueLength | src/pages/Arena.tsx:34-51 | with no clears and every dequeue finding a troop, the queue grows by one per enqueue and shrinks by one per dequeue, and the log grows by one per dequeue |
| ArenaSpec.QueueLengthFromInitial | src/pages/Arena.tsx:28-51 | from empty, after k enqueues and j successful dequeues, j <= k and the queue holds k - j troops |
| ArenaSpec.CounterCountsEnqueues | src/pages/Arena.tsx:35 | between resets the counter grows by exactly the number of enqueues, whatever clears ran |
| ArenaPage.Arena.constructor | src/pages/Arena.tsx:28-30 | the component starts with an empty queue, an empty log and counter 0, which satisfies the invariant |
| ArenaPage.Arena.Enqueue | src/pages/Arena.tsx:32-35 | the queue becomes the old queue plus the troop with id `${id}-${timestamp}-${old counter}` at the back; the log is unchanged; the counter grows by exactly 1; the invariant is kept |
| ArenaPage.Arena.Dequeue | src/pages/Arena.tsx:41-51 | on an empty queue nothing changes; otherwise the queue loses its front, and the log gains that front entry at the end with position equal to the old log length; the counter is unchanged; the invariant is kept |
| ArenaPage.Arena.ClearQueue | src/pages/Arena.tsx:57-58 | the queue becomes empty; the log and the counter are unchanged |
| ArenaPage.Arena.ClearDeployed | src/pages/Arena.tsx:62-63 | the log becomes empty; the queue and the counter are unchanged |
| ArenaPage.Arena.ResetAll | src/pages/Arena.tsx:67-70 | from any state: empty queue, empty log, counter 0 |

## Left out

- Notifications (`toast` from the `sonner` library) carry no state. They are not modelled, and neither is the "Queue is empty!" message of an empty dequeue.
- `Date.now()` is not modelled as a clock. Its value is an arbitrary parameter of `Enqueue`.
- Rendering, styling and animation (src/pages/Arena.tsx:74-333) are not modelled. This includes the displayed "Position: index+1", "Deployed #index+1" and queue-size texts.
- The disabled state of the deploy button (src/pages/Arena.tsx:225) is not modelled, because the handler's own guard covers the empty queue.
- React's batching, re-rendering and stale closures are not modelled. Each handler runs as one atomic step that sees the current state. In the source, two `enqueue` calls within one render would read the same `counter`; `dequeue`'s `setQueue(rest)` (src/pages/Arena.tsx:50) is not a functional update, so two dequeues within one render would deploy the same entry twice with the same `queueId`, and an enqueue followed by a dequeue within one render would lose the enqueued troop.
- Navigation to and from the landing page is not modelled. src/pages/Index.tsx is not part of this model. It holds no state logic.
- QueueIds.FormatQueueId: models numbers as plain decimal integers of any size. JavaScript numbers lose integer precision above 2^53 and switch to exponent notation from 10^21. Neither the counter nor `Date.now()` reaches these limits in practice.
- Castle health and attack markers are not modelled, because the code contains no such state.
- ArenaSpec.ReachableIdsDistinct: proves pairwise distinct ids only for the entries currently on the page, not for all ids handed out in a session, because `resetAll` restarts the counter and an id issued after a reset can repeat an earlier one (see `ArenaSpec.IdRepeatsAcrossReset`).
