# Negotiator and collector store: a Dafny model

This project models two parts of golang-collector and proves what they promise.

**The negotiator's allocation and accounting engine.** A pool's slots are spread over a tree of accounting
groups. Quotas go from the root down (`Quotas`). Fair sharing then gives every group its quota's worth and passes
unused quota on, each parent competing with its own children (`SurplusLoop`, `FairShare`). In unweighted pools
fractional slots are taken back and handed out again as whole slots in round-robin order (`Rounds`, `RoundRobin`).
`Allocation` puts the phases together. The groups themselves come from a list of dotted names (`GroupNames`).
Within a group, submitters share a pie of slot weight spin by spin (`PieSpin`, `Negotiation`), each request going to
the best slot a sharded scan finds (`Matchmaking`). Matches are charged to customers and groups (`Holds`, `Ledger`,
`Accounting`, `AccountingRuns`), and concurrency limits gate them (`Concurrency`). Accounting state is imported from a
C++ journal and kept in an append-only log (`Journal`, `NativeStore`).

**The collector's write path.** Updates (`Updates`) are buffered, deduplicated and flushed in batches (`WriteBuffer`).
The remote backend groups a batch by table, splits it into commit units (`CommitUnits`) and commits these side by side
(`WritePool`, `RpcBackend`), over connections that callers dial together (`DialLane`). Query results are streamed
through a retry loop (`Streaming`).

## Reading the model

- Loops, objects and in-place updates of the source are methods with loops, classes with `modifies` clauses and
  arrays. The group tree is a heap of `GroupNode` objects; `View()` is its value, and the contracts of the allocator
  are relations between such values.
- `float64` is `real`: no rounding, no NaN. Times are whole seconds.
- ClassAd evaluation, hash keys and effective priorities are functions given as constants. Clocks, deadlines,
  failing sessions, failing writes and jitter are arbitrary choices, so the results hold for every way they may fall
  out. A submitter's requests are an arbitrary finite list per spin.
- A slot has one weight, which is not negative. The matchmaker falls back to `Cpus` and the accountant to 1.0 when a
  slot ad carries no `SlotWeight`; the ad source inserts one beforehand (negotiator/source/fixups.go:86-92). It leaves
  a negative weight in place, which the two then replace differently; such slots are not modelled.
- A caller's context is one that never ends, one that still may, or one that has; it may end between any two steps.
- How the native log spells a string is a function of which only this is known: spelling twice changes nothing more.

## Findings

Where a promise of the source is not met in general, a lemma or a method gives the exact boundary.

- *Charged time.* What a name was charged is at every time what it held less what was lost, after every run; the two
  agree exactly if nothing was lost (`AccountingRuns.Replay`). A clock that is not set back loses time for a name
  exactly if a match of its is removed while the last tick is older than its add (`AccountingRuns.LossExactly`). A match
  ends exactly if the first event on its resource after its add is a removal: one whose name is added again while in
  use is charged for ever (`AccountingRuns.HoldFate`).
- *Weighted usage.* A tick keeps the weighted books exact if and only if every record keeps its weight
  (`Accounting.Accountant.UpdatePriorities`, `Ledger.WeightedTickExact`). A record that stays loses it when it has
  unweighted usage but no stored weighted one (`AccountingRuns.MistakenWeight` is such a run: a slot of no weight held
  over a tick); a record that is collected loses whatever weighted time is still on it
  (`AccountingRuns.ForgottenWeight`).
- *Subtree usage.* A tick keeps every group's subtree usage if and only if it collects no record with slots in use below
  it. For a record at the priority floor that means: a weight below the floor, and a group that was never charged
  itself (`Accounting.Accountant.UpdatePriorities`, `Ledger.SmallSubtree`). A quarter of a slot does it
  (`AccountingRuns.ForgottenSubtree`).
- *Concurrency limits.* The gate looks at each token alone, so a list is safe under every count and maximum if and
  only if it names each limit at most once (`Concurrency.SafeExactlyWhenNamedOnce`).
- *Streaming.* A conflict is recognised before the mark that forbids a replay. Rows of two attempts reach the consumer
  if and only if an attempt that delivered and all those after it, up to another that delivers, are ones the loop
  repeats (`Streaming.StreamTable`); after a delivery these are conflicts within their retry budget and failed dials
  (`Streaming.RepeatsAfterDelivery`). `Streaming.ConflictReplays` is such a run.
- *Durability.* Replaying the native log rebuilds the tables only if every record has an attribute and every key,
  attribute and value survives the log: finite numbers, and strings that are valid text. If every key and attribute the
  store was ever given is valid, that is also enough (`NativeStore.Store.ReplayExact`); without that it is not
  (`NativeStore.DeletedTwin`).
- *Closing a lane.* After a close some continuation leaves a connection open if and only if a dial was in flight at the
  close (`DialLane.CloseIdle`, `DialLane.CloseDuringDial`). No caller ever gets that connection (`DialLane.Interleave`).
- *Silent loss.* A unit that finds the context over while it waits for a lane leaves without an error. A batch write, and
  so a flush, can then report success with updates neither stored nor refused. Where no other writer commits the same
  keys: whatever the schedule, it does not if the batch is one unit or the context is one that never ends, and only
  then (`RpcBackend.SilentLossExact`; two tables and an ended context in `RpcBackend.NothingWritten`). At the moment the
  context ends, it still can exactly if some unit has not taken its lane (`WritePool.LossWhenEnded`).
  `WriteBuffer.BufferedBackend.Flush` carries the condition.
- *Backoff.* Under every policy, the backoff stays within the maximum if and only if that is not negative and not below
  the initial one (`DialLane.BackoffWithinMax`). It never shrinks if and only if neither figure is negative and the
  initial one is zero, or comes to nothing when multiplied, or is within the maximum with a multiplier of at least one
  (`DialLane.BackoffNeverShrinks`; two policies that shrink in `DialLane.BackoffShrinks`).

## Model

| member | source | states |
|---|---|---|
| SurplusLoop.FillUnique | negotiator/accountant/groupalloc.go:130-171 | weighted max-min fairness determines a division: two fills of the same demands with the same total agree group by group |
| SurplusLoop.FillIsMaxMin | negotiator/accountant/groupalloc.go:130-171 | a group short of its demand stands at the water level and nobody stands above it |
| SurplusLoop.FillDeepens | negotiator/accountant/groupalloc.go:131-170 | passes add up: filling what is unmet raises the level of one fill |
| SurplusLoop.PassTotal | negotiator/accountant/groupalloc.go:146-169 | a pass hands out at most the surplus, and all of it when nobody was capped |
| SurplusLoop.Pass | negotiator/accountant/groupalloc.go:132-169 | one pass raises the water level; surplus and requests fall by the same amount; unless it is the last, one more group is satisfied |
| SurplusLoop.AllocateSurplusLoop | negotiator/accountant/groupalloc.go:130-171 | the loop ends, and its result is one weighted max-min fill within the requests, with surplus and requests falling in step |
| FairShare.DivideScarce | negotiator/accountant/groupalloc.go:97-105 | in scarcity the by-quota stage and the zero-quota stage hand out everything and are a two-stage fair division |
| FairShare.DivideSurplus | negotiator/accountant/groupalloc.go:87-106 | the surplus returned and the requests left are exact in both cases, and the division is fair |
| FairShare.AllocateSurplus | negotiator/accountant/groupalloc.go:68-125 | over any settled tree: what comes back is exactly the surplus nobody could use, the rest is absorbed, settings are restored, and every node's division is fair |
| FairShare.SpreadSurplus | negotiator/accountant/groupalloc.go:76-124 | the same where there is surplus and demand |
| FairShare.HandOut | negotiator/accountant/groupalloc.go:108-124 | distributing and restoring absorbs the total |
| FairShare.DistributeToChildren | negotiator/accountant/groupalloc.go:109-113 | the surplus a child call returns, which the code discards, is zero |
| FairShare.FairDivisionUnique | negotiator/accountant/groupalloc.go:87-106 | requests, quotas and total leave one fair division |
| FairShare.DistributionUnique | negotiator/accountant/groupalloc.go:68-125 | a settled tree and an amount determine every node's allocation |
| FairShare.ShareFairly | negotiator/accountant/groupalloc.go:45-63 | allocation plus returned surplus equals the quotas; each node's request is split exactly and it keeps at least min(request, quota); settings are restored; at every node the pot goes to whoever lacks and is divided fairly by what they lack |
| FairShare.SharedUnique | negotiator/accountant/groupalloc.go:45-63 | requests and quotas determine the whole tree after sharing: two outcomes are the same |
| FairShare.ShareChildren | negotiator/accountant/groupalloc.go:55-60 | the children's leftovers and the accepting children's shortfalls add up to the closed forms |
| GroupTrees.UnmetIsExact | negotiator/accountant/groupalloc.go:45-63 | the bookkeeping figure is zero exactly when no demand that surplus can reach is left |
| GroupTrees.SharedTogether | negotiator/accountant/groupalloc.go:45-63 | shared-out children and a node that took its quota's worth make a settled tree whose pot is what the subtree has not used |
| GroupTrees.PeersAbsorb | negotiator/accountant/groupalloc.go:108-124 | peers that absorb their parts absorb the sum, keeping the tree-wide invariant |
| GroupTrees.MovedUnique | negotiator/accountant/groupalloc.go:68-125 | after a distribution the allocations determine everything else in the tree |
| Rounds.SortByRR | negotiator/accountant/groupalloc.go:245-251 | the visiting order is a permutation in round-robin order, ties by position |
| Rounds.CountIsUnsatisfied | negotiator/accountant/groupalloc.go:236-275 | counting along any order counts the groups that still ask |
| Rounds.LastShare | negotiator/accountant/groupalloc.go:258-275 | when a round of more than one slot runs short, nobody behind still asks |
| Rounds.ServeGroup | negotiator/accountant/groupalloc.go:260-273 | one group takes its share, capped at what it lacks, and the total unmet falls by as much |
| Rounds.ServeRound | negotiator/accountant/groupalloc.go:256-275 | a round gives every asking group before the cut its share and nobody else anything, and the outstanding count stays exact |
| Rounds.RoundSize | negotiator/accountant/groupalloc.go:254 | with the outstanding count exact the division never sees zero; the share is whole, at least one slot, and covered by the surplus for everybody still asking |
| Rounds.ServeRounds | negotiator/accountant/groupalloc.go:236-279 | everything that can be handed out whole is, and the outcome is integral max-min fairness in round-robin order |
| Rounds.OrdersAgree | negotiator/accountant/groupalloc.go:249-251 | the keys determine the visiting order |
| Rounds.RoundRobinDivisionUnique | negotiator/accountant/groupalloc.go:253-279 | requests, keys and total leave one round-robin division |
| RoundRobin.ServeTree | negotiator/accountant/groupalloc.go:212-296 | over a settled tree of whole demands: exactly min(floor of surplus, unmet) is taken, everything stays whole, and every node's division is a round-robin one |
| RoundRobin.ServeChildren | negotiator/accountant/groupalloc.go:281-285 | the surplus a child call returns is zero |
| RoundRobin.ServingUnique | negotiator/accountant/groupalloc.go:212-296 | a settled tree and the total handed out determine every node's whole slots |
| RoundRobin.RecoverRemainders | negotiator/accountant/groupalloc.go:176-207 | allocation plus surplus is unchanged, every allocation becomes whole, settings are kept, the surplus is the closed form, and at every node the reclaimed slots are handed out in rounds by what is lacked |
| RoundRobin.RecoveredUnique | negotiator/accountant/groupalloc.go:176-207 | allocations, requests and stamps determine the whole tree after recovery |
| RoundRobin.RecoverChildren | negotiator/accountant/groupalloc.go:195-204 | what the children return and lack adds up, with the longest-waiting stamp |
| RoundRobin.RecoveryIsWorkConserving | negotiator/accountant/groupalloc.go:176-207 | a surplus of one slot or more means no accepting demand is left |
| Quotas.AssignmentConserves | negotiator/accountant/groupquota.go:122-191 | without oversubscription the quotas of every subtree add up to exactly what it received, all nonnegative |
| Quotas.AssignmentMonotone | negotiator/accountant/groupquota.go:122-191 | a larger pool never costs a group quota |
| Quotas.AssignBelow | negotiator/accountant/groupquota.go:122-191 | the recursive assignment meets the specification of every node's share |
| Quotas.AssignChildren | negotiator/accountant/groupquota.go:131-171 | each child subtree is assigned its share and the shares are added up |
| Quotas.AssignQuotas | negotiator/accountant/groupquota.go:114-120 | after a reset, a positive total is spread exactly over the groups; nothing but quotas changes |
| Quotas.ResetQuotas | negotiator/accountant/groupquota.go:115-118 | every quota is zero and nothing else changed |
| Allocation.AllocateRound | negotiator/accountant/groupalloc.go:481-492 | quotas equal allocations plus surplus; requests are split exactly; surplus means no accepting demand is left, in a weighted pool any surplus and, for whole requests, in an unweighted one a whole slot of it; unweighted pools end in whole slots |
| Allocation.OutcomeUnique | negotiator/accountant/groupalloc.go:481-492 | requests, quotas and stamps leave one outcome of a round |
| Allocation.StaysSatisfied | negotiator/accountant/groupalloc.go:176-207 | recovery takes nothing back from whole requests that were met |
| Allocation.AllocatePool | negotiator/accountant/groupalloc.go:481-492 | from the pool's total to allocations nothing is created and nothing lost |
| Matchmaking.BetterIsStrictOrder | negotiator/types.go:66-83 | the candidate order is a strict total order on distinct scan indices |
| Matchmaking.MatchedWithinLimit | negotiator/matchmaker/shard.go:156-284 | without preemption a matched slot passed the submitter's limit |
| Matchmaking.ScanRange | negotiator/matchmaker/shard.go:108-137 | the serial scan returns the best candidate and counts every rejection |
| Matchmaking.ScanShards | negotiator/matchmaker/shard.go:61-81 | every shard's result is that of a serial scan of its part |
| Matchmaking.ShardsCover | negotiator/matchmaker/shard.go:64-74 | the partition covers each index exactly once |
| Matchmaking.BestOfBoth | negotiator/matchmaker/shard.go:83-94 | the better of two parts' winners wins the whole |
| Matchmaking.BestIsUnique | negotiator/matchmaker/shard.go:42-137 | a candidate list has one best, so serial and sharded scan agree |
| Matchmaking.ParallelScan | negotiator/matchmaker/shard.go:42-95 | for every worker count: the winner and the counters of one serial scan |
| PieSpin.SharesAddUpToOne | negotiator/cycle/spin.go:218-254 | the shares of distinct names add up to one and none exceeds it |
| PieSpin.CalculateNormalizationFactor | negotiator/cycle/spin.go:218-234 | the worst priority, and the sum of weights over distinct names |
| PieSpin.CreditsDrop | negotiator/cycle/spin.go:53-190 | charging a slot to a submitter below the total uses up one of its credits |
| PieSpin.CreditsBound | negotiator/cycle/spin.go:53-190 | all credits together are at most names times ceil(total / weight) |
| Negotiation.Cycle.AddMatch | negotiator/accountant/usage.go:107-126 | the submitter and its group are charged the weight, nobody else anything |
| Negotiation.Cycle.Gather | negotiator/matchmaker/matchmaker.go:306-313 | the offers are exactly the live slots, in canonical order |
| Negotiation.Cycle.Match | negotiator/matchmaker/matchmaker.go:221-295 | unless a concurrency limit stands against it, the best of the live slots by the candidate order, within the limit by the round-up rule; without one, the submitter-limit rejections are counted |
| Negotiation.Cycle.Commit | negotiator/cycle/spin.go:535-575 | one match charges the submitter and its group, shrinks the pie and takes the slot out of the view, all by its weight |
| Negotiation.Cycle.NextRequest | negotiator/cycle/spin.go:587-626 | the first request that is neither of a rejected autocluster nor outside the constraint, and the rest of the queue |
| Negotiation.Cycle.FirstUsableIs | negotiator/cycle/spin.go:587-626 | every request in front of the one taken is skipped, and that one is not |
| Negotiation.Cycle.Place | negotiator/cycle/spin.go:486-574 | a match takes the best live slot and charges its weight to the submitter, its group and the pie; an attempt that is refused, or stopped by a deadline or a failing session, changes nothing |
| Negotiation.Cycle.NegotiateSubmitter | negotiator/cycle/spin.go:417-582 | what the pie loses is exactly what the submitter and its group are charged and, without partitionable slots, the weight that left the view; spending stays within the limit unless one slot alone took it over; the ceiling is passed by less than one slot |
| Negotiation.Cycle.LimitWithinTotal | negotiator/cycle/spin.go:248-277 | a submitter with a positive limit is below the pool's total by at least that limit |
| Negotiation.Cycle.CalculatePieLeft | negotiator/cycle/spin.go:282-298 | the pie is the sum of the limits, and every submitter is stamped with its starvation ratio |
| Negotiation.Cycle.NegotiateOne | negotiator/cycle/spin.go:340-393 | a turn spends within fair share, group headroom, floor and pie, or one slot over; past the ceiling by less than a slot; one that spends uses up a credit |
| Negotiation.Cycle.SpinOnce | negotiator/cycle/spin.go:151-179 | a whole spin hands out less than the starting pie plus one maximum slot weight, and no slot twice |
| Negotiation.Cycle.FilterIdle | negotiator/cycle/spin.go:194-202 | the submitters with idle jobs, in order |
| Negotiation.Cycle.SortSubmitters | negotiator/cycle/spin.go:313-336 | a permutation in priority, starvation, tiebreak and original order |
| Negotiation.Cycle.PrepareSpin | negotiator/cycle/spin.go:86-140 | who takes part in a spin, with which environment and for which pie |
| Negotiation.Cycle.OneSpin | negotiator/cycle/spin.go:74-188 | a spin that is followed by another removed a submitter or used up a credit |
| Negotiation.Cycle.NegotiateWithGroup | negotiator/cycle/spin.go:53-190 | at most submitters + names * ceil(total / w) + 1 spins, without help from the clocks; one in a floor round |
| Holds.PaidLater | negotiator/accountant/priority.go:168-169 | between ticks every open hold accrues the time passed |
| Holds.PaidAgree | negotiator/accountant/priority.go:140-179 | in an honest history no time was charged by count exactly if none was by weight |
| Ledger.AddBalances | negotiator/accountant/usage.go:104-126 | charging in advance keeps a record's balance with the history |
| Ledger.RemoveBalances | negotiator/accountant/usage.go:173-211 | settling keeps the balance, with exactly the early time lost |
| Ledger.FloorsIdle | negotiator/accountant/usage.go:183-207 | while the books balance, the floors at zero never act |
| Ledger.PriorityBetween | negotiator/accountant/priority.go:151-160 | a priority moves towards recent usage and never past it |
| Ledger.DecayComposes | negotiator/accountant/priority.go:100-160 | under steady usage two ticks age a priority exactly as one over both intervals |
| Ledger.TickBalances | negotiator/accountant/priority.go:122-201 | a tick, collection included, keeps the balance |
| Ledger.WeightedTickExact | negotiator/accountant/priority.go:142-201 | a name's weighted books survive a tick if and only if a collected record has no weighted time, and one that stays has stored usage, or none, or gains none |
| Ledger.TickKeepsEveryWeight | negotiator/accountant/priority.go:86-201 | all weighted books survive a tick if and only if every record keeps its weight |
| Ledger.SubtreeTickExact | negotiator/accountant/priority.go:151-201 | a tick keeps a name's subtree usage if and only if the usage is zero or large enough, or the record was charged itself or has a factor |
| Ledger.SmallSubtree | negotiator/accountant/priority.go:151-201 | at the priority floor a record with usage below it is collected exactly if that is under the floor and the record was never charged and has no factor |
| Ledger.TickKeepsSubtrees | negotiator/accountant/priority.go:86-201 | every group's subtree usage survives a tick if and only if none is forgotten |
| Accounting.Accountant.constructor | negotiator/accountant/accountant.go:155-203 | an empty accountant's books balance |
| Accounting.Accountant.ChargedTimeConserved | negotiator/accountant/priority.go:168-169 | accumulated plus uncharged plus running time is the time held less what was lost |
| Accounting.Accountant.WeightedTimeConserved | negotiator/accountant/priority.go:168-169 | the weighted version, with nothing lost |
| Accounting.Accountant.RollUp | negotiator/accountant/usage.go:128-132 | exactly the group and its dotted ancestors gain the weight; taking away stops at zero |
| Accounting.Accountant.IncrementLimits | negotiator/accountant/limits.go:78-86 | every limit grows by what the list uses of it |
| Accounting.Accountant.DecrementLimits | negotiator/accountant/limits.go:90-98 | every limit shrinks by what the list uses of it |
| Accounting.Accountant.AddMatch | negotiator/accountant/usage.go:104-146 | the whole new state, and books, weighted books and subtree usage stay balanced, whatever the weight |
| Accounting.Accountant.RemoveMatch | negotiator/accountant/usage.go:158-229 | the whole new state, and the balances are kept; the weighted one if the match began no later than the last tick |
| Accounting.Accountant.UpdateOnePriority | negotiator/accountant/priority.go:122-210 | one record is folded, or collected under exactly the stated rule |
| Accounting.Accountant.UpdatePriorities | negotiator/accountant/priority.go:86-113 | every record is folded and the books balance at the new time; weighted books and subtree usage survive exactly under the stated conditions; a clock that went back only moves the baseline |
| Accounting.Accountant.IndexLive | negotiator/accountant/usage.go:241-247 | of several ads of a name the last decides whether a record survives |
| Accounting.Accountant.Reap | negotiator/accountant/usage.go:249-265 | exactly the records that no longer are their customer's match go |
| Accounting.Accountant.ZeroUsage | negotiator/accountant/usage.go:267-275 | every weighted usage is zero and nothing else changed |
| Accounting.Accountant.ClearLimits | negotiator/accountant/limits.go:103-114 | every limit count is zero |
| Accounting.Accountant.ReAdd | negotiator/accountant/usage.go:282-290 | one slot is charged again exactly if it is claimed and named |
| Accounting.Accountant.CheckMatches | negotiator/accountant/usage.go:237-291 | whatever came before, weighted usage, limit counts and records are those of the claimed slots and the surviving matches, so a repeat changes neither usage nor counts |
| AccountingRuns.Replay | negotiator/accountant/usage.go:104-229 | after every run the history is the run's and a name was charged, at any time, exactly what it held less what was lost, so they agree at all times iff nothing was lost; after an orderly run also by weight |
| AccountingRuns.HoldFate | negotiator/accountant/usage.go:104-229 | a match ends if and only if the first event on its resource after its add is a removal, then and with what loss |
| AccountingRuns.LossExactly | negotiator/accountant/usage.go:104-229 | without a clock set back a name loses time if and only if a match of its is removed with the last tick older than its add |
| AccountingRuns.ForgottenSubtree | negotiator/accountant/priority.go:194-201 | one add of a quarter slot and one tick: an ancestor's subtree usage is zero while the slot is in use |
| AccountingRuns.ForgottenWeight | negotiator/accountant/priority.go:194-201 | two matches removed before a tick: the tick collects a record with weighted time on it |
| AccountingRuns.MistakenWeight | negotiator/accountant/priority.go:142-146 | a slot of no weight held over a tick, then a weighted one: the next tick takes unweighted seconds for weighted ones |
| AccountingRuns.AddThenRemove | negotiator/accountant/usage.go:104-229 | removing undoes adding in slots, weights, limits and records; the time charged is off by how far the match began after the tick |
| Concurrency.AdmittedIsRespected | negotiator/matchmaker/concurrency.go:36-53 | a list naming each limit once passes none it was admitted under |
| Concurrency.RepeatedNamePasses | negotiator/matchmaker/concurrency.go:36-53 | any list that repeats a name can be admitted and pass the limit |
| Concurrency.SafeExactlyWhenNamedOnce | negotiator/matchmaker/concurrency.go:36-53 | admitted lists are safe under every count and maximum if and only if no name repeats |
| Concurrency.Tracker.Usage | negotiator/cycle/limits.go:42-53 | the first touch seeds from the accountant, later ones read the cached value |
| Concurrency.Tracker.Rejects | negotiator/matchmaker/concurrency.go:36-53 | the gate admits exactly when every token fits, and then has seeded every limit named |
| Concurrency.Tracker.Add | negotiator/cycle/limits.go:66-77 | every limit named is seeded at its first touch, and every touched one grows by what the list uses of it |
| Concurrency.Tracker.TryMatch | negotiator/cycle/spin.go:500-566 | after a commit the tracker agrees with the accountant's live counts exactly if the slot brought no touched limit of its own; limits within their maximum stay there |
| WriteBuffer.BufferedBackend.OthersEnqueue | store/batch.go:170-178 | enqueues during a flush keep every update accounted for |
| WritePool.RunIsExplained | store/rpcbackend.go:651-690 | in every schedule a unit that failed left an error, and one that gave up saw an error or an ended context |
| WritePool.QuietEndIsComplete | store/rpcbackend.go:651-690 | no error and a context that has not ended mean that every unit was committed |
| WritePool.SomeReady | store/rpcbackend.go:655-688 | no schedule gets stuck: some unit can go on until all are done |
| WritePool.LossWhenEnded | store/rpcbackend.go:666-671 | once the context ends, success with a unit left out is possible if and only if a unit has not taken its lane |
| WritePool.LossFromStart | store/rpcbackend.go:651-690 | some schedule reports success with a unit left out if and only if the context is one that ends |
| RpcBackend.GroupByTable | store/rpcbackend.go:522-542 | each table gets its updates in order |
| RpcBackend.UnitsCover | store/rpcbackend.go:522-551 | each update is in some unit and the units hold nothing else |
| RpcBackend.SingleUnitIsOneUnit | store/rpcbackend.go:592-644 | a batch makes at most one unit if and only if it has one table and is small or there is one lane |
| RpcBackend.SilentLossExact | store/rpcbackend.go:556-690 | a batch write can report success without having stored or refused everything if and only if there are several units and the context ends |
| RpcBackend.NothingWritten | store/rpcbackend.go:666-671 | two tables, an ended context: both units leave and the call reports success |
| RpcBackend.Database.PutBatch | store/rpcbackend.go:718-793 | one transaction is recorded; success stores every update but those the store cannot parse, which are refused for that; an error leaves open whether it was committed; nothing that cannot be parsed is ever stored |
| RpcBackend.Database.Advance | store/rpcbackend.go:663-687 | one unit moves on by a step its pool allows, and a unit that commits leaves its updates stored or refused |
| RpcBackend.Database.CommitUnitsConcurrent | store/rpcbackend.go:651-690 | some schedule of the pool explains the outcome, an error means a failed transaction and the other way round, and what the committed units carried is stored or refused |
| RpcBackend.Database.UpdateBatch | store/rpcbackend.go:521-569 | it fails exactly if one of its transactions does; on success each update is stored, refused because it cannot be parsed, or abandoned in a batch of several units whose context ended; a single update is a single transaction; a failed write may have stored any part |
| WriteBuffer.BufferedBackend.Drain | store/batch.go:214-226 | the batch is the whole buffer, each key once, in any order |
| WriteBuffer.BufferedBackend.Requeue | store/batch.go:243-249 | every update is back unless a newer one is there |
| WriteBuffer.BufferedBackend.IsolateOne | store/batch.go:259-276 | an update tried on its own is stored or, unless the context ended, refused, because it cannot be parsed or because its own transaction in this very call failed |
| WriteBuffer.BufferedBackend.Isolate | store/batch.go:258-277 | each update is stored, refused for a cause in this call, or back in the buffer, and only these are lost |
| WriteBuffer.BufferedBackend.Attempt | store/batch.go:233-239 | a batch write that succeeds accounts for every update, one that fails leaves the batch outstanding |
| WriteBuffer.BufferedBackend.WriteOut | store/batch.go:233-284 | at once or one by one: every update is stored, has a verdict with its cause, or is back after the context ended; a failure alone counts only in a transaction after the batch |
| WriteBuffer.BufferedBackend.Flush | store/batch.go:213-285 | on success each earlier update is stored or has a verdict from this flush: refused because it cannot be parsed or failed again all alone, or abandoned where the context ended and the buffer made several units; an error means a failed transaction and an ended context, and every unapplied update is back without replacing a newer; if no transaction fails there is no error, and the store gains exactly the updates it can parse |
| WriteBuffer.BufferedBackend.Enqueue | store/batch.go:170-202 | the update becomes the newest of its key, unkeyed ones are refused, only a full buffer makes the caller flush, and a keyed one fails only with a context that ends |
| WriteBuffer.BufferedBackend.Read | store/batch.go:327-332 | a read sees the newest update enqueued before it, unless a newer one came or there is a verdict on it; with a context that does not end, or a buffer of one unit, only a refusal with its cause in this very read stands between, and without failed transactions only an update that cannot be parsed |
| DialLane.GrowBounds | store/rpcbackend.go:415-424 | under every policy: within the maximum if the initial backoff is, positive if that is, and no smaller than before with a multiplier of at least one |
| DialLane.BackoffBounds | store/rpcbackend.go:415-424 | over any number of failures: within the maximum if the initial backoff is; under a steady policy never back and, after the first failure, never below the initial one |
| DialLane.BackoffWithinMax | store/rpcbackend.go:415-424 | never above the maximum if and only if that is neither negative nor below the initial backoff |
| DialLane.BackoffNeverShrinks | store/rpcbackend.go:415-424 | under every policy: never shrinking if and only if neither figure is negative and the initial one is zero, comes to nothing when multiplied, or has room and a multiplier to grow |
| DialLane.BackoffShrinks | store/rpcbackend.go:415-424 | two policies whose second backoff is half the first |
| DialLane.SingleFlight | store/rpcbackend.go:231-235 | between any two dials of a lane the first completed |
| DialLane.GateHolds | store/rpcbackend.go:222-230 | until some dial succeeds, no event of the lane precedes an earlier failure's gate |
| DialLane.Lane.Enter | store/rpcbackend.go:203-238 | a closed lane yields nothing, a client is the open current one, and a dial only starts with the gate open and none in flight |
| DialLane.Lane.Wake | store/rpcbackend.go:244-257 | a woken caller gets the current client only while the lane is not closed |
| DialLane.Lane.Succeed | store/rpcbackend.go:284-297 | the new client replaces none, the gate and the backoff are reset, and every waiter's channel is closed |
| DialLane.Lane.Fail | store/rpcbackend.go:290-297 | the backoff grows, the gate moves to now plus the wait, and every waiter's channel is closed |
| DialLane.Lane.Drop | store/rpcbackend.go:302-309 | only the given client is discarded, never a newer one |
| DialLane.Lane.Close | store/rpcbackend.go:312-322 | the lane is closed and its connection too |
| DialLane.Interleave | store/rpcbackend.go:202-322 | from any state, in any order of steps: at most one dial runs, exactly while `dialing` is set; a blocked caller will be woken; no call ending after the close returns a client; a lane closed with nothing in flight stays without connection |
| DialLane.CloseIdle | store/rpcbackend.go:312-322 | with no dial in flight at the close no continuation leaves a connection open |
| DialLane.CloseDuringDial | store/rpcbackend.go:283-322 | with one in flight, the continuation in which it connects leaves its connection open |
| CommitUnits.Plan | store/rpcbackend.go:599-614 | one split per nonempty table, with its own number of chunks |
| CommitUnits.Shrink | store/rpcbackend.go:615-627 | the loop ends with one wave, or with one chunk per table; nothing changes if all fit |
| CommitUnits.Cut | store/rpcbackend.go:628-642 | at most the asked number of nonempty pieces, no larger than the ceiling, that concatenate to the items; more than one wherever that was asked and is possible |
| CommitUnits.FewPieces | store/rpcbackend.go:634-641 | pieces of the ceiling size are no more than were asked for |
| CommitUnits.BuildCommitUnits | store/rpcbackend.go:592-644 | an exact partition in order, single-table and nonempty, of at most max(lanes, nonempty tables) units, and at most one exactly for a single table that is small or has one lane |
| Streaming.Relay | store/rpcbackend.go:1058-1065 | the consumer gets a prefix of the attempt's rows, all of them unless it stopped |
| Streaming.StreamTable | store/rpcbackend.go:335-395 | which attempts are made follows from the script alone; rows of two of them are mixed if and only if the loop goes on from one that delivered to another that does; before the first row transient failures are retried |
| Streaming.RepeatsAfterDelivery | store/rpcbackend.go:353-378 | after a delivery only conflicts within their budget and failed dials are followed by another attempt |
| Streaming.MixedExactly | store/rpcbackend.go:335-395 | the consumer got rows of two attempts exactly if two of those made delivered |
| Streaming.StreamRead | store/rpcbackend.go:1056-1079 | without write conflicts all rows come from a single attempt, all of its rows unless the consumer stopped or it failed, and failures before the first row are retried |
| Streaming.ConflictReplays | store/rpcbackend.go:353-361 | a conflict after a delivered row makes the loop deliver it twice |
| Journal.ImportLog | negotiator/accountant/import.go:96-183 | the imported state is that of the last commit boundary of the readable part; it fails exactly if that part ends in an overlong line |
| Journal.BareMutation | negotiator/accountant/import.go:169-174 | a mutation outside any transaction takes effect at once, unless an unreadable line stops the reader before it |
| Journal.CutInsideTransaction | negotiator/accountant/import.go:180-182 | wherever inside a transaction the log is cut off or unreadable, what is imported is what was there before it began |
| NativeStore.RebuiltIsSolid | negotiator/accountant/store.go:156-221 | a written log rebuilds no empty record, no value that is not finite and no string that is not valid text |
| NativeStore.Store.ReplayExact | negotiator/accountant/store.go:156-247 | the log rebuilds the tables only if every record has an attribute and everything in it survives the log; if all names ever given do, exactly then |
| NativeStore.DeletedTwin | negotiator/accountant/store.go:208-281 | with two keys the log spells alike, deleting one loses the other from the log |
| NativeStore.Store.Set | negotiator/accountant/store.go:208-247 | one attribute is set, the log gains the entry as it spells it unless the value is not finite, and stays durable |
| NativeStore.Store.DeleteRecord | negotiator/accountant/store.go:275-281 | one record goes, the log gains its deletion, and stays durable |
| NativeStore.Store.Ensure | negotiator/accountant/store.go:223-230 | a missing record appears empty, which the log need not know |
| NativeStore.Store.Replay | negotiator/accountant/store.go:156-206 | the tables the log describes, or an error exactly for a corrupt line |
| NativeStore.Store.Load | negotiator/accountant/import.go:369-407 | every ad of the accountant's namespaces is merged into its record and no other record changes |
| NativeStore.SplitInjective | negotiator/accountant/import.go:352-362 | different journal keys go to different records |
| NativeStore.ImportAndReopen | negotiator/accountant/import.go:369-407 | import, then reopen: unless the journal has an overlong line, the tables are those of the last commit boundary if and only if each of its ads has an attribute and everything in it survives the log |
| GroupNames.JoinSplit | negotiator/accountant/grouptree.go:145-147 | splitting a dotted name loses nothing |
| GroupNames.SortNames | negotiator/accountant/grouptree.go:203-204 | the same names, sorted without case |
| GroupNames.NoneBelow | negotiator/accountant/grouptree.go:203-204 | in sorted order nothing that comes earlier lies below a name |
| GroupNames.RootedStep | negotiator/accountant/grouptree.go:210-236 | the next name roots its own path if its ancestors are rooted, and no other |
| GroupNames.Forest.FindChild | negotiator/accountant/grouptree.go:151-158 | the child of that component, or none exists |
| GroupNames.Forest.FindParent | negotiator/accountant/grouptree.go:213-227 | the parent's node, or none exists |
| GroupNames.Forest.AddGroup | negotiator/accountant/grouptree.go:210-236 | a node is added exactly if the path is new and its parent exists; the tree stays a tree |
| GroupNames.BuildGroupTree | negotiator/accountant/grouptree.go:182-271 | a path has a node exactly if it and all its ancestors are configured, whatever the order and repetitions |

## Left out

- The rest of the group round in NegotiateAllGroups: autoregroup, strict enforcement, the order groups negotiate in and the interpolation between allocation rounds.
- The round-robin flag and the persisted round-robin stamps of groups: stamps enter as given.
- Quotas.ResetQuotas: walks the tree recursively where the source walks it breadth first; the result is the same.
- RoundRobin.RecoverRemainders: the per-node split of a request is exact only for whole requests, because the source rounds requests; conservation and wholeness are proved for all.
- Preemption inside the spin: the bounds on spending and on the number of spins are for preemption off, as a match by startd rank passes the limit on purpose. The scan itself is modelled with all tiers.
- Global job priorities, prefetching, session traffic, statistics and the wording of rejections.
- Negotiation.Cycle.Gather: what a request and a slot are worth to each other is fixed per request; the source folds the submitter's current usage into the request before each match, which an expression could refer to.
- Negotiation.Cycle.Match: whether a concurrency limit stands against a request is an arbitrary choice here; the gate itself is in `Concurrency`.
- Streaming.StreamTable: a run ends with its script of attempts, so it says nothing about loops that retry for ever.
- Accounting.Accountant.constructor: an accountant without stored state; opening one on an existing log goes through `NativeStore`, and the reconciliation of ResourcesUsed at startup is left out.
- Accounting.Accountant.UpdateOnePriority: the begin and last usage stamps and the clearing of share and limit annotations are left out.
- Negotiation.Cycle.NegotiateWithGroup: the bound is for slots that have a name, as the next line says.
- Negotiation.Cycle.AddMatch: every slot ad is taken to have a name. The source charges nothing for a match on a nameless slot, so a nameless partitionable slot can be matched without using up credit, and the bound on the spins does not cover it.
- NativeStore.Store.Set: the lines written are taken to be ones the reader accepts, that is, of no more than eight megabytes.
- Priority factors and the write-back of defaults on reads.
- Resource records without a remote user or a slot weight, which only a damaged log can contain.
- ResourcesUsed and HierWeightedResourcesUsed after CheckMatches: the source increments them again there.
- Parsing: limit tokens, journal lines and JSON log lines are taken as parsed, with unreadable ones as a case of their own.
- Concurrency limits that are expressions over the matched slot; lists are literal.
- Overlapping flushes of one buffer, and invalidations and expiry passing through it.
- DialLane.Lane.Drop: discards by client identity; that only callers holding a client drop it is not modelled.
- RpcBackend.Database.PutBatch: one unit is one atomic write here; conflicts with another writer's commits, which the source settles by update sequence, and the chunking of frames are left out, and so is the embedded database's batch writer.
- RpcBackend.Database.UpdateBatch: takes updates with their keys; the source computes the keys again from the same texts.
- Group settings besides the tree: quotas, surplus and autoregroup flags per group, and the mapping of submitters to groups.
- GroupNames.Forest: nodes live in an arena of indices where the source links objects.
- Floating-point rounding and overflow of 64-bit integers.
- CEDAR handlers, forwarding, watch streaming, the ClassAd library and the database engine.
