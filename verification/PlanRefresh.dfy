/** Refreshing a Plan (internal/cli/plan_control.go): its belief pins are renewed
    and it leaves every Queue, in one set of changes. */
module PlanRefresh {
  import opened Prelude

  type ID = nat

  const ZERO: ID := 0

  datatype Dependency = Dependency(finding: ID, revision: string, beliefDigest: string)

  /** A floating-point number of the command line. Besides numbers there are
      infinities, and NaN, of which no comparison holds. */
  datatype Float = NaN | Infinite(negative: bool) | Number(value: real) {
    predicate Below(bound: real) {
      match this
      case NaN => false
      case Infinite(negative) => negative
      case Number(value) => value < bound
    }

    predicate Above(bound: real) {
      match this
      case NaN => false
      case Infinite(negative) => !negative
      case Number(value) => value > bound
    }
  }

  datatype Utility = Utility(probability: Float, impact: Float, informationGain: Float, unblockValue: Float, riskPenalty: Float)

  datatype Plan = Plan(id: ID, idea: ID, currentSchema: bool, queued: bool, dependencies: seq<Dependency>, utility: Option<Utility>, updatedAt: nat)

  datatype IdeaState = IdeaQueued | IdeaQualified | IdeaOther

  datatype Idea = Idea(id: ID, state: IdeaState, updatedAt: nat)

  datatype QueueEntry = QueueEntry(plan: ID, detail: string)

  datatype Partition = Partition(name: string, entries: seq<QueueEntry>)

  datatype Queue = Queue(id: ID, revision: nat, partitions: seq<Partition>, updatedAt: nat)

  /** A record with the revision of the document that holds it. */
  datatype Document<T> = Document(record: T, documentRevision: string)

  /** What the refresh reads of the inventory. */
  datatype Inventory = Inventory(
    findings: map<ID, string>,        // Finding to document revision
    digests: map<ID, string>,         // Finding to belief digest
    ideas: map<ID, Document<Idea>>,
    queues: seq<Document<Queue>>)

  datatype Change =
    | ReplacePlan(plan: Plan, expected: string)
    | ReplaceIdea(idea: Idea, expected: string)
    | ReplaceQueue(queue: Queue, expected: string)

  // ---------------------------------------------------------------------------
  // Queues
  // ---------------------------------------------------------------------------

  /** The entries of other Plans, in order. */
  function Without(entries: seq<QueueEntry>, plan: ID): (r: seq<QueueEntry>)
    ensures forall e :: e in r <==> e in entries && e.plan != plan
  {
    if entries == [] then []
    else
      var n := |entries| - 1;
      Without(entries[..n], plan) + if entries[n].plan == plan then [] else [entries[n]]
  }

  predicate Holds(q: Queue, plan: ID) {
    exists i, j :: 0 <= i < |q.partitions| && 0 <= j < |q.partitions[i].entries| && q.partitions[i].entries[j].plan == plan
  }

  /** `after` is `before` without the Plan, one revision later if it held it. */
  ghost predicate Dequeued(before: Queue, after: Queue, plan: ID, now: nat) {
    && after.id == before.id && |after.partitions| == |before.partitions|
    && (forall i :: 0 <= i < |before.partitions| ==>
          && after.partitions[i].name == before.partitions[i].name
          && after.partitions[i].entries == Without(before.partitions[i].entries, plan))
    && if Holds(before, plan) then after.revision == before.revision + 1 && after.updatedAt == now
       else after.revision == before.revision && after.updatedAt == before.updatedAt
  }

  method DequeuePlan(queue: Queue, plan: ID, now: nat) returns (updated: Queue, found: bool)
    ensures Dequeued(queue, updated, plan, now)
    ensures found == Holds(queue, plan)
    ensures found <==> exists i, j :: 0 <= i < |queue.partitions| && 0 <= j < |queue.partitions[i].entries| && queue.partitions[i].entries[j].plan == plan
    ensures updated.id == queue.id && |updated.partitions| == |queue.partitions|
    ensures forall i :: 0 <= i < |queue.partitions| ==>
              updated.partitions[i] == Partition(queue.partitions[i].name, Without(queue.partitions[i].entries, plan))
    ensures updated.revision == queue.revision + (if found then 1 else 0)
    ensures updated.updatedAt == if found then now else queue.updatedAt
  {
    hide Without;
    updated, found := queue, false;
    for p := 0 to |queue.partitions|
      invariant updated.id == queue.id && updated.revision == queue.revision && updated.updatedAt == queue.updatedAt
      invariant |updated.partitions| == |queue.partitions|
      invariant forall i :: p <= i < |queue.partitions| ==> updated.partitions[i] == queue.partitions[i]
      invariant forall i :: 0 <= i < p ==>
        && updated.partitions[i].name == queue.partitions[i].name
        && updated.partitions[i].entries == Without(queue.partitions[i].entries, plan)
      invariant found <==> exists i, j :: 0 <= i < p && 0 <= j < |queue.partitions[i].entries| && queue.partitions[i].entries[j].plan == plan
    {
      var kept, removed := KeepOthers(updated.partitions[p].entries, plan);
      found := found || removed;
      updated := updated.(partitions := updated.partitions[p := updated.partitions[p].(entries := kept)]);
    }
    if found {
      updated := updated.(revision := updated.revision + 1, updatedAt := now);
    }
  }

  method KeepOthers(entries: seq<QueueEntry>, plan: ID) returns (kept: seq<QueueEntry>, removed: bool)
    ensures kept == Without(entries, plan)
    ensures removed <==> exists j :: 0 <= j < |entries| && entries[j].plan == plan
  {
    hide Without;
    kept, removed := [], false;
    WithoutNone(plan);
    assert entries[..0] == [];
    for k := 0 to |entries|
      invariant kept == Without(entries[..k], plan)
      invariant removed <==> exists j :: 0 <= j < k && entries[j].plan == plan
    {
      WithoutLast(entries[..k], entries[k], plan);
      assert entries[..k + 1] == entries[..k] + [entries[k]];
      if entries[k].plan == plan {
        removed := true;
        continue;
      }
      kept := kept + [entries[k]];
    }
    assert entries[..|entries|] == entries;
  }

  // ---------------------------------------------------------------------------
  // The refresh
  // ---------------------------------------------------------------------------

  datatype Error = NotRefreshable | BadUtility | Unresolved

  datatype Result = Ok(changes: seq<Change>) | Err(error: Error)

  /** The reassessment the command accepts. */
  predicate CompleteUtility(u: Utility) {
    !(u.probability.Below(0.0) || u.probability.Above(1.0) || u.impact.Below(0.0) || u.informationGain.Below(0.0)
      || u.unblockValue.Below(0.0) || u.riskPenalty.Below(0.0))
  }

  predicate Pinnable(inventory: Inventory, plan: Plan) {
    forall i :: 0 <= i < |plan.dependencies| ==>
      plan.dependencies[i].finding in inventory.findings && plan.dependencies[i].finding in inventory.digests
  }

  /** Every dependency names the same Finding as before, at its current revision
      and belief digest. */
  ghost predicate Pinned(inventory: Inventory, before: seq<Dependency>, after: seq<Dependency>) {
    && |after| == |before|
    && forall i :: 0 <= i < |before| ==>
         var d := after[i];
         && d.finding == before[i].finding && d.finding in inventory.findings && d.finding in inventory.digests
         && d.revision == inventory.findings[d.finding] && d.beliefDigest == inventory.digests[d.finding]
  }

  predicate Refreshable(inventory: Inventory, plan: Plan, utility: Utility) {
    && plan.currentSchema && plan.queued && CompleteUtility(utility)
    && Pinnable(inventory, plan) && (plan.idea != ZERO ==> plan.idea in inventory.ideas)
  }

  /** The changes for the queues, in order: exactly those that hold the Plan. */
  ghost predicate QueueChanges(queues: seq<Document<Queue>>, plan: ID, now: nat, changes: seq<Change>) {
    if queues == [] then changes == []
    else
      var n := |queues| - 1;
      var q := queues[n].record;
      if Holds(q, plan) then
        && changes != []
        && changes[|changes| - 1].ReplaceQueue?
        && changes[|changes| - 1].expected == queues[n].documentRevision
        && Dequeued(q, changes[|changes| - 1].queue, plan, now)
        && QueueChanges(queues[..n], plan, now, changes[..|changes| - 1])
      else QueueChanges(queues[..n], plan, now, changes)
  }

  /** The change that takes the Plan out of a Queue. */
  ghost predicate Dequeues(change: Change, before: Document<Queue>, plan: ID, now: nat) {
    && change.ReplaceQueue? && change.expected == before.documentRevision
    && change.queue.id == before.record.id && change.queue.revision == before.record.revision + 1 && change.queue.updatedAt == now
    && |change.queue.partitions| == |before.record.partitions|
    && forall i :: 0 <= i < |before.record.partitions| ==>
         change.queue.partitions[i] ==
         Partition(before.record.partitions[i].name, Without(before.record.partitions[i].entries, plan))
  }

  /** The changes come from an increasing list of places, exactly those of the Queues
      that hold the Plan. */
  ghost predicate ComeFrom(queues: seq<Document<Queue>>, plan: ID, now: nat, changes: seq<Change>, places: seq<nat>) {
    && |changes| == |places| && (forall a, b :: 0 <= a < b < |places| ==> places[a] < places[b])
    && (forall k: nat :: k in places <==> k < |queues| && Holds(queues[k].record, plan))
    && forall a :: 0 <= a < |places| ==> places[a] < |queues| && Dequeues(changes[a], queues[places[a]], plan, now)
  }

  /** The changes, and the places of the Queues they come from. */
  method QueueUpdates(queues: seq<Document<Queue>>, plan: ID, now: nat) returns (changes: seq<Change>, ghost places: seq<nat>)
    ensures QueueChanges(queues, plan, now, changes)
    ensures ComeFrom(queues, plan, now, changes, places)
  {
    hide Holds;
    hide Dequeued;
    hide Without;
    hide Dequeues;
    changes, places := [], [];
    for k := 0 to |queues|
      invariant QueueChanges(queues[..k], plan, now, changes)
      invariant ComeFrom(queues[..k], plan, now, changes, places)
    {
      assert queues[..k + 1][..k] == queues[..k];
      var updated, found := DequeuePlan(queues[k].record, plan, now);
      hide ComeFrom;
      if found {
        QueueDequeued(queues[k], updated, plan, now);
      }
      OneMoreQueue(queues, k, plan, now, changes, places, ReplaceQueue(updated, queues[k].documentRevision));
      if found {
        ghost var before := changes;
        changes, places := changes + [ReplaceQueue(updated, queues[k].documentRevision)], places + [k];
        assert changes[..|changes| - 1] == before;
      }
    }
    assert queues[..|queues|] == queues;
  }

  lemma {:induction false} OneMoreQueue(queues: seq<Document<Queue>>, k: nat, plan: ID, now: nat, changes: seq<Change>, places: seq<nat>, change: Change)
    requires k < |queues| && ComeFrom(queues[..k], plan, now, changes, places)
    requires Holds(queues[k].record, plan) ==> Dequeues(change, queues[k], plan, now)
    ensures if Holds(queues[k].record, plan) then ComeFrom(queues[..k + 1], plan, now, changes + [change], places + [k])
            else ComeFrom(queues[..k + 1], plan, now, changes, places)
  {
    hide Holds;
    hide Dequeues;
    assert forall i :: 0 <= i < k ==> queues[..k][i] == queues[..k + 1][i] == queues[i];
    assert queues[..k + 1][k] == queues[k];
    assert forall i: nat :: i in places + [k] <==> i in places || i == k;
  }

  lemma QueueDequeued(before: Document<Queue>, after: Queue, plan: ID, now: nat)
    requires after.id == before.record.id && after.revision == before.record.revision + 1 && after.updatedAt == now
    requires |after.partitions| == |before.record.partitions|
    requires forall i :: 0 <= i < |after.partitions| ==>
               after.partitions[i] == Partition(before.record.partitions[i].name, Without(before.record.partitions[i].entries, plan))
    ensures Dequeues(ReplaceQueue(after, before.documentRevision), before, plan, now)
  {
    hide Without;
  }

  method PinDependencies(inventory: Inventory, plan: Plan) returns (updated: Plan, ok: bool)
    ensures ok == Pinnable(inventory, plan)
    ensures ok ==> Pinned(inventory, plan.dependencies, updated.dependencies) && updated == plan.(dependencies := updated.dependencies)
  {
    updated := plan;
    for k := 0 to |plan.dependencies|
      invariant updated == plan.(dependencies := updated.dependencies) && |updated.dependencies| == |plan.dependencies|
      invariant forall i :: k <= i < |plan.dependencies| ==> updated.dependencies[i] == plan.dependencies[i]
      invariant forall i :: 0 <= i < k ==>
        var d := updated.dependencies[i];
        && d.finding == plan.dependencies[i].finding && d.finding in inventory.findings && d.finding in inventory.digests
        && d.revision == inventory.findings[d.finding] && d.beliefDigest == inventory.digests[d.finding]
    {
      var finding := updated.dependencies[k].finding;
      if finding !in inventory.findings {
        return updated, false;
      }
      if finding !in inventory.digests {
        return updated, false;
      }
      var dependency := Dependency(finding, inventory.findings[finding], inventory.digests[finding]);
      updated := updated.(dependencies := updated.dependencies[k := dependency]);
    }
    ok := true;
  }

  /** All changes of one refresh, made by a single transaction. */
  method RefreshPlan(inventory: Inventory, document: Document<Plan>, utility: Utility, now: nat) returns (result: Result, ghost places: seq<nat>)
    ensures result.Ok? <==> Refreshable(inventory, document.record, utility)
    ensures result == Err(NotRefreshable) <==> !(document.record.currentSchema && document.record.queued)
    ensures !result.Ok? && result != Err(NotRefreshable) ==>
              (result == Err(BadUtility) <==>
               || utility.probability.Below(0.0) || utility.probability.Above(1.0) || utility.impact.Below(0.0)
               || utility.informationGain.Below(0.0) || utility.unblockValue.Below(0.0) || utility.riskPenalty.Below(0.0))
    ensures result == Err(Unresolved) ==>
              || (exists i :: 0 <= i < |document.record.dependencies| &&
                    (document.record.dependencies[i].finding !in inventory.findings || document.record.dependencies[i].finding !in inventory.digests))
              || (document.record.idea != ZERO && document.record.idea !in inventory.ideas)
    ensures result.Ok? ==>
              && !utility.probability.Below(0.0) && !utility.probability.Above(1.0) && !utility.impact.Below(0.0)
              && !utility.informationGain.Below(0.0) && !utility.unblockValue.Below(0.0) && !utility.riskPenalty.Below(0.0)
              && (forall i :: 0 <= i < |document.record.dependencies| ==>
                    document.record.dependencies[i].finding in inventory.findings && document.record.dependencies[i].finding in inventory.digests)
              && (document.record.idea != ZERO ==> document.record.idea in inventory.ideas)
    ensures result.Ok? ==>
      var plan := document.record;
      var idea := if plan.idea != ZERO && inventory.ideas[plan.idea].record.state == IdeaQueued then 1 else 0;
      && |result.changes| > idea
      // the Plan, with every dependency pinned to its Finding's current state
      && result.changes[0].ReplacePlan? && result.changes[0].expected == document.documentRevision
      && Pinned(inventory, plan.dependencies, result.changes[0].plan.dependencies)
      && result.changes[0].plan == plan.(dependencies := result.changes[0].plan.dependencies, utility := Some(utility), updatedAt := now)
      // its Idea, back to qualified if it was queued
      && (idea == 1 ==>
            result.changes[1] == ReplaceIdea(inventory.ideas[plan.idea].record.(state := IdeaQualified, updatedAt := now),
                                             inventory.ideas[plan.idea].documentRevision))
      // and exactly the Queues that held it
      && QueueChanges(inventory.queues, plan.id, now, result.changes[1 + idea..])
      && ComeFrom(inventory.queues, plan.id, now, result.changes[1 + idea..], places)
  {
    hide Holds;
    hide ComeFrom;
    hide QueueChanges;
    hide Pinned;
    hide Float.Below;
    hide Float.Above;
    places := [];
    var plan := document.record;
    if !plan.currentSchema || !plan.queued {
      return Err(NotRefreshable), [];
    }
    if !CompleteUtility(utility) {
      return Err(BadUtility), [];
    }
    var updated, pinned := PinDependencies(inventory, plan);
    if !pinned {
      return Err(Unresolved), [];
    }
    updated := updated.(utility := Some(utility), updatedAt := now);
    var changes := [ReplacePlan(updated, document.documentRevision)];
    if plan.idea != ZERO {
      if plan.idea !in inventory.ideas {
        return Err(Unresolved), [];
      }
      var idea := inventory.ideas[plan.idea];
      if idea.record.state == IdeaQueued {
        changes := changes + [ReplaceIdea(idea.record.(state := IdeaQualified, updatedAt := now), idea.documentRevision)];
      }
    }
    ghost var front := changes;
    var queueChanges;
    queueChanges, places := QueueUpdates(inventory.queues, plan.id, now);
    changes := changes + queueChanges;
    assert changes[|front|..] == queueChanges;
    result := Ok(changes);
  }

  // ---------------------------------------------------------------------------
  // What the changes achieve
  // ---------------------------------------------------------------------------

  /** A dequeued Queue no longer holds the Plan, so a second refresh leaves it
      exactly alone. */
  lemma DequeuedHoldsNot(before: Queue, after: Queue, again: Queue, plan: ID, now: nat, later: nat)
    requires Dequeued(before, after, plan, now) && Dequeued(after, again, plan, later)
    ensures !Holds(after, plan) && again == after
  {
    forall i, j | 0 <= i < |after.partitions| && 0 <= j < |after.partitions[i].entries|
      ensures after.partitions[i].entries[j].plan != plan
    {
      assert after.partitions[i].entries[j] in Without(before.partitions[i].entries, plan);
    }
    forall i | 0 <= i < |after.partitions| ensures again.partitions[i] == after.partitions[i] {
      NothingToRemove(after.partitions[i].entries, plan, |after.partitions[i].entries|);
      assert after.partitions[i].entries[..|after.partitions[i].entries|] == after.partitions[i].entries;
    }
    assert again.partitions == after.partitions;
  }

  lemma WithoutLast(entries: seq<QueueEntry>, last: QueueEntry, plan: ID)
    ensures Without([], plan) == []
    ensures last.plan == plan ==> Without(entries + [last], plan) == Without(entries, plan)
    ensures last.plan != plan ==> Without(entries + [last], plan) == Without(entries, plan) + [last]
  {
    assert (entries + [last])[..|entries|] == entries;
    assert Without(entries, plan) + [] == Without(entries, plan);
  }

  lemma {:induction false} NothingToRemove(entries: seq<QueueEntry>, plan: ID, k: nat)
    requires k <= |entries| && forall j :: 0 <= j < |entries| ==> entries[j].plan != plan
    ensures Without(entries[..k], plan) == entries[..k]
    decreases k
  {
    hide Without;
    WithoutNone(plan);
    if k > 0 {
      NothingToRemove(entries, plan, k - 1);
      WithoutLast(entries[..k - 1], entries[k - 1], plan);
      assert entries[..k] == entries[..k - 1] + [entries[k - 1]];
    } else {
      assert entries[..0] == [];
    }
  }

  /** `kept` are exactly the entries of other Plans among the first k, each once and
      in order: the places they come from are increasing, and every such place is
      there. */
  ghost predicate AreKept(entries: seq<QueueEntry>, plan: ID, k: nat, kept: seq<QueueEntry>, places: seq<nat>)
    requires k <= |entries|
  {
    && (forall a, b :: 0 <= a < b < |places| ==> places[a] < places[b])
    && (forall i: nat :: i in places <==> i < k && entries[i].plan != plan)
    && |kept| == |places|
    && forall a :: 0 <= a < |places| ==> places[a] < k && kept[a] == entries[places[a]]
  }

  lemma OneMoreKept(entries: seq<QueueEntry>, plan: ID, k: nat, kept: seq<QueueEntry>, places: seq<nat>)
    requires k < |entries| && AreKept(entries, plan, k, kept, places)
    ensures if entries[k].plan == plan then AreKept(entries, plan, k + 1, kept, places)
            else AreKept(entries, plan, k + 1, kept + [entries[k]], places + [k])
  {
    if entries[k].plan != plan {
      var more := places + [k];
      assert forall i: nat :: i in more <==> i in places || i == k;
    }
  }

  lemma {:induction false} WithoutKeepsOrder(entries: seq<QueueEntry>, plan: ID, k: nat) returns (places: seq<nat>)
    requires k <= |entries|
    ensures forall a, b :: 0 <= a < b < |places| ==> places[a] < places[b]
    ensures forall i: nat :: i in places <==> i < k && entries[i].plan != plan
    ensures |Without(entries[..k], plan)| == |places|
    ensures forall a :: 0 <= a < |places| ==> places[a] < k && Without(entries[..k], plan)[a] == entries[places[a]]
    decreases k
  {
    hide Without;
    WithoutNone(plan);
    places := [];
    if k == 0 {
      assert entries[..0] == [];
      return;
    }
    places := WithoutKeepsOrder(entries, plan, k - 1);
    OneMoreKept(entries, plan, k - 1, Without(entries[..k - 1], plan), places);
    WithoutLast(entries[..k - 1], entries[k - 1], plan);
    assert entries[..k] == entries[..k - 1] + [entries[k - 1]];
    if entries[k - 1].plan != plan {
      places := places + [k - 1];
    }
  }

  lemma WithoutNone(plan: ID)
    ensures Without([], plan) == []
  {
  }

  /** Every Queue that held the Plan is among the changes, dequeued. */
  lemma {:induction false} HoldingQueueIsChanged(queues: seq<Document<Queue>>, plan: ID, now: nat, changes: seq<Change>, k: nat)
    requires QueueChanges(queues, plan, now, changes) && k < |queues| && Holds(queues[k].record, plan)
    ensures exists c :: c in changes && c.ReplaceQueue? && c.expected == queues[k].documentRevision
                        && Dequeued(queues[k].record, c.queue, plan, now)
    decreases |queues|
  {
    hide Holds;
    hide Dequeued;
    var n := |queues| - 1;
    var earlier := if Holds(queues[n].record, plan) then changes[..|changes| - 1] else changes;
    if k < n {
      HoldingQueueIsChanged(queues[..n], plan, now, earlier, k);
    } else {
      assert changes[|changes| - 1] in changes;
    }
  }

  /** There are no other changes: each replaces a Queue that held the Plan, by the
      same Queue dequeued. */
  lemma {:induction false} ChangedQueueHeld(queues: seq<Document<Queue>>, plan: ID, now: nat, changes: seq<Change>, c: Change) returns (k: nat)
    requires QueueChanges(queues, plan, now, changes) && c in changes
    ensures k < |queues| && Holds(queues[k].record, plan)
    ensures c.ReplaceQueue? && c.expected == queues[k].documentRevision && Dequeued(queues[k].record, c.queue, plan, now)
    decreases |queues|
  {
    hide Holds;
    hide Dequeued;
    var n := |queues| - 1;
    if Holds(queues[n].record, plan) {
      if c == changes[|changes| - 1] {
        return n;
      }
      k := ChangedQueueHeld(queues[..n], plan, now, changes[..|changes| - 1], c);
    } else {
      k := ChangedQueueHeld(queues[..n], plan, now, changes, c);
    }
  }
}
