/** The bridge's queue of agent actions: what one critical section does to it. */
module BridgeQueue {
  import opened Wrappers
  import opened Text

  /** codexMonitorAction. review is what codexReviewActionGeneration says of the action: its
      generation when it is a review action, None otherwise; Read makes it so. */
  datatype Action = Action(
    line: string, eventName: string, goalID: string, deliveryKey: string,
    handoffID: string, review: Option<int>, controlOnly: bool)

  /** codexReviewActionGeneration; generation is the parsed RFC 3339 instant, None when it does not parse. */
  function ReviewGeneration(eventName: string, handoffID: string, generation: Option<int>): Option<int> {
    if Contains(eventName, ".handoff.review.") && !Blank(handoffID) then generation else None
  }

  /** The action with the generation a watch gave it, as the bridge reads it. */
  function Read(
    line: string, eventName: string, goalID: string, deliveryKey: string, handoffID: string,
    generation: Option<int>, controlOnly: bool): (a: Action)
    ensures IsReview(a) <==> Contains(eventName, ".handoff.review.") && !Blank(handoffID) && generation.Some?
    ensures IsReview(a) ==> a.review == generation
    ensures a.line == line && a.eventName == eventName && a.goalID == goalID && a.deliveryKey == deliveryKey
    ensures a.handoffID == handoffID && a.controlOnly == controlOnly
  {
    Action(line, eventName, goalID, deliveryKey, handoffID, ReviewGeneration(eventName, handoffID, generation), controlOnly)
  }

  /** A queued action. slot is its arrival order; no branch of the bridge reads it, and a
      review that replaces an older one takes over the older one's slot. */
  datatype Entry = Entry(slot: nat, action: Action)

  predicate IsReview(a: Action) {
    a.review.Some?
  }

  predicate ReviewOf(a: Action, handoffID: string) {
    a.handoffID == handoffID && IsReview(a)
  }

  /** newer and older review the same handoff, and newer's generation is strictly later. */
  predicate Supersedes(newer: Action, older: Action) {
    IsReview(newer) && ReviewOf(older, newer.handoffID) && older.review.value < newer.review.value
  }

  /** known already carries a generation of a's handoff that is not earlier than a's. */
  predicate Outranks(known: Action, a: Action) {
    IsReview(a) && ReviewOf(known, a.handoffID) && a.review.value <= known.review.value
  }

  datatype Pruning = ReviewsBefore(handoffID: string, generation: int) | ApprovalsOf(goalID: string)

  predicate Hits(p: Pruning, a: Action) {
    match p
    case ReviewsBefore(h, g) => ReviewOf(a, h) && a.review.value < g
    case ApprovalsOf(goal) => a.eventName == "decision.approved" && a.goalID == goal
  }

  /** The queue without the actions p hits. */
  function Pruned(q: seq<Entry>, p: Pruning): seq<Entry> {
    if q == [] then []
    else if Hits(p, q[0].action) then Pruned(q[1..], p)
    else [q[0]] + Pruned(q[1..], p)
  }

  /** One pass of the replacing loop; placed says whether a already took a slot. */
  function Coalesced(q: seq<Entry>, a: Action, next: nat, placed: bool): seq<Entry> {
    if q == [] then (if placed then [] else [Entry(next, a)])
    else if ReviewOf(q[0].action, a.handoffID) then
      (if placed then [] else [Entry(q[0].slot, a)]) + Coalesced(q[1..], a, next, true)
    else [q[0]] + Coalesced(q[1..], a, next, placed)
  }

  lemma CoalescedFrom(q: seq<Entry>, i: nat, a: Action, next: nat, placed: bool)
    requires i < |q|
    ensures Coalesced(q[i..], a, next, placed)
      == if ReviewOf(q[i].action, a.handoffID) then
           (if placed then [] else [Entry(q[i].slot, a)]) + Coalesced(q[i + 1..], a, next, true)
         else [q[i]] + Coalesced(q[i + 1..], a, next, placed)
  {
    assert q[i..][1..] == q[i + 1..];
  }

  /** The mutable state of codexMonitorBridge behind stateMu. */
  datatype Core = Core(
    threadID: string, active: bool, queue: seq<Entry>, activeAction: Option<Action>,
    controls: map<string, int>, disabled: bool, nextSlot: nat)

  function Remembered(controls: map<string, int>, handoffID: string, generation: int): map<string, int> {
    if handoffID in controls && generation <= controls[handoffID] then controls
    else controls[handoffID := generation]
  }

  predicate HasDeliveryKey(c: Core, key: string) {
    key != "" &&
    ((c.activeAction.Some? && c.activeAction.value.deliveryKey == key) ||
     exists i :: 0 <= i < |c.queue| && c.queue[i].action.deliveryKey == key)
  }

  /** The review is not newer than a control, the active action, or a queued action of its handoff. */
  predicate IsStale(c: Core, a: Action)
    requires IsReview(a)
  {
    (a.handoffID in c.controls && a.review.value <= c.controls[a.handoffID]) ||
    (c.activeAction.Some? && Outranks(c.activeAction.value, a)) ||
    exists i :: 0 <= i < |c.queue| && Outranks(c.queue[i].action, a)
  }

  function WithReview(c: Core, a: Action): Core
    requires IsReview(a)
  {
    if IsStale(c, a) then c
    else c.(queue := Coalesced(c.queue, a, c.nextSlot, false), nextSlot := c.nextSlot + 1)
  }

  function WithControl(c: Core, a: Action): Core {
    if IsReview(a) then
      c.(queue := Pruned(c.queue, ReviewsBefore(a.handoffID, a.review.value)),
         controls := Remembered(c.controls, a.handoffID, a.review.value))
    else c
  }

  /** a tells the agent that a goal was received, so approvals queued for that goal are moot. */
  predicate IsGoalReceipt(a: Action) {
    a.eventName == "goal.handoff.receive" && !Blank(a.goalID)
  }

  function WithPlain(c: Core, a: Action): Core {
    var q := if IsGoalReceipt(a) then Pruned(c.queue, ApprovalsOf(a.goalID)) else c.queue;
    c.(queue := q + [Entry(c.nextSlot, a)], nextSlot := c.nextSlot + 1)
  }

  /** How enqueueAction ends its critical section: only Taken goes on to pump. */
  datatype Verdict = BlankLine | Closed | Duplicate | Taken

  function Judged(c: Core, a: Action): Verdict {
    if Blank(a.line) then BlankLine
    else if c.disabled then Closed
    else if !a.controlOnly && !IsReview(a) && HasDeliveryKey(c, a.deliveryKey) then Duplicate
    else Taken
  }

  function Enqueued(c: Core, a: Action): Core {
    if !Judged(c, a).Taken? then c
    else if a.controlOnly then WithControl(c, a)
    else if IsReview(a) then WithReview(c, a)
    else WithPlain(c, a)
  }

  // ---------------------------------------------------------------- invariant

  predicate Sorted(q: seq<Entry>) {
    forall i, j | 0 <= i < j < |q| :: q[i].slot < q[j].slot
  }

  /** At most one queued review for each handoff. */
  predicate OneReviewEach(q: seq<Entry>) {
    forall x, y | x in q && y in q && IsReview(x.action) && ReviewOf(y.action, x.action.handoffID) :: x == y
  }

  /** No queued review is older than the newest control seen for its handoff. */
  predicate NoneOlderThanControls(q: seq<Entry>, controls: map<string, int>) {
    forall x | x in q && IsReview(x.action) && x.action.handoffID in controls ::
      controls[x.action.handoffID] <= x.action.review.value
  }

  /** Queued actions that are no reviews carry pairwise distinct delivery keys, empty keys aside. */
  predicate DistinctKeys(q: seq<Entry>) {
    forall x, y | x in q && y in q && !IsReview(x.action) && !IsReview(y.action)
      && x.action.deliveryKey == y.action.deliveryKey != "" :: x == y
  }

  predicate Deliverable(q: seq<Entry>) {
    forall x | x in q :: !x.action.controlOnly && !Blank(x.action.line)
  }

  /** No queued review is older than the active action of its handoff. */
  predicate NoneOlderThanActive(q: seq<Entry>, active: Option<Action>) {
    active.Some? ==> forall x | x in q :: !Supersedes(active.value, x.action)
  }

  predicate QueueInv(c: Core) {
    && Sorted(c.queue) && (forall x | x in c.queue :: x.slot < c.nextSlot)
    && OneReviewEach(c.queue)
    && NoneOlderThanControls(c.queue, c.controls)
    && DistinctKeys(c.queue)
    && Deliverable(c.queue)
    && NoneOlderThanActive(c.queue, c.activeAction)
  }

  lemma {:induction false} PrunedKeeps(q: seq<Entry>, p: Pruning)
    ensures forall x :: x in Pruned(q, p) <==> x in q && !Hits(p, x.action)
    ensures Sorted(q) ==> Sorted(Pruned(q, p))
  {
    PrunedMembers(q, p);
    if Sorted(q) {
      PrunedInOrder(q, p);
    }
  }

  lemma {:induction false} PrunedInOrder(q: seq<Entry>, p: Pruning)
    requires Sorted(q)
    ensures Sorted(Pruned(q, p))
  {
    if q != [] {
      PrunedInOrder(q[1..], p);
      PrunedMembers(q[1..], p);
      assert forall x | x in q[1..] :: q[0].slot < x.slot;
    }
  }

  lemma {:induction false} PrunedMembers(q: seq<Entry>, p: Pruning)
    ensures forall x :: x in Pruned(q, p) <==> x in q && !Hits(p, x.action)
  {
    if q != [] {
      PrunedMembers(q[1..], p);
      assert q == [q[0]] + q[1..];
      assert forall x :: x in q <==> x == q[0] || x in q[1..];
    }
  }

  /** The index of the first queued review of the handoff, or the length when there is none. */
  function Place(q: seq<Entry>, handoffID: string): (k: nat)
    ensures k <= |q|
    ensures k < |q| ==> ReviewOf(q[k].action, handoffID)
    ensures forall i | 0 <= i < k :: !ReviewOf(q[i].action, handoffID)
  {
    if q == [] || ReviewOf(q[0].action, handoffID) then 0 else 1 + Place(q[1..], handoffID)
  }

  lemma {:induction false} CoalescedLeavesOthers(q: seq<Entry>, a: Action, next: nat)
    requires forall i | 0 <= i < |q| :: !ReviewOf(q[i].action, a.handoffID)
    ensures Coalesced(q, a, next, true) == q
  {
    if q != [] {
      assert q == [q[0]] + q[1..];
      CoalescedLeavesOthers(q[1..], a, next);
    }
  }

  /** A newer review takes the slot of the one it replaces, or else the end of the queue. */
  lemma {:induction false} CoalescedReplacesInPlace(q: seq<Entry>, a: Action, next: nat)
    requires forall i, j | 0 <= i < j < |q| :: !ReviewOf(q[i].action, a.handoffID) || !ReviewOf(q[j].action, a.handoffID)
    ensures var k := Place(q, a.handoffID);
      Coalesced(q, a, next, false) == if k < |q| then q[k := Entry(q[k].slot, a)] else q + [Entry(next, a)]
  {
    if q != [] {
      assert q == [q[0]] + q[1..];
      if ReviewOf(q[0].action, a.handoffID) {
        assert forall i | 0 <= i < |q[1..]| :: q[1..][i] == q[i + 1];
        CoalescedLeavesOthers(q[1..], a, next);
      } else {
        assert forall i | 0 <= i < |q[1..]| :: q[1..][i] == q[i + 1];
        CoalescedReplacesInPlace(q[1..], a, next);
        UpdatedRest(q, Place(q[1..], a.handoffID), Entry(next, a));
        var k := Place(q[1..], a.handoffID);
        if k < |q[1..]| {
          UpdatedRest(q, k, Entry(q[1..][k].slot, a));
        }
      }
    }
  }

  lemma UpdatedRest(q: seq<Entry>, k: nat, e: Entry)
    requires q != []
    ensures [q[0]] + (q[1..] + [e]) == q + [e]
    ensures k < |q| - 1 ==> [q[0]] + q[1..][k := e] == q[k + 1 := e]
  {
  }

  /** The entries after a fresh review is coalesced: the review alone, where its handoff is concerned. */
  lemma CoalescedMembers(q: seq<Entry>, a: Action, next: nat)
    requires OneReviewEach(q) && Sorted(q) && IsReview(a)
    requires forall x | x in q :: x.slot < next
    ensures var k, r := Place(q, a.handoffID), Coalesced(q, a, next, false);
      var e := Entry(if k < |q| then q[k].slot else next, a);
      && Sorted(r) && (forall x | x in r :: x.slot < next + 1)
      && (forall x :: x in r <==> x == e || (x in q && !ReviewOf(x.action, a.handoffID)))
      && (k < |q| ==> q[k] in q)
  {
    forall i, j | 0 <= i < j < |q| ensures !ReviewOf(q[i].action, a.handoffID) || !ReviewOf(q[j].action, a.handoffID) {
      assert q[i] in q && q[j] in q && q[i] != q[j];
    }
    CoalescedReplacesInPlace(q, a, next);
    var k, r := Place(q, a.handoffID), Coalesced(q, a, next, false);
    if k < |q| {
      forall x ensures x in r <==> x == r[k] || (x in q && !ReviewOf(x.action, a.handoffID)) {
        ReplacedMembers(q, k, r[k], x);
      }
    }
  }

  lemma ReplacedMembers(q: seq<Entry>, k: nat, e: Entry, x: Entry)
    requires Sorted(q) && k < |q|
    ensures x in q[k := e] <==> x == e || (x in q && x != q[k])
  {
    if x in q && x != q[k] {
      var i :| 0 <= i < |q| && q[i] == x;
      assert q[k := e][i] == x;
    }
    assert q[k := e][k] == e;
  }

  lemma ReviewKeepsInv(c: Core, a: Action)
    requires QueueInv(c) && IsReview(a) && !a.controlOnly && !Blank(a.line)
    ensures QueueInv(WithReview(c, a))
  {
    if !IsStale(c, a) {
      CoalescedMembers(c.queue, a, c.nextSlot);
    }
  }

  lemma ControlKeepsInv(c: Core, a: Action)
    requires QueueInv(c)
    ensures QueueInv(WithControl(c, a))
  {
    if IsReview(a) {
      PrunedKeeps(c.queue, ReviewsBefore(a.handoffID, a.review.value));
    }
  }

  lemma PlainKeepsInv(c: Core, a: Action)
    requires QueueInv(c) && !IsReview(a) && !a.controlOnly && !Blank(a.line) && !HasDeliveryKey(c, a.deliveryKey)
    ensures QueueInv(WithPlain(c, a))
  {
    PrunedKeeps(c.queue, ApprovalsOf(a.goalID));
    var kept := if IsGoalReceipt(a) then Pruned(c.queue, ApprovalsOf(a.goalID)) else c.queue;
    assert forall x | x in kept :: x in c.queue;
    AppendedKeepsInv(c, kept, a);
  }

  lemma AppendedKeepsInv(c: Core, kept: seq<Entry>, a: Action)
    requires QueueInv(c) && !IsReview(a) && !a.controlOnly && !Blank(a.line) && !HasDeliveryKey(c, a.deliveryKey)
    requires Sorted(kept) && forall x | x in kept :: x in c.queue
    ensures QueueInv(c.(queue := kept + [Entry(c.nextSlot, a)], nextSlot := c.nextSlot + 1))
  {
    var e := Entry(c.nextSlot, a);
    var q := kept + [e];
    assert forall x :: x in q <==> x in kept || x == e;
    assert DistinctKeys(q) by {
      assert forall x | x in c.queue && a.deliveryKey != "" :: x.action.deliveryKey != a.deliveryKey;
    }
    assert Sorted(q) by {
      assert forall i | 0 <= i < |kept| :: kept[i] in kept;
    }
  }

  /** Every enqueue keeps the queue invariant. */
  lemma EnqueuedKeepsInv(c: Core, a: Action)
    requires QueueInv(c)
    ensures QueueInv(Enqueued(c, a))
  {
    if Judged(c, a).Taken? {
      if a.controlOnly {
        ControlKeepsInv(c, a);
      } else if IsReview(a) {
        ReviewKeepsInv(c, a);
      } else {
        PlainKeepsInv(c, a);
      }
    }
  }

  // ---------------------------------------------------------------- what an enqueue does to one entry

  /** x is in the way of a: enqueueing a takes x out of the queue. */
  predicate Displaces(c: Core, a: Action, x: Action) {
    Judged(c, a).Taken? &&
    if a.controlOnly then Supersedes(a, x)
    else if IsReview(a) then Supersedes(a, x) && !IsStale(c, a)
    else IsGoalReceipt(a) && Hits(ApprovalsOf(a.goalID), x)
  }

  /** a is one that the queue must hold: taken, no control, and no review that is outranked. */
  predicate Admits(c: Core, a: Action) {
    Judged(c, a).Taken? && !a.controlOnly && (IsReview(a) ==> !IsStale(c, a))
  }

  /** An enqueue removes exactly the entries it displaces, adds exactly the action it admits, if
      any, and that entry stands at the end or in the slot of the review it supersedes. */
  lemma EnqueuedEntries(c: Core, a: Action)
    requires QueueInv(c)
    ensures forall x | x in c.queue :: x in Enqueued(c, a).queue <==> !Displaces(c, a, x.action)
    ensures forall y | y in Enqueued(c, a).queue && y !in c.queue ::
      y.action == a && !a.controlOnly &&
      (y.slot == c.nextSlot ||
       exists x :: x in c.queue && x.slot == y.slot && Supersedes(a, x.action))
    ensures forall x | x in c.queue && Displaces(c, a, x.action) && IsReview(a) && !a.controlOnly ::
      Entry(x.slot, a) in Enqueued(c, a).queue
    ensures Admits(c, a) ==> exists x :: x in Enqueued(c, a).queue && x !in c.queue && x.action == a
    ensures !Admits(c, a) ==> forall x | x in Enqueued(c, a).queue :: x in c.queue
  {
    if Judged(c, a).Taken? {
      if a.controlOnly {
        if IsReview(a) {
          PrunedKeeps(c.queue, ReviewsBefore(a.handoffID, a.review.value));
        }
      } else if IsReview(a) {
        if !IsStale(c, a) {
          ReviewEntries(c, a);
        }
      } else {
        PrunedKeeps(c.queue, ApprovalsOf(a.goalID));
        assert Entry(c.nextSlot, a) in Enqueued(c, a).queue;
      }
    }
  }

  lemma ReviewEntries(c: Core, a: Action)
    requires QueueInv(c) && IsReview(a) && !IsStale(c, a)
    ensures forall x | x in c.queue :: x in WithReview(c, a).queue <==> !Supersedes(a, x.action)
    ensures forall y | y in WithReview(c, a).queue && y !in c.queue ::
      y.action == a &&
      (y.slot == c.nextSlot ||
       exists x :: x in c.queue && x.slot == y.slot && Supersedes(a, x.action))
    ensures forall x | x in c.queue && Supersedes(a, x.action) :: Entry(x.slot, a) in WithReview(c, a).queue
    ensures exists x :: x in WithReview(c, a).queue && x !in c.queue && x.action == a
  {
    CoalescedMembers(c.queue, a, c.nextSlot);
    var k := Place(c.queue, a.handoffID);
    var placed := Entry(if k < |c.queue| then c.queue[k].slot else c.nextSlot, a);
    assert placed in WithReview(c, a).queue;
    assert forall j | 0 <= j < |c.queue| :: !Outranks(c.queue[j].action, a);
    assert Outranks(a, a);
    forall x | x in c.queue && ReviewOf(x.action, a.handoffID) ensures Supersedes(a, x.action) {
      var i :| 0 <= i < |c.queue| && c.queue[i] == x;
      assert !Outranks(c.queue[i].action, a);
    }
  }

  /** The head stays the head through an enqueue exactly when the enqueue does not displace it. */
  lemma HeadStaysIff(c: Core, a: Action)
    requires QueueInv(c) && c.queue != []
    ensures var q := Enqueued(c, a).queue;
      (q != [] && q[0] == c.queue[0]) <==> !Displaces(c, a, c.queue[0].action)
  {
    EnqueuedEntries(c, a);
    EnqueuedKeepsInv(c, a);
    var x, q := c.queue[0], Enqueued(c, a).queue;
    assert x in c.queue;
    assert forall y | y in c.queue :: x.slot <= y.slot;
    assert forall y | y in q :: x.slot <= y.slot;
    if x in q {
      var i :| 0 <= i < |q| && q[i] == x;
      assert q[0] in q;
    }
  }

  /** A plain action that is taken stands at the end of the queue. The receipt of a goal takes the
      approvals queued for that goal out, and nothing else leaves. */
  lemma PlainQueued(c: Core, a: Action)
    requires Judged(c, a).Taken? && !a.controlOnly && !IsReview(a)
    ensures var q := Enqueued(c, a).queue;
      && q != [] && q[|q| - 1] == Entry(c.nextSlot, a)
      && forall x | x in c.queue ::
        x in q[..|q| - 1] <==> !(a.eventName == "goal.handoff.receive" && !Blank(a.goalID)
                                 && x.action.eventName == "decision.approved" && x.action.goalID == a.goalID)
  {
    PrunedKeeps(c.queue, ApprovalsOf(a.goalID));
    var q := Enqueued(c, a).queue;
    assert q[..|q| - 1] == if IsGoalReceipt(a) then Pruned(c.queue, ApprovalsOf(a.goalID)) else c.queue;
  }
}
