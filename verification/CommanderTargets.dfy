/** The list of goals and answers a commander is to act on, built from a snapshot. */
module CommanderTargets {
  import opened Wrappers
  import opened Durations
  import opened Text
  import opened Numbers
  import opened GoalReview

  /** store.AnsweredUnappliedAfter. */
  const UNAPPLIED_AFTER: int := 10 * MINUTE

  // ---------------------------------------------------------------- sorting by number

  datatype Keyed<+T> = Keyed(id: int, value: T)

  function Inserted<T>(x: Keyed<T>, xs: seq<Keyed<T>>): seq<Keyed<T>> {
    if xs == [] || x.id < xs[0].id then [x] + xs else [xs[0]] + Inserted(x, xs[1..])
  }

  /** slices.SortFunc by id. */
  function SortedByID<T>(xs: seq<Keyed<T>>): seq<Keyed<T>> {
    if xs == [] then [] else Inserted(xs[|xs| - 1], SortedByID(xs[..|xs| - 1]))
  }

  predicate Ascending<T>(xs: seq<Keyed<T>>) { forall i, j | 0 <= i < j < |xs| :: xs[i].id <= xs[j].id }

  lemma {:induction false} InsertedKeeps<T>(x: Keyed<T>, xs: seq<Keyed<T>>)
    ensures multiset(Inserted(x, xs)) == multiset(xs) + multiset{x}
  {
    if xs != [] && x.id >= xs[0].id {
      InsertedKeeps(x, xs[1..]);
      assert xs == [xs[0]] + xs[1..];
    }
  }

  lemma {:induction false} InsertedSorts<T>(x: Keyed<T>, xs: seq<Keyed<T>>)
    requires Ascending(xs)
    ensures Ascending(Inserted(x, xs))
  {
    if xs != [] && x.id >= xs[0].id {
      InsertedSorts(x, xs[1..]);
      var rest := Inserted(x, xs[1..]);
      forall i | 0 <= i < |rest| ensures rest[i].id >= xs[0].id {
        InsertedKeeps(x, xs[1..]);
        assert rest[i] in multiset(xs[1..]) + multiset{x};
        assert rest[i] in xs[1..] || rest[i] == x;
      }
    }
  }

  /** Sorting gives the same elements, in ascending order. */
  lemma {:induction false} SortedIsSorted<T>(xs: seq<Keyed<T>>)
    ensures Ascending(SortedByID(xs)) && multiset(SortedByID(xs)) == multiset(xs)
  {
    if xs != [] {
      var last, before := xs[|xs| - 1], xs[..|xs| - 1];
      SortedIsSorted(before);
      InsertedSorts(last, SortedByID(before));
      InsertedKeeps(last, SortedByID(before));
      assert xs == before + [last];
    }
  }

  function Values<T>(xs: seq<Keyed<T>>): (vs: seq<T>)
    ensures |vs| == |xs| && forall i | 0 <= i < |xs| :: vs[i] == xs[i].value
  {
    seq(|xs|, i requires 0 <= i < |xs| => xs[i].value)
  }

  lemma ValuesInTurn<T>(a: seq<Keyed<T>>, b: seq<Keyed<T>>)
    ensures Values(a + b) == Values(a) + Values(b)
  {
  }

  lemma {:induction false} InsertedValues<T>(x: Keyed<T>, xs: seq<Keyed<T>>)
    ensures multiset(Values(Inserted(x, xs))) == multiset(Values(xs)) + multiset{x.value}
  {
    if xs == [] || x.id < xs[0].id {
      ValuesInTurn([x], xs);
      assert Values([x]) == [x.value];
    } else {
      InsertedValues(x, xs[1..]);
      ValuesInTurn([xs[0]], xs[1..]);
      ValuesInTurn([xs[0]], Inserted(x, xs[1..]));
      assert xs == [xs[0]] + xs[1..];
    }
  }

  lemma {:induction false} SortedValues<T>(xs: seq<Keyed<T>>)
    ensures multiset(Values(SortedByID(xs))) == multiset(Values(xs))
  {
    if xs != [] {
      var before, last := xs[..|xs| - 1], xs[|xs| - 1];
      SortedValues(before);
      InsertedValues(last, SortedByID(before));
      ValuesInTurn(before, [last]);
      assert xs == before + [last] && Values([last]) == [last.value];
    }
  }

  // ---------------------------------------------------------------- what counts

  predicate ReviewOpen(s: Snapshot, goalID: string) {
    exists d | d in s.decisions :: d.kind == GOAL_REVIEW && d.status == "open" && d.goalID == goalID
  }

  predicate IsApproval(d: WireDecision) { d.kind == GOAL_REVIEW && d.status == "applied" && d.answerLabel == "approve" }

  predicate ReviewApproved(s: Snapshot, goalID: string) {
    exists d | d in s.decisions :: IsApproval(d) && d.goalID == goalID
  }

  /** watchReconciliationGoalStopped: the first goal with the id decides. */
  predicate GoalStopped(goals: seq<WireGoal>, goalID: string) {
    goals != [] && if goals[0].id == goalID then goals[0].status != "active" else GoalStopped(goals[1..], goalID)
  }

  /** A handoff whose review was requested and not yet received. */
  predicate AwaitsReview(h: WireHandoff) {
    HandoffOpen(h) && !h.reviewRequestedAt.Missing? && h.reviewReceivedAt.Missing? && h.reviewRejectedAt.Missing?
  }

  /** A handoff whose review was received and not rejected. */
  predicate InReview(h: WireHandoff) {
    HandoffOpen(h) && !h.reviewRequestedAt.Missing? && !h.reviewReceivedAt.Missing? && h.reviewRejectedAt.Missing?
  }

  /** The open decisions of a goal, except those of some kinds. */
  predicate HoldsBack(d: WireDecision, goalID: string, except: set<string>) {
    d.goalID == goalID && d.status == "open" && d.kind !in except && ParseInt(d.id).Some?
  }

  function Blockers(ds: seq<WireDecision>, goalID: string, except: set<string>): seq<Keyed<string>> {
    if ds == [] then []
    else
      var d, before := ds[|ds| - 1], Blockers(ds[..|ds| - 1], goalID, except);
      if HoldsBack(d, goalID, except) then before + [Keyed(ParseInt(d.id).value, Decimal(ParseInt(d.id).value))] else before
  }

  /** watchOpenDecisionIDs. */
  function OpenDecisionIDs(s: Snapshot, goalID: string, except: set<string>): seq<string> {
    Values(SortedByID(Blockers(s.decisions, goalID, except)))
  }

  /** The numbers that hold a goal back are those of its open decisions of the other kinds. */
  lemma {:induction false} BlockersAreTheOpenOnes(ds: seq<WireDecision>, goalID: string, except: set<string>, n: int)
    ensures Keyed(n, Decimal(n)) in Blockers(ds, goalID, except)
      <==> exists d | d in ds ::
        d.goalID == goalID && d.status == "open" && d.kind !in except && ParseInt(d.id) == Some(n)
  {
    if ds != [] {
      var d, before := ds[|ds| - 1], ds[..|ds| - 1];
      BlockersAreTheOpenOnes(before, goalID, except, n);
      assert ds == before + [d];
    }
  }

  /** The ids listed are those numbers, each in its decimal form, in ascending order. */
  lemma OpenDecisionIDsAre(s: Snapshot, goalID: string, except: set<string>, x: string)
    ensures x in OpenDecisionIDs(s, goalID, except) <==> exists d | d in s.decisions ::
      d.goalID == goalID && d.status == "open" && d.kind !in except && ParseInt(d.id).Some?
      && x == Decimal(ParseInt(d.id).value)
  {
    var all := Blockers(s.decisions, goalID, except);
    var sorted := SortedByID(all);
    SortedIsSorted(all);
    if x in OpenDecisionIDs(s, goalID, except) {
      var i :| 0 <= i < |sorted| && sorted[i].value == x;
      assert sorted[i] in multiset(sorted);
      BlockersAreKeyed(s.decisions, goalID, except, sorted[i]);
      BlockersAreTheOpenOnes(s.decisions, goalID, except, sorted[i].id);
    }
    forall d | d in s.decisions && d.goalID == goalID && d.status == "open" && d.kind !in except && ParseInt(d.id).Some?
      ensures Decimal(ParseInt(d.id).value) in OpenDecisionIDs(s, goalID, except)
    {
      var n := ParseInt(d.id).value;
      BlockersAreTheOpenOnes(s.decisions, goalID, except, n);
      assert Keyed(n, Decimal(n)) in multiset(sorted);
      assert Keyed(n, Decimal(n)) in sorted;
    }
  }

  lemma {:induction false} BlockersAreKeyed(ds: seq<WireDecision>, goalID: string, except: set<string>, k: Keyed<string>)
    requires k in Blockers(ds, goalID, except)
    ensures k == Keyed(k.id, Decimal(k.id))
    ensures -MAX_INT64 - 1 <= k.id <= MAX_INT64
  {
    var before := ds[..|ds| - 1];
    if k in Blockers(before, goalID, except) {
      BlockersAreKeyed(before, goalID, except, k);
    }
  }

  lemma OpenDecisionIDsInOrder(s: Snapshot, goalID: string, except: set<string>, i: nat, j: nat)
    requires i < j < |OpenDecisionIDs(s, goalID, except)|
    ensures var ids := OpenDecisionIDs(s, goalID, except);
      && ParseInt(ids[i]).Some? && ParseInt(ids[j]).Some? && ParseInt(ids[i]).value <= ParseInt(ids[j]).value
  {
    var all := Blockers(s.decisions, goalID, except);
    var sorted := SortedByID(all);
    SortedIsSorted(all);
    assert sorted[i] in multiset(sorted) && sorted[j] in multiset(sorted);
    BlockersAreKeyed(s.decisions, goalID, except, sorted[i]);
    BlockersAreKeyed(s.decisions, goalID, except, sorted[j]);
    ParseDecimal(sorted[i].id);
    ParseDecimal(sorted[j].id);
  }

  // ---------------------------------------------------------------- the candidates, by category

  function AwaitingTarget(s: Snapshot, kind: string, h: WireHandoff): Option<Target> {
    if AwaitsReview(h) && !GoalStopped(s.goals, Decimal(h.goalID)) then
      Some(Target(kind, h.id, Decimal(h.goalID), [], ""))
    else None
  }

  function ReceivedTarget(s: Snapshot, h: WireHandoff): Option<Target> {
    var id := Decimal(h.goalID);
    if InReview(h) && !ReviewApproved(s, id) && HasActiveGoal(s, id) then
      Some(Target("goal_review_received", h.id, id, OpenDecisionIDs(s, id, {GOAL_REVIEW, "post_merge"}), ""))
    else None
  }

  function ApprovedTarget(s: Snapshot, d: WireDecision): Option<Target> {
    if IsApproval(d) && HasActiveGoal(s, d.goalID) then
      Some(Target("goal", "", d.goalID, OpenDecisionIDs(s, d.goalID, {GOAL_REVIEW}), ""))
    else None
  }

  function Awaiting(s: Snapshot, kind: string, hs: seq<WireHandoff>, n: nat): seq<Target>
    requires n <= |hs|
  {
    if n == 0 then [] else Awaiting(s, kind, hs, n - 1) + Listed(AwaitingTarget(s, kind, hs[n - 1]))
  }

  function Received(s: Snapshot, n: nat): seq<Target>
    requires n <= |s.goalHandoffs|
  {
    if n == 0 then [] else Received(s, n - 1) + Listed(ReceivedTarget(s, s.goalHandoffs[n - 1]))
  }

  function ApprovedOnes(s: Snapshot, n: nat): seq<Target>
    requires n <= |s.decisions|
  {
    if n == 0 then [] else ApprovedOnes(s, n - 1) + Listed(ApprovedTarget(s, s.decisions[n - 1]))
  }

  // ---------------------------------------------------------------- one target per goal

  /** The closure add. */
  function Added(s: Snapshot, ts: seq<Target>, t: Target): seq<Target> {
    if Lists(ts, t.goalID) || ReviewOpen(s, t.goalID) then ts else ts + [t]
  }

  function AddedAll(s: Snapshot, ts: seq<Target>, cs: seq<Target>): seq<Target>
    decreases |cs|
  {
    if cs == [] then ts else Added(s, AddedAll(s, ts, cs[..|cs| - 1]), cs[|cs| - 1])
  }

  /** The review targets of a snapshot. */
  function Reviews(s: Snapshot): seq<Target> {
    var rejected := AddedAll(s, [], RejectedTargets(s, |s.decisions|));
    var goals := AddedAll(s, rejected, Awaiting(s, "goal", s.goalHandoffs, |s.goalHandoffs|));
    var plans := AddedAll(s, goals, Awaiting(s, "plan", s.planHandoffs, |s.planHandoffs|));
    var received := AddedAll(s, plans, Received(s, |s.goalHandoffs|));
    AddedAll(s, received, ApprovedOnes(s, |s.decisions|))
  }

  predicate DistinctGoals(ts: seq<Target>) { forall i, j | 0 <= i < j < |ts| :: ts[i].goalID != ts[j].goalID }

  /** The first target for a goal. */
  function First(ts: seq<Target>, goalID: string): (t: Option<Target>)
    ensures t.Some? ==> t.value in ts && t.value.goalID == goalID
    ensures t.None? ==> !Lists(ts, goalID)
  {
    if ts == [] then None else if ts[0].goalID == goalID then Some(ts[0]) else First(ts[1..], goalID)
  }

  function Or(a: Option<Target>, b: Option<Target>): Option<Target> { if a.Some? then a else b }

  lemma {:induction false} FirstInTurn(a: seq<Target>, b: seq<Target>, goalID: string)
    ensures First(a + b, goalID) == Or(First(a, goalID), First(b, goalID))
  {
    if a == [] {
      assert a + b == b;
    } else {
      assert (a + b)[1..] == a[1..] + b;
      FirstInTurn(a[1..], b, goalID);
    }
  }

  lemma FirstOfOne(t: Target, goalID: string)
    ensures First([t], goalID) == if t.goalID == goalID then Some(t) else None
  {
    assert [t][1..] == [];
  }

  /** What adding candidates does to the target of one goal, and that no goal gets two. */
  lemma {:induction false} AddedGoal(s: Snapshot, ts: seq<Target>, cs: seq<Target>, goalID: string)
    requires DistinctGoals(ts)
    ensures DistinctGoals(AddedAll(s, ts, cs))
    ensures First(AddedAll(s, ts, cs), goalID)
      == Or(First(ts, goalID), if ReviewOpen(s, goalID) then None else First(cs, goalID))
    decreases |cs|
  {
    if cs != [] {
      var before, last := cs[..|cs| - 1], cs[|cs| - 1];
      AddedGoal(s, ts, before, goalID);
      FirstInTurn(before, [last], goalID);
      assert cs == before + [last];
      var added := AddedAll(s, ts, before);
      FirstInTurn(added, [last], goalID);
      FirstOfOne(last, goalID);
    }
  }

  /** The candidates for a goal in their order of priority: a rejected review that is still owed; a
      goal handoff, then a plan handoff, waiting for its review; a review received but not yet
      requested from the human; an approved review waiting for its completion. */
  function ByPriority(s: Snapshot, goalID: string): Option<Target> {
    Or(First(RejectedTargets(s, |s.decisions|), goalID),
       Or(First(Awaiting(s, "goal", s.goalHandoffs, |s.goalHandoffs|), goalID),
          Or(First(Awaiting(s, "plan", s.planHandoffs, |s.planHandoffs|), goalID),
             Or(First(Received(s, |s.goalHandoffs|), goalID), First(ApprovedOnes(s, |s.decisions|), goalID)))))
  }

  /** The list has at most one review target for each goal, none for a goal with an open review, and
      for every other goal that is in some category the first target of its highest category. */
  lemma OneTargetPerGoal(s: Snapshot, goalID: string)
    ensures DistinctGoals(Reviews(s))
    ensures First(Reviews(s), goalID) == if ReviewOpen(s, goalID) then None else ByPriority(s, goalID)
  {
    var rejected := AddedAll(s, [], RejectedTargets(s, |s.decisions|));
    var goals := AddedAll(s, rejected, Awaiting(s, "goal", s.goalHandoffs, |s.goalHandoffs|));
    var plans := AddedAll(s, goals, Awaiting(s, "plan", s.planHandoffs, |s.planHandoffs|));
    AddedGoal(s, [], RejectedTargets(s, |s.decisions|), goalID);
    AddedGoal(s, rejected, Awaiting(s, "goal", s.goalHandoffs, |s.goalHandoffs|), goalID);
    AddedGoal(s, goals, Awaiting(s, "plan", s.planHandoffs, |s.planHandoffs|), goalID);
    AddedGoal(s, plans, Received(s, |s.goalHandoffs|), goalID);
    AddedGoal(s, AddedAll(s, plans, Received(s, |s.goalHandoffs|)), ApprovedOnes(s, |s.decisions|), goalID);
  }

  // ---------------------------------------------------------------- which goals are listed

  /** The first goal with the id is there and not active. */
  predicate StoppedFirst(s: Snapshot, goalID: string) {
    exists i | 0 <= i < |s.goals| ::
      s.goals[i].id == goalID && s.goals[i].status != "active" && forall j | 0 <= j < i :: s.goals[j].id != goalID
  }

  predicate IsActive(s: Snapshot, goalID: string) {
    exists i | 0 <= i < |s.goals| :: s.goals[i].id == goalID && s.goals[i].status == "active"
  }

  predicate HasReview(s: Snapshot, goalID: string, status: string, answer: string) {
    exists i | 0 <= i < |s.decisions| :: var d := s.decisions[i];
      d.goalID == goalID && d.kind == "goal_review" && d.status == status && (answer == "" || d.answerLabel == answer)
  }

  /** The handoff is not over, its review was requested and not rejected, and was received or not. */
  predicate UnderReview(h: WireHandoff, received: bool) {
    && h.completedReportAt.Missing? && h.recoveredAt.Missing? && h.reviewRejectedAt.Missing?
    && !h.reviewRequestedAt.Missing? && (h.reviewReceivedAt.Missing? <==> !received)
  }

  lemma {:induction false} StoppedIff(goals: seq<WireGoal>, goalID: string, n: nat)
    requires n <= |goals| && forall j | 0 <= j < n :: goals[j].id != goalID
    ensures GoalStopped(goals[n..], goalID) <==> exists i | n <= i < |goals| ::
      goals[i].id == goalID && goals[i].status != "active" && forall j | 0 <= j < i :: goals[j].id != goalID
    decreases |goals| - n
  {
    if n < |goals| && goals[n].id != goalID {
      assert goals[n..][1..] == goals[n + 1..];
      StoppedIff(goals, goalID, n + 1);
    }
  }

  lemma ActiveIff(s: Snapshot, goalID: string)
    ensures HasActiveGoal(s, goalID) <==> IsActive(s, goalID)
  {
    if g :| g in s.goals && g.id == goalID && g.status == "active" {
      var i :| 0 <= i < |s.goals| && s.goals[i] == g;
    }
  }

  lemma HasNext(ts: seq<Target>, last: Option<Target>, t: Target)
    ensures t in ts + Listed(last) <==> t in ts || last == Some(t)
  {
  }

  lemma NextAwaiting(s: Snapshot, kind: string, hs: seq<WireHandoff>, n: nat)
    requires n < |hs|
    ensures Awaiting(s, kind, hs, n + 1) == Awaiting(s, kind, hs, n) + Listed(AwaitingTarget(s, kind, hs[n]))
  {
  }

  lemma AwaitingNext(s: Snapshot, kind: string, hs: seq<WireHandoff>, n: nat, t: Target)
    requires n < |hs|
    ensures t in Awaiting(s, kind, hs, n + 1) <==> t in Awaiting(s, kind, hs, n) || AwaitingTarget(s, kind, hs[n]) == Some(t)
  {
    NextAwaiting(s, kind, hs, n);
    HasNext(Awaiting(s, kind, hs, n), AwaitingTarget(s, kind, hs[n]), t);
  }

  lemma {:induction false} AwaitingFrom(s: Snapshot, kind: string, hs: seq<WireHandoff>, n: nat, t: Target) returns (i: nat)
    requires n <= |hs| && t in Awaiting(s, kind, hs, n)
    ensures i < n && AwaitingTarget(s, kind, hs[i]) == Some(t)
  {
    AwaitingNext(s, kind, hs, n - 1, t);
    if t in Awaiting(s, kind, hs, n - 1) {
      i := AwaitingFrom(s, kind, hs, n - 1, t);
    } else {
      i := n - 1;
    }
  }

  lemma {:induction false} AwaitingGrow(s: Snapshot, kind: string, hs: seq<WireHandoff>, m: nat, n: nat, t: Target)
    requires m <= n <= |hs| && t in Awaiting(s, kind, hs, m)
    ensures t in Awaiting(s, kind, hs, n)
  {
    if m < n {
      AwaitingGrow(s, kind, hs, m, n - 1, t);
      AwaitingNext(s, kind, hs, n - 1, t);
    }
  }

  lemma AwaitingHas(s: Snapshot, kind: string, hs: seq<WireHandoff>, n: nat, i: nat, t: Target)
    requires i < n <= |hs| && AwaitingTarget(s, kind, hs[i]) == Some(t)
    ensures t in Awaiting(s, kind, hs, n)
  {
    AwaitingNext(s, kind, hs, i, t);
    AwaitingGrow(s, kind, hs, i + 1, n, t);
  }

  lemma NextReceived(s: Snapshot, n: nat)
    requires n < |s.goalHandoffs|
    ensures Received(s, n + 1) == Received(s, n) + Listed(ReceivedTarget(s, s.goalHandoffs[n]))
  {
  }

  lemma ReceivedNext(s: Snapshot, n: nat, t: Target)
    requires n < |s.goalHandoffs|
    ensures t in Received(s, n + 1) <==> t in Received(s, n) || ReceivedTarget(s, s.goalHandoffs[n]) == Some(t)
  {
    NextReceived(s, n);
    HasNext(Received(s, n), ReceivedTarget(s, s.goalHandoffs[n]), t);
  }

  lemma {:induction false} ReceivedFrom(s: Snapshot, n: nat, t: Target) returns (i: nat)
    requires n <= |s.goalHandoffs| && t in Received(s, n)
    ensures i < n && ReceivedTarget(s, s.goalHandoffs[i]) == Some(t)
  {
    ReceivedNext(s, n - 1, t);
    if t in Received(s, n - 1) {
      i := ReceivedFrom(s, n - 1, t);
    } else {
      i := n - 1;
    }
  }

  lemma {:induction false} ReceivedGrow(s: Snapshot, m: nat, n: nat, t: Target)
    requires m <= n <= |s.goalHandoffs| && t in Received(s, m)
    ensures t in Received(s, n)
  {
    if m < n {
      ReceivedGrow(s, m, n - 1, t);
      ReceivedNext(s, n - 1, t);
    }
  }

  lemma ReceivedHas(s: Snapshot, n: nat, i: nat, t: Target)
    requires i < n <= |s.goalHandoffs| && ReceivedTarget(s, s.goalHandoffs[i]) == Some(t)
    ensures t in Received(s, n)
  {
    ReceivedNext(s, i, t);
    ReceivedGrow(s, i + 1, n, t);
  }

  lemma NextApproved(s: Snapshot, n: nat)
    requires n < |s.decisions|
    ensures ApprovedOnes(s, n + 1) == ApprovedOnes(s, n) + Listed(ApprovedTarget(s, s.decisions[n]))
  {
  }

  lemma ApprovedNext(s: Snapshot, n: nat, t: Target)
    requires n < |s.decisions|
    ensures t in ApprovedOnes(s, n + 1) <==> t in ApprovedOnes(s, n) || ApprovedTarget(s, s.decisions[n]) == Some(t)
  {
    NextApproved(s, n);
    HasNext(ApprovedOnes(s, n), ApprovedTarget(s, s.decisions[n]), t);
  }

  lemma {:induction false} ApprovedFrom(s: Snapshot, n: nat, t: Target) returns (i: nat)
    requires n <= |s.decisions| && t in ApprovedOnes(s, n)
    ensures i < n && ApprovedTarget(s, s.decisions[i]) == Some(t)
  {
    ApprovedNext(s, n - 1, t);
    if t in ApprovedOnes(s, n - 1) {
      i := ApprovedFrom(s, n - 1, t);
    } else {
      i := n - 1;
    }
  }

  lemma {:induction false} ApprovedGrow(s: Snapshot, m: nat, n: nat, t: Target)
    requires m <= n <= |s.decisions| && t in ApprovedOnes(s, m)
    ensures t in ApprovedOnes(s, n)
  {
    if m < n {
      ApprovedGrow(s, m, n - 1, t);
      ApprovedNext(s, n - 1, t);
    }
  }

  lemma ApprovedHas(s: Snapshot, n: nat, i: nat, t: Target)
    requires i < n <= |s.decisions| && ApprovedTarget(s, s.decisions[i]) == Some(t)
    ensures t in ApprovedOnes(s, n)
  {
    ApprovedNext(s, i, t);
    ApprovedGrow(s, i + 1, n, t);
  }

  /** The candidates that wait for a review: one for each handoff whose review was requested and not
      yet received, unless its goal is not active any more. */
  lemma AwaitingIff(s: Snapshot, kind: string, hs: seq<WireHandoff>, t: Target)
    ensures t in Awaiting(s, kind, hs, |hs|) <==> exists i | 0 <= i < |hs| ::
      UnderReview(hs[i], false) && !StoppedFirst(s, Decimal(hs[i].goalID))
      && t == Target(kind, hs[i].id, Decimal(hs[i].goalID), [], "")
  {
    if t in Awaiting(s, kind, hs, |hs|) {
      var i := AwaitingFrom(s, kind, hs, |hs|, t);
    }
    forall i: nat | i < |hs| && AwaitingTarget(s, kind, hs[i]) == Some(t) ensures t in Awaiting(s, kind, hs, |hs|) {
      AwaitingHas(s, kind, hs, |hs|, i, t);
    }
    forall i | 0 <= i < |hs|
      ensures GoalStopped(s.goals, Decimal(hs[i].goalID)) <==> StoppedFirst(s, Decimal(hs[i].goalID))
    {
      assert s.goals[0..] == s.goals;
      StoppedIff(s.goals, Decimal(hs[i].goalID), 0);
    }
  }

  /** Those whose review was received: the goal is active and no review of it was approved. What
      holds them back are its open decisions except reviews and those for after the merge. */
  lemma ReceivedIff(s: Snapshot, t: Target)
    ensures t in Received(s, |s.goalHandoffs|) <==> exists i | 0 <= i < |s.goalHandoffs| ::
      var h := s.goalHandoffs[i];
      var id := Decimal(h.goalID);
      UnderReview(h, true) && IsActive(s, id) && !HasReview(s, id, "applied", "approve")
      && t == Target("goal_review_received", h.id, id, OpenDecisionIDs(s, id, {"goal_review", "post_merge"}), "")
  {
    var hs := s.goalHandoffs;
    if t in Received(s, |hs|) {
      var i := ReceivedFrom(s, |hs|, t);
    }
    forall i: nat | i < |hs| && ReceivedTarget(s, hs[i]) == Some(t) ensures t in Received(s, |hs|) {
      ReceivedHas(s, |hs|, i, t);
    }
    forall i | 0 <= i < |s.goalHandoffs|
      ensures var id := Decimal(s.goalHandoffs[i].goalID);
        (HasActiveGoal(s, id) <==> IsActive(s, id)) && (ReviewApproved(s, id) <==> HasReview(s, id, "applied", "approve"))
    {
      ActiveIff(s, Decimal(s.goalHandoffs[i].goalID));
      HasReviewIff(s, Decimal(s.goalHandoffs[i].goalID));
    }
  }

  lemma HasReviewIff(s: Snapshot, goalID: string)
    ensures ReviewApproved(s, goalID) <==> HasReview(s, goalID, "applied", "approve")
    ensures ReviewOpen(s, goalID) <==> HasReview(s, goalID, "open", "")
  {
    forall d | d in s.decisions ensures exists i | 0 <= i < |s.decisions| :: s.decisions[i] == d {
    }
  }

  /** Those whose review was approved: the goal is active, and its open decisions except reviews hold
      them back. */
  lemma ApprovedIff(s: Snapshot, t: Target)
    ensures t in ApprovedOnes(s, |s.decisions|) <==>
      IsActive(s, t.goalID) && HasReview(s, t.goalID, "applied", "approve")
      && t == Target("goal", "", t.goalID, OpenDecisionIDs(s, t.goalID, {"goal_review"}), "")
  {
    var ds := s.decisions;
    if t in ApprovedOnes(s, |ds|) {
      var i := ApprovedFrom(s, |ds|, t);
    }
    forall i: nat | i < |ds| && ApprovedTarget(s, ds[i]) == Some(t) ensures t in ApprovedOnes(s, |ds|) {
      ApprovedHas(s, |ds|, i, t);
    }
    ActiveIff(s, t.goalID);
  }

  lemma ListedIffFirst(ts: seq<Target>, goalID: string)
    ensures Lists(ts, goalID) <==> First(ts, goalID).Some?
  {
  }

  /** A goal has a review target if and only if none of its reviews is open, and it is owed work for
      a rejected review, or one of its handoffs waits for a review, or has had it and waits for the
      human's, or the human's approval waits for the completion. */
  lemma GoalListedIff(s: Snapshot, goalID: string)
    ensures Lists(Reviews(s), goalID) <==>
      !HasReview(s, goalID, "open", "")
      && (|| Lists(RejectedTargets(s, |s.decisions|), goalID)
          || (exists h | h in s.goalHandoffs + s.planHandoffs ::
                Decimal(h.goalID) == goalID && UnderReview(h, false) && !StoppedFirst(s, goalID))
          || (exists h | h in s.goalHandoffs :: Decimal(h.goalID) == goalID && UnderReview(h, true)
                && IsActive(s, goalID) && !HasReview(s, goalID, "applied", "approve"))
          || (IsActive(s, goalID) && HasReview(s, goalID, "applied", "approve")))
  {
    OneTargetPerGoal(s, goalID);
    HasReviewIff(s, goalID);
    ListedIffFirst(Reviews(s), goalID);
    ListedIffFirst(RejectedTargets(s, |s.decisions|), goalID);
    AwaitingGoalIff(s, "goal", s.goalHandoffs, goalID);
    AwaitingGoalIff(s, "plan", s.planHandoffs, goalID);
    ReceivedGoalIff(s, goalID);
    ApprovedGoalIff(s, goalID);
    assert forall h :: h in s.goalHandoffs + s.planHandoffs <==> h in s.goalHandoffs || h in s.planHandoffs;
  }

  lemma AwaitingGoalIff(s: Snapshot, kind: string, hs: seq<WireHandoff>, goalID: string)
    ensures First(Awaiting(s, kind, hs, |hs|), goalID).Some? <==>
      exists h | h in hs :: Decimal(h.goalID) == goalID && UnderReview(h, false) && !StoppedFirst(s, goalID)
  {
    var ts := Awaiting(s, kind, hs, |hs|);
    ListedIffFirst(ts, goalID);
    if t :| t in ts && t.goalID == goalID {
      AwaitingIff(s, kind, hs, t);
    }
    if h :| h in hs && Decimal(h.goalID) == goalID && UnderReview(h, false) && !StoppedFirst(s, goalID) {
      var i :| 0 <= i < |hs| && hs[i] == h;
      var t := Target(kind, h.id, goalID, [], "");
      AwaitingIff(s, kind, hs, t);
      assert t in ts;
    }
  }

  lemma ReceivedGoalIff(s: Snapshot, goalID: string)
    ensures First(Received(s, |s.goalHandoffs|), goalID).Some? <==>
      exists h | h in s.goalHandoffs :: Decimal(h.goalID) == goalID && UnderReview(h, true)
        && IsActive(s, goalID) && !HasReview(s, goalID, "applied", "approve")
  {
    var ts := Received(s, |s.goalHandoffs|);
    ListedIffFirst(ts, goalID);
    if t :| t in ts && t.goalID == goalID {
      ReceivedIff(s, t);
    }
    var held := IsActive(s, goalID) && !HasReview(s, goalID, "applied", "approve");
    if h :| h in s.goalHandoffs && Decimal(h.goalID) == goalID && UnderReview(h, true) && held {
      var i :| 0 <= i < |s.goalHandoffs| && s.goalHandoffs[i] == h;
      var t := Target("goal_review_received", h.id, goalID, OpenDecisionIDs(s, goalID, {"goal_review", "post_merge"}), "");
      ReceivedIff(s, t);
      assert t in ts;
    }
  }

  lemma ApprovedGoalIff(s: Snapshot, goalID: string)
    ensures First(ApprovedOnes(s, |s.decisions|), goalID).Some? <==>
      IsActive(s, goalID) && HasReview(s, goalID, "applied", "approve")
  {
    var ts := ApprovedOnes(s, |s.decisions|);
    ListedIffFirst(ts, goalID);
    if t :| t in ts && t.goalID == goalID {
      ApprovedIff(s, t);
    }
    var t := Target("goal", "", goalID, OpenDecisionIDs(s, goalID, {"goal_review"}), "");
    ApprovedIff(s, t);
  }

  /** For every active goal the client has a target for its approved review exactly when the store's
      state of the goal is approved_pending_complete. */
  lemma ApprovalAgreesWithStore(s: Snapshot, goal: int, ds: seq<Row>, hs: seq<HandoffRow>)
    requires Shows(s, goal, ds, hs) && HasActiveGoal(s, Decimal(goal))
    ensures Lists(ApprovedOnes(s, |s.decisions|), Decimal(goal))
      <==> PendingState(ds, Some(hs)) == ApprovedPendingComplete
  {
    var g := Decimal(goal);
    ListedIffFirst(ApprovedOnes(s, |s.decisions|), g);
    ApprovedGoalIff(s, g);
    ActiveIff(s, g);
    PendingStateIs(ds, Some(hs));
    if i :| 0 <= i < |ds| && Approval(ds[i]) {
      assert WireOf(ds[i], goal) in s.decisions;
      assert ds[i] in ds;
      var j :| 0 <= j < |s.decisions| && s.decisions[j] == WireOf(ds[i], goal);
    }
    if HasReview(s, g, "applied", "approve") {
      var j :| 0 <= j < |s.decisions| && s.decisions[j].goalID == g && s.decisions[j].kind == "goal_review"
        && s.decisions[j].status == "applied" && s.decisions[j].answerLabel == "approve";
      assert s.decisions[j] in s.decisions;
      var i :| 0 <= i < |ds| && s.decisions[j] == WireOf(ds[i], goal);
      assert ds[i] in ds;
    }
  }

  // ---------------------------------------------------------------- overdue answers

  /** An answer to something other than a review that nobody has taken for more than ten minutes. */
  predicate Overdue(s: Snapshot, d: WireDecision, now: int) {
    && d.status == "answered" && d.kind != GOAL_REVIEW && HasActiveGoal(s, d.goalID) && ParseInt(d.id).Some?
    && d.answeredAt.At? && now - d.answeredAt.time > UNAPPLIED_AFTER
  }

  function OverdueTarget(d: WireDecision): Target { Target("decision_answered_unapplied", "", d.goalID, [], d.id) }

  function OverdueOnes(s: Snapshot, now: int, n: nat): seq<Keyed<Target>>
    requires n <= |s.decisions|
  {
    if n == 0 then []
    else
      var d, before := s.decisions[n - 1], OverdueOnes(s, now, n - 1);
      if Overdue(s, d, now) then before + [Keyed(ParseInt(d.id).value, OverdueTarget(d))] else before
  }

  function OverdueTargets(s: Snapshot, now: int): seq<Target> {
    Values(SortedByID(OverdueOnes(s, now, |s.decisions|)))
  }

  lemma {:induction false} OverdueOnesAre(s: Snapshot, now: int, n: nat, x: Keyed<Target>)
    requires n <= |s.decisions|
    ensures x in OverdueOnes(s, now, n) <==> exists i | 0 <= i < n ::
      Overdue(s, s.decisions[i], now) && x == Keyed(ParseInt(s.decisions[i].id).value, OverdueTarget(s.decisions[i]))
    ensures |OverdueOnes(s, now, n)| <= n
  {
    if n > 0 {
      OverdueOnesAre(s, now, n - 1, x);
    }
  }

  /** A target is among the overdue answers exactly when it is that of an overdue decision. */
  lemma OverdueListedIff(s: Snapshot, now: int, t: Target)
    ensures t in OverdueTargets(s, now) <==> exists d | d in s.decisions ::
      d.status == "answered" && d.kind != "goal_review" && IsActive(s, d.goalID) && ParseInt(d.id).Some?
      && d.answeredAt.At? && now - d.answeredAt.time > 600_000_000_000
      && t == Target("decision_answered_unapplied", "", d.goalID, [], d.id)
  {
    forall d | d in s.decisions ensures HasActiveGoal(s, d.goalID) <==> IsActive(s, d.goalID) {
      ActiveIff(s, d.goalID);
    }
    var ones := OverdueOnes(s, now, |s.decisions|);
    var sorted := SortedByID(ones);
    SortedIsSorted(ones);
    if t in OverdueTargets(s, now) {
      var i :| 0 <= i < |sorted| && sorted[i].value == t;
      assert sorted[i] in multiset(sorted);
      OverdueOnesAre(s, now, |s.decisions|, sorted[i]);
    }
    if d :| d in s.decisions && Overdue(s, d, now) && t == OverdueTarget(d) {
      var x := Keyed(ParseInt(d.id).value, t);
      OverdueOnesAre(s, now, |s.decisions|, x);
      assert x in multiset(sorted);
      assert x in sorted;
    }
  }

  /** How many of the first n decisions are overdue with this target. */
  function OverdueCount(s: Snapshot, now: int, n: nat, t: Target): nat
    requires n <= |s.decisions|
  {
    if n == 0 then 0
    else
      var d := s.decisions[n - 1];
      OverdueCount(s, now, n - 1, t) + if Overdue(s, d, now) && OverdueTarget(d) == t then 1 else 0
  }

  lemma {:induction false} OverdueOnesCounted(s: Snapshot, now: int, n: nat, t: Target)
    requires n <= |s.decisions|
    ensures multiset(Values(OverdueOnes(s, now, n)))[t] == OverdueCount(s, now, n, t)
  {
    if n > 0 {
      OverdueOnesCounted(s, now, n - 1, t);
      var d, before := s.decisions[n - 1], OverdueOnes(s, now, n - 1);
      if Overdue(s, d, now) {
        var x := Keyed(ParseInt(d.id).value, OverdueTarget(d));
        ValuesInTurn(before, [x]);
        assert Values([x]) == [x.value];
      }
    }
  }

  /** Every overdue decision has its target in the list, no more and no less often than there are
      such decisions. */
  lemma OverdueListedExactly(s: Snapshot, now: int, t: Target)
    ensures multiset(OverdueTargets(s, now))[t] == OverdueCount(s, now, |s.decisions|, t)
  {
    SortedValues(OverdueOnes(s, now, |s.decisions|));
    OverdueOnesCounted(s, now, |s.decisions|, t);
  }

  /** The overdue answers come in ascending order of their decision ids. */
  lemma OverdueInOrder(s: Snapshot, now: int, i: nat, j: nat)
    requires i < j < |OverdueTargets(s, now)|
    ensures var ts := OverdueTargets(s, now);
      && ParseInt(ts[i].decisionID).Some? && ParseInt(ts[j].decisionID).Some?
      && ParseInt(ts[i].decisionID).value <= ParseInt(ts[j].decisionID).value
  {
    var ones := OverdueOnes(s, now, |s.decisions|);
    var sorted := SortedByID(ones);
    SortedIsSorted(ones);
    assert sorted[i] in multiset(sorted) && sorted[j] in multiset(sorted);
    OverdueOnesAre(s, now, |s.decisions|, sorted[i]);
    OverdueOnesAre(s, now, |s.decisions|, sorted[j]);
  }

  // ---------------------------------------------------------------- the loops

  lemma AddedListed(s: Snapshot, ts: seq<Target>, cs: seq<Target>, t: Option<Target>)
    ensures AddedAll(s, ts, cs + Listed(t))
      == if t.Some? then Added(s, AddedAll(s, ts, cs), t.value) else AddedAll(s, ts, cs)
  {
    if t.Some? {
      var all := cs + [t.value];
      assert all[..|all| - 1] == cs && all[|all| - 1] == t.value;
    } else {
      assert cs + [] == cs;
    }
  }

  /** The variables of the builder: the goals with an open review and with an approved one, the
      targets so far and their goals. */
  class Builder {
    const s: Snapshot
    var reviewOpen: set<string>
    var approved: set<string>
    var seen: set<string>
    var targets: seq<Target>

    ghost predicate Valid()
      reads this
    {
      && (forall g :: g in reviewOpen <==> ReviewOpen(s, g))
      && (forall g :: g in approved <==> ReviewApproved(s, g))
      && (forall g :: g in seen <==> Lists(targets, g))
    }

    constructor (s: Snapshot)
      ensures this.s == s && Valid() && targets == []
    {
      this.s := s;
      reviewOpen, approved, seen, targets := {}, {}, {}, [];
      new;
      for i := 0 to |s.decisions|
        invariant this.s == s && seen == {} && targets == []
        invariant forall g :: g in reviewOpen <==> exists d | d in s.decisions[..i] ::
          d.kind == GOAL_REVIEW && d.status == "open" && d.goalID == g
        invariant forall g :: g in approved <==> exists d | d in s.decisions[..i] :: IsApproval(d) && d.goalID == g
      {
        var d := s.decisions[i];
        assert s.decisions[..i + 1] == s.decisions[..i] + [d];
        if d.kind == GOAL_REVIEW && d.status == "open" {
          reviewOpen := reviewOpen + {d.goalID};
        }
        if d.kind == GOAL_REVIEW && d.status == "applied" && d.answerLabel == "approve" {
          approved := approved + {d.goalID};
        }
      }
      assert s.decisions[..|s.decisions|] == s.decisions;
    }

    method Add(t: Target)
      requires Valid()
      modifies this`seen, this`targets
      ensures Valid() && targets == Added(s, old(targets), t)
    {
      if t.goalID in seen || t.goalID in reviewOpen {
        return;
      }
      seen := seen + {t.goalID};
      targets := targets + [t];
    }

    method AddListed(t: Option<Target>, ghost ts: seq<Target>, ghost cs: seq<Target>)
      requires Valid() && targets == AddedAll(s, ts, cs)
      modifies this`seen, this`targets
      ensures Valid() && targets == AddedAll(s, ts, cs + Listed(t))
    {
      AddedListed(s, ts, cs, t);
      if t.Some? {
        Add(t.value);
      }
    }

    method AddAll(cs: seq<Target>)
      requires Valid()
      modifies this`seen, this`targets
      ensures Valid() && targets == AddedAll(s, old(targets), cs)
    {
      for i := 0 to |cs|
        invariant Valid() && targets == AddedAll(s, old(targets), cs[..i])
      {
        assert cs[..i + 1][..i] == cs[..i] && cs[..i + 1][i] == cs[i];
        Add(cs[i]);
      }
      assert cs[..|cs|] == cs;
    }

    method AddAwaiting(kind: string, hs: seq<WireHandoff>)
      requires Valid()
      modifies this`seen, this`targets
      ensures Valid() && targets == AddedAll(s, old(targets), Awaiting(s, kind, hs, |hs|))
    {
      for i := 0 to |hs|
        invariant Valid() && targets == AddedAll(s, old(targets), Awaiting(s, kind, hs, i))
      {
        NextAwaiting(s, kind, hs, i);
        AddListed(AwaitingTarget(s, kind, hs[i]), old(targets), Awaiting(s, kind, hs, i));
      }
    }

    method ReceivedFor(h: WireHandoff) returns (t: Option<Target>)
      requires Valid()
      ensures t == ReceivedTarget(s, h)
    {
      var id := Decimal(h.goalID);
      var active := HasActiveGoalIn(s, id);
      if InReview(h) && id !in approved && active {
        var blockers := OpenDecisions(s, id, {GOAL_REVIEW, "post_merge"});
        return Some(Target("goal_review_received", h.id, id, blockers, ""));
      }
      return None;
    }

    method AddOneReceived(i: nat, ghost ts: seq<Target>, ghost cs: seq<Target>) returns (ghost next: seq<Target>)
      requires Valid() && i < |s.goalHandoffs| && cs == Received(s, i) && targets == AddedAll(s, ts, cs)
      modifies this`seen, this`targets
      ensures Valid() && next == Received(s, i + 1) && targets == AddedAll(s, ts, next)
    {
      var t := ReceivedFor(s.goalHandoffs[i]);
      NextReceived(s, i);
      next := cs + Listed(t);
      AddListed(t, ts, cs);
    }

    method AddReceived()
      requires Valid()
      modifies this`seen, this`targets
      ensures Valid() && targets == AddedAll(s, old(targets), Received(s, |s.goalHandoffs|))
    {
      ghost var ts, cs := targets, [];
      for i := 0 to |s.goalHandoffs|
        invariant Valid() && cs == Received(s, i) && targets == AddedAll(s, ts, cs)
      {
        cs := AddOneReceived(i, ts, cs);
      }
    }

    method ApprovedFor(d: WireDecision) returns (t: Option<Target>)
      ensures t == ApprovedTarget(s, d)
    {
      var active := HasActiveGoalIn(s, d.goalID);
      if d.kind == GOAL_REVIEW && d.status == "applied" && d.answerLabel == "approve" && active {
        var blockers := OpenDecisions(s, d.goalID, {GOAL_REVIEW});
        return Some(Target("goal", "", d.goalID, blockers, ""));
      }
      return None;
    }

    method AddOneApproved(i: nat, ghost ts: seq<Target>, ghost cs: seq<Target>) returns (ghost next: seq<Target>)
      requires Valid() && i < |s.decisions| && cs == ApprovedOnes(s, i) && targets == AddedAll(s, ts, cs)
      modifies this`seen, this`targets
      ensures Valid() && next == ApprovedOnes(s, i + 1) && targets == AddedAll(s, ts, next)
    {
      var t := ApprovedFor(s.decisions[i]);
      NextApproved(s, i);
      next := cs + Listed(t);
      AddListed(t, ts, cs);
    }

    method AddApproved()
      requires Valid()
      modifies this`seen, this`targets
      ensures Valid() && targets == AddedAll(s, old(targets), ApprovedOnes(s, |s.decisions|))
    {
      ghost var ts, cs := targets, [];
      for i := 0 to |s.decisions|
        invariant Valid() && cs == ApprovedOnes(s, i) && targets == AddedAll(s, ts, cs)
      {
        cs := AddOneApproved(i, ts, cs);
      }
    }
  }

  /** watchOpenDecisionIDs. */
  method OpenDecisions(s: Snapshot, goalID: string, except: set<string>) returns (ids: seq<string>)
    ensures ids == OpenDecisionIDs(s, goalID, except)
  {
    var found: seq<Keyed<string>> := [];
    for i := 0 to |s.decisions|
      invariant found == Blockers(s.decisions[..i], goalID, except)
    {
      var d := s.decisions[i];
      assert s.decisions[..i + 1][..i] == s.decisions[..i] && s.decisions[..i + 1][i] == d;
      if d.goalID != goalID || d.status != "open" || d.kind in except {
        continue;
      }
      var n := ParseInt(d.id);
      if n.Some? {
        found := found + [Keyed(n.value, Decimal(n.value))];
      }
    }
    assert s.decisions[..|s.decisions|] == s.decisions;
    ids := Values(SortedByID(found));
  }

  /** watchUnappliedAnswerTargets. */
  method UnappliedAnswerTargets(s: Snapshot, now: int) returns (targets: seq<Target>)
    ensures targets == OverdueTargets(s, now)
  {
    var found: seq<Keyed<Target>> := [];
    for i := 0 to |s.decisions|
      invariant found == OverdueOnes(s, now, i)
    {
      var d := s.decisions[i];
      var active := HasActiveGoalIn(s, d.goalID);
      if d.status != "answered" || d.kind == GOAL_REVIEW || d.answeredAt.Missing? || !active {
        continue;
      }
      var n := ParseInt(d.id);
      if n.None? || d.answeredAt.Unreadable? {
        continue;
      }
      if now - d.answeredAt.time <= UNAPPLIED_AFTER {
        continue;
      }
      found := found + [Keyed(n.value, OverdueTarget(d))];
    }
    targets := Values(SortedByID(found));
  }

  /** watchCommanderLivenessTargets. */
  method CommanderLivenessTargets(s: Snapshot, now: int) returns (targets: seq<Target>)
    ensures targets == Reviews(s) + OverdueTargets(s, now)
  {
    var b := new Builder(s);
    var rejected := RejectedGoalReviewTargets(s);
    b.AddAll(rejected);
    b.AddAwaiting("goal", s.goalHandoffs);
    b.AddAwaiting("plan", s.planHandoffs);
    b.AddReceived();
    b.AddApproved();
    var overdue := UnappliedAnswerTargets(s, now);
    targets := b.targets + overdue;
  }
}
