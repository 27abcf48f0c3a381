/** A rejected goal review that is still owed work: the watch client and the store answer this
    independently, the client from a snapshot in JSON and the store from its rows. */
module GoalReview {
  import opened Wrappers
  import opened Text
  import opened Numbers

  const GOAL_REVIEW := "goal_review"

  // ---------------------------------------------------------------- the client's snapshot

  /** A time in a snapshot: absent, not a time, or a time. */
  datatype Stamp = Missing | Unreadable | At(time: int)

  datatype WireGoal = WireGoal(id: string, status: string)

  datatype WireDecision = WireDecision(
    id: string, goalID: string, kind: string, status: string, answerLabel: string, answeredAt: Stamp)

  datatype WireHandoff = WireHandoff(
    id: string, goalID: int, completedReportAt: Stamp, recoveredAt: Stamp,
    reviewRequestedAt: Stamp, reviewReceivedAt: Stamp, reviewRejectedAt: Stamp)

  datatype Snapshot = Snapshot(
    goals: seq<WireGoal>, decisions: seq<WireDecision>, goalHandoffs: seq<WireHandoff>, planHandoffs: seq<WireHandoff>)

  /** watchCommanderTarget. */
  datatype Target = Target(kind: string, handoffID: string, goalID: string, openDecisionIDs: seq<string>, decisionID: string)

  /** watchTimestampAfter. */
  predicate TimestampAfter(a: Stamp, b: Stamp) { a.At? && b.At? && a.time > b.time }

  /** watchHandoffOpen. */
  predicate HandoffOpen(h: WireHandoff) { h.completedReportAt.Missing? && h.recoveredAt.Missing? }

  /** watchReconciliationHasActiveGoal. */
  predicate HasActiveGoal(s: Snapshot, goalID: string) { exists g | g in s.goals :: g.id == goalID && g.status == "active" }

  predicate IsReview(d: WireDecision, goalID: string) { d.kind == GOAL_REVIEW && d.goalID == goalID && ParseInt(d.id).Some? }

  /** The largest positive number of a goal's reviews, or 0. */
  function Latest(ds: seq<WireDecision>, goalID: string): int {
    if ds == [] then 0
    else
      var d, before := ds[|ds| - 1], Latest(ds[..|ds| - 1], goalID);
      if IsReview(d, goalID) && ParseInt(d.id).value > before then ParseInt(d.id).value else before
  }

  /** The latest review of its active goal, rejected. */
  predicate Rejected(s: Snapshot, d: WireDecision) {
    && d.kind == GOAL_REVIEW && d.status == "answered" && d.answerLabel == "reject" && HasActiveGoal(s, d.goalID)
    && ParseInt(d.id) == Some(Latest(s.decisions, d.goalID))
  }

  /** A handoff of the decision's goal whose review has been received and still has to be rejected. */
  predicate Owed(h: WireHandoff, d: WireDecision) {
    && Decimal(h.goalID) == d.goalID && HandoffOpen(h)
    && !h.reviewRequestedAt.Missing? && !h.reviewReceivedAt.Missing? && h.reviewRejectedAt.Missing?
    && !TimestampAfter(h.reviewRequestedAt, d.answeredAt)
  }

  /** The first such handoff, or the number of handoffs. */
  function FirstOwed(hs: seq<WireHandoff>, d: WireDecision): (k: nat)
    ensures k <= |hs|
    ensures k < |hs| ==> Owed(hs[k], d)
    ensures forall i | 0 <= i < k :: !Owed(hs[i], d)
  {
    if hs == [] || Owed(hs[0], d) then 0 else 1 + FirstOwed(hs[1..], d)
  }

  function RejectedTarget(s: Snapshot, d: WireDecision): Option<Target> {
    var k := FirstOwed(s.goalHandoffs, d);
    if Rejected(s, d) && k < |s.goalHandoffs| then
      Some(Target("goal_review_rejected", s.goalHandoffs[k].id, d.goalID, [], ""))
    else None
  }

  function Listed(t: Option<Target>): seq<Target> { if t.Some? then [t.value] else [] }

  /** The targets of the first n decisions. */
  function RejectedTargets(s: Snapshot, n: nat): seq<Target>
    requires n <= |s.decisions|
  {
    if n == 0 then [] else RejectedTargets(s, n - 1) + Listed(RejectedTarget(s, s.decisions[n - 1]))
  }

  method HasActiveGoalIn(s: Snapshot, goalID: string) returns (active: bool)
    ensures active == HasActiveGoal(s, goalID)
  {
    for i := 0 to |s.goals|
      invariant forall g | g in s.goals[..i] :: !(g.id == goalID && g.status == "active")
    {
      if s.goals[i].id == goalID && s.goals[i].status == "active" {
        return true;
      }
    }
    return false;
  }

  method LatestReviews(ds: seq<WireDecision>) returns (latest: map<string, int>)
    ensures forall goalID :: (if goalID in latest then latest[goalID] else 0) == Latest(ds, goalID)
  {
    latest := map[];
    for i := 0 to |ds|
      invariant forall goalID :: (if goalID in latest then latest[goalID] else 0) == Latest(ds[..i], goalID)
    {
      var d := ds[i];
      ghost var before := latest;
      var n := ParseInt(d.id);
      if n.Some? && d.kind == GOAL_REVIEW && n.value > if d.goalID in latest then latest[d.goalID] else 0 {
        latest := latest[d.goalID := n.value];
      }
      assert ds[..i + 1][..i] == ds[..i] && ds[..i + 1][i] == d;
    }
    assert ds[..|ds|] == ds;
  }

  /** The inner loop of watchRejectedGoalReviewTargets. */
  method FindOwed(hs: seq<WireHandoff>, d: WireDecision) returns (k: nat)
    ensures k == FirstOwed(hs, d)
  {
    k := 0;
    while k < |hs| && !Owed(hs[k], d)
      invariant k <= |hs| && k + FirstOwed(hs[k..], d) == FirstOwed(hs, d)
    {
      assert hs[k..][1..] == hs[k + 1..];
      k := k + 1;
    }
  }

  /** One turn of the loop over the decisions. */
  method RejectedFor(s: Snapshot, d: WireDecision, latest: map<string, int>) returns (t: Option<Target>)
    requires forall goalID :: (if goalID in latest then latest[goalID] else 0) == Latest(s.decisions, goalID)
    ensures t == RejectedTarget(s, d)
  {
    var active := HasActiveGoalIn(s, d.goalID);
    if d.kind != GOAL_REVIEW || d.status != "answered" || d.answerLabel != "reject" || !active {
      return None;
    }
    if ParseInt(d.id) != Some(if d.goalID in latest then latest[d.goalID] else 0) {
      return None;
    }
    var k := FindOwed(s.goalHandoffs, d);
    if k < |s.goalHandoffs| {
      return Some(Target("goal_review_rejected", s.goalHandoffs[k].id, d.goalID, [], ""));
    }
    return None;
  }

  /** watchRejectedGoalReviewTargets. */
  method RejectedGoalReviewTargets(s: Snapshot) returns (targets: seq<Target>)
    ensures targets == RejectedTargets(s, |s.decisions|)
  {
    var latest := LatestReviews(s.decisions);
    targets := [];
    for i := 0 to |s.decisions|
      invariant targets == RejectedTargets(s, i)
    {
      var t := RejectedFor(s, s.decisions[i], latest);
      if t.Some? {
        targets := targets + [t.value];
      }
    }
  }

  // ---------------------------------------------------------------- the store

  datatype Row = Row(id: int, kind: string, status: string, answerLabel: string, answeredAt: Option<int>)

  datatype HandoffRow = HandoffRow(
    id: string, completedReportAt: Option<int>, recoveredAt: Option<int>,
    reviewRequestedAt: Option<int>, reviewReceivedAt: Option<int>, reviewRejectedAt: Option<int>)

  datatype Pending = ApprovedPendingComplete | RejectedPendingHandoffReject | NothingPending | ListFailed

  predicate Approval(d: Row) { d.kind == GOAL_REVIEW && d.status == "applied" && d.answerLabel == "approve" }

  /** The last review of the rows. */
  function LastReview(ds: seq<Row>): Option<Row> {
    if ds == [] then None
    else if ds[|ds| - 1].kind == GOAL_REVIEW then Some(ds[|ds| - 1])
    else LastReview(ds[..|ds| - 1])
  }

  predicate RowOwed(h: HandoffRow, latest: Row) {
    && h.reviewRequestedAt.Some? && h.reviewReceivedAt.Some? && h.reviewRejectedAt.None?
    && h.completedReportAt.None? && h.recoveredAt.None?
    && !(latest.answeredAt.Some? && h.reviewRequestedAt.value > latest.answeredAt.value)
  }

  predicate RowRejected(d: Option<Row>) { d.Some? && d.value.status == "answered" && d.value.answerLabel == "reject" }

  function PendingState(ds: seq<Row>, hs: Option<seq<HandoffRow>>): Pending {
    var latest := LastReview(ds);
    if exists d | d in ds :: Approval(d) then ApprovedPendingComplete
    else if !RowRejected(latest) then NothingPending
    else if hs.None? then ListFailed
    else if exists h | h in hs.value :: RowOwed(h, latest.value) then RejectedPendingHandoffReject
    else NothingPending
  }

  /** goalPendingState; hs is what listing the handoffs gives, read only after a rejection. */
  method GoalPendingState(ds: seq<Row>, hs: Option<seq<HandoffRow>>) returns (state: Pending)
    ensures state == PendingState(ds, hs)
  {
    var latest := Row(0, "", "", "", None);
    var hasReview := false;
    for i := 0 to |ds|
      invariant hasReview == LastReview(ds[..i]).Some? && (hasReview ==> LastReview(ds[..i]) == Some(latest))
      invariant forall d | d in ds[..i] :: !Approval(d)
    {
      assert ds[..i + 1][..i] == ds[..i] && ds[..i + 1][i] == ds[i];
      if ds[i].kind == GOAL_REVIEW {
        if ds[i].status == "applied" && ds[i].answerLabel == "approve" {
          assert Approval(ds[i]) && ds[i] in ds;
          return ApprovedPendingComplete;
        }
        latest, hasReview := ds[i], true;
      }
    }
    assert ds[..|ds|] == ds;
    if !hasReview || latest.status != "answered" || latest.answerLabel != "reject" {
      return NothingPending;
    }
    if hs.None? {
      return ListFailed;
    }
    for i := 0 to |hs.value|
      invariant forall h | h in hs.value[..i] :: !RowOwed(h, latest)
    {
      var h := hs.value[i];
      var resubmitted := latest.answeredAt.Some? && h.reviewRequestedAt.Some? && h.reviewRequestedAt.value > latest.answeredAt.value;
      if h.reviewRequestedAt.Some? && h.reviewReceivedAt.Some? && h.reviewRejectedAt.None? && h.completedReportAt.None?
         && h.recoveredAt.None? && !resubmitted {
        assert RowOwed(h, latest) && h in hs.value;
        return RejectedPendingHandoffReject;
      }
    }
    return NothingPending;
  }

  /** No row after the one at k is a review. */
  predicate IsLastReview(ds: seq<Row>, k: nat) {
    k < |ds| && ds[k].kind == "goal_review" && forall i | k < i < |ds| :: ds[i].kind != "goal_review"
  }

  lemma {:induction false} LastReviewIs(ds: seq<Row>, k: nat)
    requires IsLastReview(ds, k)
    ensures LastReview(ds) == Some(ds[k])
  {
    if k < |ds| - 1 {
      assert ds[..|ds| - 1][k] == ds[k];
      LastReviewIs(ds[..|ds| - 1], k);
    }
  }

  lemma {:induction false} FindLastReview(ds: seq<Row>) returns (k: nat)
    ensures LastReview(ds).Some? ==> IsLastReview(ds, k)
  {
    k := 0;
    if ds != [] {
      if ds[|ds| - 1].kind == GOAL_REVIEW {
        k := |ds| - 1;
      } else {
        k := FindLastReview(ds[..|ds| - 1]);
      }
    }
  }

  /** The last review was rejected. */
  predicate LastRejected(ds: seq<Row>) {
    exists k | 0 <= k < |ds| :: IsLastReview(ds, k) && ds[k].status == "answered" && ds[k].answerLabel == "reject"
  }

  /** The handoff's review was received and not rejected, it is not over, and its review was not
      requested again after the last review was answered. */
  predicate AwaitsRejection(h: HandoffRow, ds: seq<Row>) {
    && h.reviewRequestedAt.Some? && h.reviewReceivedAt.Some?
    && h.reviewRejectedAt.None? && h.completedReportAt.None? && h.recoveredAt.None?
    && forall k | 0 <= k < |ds| && IsLastReview(ds, k) && ds[k].answeredAt.Some? ::
      h.reviewRequestedAt.value <= ds[k].answeredAt.value
  }

  /** The state of a goal: any approved review decides, then the last review if it was rejected, and
      then whether a handoff still waits for that rejection; its list is read only then. */
  lemma PendingStateIs(ds: seq<Row>, hs: Option<seq<HandoffRow>>)
    ensures PendingState(ds, hs)
      == if exists d | d in ds :: d.kind == "goal_review" && d.status == "applied" && d.answerLabel == "approve"
         then ApprovedPendingComplete
         else if !LastRejected(ds) then NothingPending
         else if hs.None? then ListFailed
         else if exists h | h in hs.value :: AwaitsRejection(h, ds) then RejectedPendingHandoffReject
         else NothingPending
  {
    var last := LastReview(ds);
    assert (exists d | d in ds :: d.kind == "goal_review" && d.status == "applied" && d.answerLabel == "approve")
      <==> exists d | d in ds :: Approval(d);
    forall k: nat | IsLastReview(ds, k) ensures last == Some(ds[k]) {
      LastReviewIs(ds, k);
    }
    var k := FindLastReview(ds);
    assert RowRejected(last) <==> LastRejected(ds);
    if LastRejected(ds) && hs.Some? {
      forall h | h in hs.value ensures RowOwed(h, last.value) <==> AwaitsRejection(h, ds) {
      }
    }
  }

  // ---------------------------------------------------------------- one question, two answers

  function WireStamp(t: Option<int>): Stamp { if t.Some? then At(t.value) else Missing }

  function WireOf(d: Row, goal: int): WireDecision {
    WireDecision(Decimal(d.id), Decimal(goal), d.kind, d.status, d.answerLabel, WireStamp(d.answeredAt))
  }

  function WireHandoffOf(h: HandoffRow, goal: int): WireHandoff {
    WireHandoff(h.id, goal, WireStamp(h.completedReportAt), WireStamp(h.recoveredAt),
                WireStamp(h.reviewRequestedAt), WireStamp(h.reviewReceivedAt), WireStamp(h.reviewRejectedAt))
  }

  /** The snapshot shows the rows of one goal: these and no others carry its id. */
  predicate Shows(s: Snapshot, goal: int, ds: seq<Row>, hs: seq<HandoffRow>) {
    && (forall i | 0 <= i < |ds| :: WireOf(ds[i], goal) in s.decisions)
    && (forall w | w in s.decisions && w.goalID == Decimal(goal) :: exists i | 0 <= i < |ds| :: w == WireOf(ds[i], goal))
    && (forall i | 0 <= i < |hs| :: WireHandoffOf(hs[i], goal) in s.goalHandoffs)
    && (forall w | w in s.goalHandoffs && w.goalID == goal :: exists i | 0 <= i < |hs| :: w == WireHandoffOf(hs[i], goal))
  }

  /** The ids the database gives out, in the order the store lists the rows. */
  predicate AscendingIDs(ds: seq<Row>) {
    && (forall i | 0 <= i < |ds| :: 0 < ds[i].id <= MAX_INT64)
    && (forall i, j | 0 <= i < j < |ds| :: ds[i].id < ds[j].id)
  }

  lemma {:induction false} LatestBounds(ds: seq<WireDecision>, goalID: string)
    ensures Latest(ds, goalID) >= 0
    ensures forall d | d in ds && IsReview(d, goalID) :: ParseInt(d.id).value <= Latest(ds, goalID)
    ensures Latest(ds, goalID) > 0 ==>
      exists d | d in ds :: IsReview(d, goalID) && ParseInt(d.id) == Some(Latest(ds, goalID))
  {
    if ds != [] {
      LatestBounds(ds[..|ds| - 1], goalID);
      assert ds == ds[..|ds| - 1] + [ds[|ds| - 1]];
    }
  }

  lemma {:induction false} LastReviewIsHighest(ds: seq<Row>) returns (k: nat)
    requires AscendingIDs(ds)
    ensures LastReview(ds).Some? ==> k < |ds| && LastReview(ds) == Some(ds[k]) && ds[k].kind == GOAL_REVIEW
    ensures LastReview(ds).Some? ==> forall i | 0 <= i < |ds| && ds[i].kind == GOAL_REVIEW :: ds[i].id <= ds[k].id
    ensures LastReview(ds).None? ==> forall i | 0 <= i < |ds| :: ds[i].kind != GOAL_REVIEW
  {
    k := 0;
    if ds != [] {
      if ds[|ds| - 1].kind == GOAL_REVIEW {
        k := |ds| - 1;
      } else {
        k := LastReviewIsHighest(ds[..|ds| - 1]);
      }
    }
  }

  /** The number the client takes for the goal's latest review is that of the store's last one. */
  lemma LatestIsLast(s: Snapshot, goal: int, ds: seq<Row>, hs: seq<HandoffRow>)
    requires Shows(s, goal, ds, hs) && AscendingIDs(ds)
    ensures Latest(s.decisions, Decimal(goal)) == if LastReview(ds).Some? then LastReview(ds).value.id else 0
  {
    var ws, g := s.decisions, Decimal(goal);
    LatestBounds(ws, g);
    var k := LastReviewIsHighest(ds);
    if LastReview(ds).Some? {
      ParseDecimal(ds[k].id);
      assert WireOf(ds[k], goal) in ws && IsReview(WireOf(ds[k], goal), g);
    }
    if Latest(ws, g) > 0 {
      var w :| w in ws && IsReview(w, g) && ParseInt(w.id) == Some(Latest(ws, g));
      var i :| 0 <= i < |ds| && w == WireOf(ds[i], goal);
      ParseDecimal(ds[i].id);
      assert ds[i].kind == GOAL_REVIEW;
    }
  }

  /** Whether the client names the goal for the decision at i. */
  predicate NamedAt(s: Snapshot, i: nat, goalID: string)
    requires i < |s.decisions|
  {
    s.decisions[i].goalID == goalID && RejectedTarget(s, s.decisions[i]).Some?
  }

  predicate Lists(targets: seq<Target>, goalID: string) { exists t | t in targets :: t.goalID == goalID }

  lemma NextRejected(s: Snapshot, n: nat)
    requires n < |s.decisions|
    ensures RejectedTargets(s, n + 1) == RejectedTargets(s, n) + Listed(RejectedTarget(s, s.decisions[n]))
  {
  }

  lemma RejectedNext(s: Snapshot, n: nat, goalID: string)
    requires n < |s.decisions|
    ensures Lists(RejectedTargets(s, n + 1), goalID) <==> Lists(RejectedTargets(s, n), goalID) || NamedAt(s, n, goalID)
  {
    NextRejected(s, n);
    ListedLast(RejectedTargets(s, n), RejectedTarget(s, s.decisions[n]), goalID);
  }

  lemma {:induction false} Changes(b: seq<bool>, m: nat, n: nat) returns (i: nat)
    requires m <= n < |b| && b[m] != b[n]
    ensures m <= i < n && b[i] == b[m] && b[i + 1] != b[m]
    decreases n - m
  {
    i := m;
    if b[m + 1] == b[m] {
      i := Changes(b, m + 1, n);
    }
  }

  /** Whether the goal is among the targets of the first decisions, for each number of them. */
  function ListedUpTo(s: Snapshot, goalID: string): (b: seq<bool>)
    ensures |b| == |s.decisions| + 1
    ensures forall k | 0 <= k < |b| :: b[k] == Lists(RejectedTargets(s, k), goalID)
  {
    seq(|s.decisions| + 1, k requires 0 <= k <= |s.decisions| => Lists(RejectedTargets(s, k), goalID))
  }

  lemma {:induction false} RejectedGrow(s: Snapshot, m: nat, n: nat, goalID: string)
    requires m <= n <= |s.decisions| && Lists(RejectedTargets(s, m), goalID)
    ensures Lists(RejectedTargets(s, n), goalID)
    decreases n - m
  {
    if m < n {
      RejectedNext(s, m, goalID);
      RejectedGrow(s, m + 1, n, goalID);
    }
  }

  lemma NamedThenListed(s: Snapshot, i: nat, n: nat, goalID: string)
    requires i < n <= |s.decisions| && NamedAt(s, i, goalID)
    ensures Lists(RejectedTargets(s, n), goalID)
  {
    RejectedNext(s, i, goalID);
    RejectedGrow(s, i + 1, n, goalID);
  }

  lemma ListedThenNamed(s: Snapshot, n: nat, goalID: string) returns (i: nat)
    requires n <= |s.decisions| && Lists(RejectedTargets(s, n), goalID)
    ensures i < n && NamedAt(s, i, goalID)
  {
    NoneRejectedYet(s, goalID);
    i := Changes(ListedUpTo(s, goalID), 0, n);
    RejectedNext(s, i, goalID);
  }

  lemma NoneRejectedYet(s: Snapshot, goalID: string)
    ensures !Lists(RejectedTargets(s, 0), goalID)
  {
  }

  lemma ListedLast(ts: seq<Target>, last: Option<Target>, goalID: string)
    ensures Lists(ts + Listed(last), goalID) <==> Lists(ts, goalID) || Lists(Listed(last), goalID)
    ensures Lists(Listed(last), goalID) <==> last.Some? && last.value.goalID == goalID
  {
    assert forall t | t in ts + Listed(last) :: t in ts || t in Listed(last);
    assert forall t | t in ts || t in Listed(last) :: t in ts + Listed(last);
    if last.Some? {
      assert last.value in Listed(last);
    }
  }

  lemma OwedAlike(h: HandoffRow, d: Row, goal: int)
    ensures Owed(WireHandoffOf(h, goal), WireOf(d, goal)) == RowOwed(h, d)
  {
  }

  /** The client's handoff search succeeds exactly when the store's does. */
  lemma OwedIffRowOwed(s: Snapshot, goal: int, ds: seq<Row>, hs: seq<HandoffRow>, d: Row)
    requires Shows(s, goal, ds, hs)
    ensures FirstOwed(s.goalHandoffs, WireOf(d, goal)) < |s.goalHandoffs| <==> exists h | h in hs :: RowOwed(h, d)
  {
    var ws, w := s.goalHandoffs, WireOf(d, goal);
    var k := FirstOwed(ws, w);
    if k < |ws| {
      DecimalInjective(ws[k].goalID, goal);
      assert ws[k] in ws;
      var i :| 0 <= i < |hs| && ws[k] == WireHandoffOf(hs[i], goal);
      OwedAlike(hs[i], d, goal);
      assert hs[i] in hs;
    }
    if h :| h in hs && RowOwed(h, d) {
      var i :| 0 <= i < |hs| && hs[i] == h;
      OwedAlike(h, d, goal);
      assert WireHandoffOf(hs[i], goal) in ws;
      var j :| 0 <= j < |ws| && ws[j] == WireHandoffOf(hs[i], goal);
      assert Owed(ws[j], w);
    }
  }

  /** The number is the greatest of the goal's reviews that have one. */
  predicate IsNewest(ds: seq<WireDecision>, goalID: string, n: int) {
    n >= 0 && forall d | d in ds && d.goalID == goalID && d.kind == "goal_review" && ParseInt(d.id).Some? ::
      ParseInt(d.id).value <= n
  }

  /** The review of the decision's goal was received for the handoff and not rejected, the handoff is
      not over, and its review was not requested again after the decision was answered. */
  predicate StillOwed(h: WireHandoff, d: WireDecision) {
    && Decimal(h.goalID) == d.goalID && h.completedReportAt.Missing? && h.recoveredAt.Missing?
    && !h.reviewRequestedAt.Missing? && !h.reviewReceivedAt.Missing? && h.reviewRejectedAt.Missing?
    && (h.reviewRequestedAt.At? && d.answeredAt.At? ==> h.reviewRequestedAt.time <= d.answeredAt.time)
  }

  predicate FirstStillOwed(hs: seq<WireHandoff>, d: WireDecision, k: int) {
    0 <= k < |hs| && StillOwed(hs[k], d) && forall j | 0 <= j < k :: !StillOwed(hs[j], d)
  }

  /** For which decisions the client has a target, and with which handoff: the newest review of an
      active goal, rejected, and the first handoff that still owes it. */
  lemma RejectedTargetIff(s: Snapshot, i: nat, t: Target)
    requires i < |s.decisions|
    ensures var d := s.decisions[i];
      RejectedTarget(s, d) == Some(t) <==>
        && d.kind == "goal_review" && d.status == "answered" && d.answerLabel == "reject"
        && (exists g | g in s.goals :: g.id == d.goalID && g.status == "active")
        && ParseInt(d.id).Some? && IsNewest(s.decisions, d.goalID, ParseInt(d.id).value)
        && exists k | 0 <= k < |s.goalHandoffs| ::
          FirstStillOwed(s.goalHandoffs, d, k) && t == Target("goal_review_rejected", s.goalHandoffs[k].id, d.goalID, [], "")
  {
    var d := s.decisions[i];
    RejectedIff(s, i);
    FirstOwedIff(s.goalHandoffs, d);
    var k := FirstOwed(s.goalHandoffs, d);
    if k < |s.goalHandoffs| {
      assert forall j | 0 <= j < |s.goalHandoffs| && FirstStillOwed(s.goalHandoffs, d, j) :: j == k;
    }
  }

  lemma FirstOwedIff(hs: seq<WireHandoff>, d: WireDecision)
    ensures forall k | 0 <= k < |hs| :: FirstStillOwed(hs, d, k) <==> k == FirstOwed(hs, d)
  {
    assert forall j | 0 <= j < |hs| :: Owed(hs[j], d) == StillOwed(hs[j], d);
  }

  lemma RejectedIff(s: Snapshot, i: nat)
    requires i < |s.decisions|
    ensures var d := s.decisions[i];
      Rejected(s, d) <==>
        && d.kind == "goal_review" && d.status == "answered" && d.answerLabel == "reject"
        && (exists g | g in s.goals :: g.id == d.goalID && g.status == "active")
        && ParseInt(d.id).Some? && IsNewest(s.decisions, d.goalID, ParseInt(d.id).value)
  {
    var d := s.decisions[i];
    LatestBounds(s.decisions, d.goalID);
    if d.kind == "goal_review" && ParseInt(d.id).Some? {
      assert d in s.decisions && IsReview(d, d.goalID);
      assert ParseInt(d.id).value == Latest(s.decisions, d.goalID) <==> IsNewest(s.decisions, d.goalID, ParseInt(d.id).value);
    }
  }

  /** The decision for which the client names a goal is the store's last review of it. */
  lemma {:induction false} NamedIsLast(s: Snapshot, goal: int, ds: seq<Row>, hs: seq<HandoffRow>, w: WireDecision)
    requires Shows(s, goal, ds, hs) && AscendingIDs(ds)
    requires w in s.decisions && w.goalID == Decimal(goal) && Rejected(s, w)
    ensures LastReview(ds).Some? && w == WireOf(LastReview(ds).value, goal) && RowRejected(LastReview(ds))
  {
    LatestIsLast(s, goal, ds, hs);
    var k := LastReviewIsHighest(ds);
    var i :| 0 <= i < |ds| && w == WireOf(ds[i], goal);
    ParseDecimal(ds[i].id);
    assert ds[i].kind == GOAL_REVIEW;
    assert ds[i].id == ds[k].id;
    SameRow(ds, i, k);
  }

  lemma SameRow(ds: seq<Row>, i: nat, k: nat)
    requires AscendingIDs(ds) && i < |ds| && k < |ds| && ds[i].id == ds[k].id
    ensures i == k
  {
  }

  /** What the store looks for once the reviews of the goal are not approved. */
  predicate StoreOwes(ds: seq<Row>, hs: seq<HandoffRow>) {
    RowRejected(LastReview(ds)) && exists h | h in hs :: RowOwed(h, LastReview(ds).value)
  }

  lemma {:induction false} NamedThenOwed(s: Snapshot, goal: int, ds: seq<Row>, hs: seq<HandoffRow>, i: nat)
    requires Shows(s, goal, ds, hs) && AscendingIDs(ds) && i < |s.decisions| && NamedAt(s, i, Decimal(goal))
    ensures StoreOwes(ds, hs)
  {
    NamedIsLast(s, goal, ds, hs, s.decisions[i]);
    OwedIffRowOwed(s, goal, ds, hs, LastReview(ds).value);
  }

  lemma {:induction false} OwedThenNamed(s: Snapshot, goal: int, ds: seq<Row>, hs: seq<HandoffRow>) returns (i: nat)
    requires Shows(s, goal, ds, hs) && AscendingIDs(ds) && HasActiveGoal(s, Decimal(goal)) && StoreOwes(ds, hs)
    ensures i < |s.decisions| && NamedAt(s, i, Decimal(goal))
  {
    var k := LastReviewIsHighest(ds);
    var w := WireOf(ds[k], goal);
    LatestIsLast(s, goal, ds, hs);
    ParseDecimal(ds[k].id);
    OwedIffRowOwed(s, goal, ds, hs, ds[k]);
    assert w in s.decisions;
    i :| i < |s.decisions| && s.decisions[i] == w;
  }

  /** For every active goal the client names a rejected review as still owed, and no review of the
      goal was approved, exactly when the store's state of the goal is
      rejected_pending_handoff_reject. */
  lemma ClientAgreesWithStore(s: Snapshot, goal: int, ds: seq<Row>, hs: seq<HandoffRow>)
    requires Shows(s, goal, ds, hs) && AscendingIDs(ds) && HasActiveGoal(s, Decimal(goal))
    ensures Lists(RejectedTargets(s, |s.decisions|), Decimal(goal)) && !(exists d | d in ds :: Approval(d))
      <==> PendingState(ds, Some(hs)) == RejectedPendingHandoffReject
  {
    var g := Decimal(goal);
    if Lists(RejectedTargets(s, |s.decisions|), g) {
      var i := ListedThenNamed(s, |s.decisions|, g);
      NamedThenOwed(s, goal, ds, hs, i);
    }
    if StoreOwes(ds, hs) {
      var i := OwedThenNamed(s, goal, ds, hs);
      NamedThenListed(s, i, |s.decisions|, g);
    }
  }
}
