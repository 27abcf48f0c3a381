/** What the bridge promises over whole runs, and where it breaks its promise. */
module BridgeDelivery {
  import opened Wrappers
  import opened Text
  import opened BridgeQueue
  import opened CodexMonitor
  import opened BridgeRuns

  // ---------------------------------------------------------------- one submission at a time

  /** Event i of the run begins a StartTurn call. */
  predicate Begins(r: Trace, i: nat) {
    IsRun(r) && i < |r.events| && Reserves(r.states[i], r.events[i])
  }

  /** The entry that StartTurn submits. */
  function Carried(r: Trace, i: nat): Entry
    requires Begins(r, i)
  {
    r.states[i].core.queue[0]
  }

  predicate FinishesBy(e: Event, t: nat) {
    e.Finish? && e.t == t
  }

  /** The StartTurn begun at event i ends with event k. */
  predicate Flight(r: Trace, i: nat, k: nat) {
    && Begins(r, i) && i < k < |r.events|
    && FinishesBy(r.events[k], r.events[i].t)
    && forall m | i < m < k :: !FinishesBy(r.events[m], r.events[i].t)
  }

  predicate Flying(s: System, t: nat, x: Entry) {
    t in s.pumps && s.pumps[t] == InFlight(x)
  }

  predicate NoneFlying(s: System) {
    forall t | t in s.pumps :: !s.pumps[t].InFlight?
  }

  lemma StepKeepsFlight(s: System, e: Event, t: nat, x: Entry)
    requires Enabled(s, e) && !FinishesBy(e, t)
    requires Flying(s, t, x)
    ensures Flying(Step(s, e), t, x)
  {
  }

  lemma {:induction false} FlightHolds(r: Trace, i: nat, n: nat)
    requires Begins(r, i) && i < n <= |r.events|
    requires forall m | i < m < n :: !FinishesBy(r.events[m], r.events[i].t)
    ensures Flying(r.states[n], r.events[i].t, Carried(r, i))
  {
    assert Moves(r, n - 1);
    if n > i + 1 {
      FlightHolds(r, i, n - 1);
      StepKeepsFlight(r.states[n - 1], r.events[n - 1], r.events[i].t, Carried(r, i));
    }
  }

  /** At most one StartTurn is running in every reachable state. */
  lemma AtMostOneStartTurn(r: Trace, n: nat, t: nat, u: nat, x: Entry, y: Entry)
    requires IsRun(r) && n < |r.states|
    requires Flying(r.states[n], t, x) && Flying(r.states[n], u, y)
    ensures t == u && x == y
  {
    ReachableStatesAreSound(r, n);
  }

  /** While a submission is in flight, no other one is. */
  lemma FlightIsAlone(r: Trace, i: nat, k: nat, n: nat, u: nat)
    requires Flight(r, i, k) && i < n <= k
    requires u in r.states[n].pumps && r.states[n].pumps[u].InFlight?
    ensures u == r.events[i].t
  {
    FlightHolds(r, i, n);
    AtMostOneStartTurn(r, n, r.events[i].t, u, Carried(r, i), r.states[n].pumps[u].entry);
  }

  /** The bridge is active, and after event k nothing is in flight. */
  predicate Busy(r: Trace, k: nat, n: nat)
    requires n < |r.states|
  {
    r.states[n].core.active && (n > k ==> NoneFlying(r.states[n]))
  }

  lemma BusyStep(s: System, e: Event)
    requires Enabled(s, e) && s.core.active && !GoesIdle(s, e) && (e.Finish? ==> Accepts(s, e))
    ensures Step(s, e).core.active
    ensures (forall u | u in s.pumps && s.pumps[u].InFlight? :: FinishesBy(e, u)) ==> NoneFlying(Step(s, e))
  {
  }

  lemma StaysBusyStep(r: Trace, i: nat, k: nat, n: nat)
    requires Flight(r, i, k) && Accepts(r.states[k], r.events[k])
    requires i < n < |r.events| && !GoesIdle(r.states[n], r.events[n]) && Busy(r, k, n)
    ensures Busy(r, k, n + 1)
  {
    assert Moves(r, n);
    var s, e := r.states[n], r.events[n];
    if n <= k {
      forall u | u in s.pumps && s.pumps[u].InFlight? ensures u == r.events[i].t {
        FlightIsAlone(r, i, k, n, u);
      }
      assert e.Finish? ==> n == k;
    }
    BusyStep(s, e);
  }

  /** Up to n, no event idled the bridge that reserved a turn at i. */
  lemma {:induction false} StaysBusy(r: Trace, i: nat, k: nat, n: nat)
    requires Flight(r, i, k) && Accepts(r.states[k], r.events[k])
    requires i < n <= |r.events| && forall m | i < m < n :: !GoesIdle(r.states[m], r.events[m])
    ensures Busy(r, k, n)
  {
    if n == i + 1 {
      assert Moves(r, i);
    } else {
      StaysBusy(r, i, k, n - 1);
      StaysBusyStep(r, i, k, n - 1);
    }
  }

  /** Once a turn is accepted, the next submission waits for an idle transition. */
  lemma SubmissionsSeparatedByIdle(r: Trace, i: nat, k: nat, j: nat)
    requires Flight(r, i, k) && Accepts(r.states[k], r.events[k])
    requires i < j && Begins(r, j)
    ensures exists m :: i < m < j && GoesIdle(r.states[m], r.events[m])
  {
    if forall m | i < m < j :: !GoesIdle(r.states[m], r.events[m]) {
      StaysBusy(r, i, k, j);
      assert false;
    }
  }

  predicate Shut(s: System, log: seq<Entry>) {
    s.core.disabled && s.submitted == log && NoneFlying(s)
  }

  lemma ShutForever(s: System, e: Event, log: seq<Entry>)
    requires Enabled(s, e) && Shut(s, log)
    ensures Shut(Step(s, e), log)
  {
  }

  lemma {:induction false} ShutUntil(r: Trace, k: nat, n: nat)
    requires IsRun(r) && k <= n < |r.states| && Shut(r.states[k], r.states[k].submitted)
    ensures Shut(r.states[n], r.states[k].submitted)
  {
    if k < n {
      ShutUntil(r, k, n - 1);
      assert Moves(r, n - 1);
      ShutForever(r.states[n - 1], r.events[n - 1], r.states[k].submitted);
    }
  }

  /** After one submission with unknown outcome nothing is ever submitted again. */
  lemma UnknownOutcomeIsFinal(r: Trace, k: nat, n: nat)
    requires IsRun(r) && k < n < |r.states|
    requires r.events[k].Finish? && Judgement(r.events[k].reply).Terminal?
    ensures r.states[n].core.disabled && r.states[n].submitted == r.states[k].submitted
    ensures !Begins(r, n) && (n < |r.events| ==> !r.events[n].Finish?)
  {
    assert Moves(r, k);
    ReachableStatesAreSound(r, k);
    ShutUntil(r, k + 1, n);
    if n < |r.events| {
      assert Moves(r, n);
    }
  }

  /** The reply leaves open whether the turn started, or the app server is gone. */
  predicate Fatal(reply: Reply) {
    match reply.error
    case UnknownResult => true
    case OtherError => reply.connectionFailed
    case NoError => Blank(reply.turnID)
  }

  lemma DisabledStep(s: System, e: Event)
    requires Enabled(s, e)
    ensures Step(s, e).core.disabled <==> s.core.disabled || (e.Finish? && Fatal(e.reply))
  {
  }

  /** The bridge is disabled if and only if a submission ended with such a reply. */
  lemma {:induction false} DisabledIff(r: Trace, n: nat)
    requires IsRun(r) && n < |r.states|
    ensures r.states[n].core.disabled <==> exists k | 0 <= k < n :: r.events[k].Finish? && Fatal(r.events[k].reply)
  {
    if n > 0 {
      DisabledIff(r, n - 1);
      assert Moves(r, n - 1);
      DisabledStep(r.states[n - 1], r.events[n - 1]);
    }
  }

  /** When no goroutine is in pump and no failure is owed a retry, nothing submittable waits. */
  lemma NothingStrandedAtRest(r: Trace, n: nat)
    requires IsRun(r) && n < |r.states|
    requires var s := r.states[n];
      s.pumps == map[] && !s.retryOwed && !s.core.disabled && !s.core.active && s.core.threadID != ""
    ensures r.states[n].core.queue == []
  {
    ReachableStatesAreSound(r, n);
  }

  /** Actions are submitted in the order of their slots, and no slot is submitted twice. */
  lemma SubmittedInArrivalOrder(r: Trace, k: nat)
    requires IsRun(r) && k < |r.events| && Accepts(r.states[k], r.events[k])
    ensures var s, x := r.states[k], r.states[k].pumps[r.events[k].t].entry;
      r.states[k + 1].submitted == s.submitted + [x] && forall y | y in s.submitted :: y.slot < x.slot
  {
    assert Moves(r, k);
    ReachableStatesAreSound(r, k);
  }

  // ---------------------------------------------------------------- controls

  /** The event hands the bridge a control for a review of some handoff. */
  predicate HearsControl(s: System, e: Event) {
    e.Enqueue? && e.action.controlOnly && IsReview(e.action) && Judged(s.core, e.action).Taken?
  }

  predicate Knows(c: Core, control: Action)
    requires IsReview(control)
  {
    control.handoffID in c.controls && control.review.value <= c.controls[control.handoffID]
  }

  lemma StepKeepsKnowledge(s: System, e: Event, control: Action)
    requires Enabled(s, e) && IsReview(control)
    requires Knows(s.core, control) || (HearsControl(s, e) && e.action == control)
    ensures Knows(Step(s, e).core, control)
  {
  }

  lemma {:induction false} ControlRemembered(r: Trace, d: nat, n: nat)
    requires IsRun(r) && d < n < |r.states| && HearsControl(r.states[d], r.events[d])
    ensures Knows(r.states[n].core, r.events[d].action)
  {
    if d < n - 1 {
      ControlRemembered(r, d, n - 1);
    }
    assert Moves(r, n - 1);
    StepKeepsKnowledge(r.states[n - 1], r.events[n - 1], r.events[d].action);
  }

  /** No review is queued, and so none is submitted, that is older than a control heard before
      for its handoff. */
  lemma NoReviewOlderThanControl(r: Trace, d: nat, n: nat, x: Entry)
    requires IsRun(r) && d < n < |r.states| && HearsControl(r.states[d], r.events[d])
    requires x in r.states[n].core.queue || (Begins(r, n) && x == Carried(r, n))
    requires ReviewOf(x.action, r.events[d].action.handoffID)
    ensures r.events[d].action.review.value <= x.action.review.value
  {
    ControlRemembered(r, d, n);
    ReachableStatesAreSound(r, n);
  }

  // ---------------------------------------------------------------- what is submitted when

  /** The agent's thread as the events tell it: that of the bridge, the first one that starts, or the
      last one attached. */
  function ThreadAfter(r: Trace, n: nat): string
    requires IsRun(r) && n < |r.states|
  {
    if n == 0 then r.states[0].core.threadID
    else match r.events[n - 1]
      case Attach(_, id, _) => if Blank(id) then ThreadAfter(r, n - 1) else id
      case ThreadStarted(_, id, _) => if Blank(id) || ThreadAfter(r, n - 1) != "" then ThreadAfter(r, n - 1) else id
      case _ => ThreadAfter(r, n - 1)
  }

  /** Whether the agent is busy: it was last reported so or a turn was begun for it, and since then it
      was not reported idle, and the turn did not fail. */
  function BusyAfter(r: Trace, n: nat): bool
    requires IsRun(r) && n < |r.states|
  {
    if n == 0 then false
    else match r.events[n - 1]
      case TurnStarted => true
      case TurnEnded(_) => false
      case Attach(_, id, busy) => if Blank(id) then BusyAfter(r, n - 1) else busy
      case ThreadStarted(_, id, idle) =>
        if Blank(id) || ThreadAfter(r, n - 1) != "" then BusyAfter(r, n - 1) else !idle
      case Check(_) => BusyAfter(r, n - 1) || Begins(r, n - 1)
      case Finish(_, reply) => BusyAfter(r, n - 1) && reply.error.NoError? && !Blank(reply.turnID)
      case _ => BusyAfter(r, n - 1)
  }

  lemma {:induction false} ThreadAndActivityAre(r: Trace, n: nat)
    requires IsRun(r) && n < |r.states|
    ensures r.states[n].core.threadID == ThreadAfter(r, n) && r.states[n].core.active == BusyAfter(r, n)
  {
    if n > 0 {
      ThreadAndActivityAre(r, n - 1);
      assert Moves(r, n - 1);
    }
  }

  /** A goroutine that looks at the bridge submits if and only if something is queued, the agent's
      thread is known, the agent is not busy, and no reply so far was fatal; and then the head. */
  lemma BeginsIff(r: Trace, n: nat)
    requires IsRun(r) && n < |r.events| && r.events[n].Check?
    ensures Begins(r, n) <==>
      && r.states[n].core.queue != [] && ThreadAfter(r, n) != "" && !BusyAfter(r, n)
      && !exists k | 0 <= k < n :: r.events[k].Finish? && Fatal(r.events[k].reply)
  {
    assert Moves(r, n);
    ThreadAndActivityAre(r, n);
    DisabledIff(r, n);
  }

  // ---------------------------------------------------------------- what is refused

  /** The event makes the bridge forget the action it had submitted: the agent is idle, or the
      submission failed. */
  predicate Forgets(e: Event) {
    e.TurnEnded? || (e.Finish? && (!e.reply.error.NoError? || Blank(e.reply.turnID)))
  }

  /** The action submitted at event i is the last one submitted before n, and not forgotten. */
  predicate ActiveSince(r: Trace, i: nat, n: nat) {
    Begins(r, i) && i < n <= |r.events| && forall m | i < m < n :: !Begins(r, m) && !Forgets(r.events[m])
  }

  lemma ActiveStep(r: Trace, n: nat)
    requires IsRun(r) && n < |r.events|
    ensures r.states[n + 1].core.activeAction
      == if Begins(r, n) then Some(Carried(r, n).action)
         else if Forgets(r.events[n]) then None else r.states[n].core.activeAction
  {
    assert Moves(r, n);
  }

  lemma ActiveSinceNext(r: Trace, i: nat, n: nat)
    requires IsRun(r) && n < |r.events|
    ensures ActiveSince(r, i, n + 1)
      <==> (i == n && Begins(r, n)) || (ActiveSince(r, i, n) && !Begins(r, n) && !Forgets(r.events[n]))
  {
  }

  /** The bridge holds exactly the action it submitted last, until that is forgotten. */
  lemma {:induction false} ActiveActionIs(r: Trace, n: nat)
    requires IsRun(r) && n < |r.states|
    ensures forall i: nat | ActiveSince(r, i, n) :: r.states[n].core.activeAction == Some(Carried(r, i).action)
    ensures r.states[n].core.activeAction.Some? ==> exists i: nat :: ActiveSince(r, i, n)
  {
    if n > 0 {
      ActiveActionIs(r, n - 1);
      ActiveStep(r, n - 1);
      forall i: nat
        ensures ActiveSince(r, i, n) <==>
          (i == n - 1 && Begins(r, n - 1)) || (ActiveSince(r, i, n - 1) && !Begins(r, n - 1) && !Forgets(r.events[n - 1]))
      {
        ActiveSinceNext(r, i, n - 1);
      }
      if Begins(r, n - 1) {
        assert ActiveSince(r, n - 1, n);
      } else if r.states[n].core.activeAction.Some? {
        var i: nat :| ActiveSince(r, i, n - 1);
        assert ActiveSince(r, i, n);
      }
    }
  }

  /** A queued action carries the key, or the action submitted last, if it is not forgotten. */
  ghost predicate KeyHeld(r: Trace, n: nat, key: string)
    requires IsRun(r) && n < |r.states|
  {
    || (exists x | x in r.states[n].core.queue :: x.action.deliveryKey == key)
    || (exists i: nat :: ActiveSince(r, i, n) && Carried(r, i).action.deliveryKey == key)
  }

  /** What becomes of an action that is handed to the bridge: a blank line is refused, and so is
      everything after a fatal reply, and a plain action whose key is held; all else is taken. */
  lemma VerdictIs(r: Trace, n: nat, a: Action)
    requires IsRun(r) && n < |r.states|
    ensures Judged(r.states[n].core, a)
      == if Blank(a.line) then BlankLine
         else if exists k | 0 <= k < n :: r.events[k].Finish? && Fatal(r.events[k].reply) then Closed
         else if !a.controlOnly && a.review.None? && a.deliveryKey != "" && KeyHeld(r, n, a.deliveryKey) then Duplicate
         else Taken
  {
    DisabledIff(r, n);
    ActiveActionIs(r, n);
    var c := r.states[n].core;
    if x :| x in c.queue && x.action.deliveryKey == a.deliveryKey {
      var i :| 0 <= i < |c.queue| && c.queue[i] == x;
    }
  }

  lemma ControlsStep(s: System, e: Event, h: string)
    requires Enabled(s, e) && h in Step(s, e).core.controls
    ensures (h in s.core.controls && Step(s, e).core.controls[h] == s.core.controls[h])
      || (HearsControl(s, e) && e.action.handoffID == h && Step(s, e).core.controls[h] == e.action.review.value)
  {
  }

  lemma {:induction false} ControlWasHeard(r: Trace, n: nat, h: string) returns (d: nat)
    requires IsRun(r) && n < |r.states| && h in r.states[n].core.controls
    ensures d < n && HearsControl(r.states[d], r.events[d]) && r.events[d].action.handoffID == h
    ensures r.events[d].action.review.value == r.states[n].core.controls[h]
    decreases n
  {
    assert n > 0;
    assert Moves(r, n - 1);
    ControlsStep(r.states[n - 1], r.events[n - 1], h);
    if h in r.states[n - 1].core.controls && r.states[n].core.controls[h] == r.states[n - 1].core.controls[h] {
      d := ControlWasHeard(r, n - 1, h);
    } else {
      d := n - 1;
    }
  }

  /** The review is newer than every control heard for its handoff, than a review of it that was
      submitted last and not forgotten, and than every queued one. */
  ghost predicate Newest(r: Trace, n: nat, a: Action)
    requires IsRun(r) && n < |r.states| && IsReview(a)
  {
    && (forall d: nat | d < n && HearsControl(r.states[d], r.events[d]) && r.events[d].action.handoffID == a.handoffID ::
          r.events[d].action.review.value < a.review.value)
    && (forall i: nat | ActiveSince(r, i, n) && ReviewOf(Carried(r, i).action, a.handoffID) ::
          Carried(r, i).action.review.value < a.review.value)
    && (forall x | x in r.states[n].core.queue && ReviewOf(x.action, a.handoffID) :: x.action.review.value < a.review.value)
  }

  lemma StaleIffNotNewest(r: Trace, n: nat, a: Action)
    requires IsRun(r) && n < |r.states| && IsReview(a)
    ensures IsStale(r.states[n].core, a) <==> !Newest(r, n, a)
  {
    var c := r.states[n].core;
    ActiveActionIs(r, n);
    if a.handoffID in c.controls {
      var d := ControlWasHeard(r, n, a.handoffID);
    }
    forall d: nat | d < n && HearsControl(r.states[d], r.events[d]) && r.events[d].action.handoffID == a.handoffID
      ensures a.handoffID in c.controls && r.events[d].action.review.value <= c.controls[a.handoffID]
    {
      ControlRemembered(r, d, n);
    }
    forall x | x in c.queue && ReviewOf(x.action, a.handoffID) && a.review.value <= x.action.review.value
      ensures IsStale(c, a)
    {
      var i :| 0 <= i < |c.queue| && c.queue[i] == x;
      assert Outranks(c.queue[i].action, a);
    }
  }

  /** A review that is handed to an enabled bridge is queued if and only if it is the newest of its
      handoff that the bridge has heard of; otherwise nothing changes. */
  lemma ReviewQueuedIff(r: Trace, n: nat)
    requires IsRun(r) && n < |r.events| && r.events[n].Enqueue?
    requires var a := r.events[n].action; IsReview(a) && !a.controlOnly && !Blank(a.line) && !r.states[n].core.disabled
    ensures var a, q, q' := r.events[n].action, r.states[n].core.queue, r.states[n + 1].core.queue;
      (Newest(r, n, a) <==> exists y :: y in q' && y !in q && y.action == a) && (!Newest(r, n, a) ==> q' == q)
  {
    assert Moves(r, n);
    ReachableStatesAreSound(r, n);
    EnqueuedEntries(r.states[n].core, r.events[n].action);
    StaleIffNotNewest(r, n, r.events[n].action);
  }

  // ---------------------------------------------------------------- popping by position

  predicate DisplacesEntry(s: System, e: Event, x: Entry) {
    e.Enqueue? && Displaces(s.core, e.action, x.action)
  }

  lemma HeadIffQueued(c: Core, x: Entry)
    requires QueueInv(c) && FlightInv(c, x)
    ensures x in c.queue <==> c.queue != [] && c.queue[0] == x
  {
    if x in c.queue {
      assert c.queue[0] in c.queue;
      var i :| 0 <= i < |c.queue| && c.queue[i] == x;
    }
  }

  /** One event of another goroutine: x stays queued exactly when it was and is not displaced. */
  lemma StepKeepsFlown(s: System, e: Event, t: nat, x: Entry)
    requires SystemInv(s) && Enabled(s, e) && Flying(s, t, x) && !FinishesBy(e, t)
    ensures x in Step(s, e).core.queue <==> x in s.core.queue && !DisplacesEntry(s, e, x)
  {
    if e.Enqueue? {
      EnqueuedEntries(s.core, e.action);
    }
  }

  /** No event strictly between i and n displaced x. */
  predicate Undisturbed(r: Trace, i: nat, n: nat, x: Entry)
    requires IsRun(r) && n <= |r.events|
  {
    forall m | i < m < n :: !DisplacesEntry(r.states[m], r.events[m], x)
  }

  lemma {:induction false} FlownUntil(r: Trace, i: nat, k: nat, n: nat)
    requires Flight(r, i, k) && i < n <= k
    ensures Carried(r, i) in r.states[n].core.queue <==> Undisturbed(r, i, n, Carried(r, i))
  {
    assert Moves(r, n - 1);
    if n > i + 1 {
      FlownUntil(r, i, k, n - 1);
      FlightHolds(r, i, n - 1);
      ReachableStatesAreSound(r, n - 1);
      StepKeepsFlown(r.states[n - 1], r.events[n - 1], r.events[i].t, Carried(r, i));
    }
  }

  /** The commit pops the submitted action exactly when no enqueue displaced it during StartTurn. */
  lemma CommitPopsOwnActionIff(r: Trace, i: nat, k: nat)
    requires Flight(r, i, k) && Accepts(r.states[k], r.events[k])
    ensures var q := r.states[k].core.queue;
      (q != [] && q[0] == Carried(r, i)) <==> Undisturbed(r, i, k, Carried(r, i))
  {
    FlownUntil(r, i, k, k);
    FlightHolds(r, i, k);
    ReachableStatesAreSound(r, k);
    HeadIffQueued(r.states[k].core, Carried(r, i));
  }

  // ---------------------------------------------------------------- retrying

  /** Nothing in the queue stands before x. */
  predicate Foremost(s: System, x: Entry) {
    && NoneFlying(s) && x.slot < s.core.nextSlot
    && (forall y | y in s.core.queue :: x.slot <= y.slot)
    && (forall y | y in s.core.queue && y.slot == x.slot :: y == x || Supersedes(y.action, x.action))
  }

  lemma ForemostStep(s: System, e: Event, x: Entry)
    requires SystemInv(s) && Enabled(s, e) && Foremost(s, x) && !Reserves(s, e)
    ensures Foremost(Step(s, e), x)
    ensures x in Step(s, e).core.queue <==> x in s.core.queue && !DisplacesEntry(s, e, x)
  {
    if e.Enqueue? {
      EnqueuedEntries(s.core, e.action);
    }
  }

  /** A submission that ended with a definite error, while the app server is there, leaves the bridge
      enabled and idle and its queue as it was. */
  lemma DefiniteErrorFreesBridge(r: Trace, i: nat, k: nat)
    requires Flight(r, i, k) && r.events[k].reply.error.OtherError? && !r.events[k].reply.connectionFailed
    ensures var c, c' := r.states[k].core, r.states[k + 1].core;
      !c'.disabled && !c'.active && c'.activeAction.None? && c'.queue == c.queue
    ensures Foremost(r.states[k + 1], Carried(r, i))
    ensures Carried(r, i) in r.states[k + 1].core.queue <==> Undisturbed(r, i, k + 1, Carried(r, i))
  {
    assert Moves(r, k);
    FlightHolds(r, i, k);
    ReachableStatesAreSound(r, k);
    FlownUntil(r, i, k, k);
    NotDisabledInFlight(r, i, k);
    assert Undisturbed(r, i, k + 1, Carried(r, i)) <==> Undisturbed(r, i, k, Carried(r, i));
    forall u | u in r.states[k].pumps && r.states[k].pumps[u].InFlight? ensures u == r.events[i].t {
      FlightIsAlone(r, i, k, k, u);
    }
  }

  lemma {:induction false} NotDisabledInFlight(r: Trace, i: nat, n: nat)
    requires Begins(r, i) && i <= n <= |r.events|
    requires forall m | i < m < n :: !FinishesBy(r.events[m], r.events[i].t)
    ensures !r.states[n].core.disabled
  {
    if n > i {
      NotDisabledInFlight(r, i, n - 1);
      assert Moves(r, n - 1);
      DisabledStep(r.states[n - 1], r.events[n - 1]);
      if n > i + 1 && r.events[n - 1].Finish? {
        FlightHolds(r, i, n - 1);
        AtMostOneStartTurn(r, n - 1, r.events[i].t, r.events[n - 1].t, Carried(r, i), r.states[n - 1].pumps[r.events[n - 1].t].entry);
      }
    }
  }

  lemma {:induction false} ForemostUntil(r: Trace, k: nat, n: nat, x: Entry)
    requires IsRun(r) && k <= n <= |r.events| && Foremost(r.states[k], x)
    requires forall m | k <= m < n :: !Begins(r, m)
    ensures Foremost(r.states[n], x)
    ensures x in r.states[n].core.queue
      <==> x in r.states[k].core.queue && forall m | k <= m < n :: !DisplacesEntry(r.states[m], r.events[m], x)
    decreases n
  {
    if k < n {
      ForemostUntil(r, k, n - 1, x);
      assert Moves(r, n - 1);
      assert !Begins(r, n - 1);
      ReachableStatesAreSound(r, n - 1);
      ForemostStep(r.states[n - 1], r.events[n - 1], x);
    }
  }

  /** The next submission after such an error, whenever it begins, is of the same action, if and only
      if no enqueue displaced it since it was first submitted. */
  lemma RetriedAfterDefiniteError(r: Trace, i: nat, k: nat, j: nat)
    requires Flight(r, i, k) && r.events[k].reply.error.OtherError? && !r.events[k].reply.connectionFailed
    requires k < j && Begins(r, j) && forall m | k < m < j :: !Begins(r, m)
    ensures Carried(r, j) == Carried(r, i) <==> Undisturbed(r, i, j, Carried(r, i))
  {
    var x := Carried(r, i);
    DefiniteErrorFreesBridge(r, i, k);
    ForemostUntil(r, k + 1, j, x);
    ReachableStatesAreSound(r, j);
    var q := r.states[j].core.queue;
    assert q[0] in q;
    if x in q {
      var a :| 0 <= a < |q| && q[a] == x;
    }
  }

  // ---------------------------------------------------------------- conservation

  /** Why an entry left the queue. Dropped is the one no one asked for: it was popped in the
      place of another action that had been submitted. */
  datatype Fate = Submitted | Replaced(cause: Action) | ControlPruned(cause: Action) | ApprovalPruned(cause: Action) | Dropped

  predicate Leaves(s: System, e: Event, x: Entry, f: Fate)
    requires Enabled(s, e)
  {
    && x in s.core.queue && x !in Step(s, e).core.queue
    && match f
       case Submitted => Accepts(s, e) && s.pumps[e.t] == InFlight(x) && x in Step(s, e).submitted
       case Replaced(a) => e.Enqueue? && e.action == a && !a.controlOnly && Supersedes(a, x.action)
                           && Entry(x.slot, a) in Step(s, e).core.queue
       case ControlPruned(a) => e.Enqueue? && e.action == a && a.controlOnly && Supersedes(a, x.action)
       case ApprovalPruned(a) => e.Enqueue? && e.action == a && IsGoalReceipt(a)
                                 && x.action.eventName == "decision.approved" && x.action.goalID == a.goalID
       case Dropped => Accepts(s, e) && s.core.queue[0] == x && s.pumps[e.t].entry != x
  }

  lemma LeavesSomehow(s: System, e: Event, x: Entry) returns (f: Fate)
    requires SystemInv(s) && Enabled(s, e) && x in s.core.queue && x !in Step(s, e).core.queue
    ensures Leaves(s, e, x, f)
  {
    if e.Enqueue? {
      EnqueuedEntries(s.core, e.action);
      f := if e.action.controlOnly then ControlPruned(e.action)
           else if IsReview(e.action) then Replaced(e.action) else ApprovalPruned(e.action);
    } else {
      var q := s.core.queue;
      assert forall j | 1 <= j < |q| :: q[1..][j - 1] == q[j];
      f := if s.pumps[e.t].entry == x then Submitted else Dropped;
      assert s.pumps[e.t].entry in Step(s, e).submitted;
    }
  }

  /** Every action that is ever queued is still queued, or left for one of the known reasons. */
  lemma {:induction false} EveryActionAccountedFor(r: Trace, i: nat, n: nat, x: Entry) returns (m: nat, f: Fate)
    requires IsRun(r) && i <= n < |r.states| && x in r.states[i].core.queue
    ensures x in r.states[n].core.queue || (i <= m < n && Moves(r, m) && Leaves(r.states[m], r.events[m], x, f))
    decreases n
  {
    m, f := 0, Submitted;
    if i < n {
      m, f := EveryActionAccountedFor(r, i, n - 1, x);
      assert Moves(r, n - 1);
      if x in r.states[n - 1].core.queue && x !in r.states[n].core.queue {
        ReachableStatesAreSound(r, n - 1);
        m := n - 1;
        f := LeavesSomehow(r.states[n - 1], r.events[n - 1], x);
      }
    }
  }

  /** And every action the bridge admits is queued by that very step, so that it too is still queued
      or left for one of those reasons. */
  lemma AdmittedActionAccountedFor(r: Trace, i: nat, n: nat) returns (x: Entry, m: nat, f: Fate)
    requires IsRun(r) && i < n < |r.states| && r.events[i].Enqueue? && Admits(r.states[i].core, r.events[i].action)
    ensures x.action == r.events[i].action && x !in r.states[i].core.queue && x in r.states[i + 1].core.queue
    ensures x in r.states[n].core.queue || (i < m < n && Moves(r, m) && Leaves(r.states[m], r.events[m], x, f))
  {
    ReachableStatesAreSound(r, i);
    EnqueuedEntries(r.states[i].core, r.events[i].action);
    assert Moves(r, i);
    x :| x in r.states[i + 1].core.queue && x !in r.states[i].core.queue && x.action == r.events[i].action;
    m, f := EveryActionAccountedFor(r, i + 1, n, x);
  }

  lemma FlightStep(s: System, e: Event, t: nat)
    requires Enabled(s, e) && t in Step(s, e).pumps && Step(s, e).pumps[t].InFlight?
    ensures if t in s.pumps && s.pumps[t].InFlight? then Step(s, e).pumps[t] == s.pumps[t] && !FinishesBy(e, t)
            else Reserves(s, e) && e.t == t && Step(s, e).pumps[t].entry == s.core.queue[0]
  {
  }

  /** The reservation that a pending StartTurn came from. */
  lemma {:induction false} FlightOrigin(r: Trace, n: nat, t: nat) returns (i: nat)
    requires IsRun(r) && n < |r.states| && t in r.states[n].pumps && r.states[n].pumps[t].InFlight?
    ensures i < n && Begins(r, i) && r.events[i].t == t && Carried(r, i) == r.states[n].pumps[t].entry
    ensures forall m | i < m < n :: !FinishesBy(r.events[m], t)
    decreases n
  {
    assert Moves(r, n - 1);
    var s := r.states[n - 1];
    FlightStep(s, r.events[n - 1], t);
    if t in s.pumps && s.pumps[t].InFlight? {
      i := FlightOrigin(r, n - 1, t);
    } else {
      i := n - 1;
    }
  }

  /** An action is dropped only after an enqueue displaced the action that was being submitted. */
  lemma DroppedOnlyAfterDisplacement(r: Trace, m: nat, x: Entry) returns (i: nat, d: nat)
    requires IsRun(r) && m < |r.events| && Moves(r, m) && Leaves(r.states[m], r.events[m], x, Dropped)
    ensures i < d < m && Flight(r, i, m) && DisplacesEntry(r.states[d], r.events[d], Carried(r, i))
  {
    i := FlightOrigin(r, m, r.events[m].t);
    CommitPopsOwnActionIff(r, i, m);
    d :| i < d < m && DisplacesEntry(r.states[d], r.events[d], Carried(r, i));
  }

  /** No enqueue of the run displaces an action while it is being submitted. */
  predicate SubmissionsUndisturbed(r: Trace)
    requires IsRun(r)
  {
    forall d, t | 0 <= d < |r.events| && t in r.states[d].pumps && r.states[d].pumps[t].InFlight? ::
      !DisplacesEntry(r.states[d], r.events[d], r.states[d].pumps[t].entry)
  }

  /** In such a run nothing is dropped: an action leaves the queue by its own submission, by a
      newer review that takes its slot, by a control, or by the receipt of its goal. */
  lemma NothingDropped(r: Trace, i: nat, n: nat, x: Entry) returns (m: nat, f: Fate)
    requires IsRun(r) && i <= n < |r.states| && x in r.states[i].core.queue && SubmissionsUndisturbed(r)
    ensures x in r.states[n].core.queue ||
            (i <= m < n && Moves(r, m) && Leaves(r.states[m], r.events[m], x, f) && !f.Dropped?)
  {
    m, f := EveryActionAccountedFor(r, i, n, x);
    if x !in r.states[n].core.queue && f.Dropped? {
      var j, d := DroppedOnlyAfterDisplacement(r, m, x);
      FlightHolds(r, j, d);
      assert false;
    }
  }

  /** In such a run pump never pops an empty queue. */
  lemma NoPanic(r: Trace, k: nat)
    requires IsRun(r) && k < |r.events| && SubmissionsUndisturbed(r)
    ensures !r.states[k + 1].panicked
  {
    assert Moves(r, k);
    if Accepts(r.states[k], r.events[k]) {
      var i := FlightOrigin(r, k, r.events[k].t);
      forall d | i < d < k ensures !DisplacesEntry(r.states[d], r.events[d], Carried(r, i)) {
        FlightHolds(r, i, d);
      }
      CommitPopsOwnActionIff(r, i, k);
    }
  }

  // ---------------------------------------------------------------- runs that break conservation

  /** Action a is being submitted alone when b is enqueued; then the server accepts a. */
  function Overtaken(thread: string, a: Action, b: Action, turn: string): Trace
    requires thread != "" && !Blank(turn) && !Blank(a.line) && !a.controlOnly && !Blank(b.line)
    requires IsReview(a) && Supersedes(b, a)
  {
    var events := [Enqueue(0, a), Acquire(0), Check(0), Enqueue(1, b), Finish(0, Reply(NoError, turn, false))];
    var s0 := Start(thread);
    assert Coalesced([], a, 0, false) == [Entry(0, a)];
    var s1 := Step(s0, events[0]);
    assert s1.core.queue == [Entry(0, a)];
    var s2 := Step(s1, events[1]);
    var s3 := Step(s2, events[2]);
    OvertakenCore(s3.core, a, b);
    var s4 := Step(s3, events[3]);
    Trace([s0, s1, s2, s3, s4, Step(s4, events[4])], events)
  }

  /** b, enqueued while a is being submitted alone, takes a out of the queue. */
  lemma OvertakenCore(c: Core, a: Action, b: Action)
    requires c.queue == [Entry(0, a)] && c.controls == map[] && c.activeAction == Some(a) && !c.disabled
    requires IsReview(a) && Supersedes(b, a) && !Blank(b.line)
    ensures Judged(c, b).Taken?
    ensures Enqueued(c, b).queue == if b.controlOnly then [] else [Entry(0, b)]
  {
    assert c.queue[1..] == [];
    if b.controlOnly {
      assert Pruned(c.queue, ReviewsBefore(b.handoffID, b.review.value)) == [];
    } else {
      assert !IsStale(c, b);
      assert Coalesced(c.queue[1..], b, c.nextSlot, true) == [];
      assert Coalesced(c.queue, b, c.nextSlot, false) == [Entry(0, b)];
    }
  }

  /** A newer review that arrives while the older one is being submitted is lost: it was queued,
      it is queued no more, and only the older one was ever submitted. A control that arrives
      instead makes pump slice an empty queue. */
  lemma OvertakenActionIsLost(thread: string, a: Action, b: Action, turn: string)
    requires thread != "" && !Blank(turn) && !Blank(a.line) && !a.controlOnly && !Blank(b.line)
    requires IsReview(a) && Supersedes(b, a)
    ensures var r := Overtaken(thread, a, b, turn);
      && IsRun(r)
      && r.states[5].submitted == [Entry(0, a)] && r.states[5].core.queue == []
      && (!b.controlOnly ==> Leaves(r.states[4], r.events[4], Entry(0, b), Dropped) && !r.states[5].panicked)
      && (b.controlOnly ==> r.states[5].panicked)
  {
    var r := Overtaken(thread, a, b, turn);
    assert Coalesced([], a, 0, false) == [Entry(0, a)];
    assert Moves(r, 0) && Moves(r, 1) && Moves(r, 2) && Moves(r, 3) && Moves(r, 4);
    assert r.states[3].core.queue == [Entry(0, a)];
    OvertakenCore(r.states[3].core, a, b);
    assert r.states[4].core.queue == if b.controlOnly then [] else [Entry(0, b)];
  }
}
