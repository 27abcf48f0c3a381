/** Every interleaving of the goroutines that share one bridge. */
module BridgeRuns {
  import opened Wrappers
  import opened Text
  import opened BridgeQueue
  import opened CodexMonitor

  /** Where a goroutine is inside pump: waiting for submitMu, holding it, or inside StartTurn. */
  datatype Pc = Waiting | Holding | InFlight(entry: Entry)

  /** The bridge, the goroutines inside pump, the entries whose StartTurn was accepted in order,
      whether the last submission failed and left its action queued, and whether pump panicked. */
  datatype System = System(
    core: Core, pumps: map<nat, Pc>, submitted: seq<Entry>, retryOwed: bool, panicked: bool)

  datatype Event =
    | Enqueue(t: nat, action: Action)
    | Acquire(t: nat)
    | Check(t: nat)
    | Finish(t: nat, reply: Reply)
    | TurnStarted
    | TurnEnded(t: nat)
    | ThreadStarted(t: nat, id: string, idle: bool)
    | Attach(t: nat, id: string, busy: bool)

  function Start(thread: string): System {
    System(Core(thread, false, [], None, map[], false, 0), map[], [], false, false)
  }

  /** submitMu is free. */
  predicate LockFree(s: System) {
    forall t | t in s.pumps :: s.pumps[t].Waiting?
  }

  predicate Enabled(s: System, e: Event) {
    !s.panicked &&
    match e
    case Enqueue(t, _) => t !in s.pumps
    case Acquire(t) => t in s.pumps && s.pumps[t].Waiting? && LockFree(s)
    case Check(t) => t in s.pumps && s.pumps[t].Holding?
    case Finish(t, _) => t in s.pumps && s.pumps[t].InFlight?
    case TurnStarted => true
    case TurnEnded(t) => t !in s.pumps
    case ThreadStarted(t, _, _) => t !in s.pumps
    case Attach(t, _, _) => t !in s.pumps
  }

  /** The event reserves a turn: it begins a StartTurn call. */
  predicate Reserves(s: System, e: Event) {
    Enabled(s, e) && e.Check? && MaySubmit(s.core)
  }

  /** The event ends a StartTurn call whose turn the server accepted. */
  predicate Accepts(s: System, e: Event) {
    Enabled(s, e) && e.Finish? && Judgement(e.reply).Accepted?
  }

  predicate AdoptsThread(s: System, e: Event) {
    e.ThreadStarted? && !Blank(e.id) && s.core.threadID == ""
  }

  /** The agent is reported idle, or the bridge is told so. */
  predicate GoesIdle(s: System, e: Event) {
    e.TurnEnded? || (AdoptsThread(s, e) && e.idle) || (e.Attach? && !Blank(e.id) && !e.busy)
  }

  function Step(s: System, e: Event): System
    requires Enabled(s, e)
  {
    match e
    case Enqueue(t, a) =>
      s.(core := Enqueued(s.core, a),
         pumps := if Judged(s.core, a).Taken? then s.pumps[t := Waiting] else s.pumps)
    case Acquire(t) => s.(pumps := s.pumps[t := Holding])
    case Check(t) =>
      if MaySubmit(s.core) then
        s.(core := Reserved(s.core), pumps := s.pumps[t := InFlight(s.core.queue[0])], retryOwed := false)
      else s.(pumps := s.pumps - {t})
    case Finish(t, reply) =>
      (match Judgement(reply)
       case Accepted =>
         var done := s.(pumps := s.pumps[t := Holding], submitted := s.submitted + [s.pumps[t].entry]);
         if s.core.queue == [] then done.(panicked := true) else done.(core := Settled(s.core, Accepted))
       case Transient => s.(core := Settled(s.core, Transient), pumps := s.pumps - {t}, retryOwed := true)
       case Terminal => s.(core := Settled(s.core, Terminal), pumps := s.pumps - {t}))
    case TurnStarted => s.(core := s.core.(active := true))
    case TurnEnded(t) => s.(core := Idled(s.core), pumps := s.pumps[t := Waiting])
    case ThreadStarted(t, id, idle) =>
      if AdoptsThread(s, e) then
        s.(core := Attached(s.core, id, !idle), pumps := if idle then s.pumps[t := Waiting] else s.pumps)
      else s
    case Attach(t, id, busy) =>
      if Blank(id) then s
      else s.(core := Attached(s.core, id, busy), pumps := if busy then s.pumps else s.pumps[t := Waiting])
  }

  /** A run: the events in order, and the state before each of them and after the last. */
  datatype Trace = Trace(states: seq<System>, events: seq<Event>)

  /** Event i was enabled and took state i to state i + 1. */
  predicate Moves(r: Trace, i: nat)
    requires |r.states| == |r.events| + 1 && i < |r.events|
  {
    Enabled(r.states[i], r.events[i]) && r.states[i + 1] == Step(r.states[i], r.events[i])
  }

  /** r is a run of the system from a new bridge. */
  predicate IsRun(r: Trace) {
    && |r.states| == |r.events| + 1
    && r.states[0] == Start(r.states[0].core.threadID)
    && forall i | 0 <= i < |r.events| :: Moves(r, i)
  }

  // ---------------------------------------------------------------- invariant of the system

  predicate OnePumpInside(s: System) {
    forall t, u | t in s.pumps && u in s.pumps && !s.pumps[t].Waiting? && !s.pumps[u].Waiting? :: t == u
  }

  /** x is being submitted: it was the head when StartTurn began, and an entry in its slot is
      x itself or a newer review of x's handoff. */
  predicate FlightInv(c: Core, x: Entry) {
    && x.slot < c.nextSlot
    && (c.activeAction.Some? ==> c.activeAction.value == x.action)
    && (forall y | y in c.queue :: x.slot <= y.slot)
    && (forall y | y in c.queue && y.slot == x.slot :: y == x || Supersedes(y.action, x.action))
  }

  predicate FlightsInv(s: System) {
    forall t | t in s.pumps && s.pumps[t].InFlight? :: FlightInv(s.core, s.pumps[t].entry)
  }

  /** Everything submitted came before everything still queued or in flight. */
  predicate LogInv(s: System) {
    && Sorted(s.submitted)
    && (forall x | x in s.submitted :: x.slot < s.core.nextSlot)
    && (forall x, y | x in s.submitted && y in s.core.queue && !s.panicked :: x.slot < y.slot)
    && (forall x, t | x in s.submitted && t in s.pumps && s.pumps[t].InFlight? :: x.slot < s.pumps[t].entry.slot)
  }

  /** An action that could be submitted has a goroutine in pump, or a failed submission behind it. */
  predicate NoneStranded(s: System) {
    MaySubmit(s.core) ==> s.pumps != map[] || s.retryOwed
  }

  predicate SystemInv(s: System) {
    QueueInv(s.core) && OnePumpInside(s) && FlightsInv(s) && LogInv(s) && NoneStranded(s)
  }

  lemma EnqueueKeepsFlight(c: Core, a: Action, x: Entry)
    requires QueueInv(c) && FlightInv(c, x)
    ensures FlightInv(Enqueued(c, a), x)
  {
    EnqueuedEntries(c, a);
  }

  lemma EnqueueKeepsSystemInv(s: System, e: Event)
    requires SystemInv(s) && Enabled(s, e) && e.Enqueue?
    ensures SystemInv(Step(s, e))
  {
    var s' := Step(s, e);
    EnqueuedKeepsInv(s.core, e.action);
    EnqueuedEntries(s.core, e.action);
    forall t | t in s'.pumps && s'.pumps[t].InFlight? ensures FlightInv(s'.core, s'.pumps[t].entry) {
      EnqueueKeepsFlight(s.core, e.action, s.pumps[t].entry);
    }
    if Judged(s.core, e.action).Taken? {
      assert e.t in s'.pumps;
    }
  }

  lemma CheckKeepsSystemInv(s: System, e: Event)
    requires SystemInv(s) && Enabled(s, e) && e.Check?
    ensures SystemInv(Step(s, e))
  {
    if MaySubmit(s.core) {
      var x, s' := s.core.queue[0], Step(s, e);
      assert x in s.core.queue;
      assert FlightInv(s'.core, x) by {
        forall y | y in s.core.queue ensures x.slot <= y.slot && (y.slot == x.slot ==> y == x) {
          var i :| 0 <= i < |s.core.queue| && s.core.queue[i] == y;
        }
      }
      assert NoneOlderThanActive(s'.core.queue, s'.core.activeAction);
      assert e.t in s'.pumps;
    }
  }

  lemma AcceptKeepsQueueInv(c: Core, x: Entry)
    requires QueueInv(c) && c.queue != [] && FlightInv(c, x)
    ensures var c' := Settled(c, Accepted); QueueInv(c') && forall y | y in c'.queue :: y in c.queue && x.slot < y.slot
  {
    var q := c.queue;
    assert q[0] in q;
    forall y | y in q[1..] ensures y in q && q[0].slot < y.slot {
      var i :| 0 <= i < |q[1..]| && q[1..][i] == y;
      assert q[i + 1] == y;
    }
  }

  lemma LogGrows(log: seq<Entry>, x: Entry)
    requires Sorted(log) && forall y | y in log :: y.slot < x.slot
    ensures Sorted(log + [x])
  {
    assert forall i | 0 <= i < |log| :: log[i] in log;
  }

  lemma {:induction false} AcceptKeepsSystemInv(s: System, e: Event)
    requires SystemInv(s) && Accepts(s, e)
    ensures SystemInv(Step(s, e))
  {
    var x, s' := s.pumps[e.t].entry, Step(s, e);
    assert e.t in s'.pumps;
    LogGrows(s.submitted, x);
    assert forall t | t in s'.pumps :: !s'.pumps[t].InFlight?;
    if s.core.queue != [] {
      AcceptKeepsQueueInv(s.core, x);
    }
  }

  lemma FailKeepsSystemInv(s: System, e: Event)
    requires SystemInv(s) && Enabled(s, e) && e.Finish? && !Accepts(s, e)
    ensures SystemInv(Step(s, e))
  {
    var s' := Step(s, e);
    assert forall t | t in s'.pumps :: t in s.pumps && t != e.t && s'.pumps[t] == s.pumps[t];
  }

  lemma AcquireKeepsSystemInv(s: System, e: Event)
    requires SystemInv(s) && Enabled(s, e) && e.Acquire?
    ensures SystemInv(Step(s, e))
  {
    assert e.t in Step(s, e).pumps;
  }

  /** A state with the same queue, log and flights, where a newcomer may wait for the lock. */
  lemma SameQueueKeepsSystemInv(s: System, s': System)
    requires SystemInv(s)
    requires s'.core == s.core.(threadID := s'.core.threadID, active := s'.core.active, activeAction := s'.core.activeAction)
    requires s'.core.activeAction == s.core.activeAction || s'.core.activeAction.None?
    requires s'.submitted == s.submitted && s'.panicked == s.panicked && s'.retryOwed == s.retryOwed
    requires s'.pumps == s.pumps || exists t: nat :: t !in s.pumps && s'.pumps == s.pumps[t := Waiting]
    requires NoneStranded(s')
    ensures SystemInv(s')
  {
    assert forall t | t in s'.pumps && !s'.pumps[t].Waiting? :: t in s.pumps && s'.pumps[t] == s.pumps[t];
    forall t | t in s'.pumps && s'.pumps[t].InFlight? ensures FlightInv(s'.core, s'.pumps[t].entry) {
      assert FlightInv(s.core, s.pumps[t].entry);
    }
  }

  /** Notifications and attaching leave the queue alone. */
  lemma NoticeKeepsSystemInv(s: System, e: Event)
    requires SystemInv(s) && Enabled(s, e)
    requires e.TurnStarted? || e.TurnEnded? || e.ThreadStarted? || e.Attach?
    ensures SystemInv(Step(s, e))
  {
    var s' := Step(s, e);
    if !e.TurnStarted? && s'.pumps != s.pumps {
      assert e.t in s'.pumps;
    }
    SameQueueKeepsSystemInv(s, s');
  }

  lemma StepKeepsInv(s: System, e: Event)
    requires SystemInv(s) && Enabled(s, e)
    ensures SystemInv(Step(s, e))
  {
    if e.Enqueue? {
      EnqueueKeepsSystemInv(s, e);
    } else if e.Check? {
      CheckKeepsSystemInv(s, e);
    } else if e.Acquire? {
      AcquireKeepsSystemInv(s, e);
    } else if !e.Finish? {
      NoticeKeepsSystemInv(s, e);
    } else if Accepts(s, e) {
      AcceptKeepsSystemInv(s, e);
    } else {
      FailKeepsSystemInv(s, e);
    }
  }

  /** Every reachable state satisfies the invariant: one queued review for each handoff, none
      older than a control seen, distinct delivery keys, one pump inside, nothing stranded. */
  lemma {:induction false} ReachableStatesAreSound(r: Trace, n: nat)
    requires IsRun(r) && n < |r.states|
    ensures SystemInv(r.states[n])
  {
    if n > 0 {
      ReachableStatesAreSound(r, n - 1);
      assert Moves(r, n - 1);
      StepKeepsInv(r.states[n - 1], r.events[n - 1]);
    }
  }
}
