/** codexMonitorBridge: its fields, and each critical section under stateMu as one method. */
module CodexMonitor {
  import opened Wrappers
  import opened Text
  import opened BridgeQueue

  /** What StartTurn returned. */
  datatype SubmitError = NoError | UnknownResult | OtherError
  datatype Reply = Reply(error: SubmitError, turnID: string, connectionFailed: bool)
  datatype Outcome = Accepted | Transient | Terminal

  /** A submission is terminal when its result is unknown: the turn may or may not have started. */
  function Judgement(r: Reply): (o: Outcome)
    ensures o.Accepted? <==> r.error.NoError? && !Blank(r.turnID)
    ensures o.Transient? <==> r.error.OtherError? && !r.connectionFailed
  {
    match r.error
    case NoError => if Blank(r.turnID) then Terminal else Accepted
    case UnknownResult => Terminal
    case OtherError => if r.connectionFailed then Terminal else Transient
  }

  /** The guard of the pump loop. */
  predicate MaySubmit(c: Core) {
    !c.disabled && !c.active && c.threadID != "" && c.queue != []
  }

  function Reserved(c: Core): Core
    requires MaySubmit(c)
  {
    c.(active := true, activeAction := Some(c.queue[0].action))
  }

  function Idled(c: Core): Core { c.(active := false, activeAction := None) }

  /** The section after StartTurn. Popping an empty queue panics, so it has no successor here. */
  function Settled(c: Core, o: Outcome): Core
    requires o.Accepted? ==> c.queue != []
  {
    match o
    case Accepted => c.(queue := c.queue[1..])
    case Transient => Idled(c)
    case Terminal => Idled(c).(disabled := true)
  }

  function Attached(c: Core, threadID: string, active: bool): Core {
    c.(threadID := threadID, active := active)
  }

  class Bridge {
    var threadID: string
    var active: bool
    var queue: seq<Entry>
    var activeAction: Option<Action>
    var controls: map<string, int>
    var disabled: bool
    var nextSlot: nat

    function State(): Core
      reads this
    {
      Core(threadID, active, queue, activeAction, controls, disabled, nextSlot)
    }

    constructor (thread: string)
      ensures State() == Core(thread, false, [], None, map[], false, 0)
      ensures QueueInv(State())
    {
      threadID, active, queue, activeAction := thread, false, [], None;
      controls, disabled, nextSlot := map[], false, 0;
    }

    /** enqueueAction up to the call of pump; pump is called exactly on Taken. */
    method EnqueueAction(action: Action) returns (verdict: Verdict)
      modifies this
      ensures State() == Enqueued(old(State()), action)
      ensures verdict == Judged(old(State()), action)
      ensures old(QueueInv(State())) ==> QueueInv(State())
    {
      if QueueInv(State()) {
        EnqueuedKeepsInv(State(), action);
      }
      if Blank(action.line) {
        return BlankLine;
      }
      if disabled {
        return Closed;
      }
      if action.controlOnly {
        if action.review.Some? {
          PruneQueued(ReviewsBefore(action.handoffID, action.review.value));
          RememberReviewControlGeneration(action.handoffID, action.review.value);
        }
        return Taken;
      }
      if action.review.Some? {
        EnqueueReviewAction(action);
      } else {
        var duplicate := HasKey(action.deliveryKey);
        if duplicate {
          return Duplicate;
        }
        if action.eventName == "goal.handoff.receive" && !Blank(action.goalID) {
          PruneQueued(ApprovalsOf(action.goalID));
        }
        queue, nextSlot := queue + [Entry(nextSlot, action)], nextSlot + 1;
      }
      return Taken;
    }

    /** enqueueWatchAction: the action of a watch, whose generation is read where it is needed. */
    method EnqueueWatchAction(
      line: string, eventName: string, goalID: string, deliveryKey: string, handoffID: string,
      generation: Option<int>, controlOnly: bool) returns (verdict: Verdict)
      modifies this
      ensures var action := Read(line, eventName, goalID, deliveryKey, handoffID, generation, controlOnly);
        State() == Enqueued(old(State()), action) && verdict == Judged(old(State()), action)
      ensures old(QueueInv(State())) ==> QueueInv(State())
    {
      var isReview := Contains(eventName, ".handoff.review.") && !Blank(handoffID) && generation.Some?;
      var review := if isReview then generation else None;
      verdict := EnqueueAction(Action(line, eventName, goalID, deliveryKey, handoffID, review, controlOnly));
    }

    /** enqueueReviewActionLocked. */
    method EnqueueReviewAction(action: Action)
      requires IsReview(action)
      modifies this
      ensures State() == WithReview(old(State()), action)
    {
      if action.handoffID in controls && action.review.value <= controls[action.handoffID] {
        return;
      }
      if activeAction.Some? && Outranks(activeAction.value, action) {
        return;
      }
      var outranked := OutrankedInQueue(action);
      if outranked {
        return;
      }
      CoalesceQueue(action);
    }

    /** The first loop of enqueueReviewActionLocked. */
    method OutrankedInQueue(action: Action) returns (outranked: bool)
      requires IsReview(action)
      ensures outranked <==> exists i :: 0 <= i < |queue| && Outranks(queue[i].action, action)
    {
      for i := 0 to |queue|
        invariant forall j | 0 <= j < i :: !Outranks(queue[j].action, action)
      {
        if queue[i].action.handoffID != action.handoffID {
          continue;
        }
        if queue[i].action.review.Some? && action.review.value <= queue[i].action.review.value {
          return true;
        }
      }
      return false;
    }

    /** The second loop of enqueueReviewActionLocked. */
    method CoalesceQueue(action: Action)
      requires IsReview(action)
      modifies this`queue, this`nextSlot
      ensures queue == Coalesced(old(queue), action, old(nextSlot), false)
      ensures nextSlot == old(nextSlot) + 1
    {
      var kept: seq<Entry> := [];
      var replaced := false;
      for i := 0 to |queue|
        invariant queue == old(queue) && nextSlot == old(nextSlot)
        invariant kept + Coalesced(queue[i..], action, nextSlot, replaced) == Coalesced(queue, action, nextSlot, false)
      {
        ghost var rest := Coalesced(queue[i + 1..], action, nextSlot, replaced);
        CoalescedFrom(queue, i, action, nextSlot, replaced);
        if queue[i].action.handoffID == action.handoffID && queue[i].action.review.Some? {
          if !replaced {
            Regrouped(kept, [Entry(queue[i].slot, action)], Coalesced(queue[i + 1..], action, nextSlot, true));
            kept, replaced := kept + [Entry(queue[i].slot, action)], true;
          }
          continue;
        }
        Regrouped(kept, [queue[i]], rest);
        kept := kept + [queue[i]];
      }
      if !replaced {
        kept := kept + [Entry(nextSlot, action)];
      }
      queue, nextSlot := kept, nextSlot + 1;
    }

    /** pruneQueuedReviewActionsLocked and pruneQueuedApprovalsLocked: the same in-place filter. */
    method PruneQueued(p: Pruning)
      modifies this`queue
      ensures queue == Pruned(old(queue), p)
    {
      var kept: seq<Entry> := [];
      for i := 0 to |queue|
        invariant queue == old(queue)
        invariant kept + Pruned(queue[i..], p) == Pruned(queue, p)
      {
        assert queue[i..] == [queue[i]] + queue[i + 1..];
        if Hits(p, queue[i].action) {
          continue;
        }
        kept := kept + [queue[i]];
      }
      queue := kept;
    }

    /** rememberReviewControlGenerationLocked. */
    method RememberReviewControlGeneration(handoffID: string, generation: int)
      modifies this`controls
      ensures controls == Remembered(old(controls), handoffID, generation)
      ensures handoffID in controls && generation <= controls[handoffID]
    {
      if handoffID in controls && generation <= controls[handoffID] {
        return;
      }
      controls := controls[handoffID := generation];
    }

    /** hasDeliveryKeyLocked. */
    method HasKey(deliveryKey: string) returns (found: bool)
      ensures found <==> HasDeliveryKey(State(), deliveryKey)
    {
      if deliveryKey == "" {
        return false;
      }
      if activeAction.Some? && activeAction.value.deliveryKey == deliveryKey {
        return true;
      }
      for i := 0 to |queue|
        invariant forall j | 0 <= j < i :: queue[j].action.deliveryKey != deliveryKey
      {
        if queue[i].action.deliveryKey == deliveryKey {
          return true;
        }
      }
      return false;
    }

    /** One turn of the pump loop before StartTurn: None ends the loop. */
    method Reserve() returns (head: Option<Entry>)
      modifies this
      ensures head.Some? <==> old(MaySubmit(State()))
      ensures head.Some? ==> head.value == old(queue)[0] && State() == Reserved(old(State()))
      ensures head.None? ==> State() == old(State())
    {
      if disabled || active || threadID == "" || |queue| == 0 {
        return None;
      }
      active, activeAction := true, Some(queue[0].action);
      return Some(queue[0]);
    }

    /** The section of a bridge without a turn starter, whose pump makes no request and ends with an
        error: the bridge is idle again, as after a request that failed for now. If nothing came
        between, the reservation is undone, and the head is still queued. */
    method Unreserve()
      modifies this
      ensures State() == Settled(old(State()), Transient)
      ensures forall c: Core | MaySubmit(c) && old(State()) == Reserved(c) :: State() == c.(activeAction := None)
    {
      active, activeAction := false, None;
    }

    /** The section after StartTurn returned. It panics when it pops an empty queue. */
    method Settle(reply: Reply) returns (panics: bool)
      modifies this
      ensures panics <==> Judgement(reply).Accepted? && old(queue) == []
      ensures State() == if panics then old(State()) else Settled(old(State()), Judgement(reply))
    {
      panics := false;
      if !reply.error.NoError? {
        if reply.connectionFailed {
          disabled := true;
        } else if reply.error.UnknownResult? {
          disabled := true;
        }
        active, activeAction := false, None;
        return;
      }
      if Blank(reply.turnID) {
        disabled, active, activeAction := true, false, None;
        return;
      }
      if |queue| == 0 {
        return true;
      }
      queue := queue[1..];
    }

    /** AttachThread; pump follows exactly when the result is true. */
    method AttachThread(id: string, busy: bool) returns (pumps: bool)
      modifies this
      ensures State() == if Blank(id) then old(State()) else Attached(old(State()), id, busy)
      ensures pumps <==> !Blank(id) && !busy
    {
      if Blank(id) {
        return false;
      }
      threadID, active := id, busy;
      return !busy;
    }

    /** thread/started: only the first thread is taken. */
    method ThreadStarted(id: string, idle: bool) returns (pumps: bool)
      modifies this
      ensures State() == if Blank(id) || old(threadID) != "" then old(State()) else Attached(old(State()), id, !idle)
      ensures pumps <==> !Blank(id) && old(threadID) == "" && idle
    {
      if Blank(id) || threadID != "" {
        return false;
      }
      threadID, active := id, !idle;
      return idle;
    }

    /** turn/started; a notification without a thread or about another one is ignored. */
    method TurnStarted(id: string)
      modifies this
      ensures State() == if id != "" && id == old(threadID) then old(State()).(active := true) else old(State())
    {
      if id == "" || id != threadID {
        return;
      }
      active := true;
    }

    /** turn/completed, and thread/status/changed to an idle status; pump follows exactly when the
        result is true. */
    method TurnEnded(id: string) returns (pumps: bool)
      modifies this
      ensures pumps <==> id != "" && id == old(threadID)
      ensures State() == if pumps then Idled(old(State())) else old(State())
    {
      if id == "" || id != threadID {
        return false;
      }
      active, activeAction := false, None;
      return true;
    }
  }
}
