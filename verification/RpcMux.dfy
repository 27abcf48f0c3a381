/** codexAppServer's request multiplexer: one reader, any number of callers, one failure. */
module RpcMux {
  import opened Wrappers

  datatype Response = Result(id: int, payload: string) | Failure

  /** A response channel with room for one value; sends counts the values ever sent on it. */
  datatype Channel = Channel(buffer: seq<Response>, sends: nat)

  datatype Reason = Cancelled | WriteFailed | Closed
  datatype Ending = Answered(response: Response) | GaveUp(reason: Reason)

  /** Where a call stands: it has an id, it waits on its channel, it removes itself from the
      pending table, or it has returned. */
  datatype CallPc = Allocated | Waiting | Removing(reason: Reason) | Returned(ending: Ending)

  datatype ReaderPc = Reading | Sending(id: int, response: Response) | Stopped

  /** fail runs once: it starts, drains the pending table, and closes done. */
  datatype FailPc = Running | Failing | Drained | DoneClosed

  datatype Mux = Mux(
    nextID: int, pending: set<int>, channels: map<int, Channel>, calls: map<int, CallPc>,
    reader: ReaderPc, failure: FailPc)

  datatype Event =
    | Allocate
    | Register(id: int)
    | Take(wireID: Option<int>, payload: string)
    | Send
    | BeginFail
    | Drain
    | CloseDone
    | Receive(id: int)
    | GiveUp(id: int, reason: Reason)
    | Remove(id: int)

  function Start(): Mux { Mux(0, {}, map[], map[], Reading, Running) }

  predicate Enabled(m: Mux, e: Event) {
    match e
    case Allocate => true
    case Register(id) => id in m.calls && m.calls[id].Allocated?
    case Take(_, _) => m.reader.Reading?
    case Send => m.reader.Sending? && m.reader.id in m.channels && |m.channels[m.reader.id].buffer| < 1
    case BeginFail => m.failure.Running?
    case Drain => m.failure.Failing?
    case CloseDone => m.failure.Drained?
    case Receive(id) => id in m.calls && m.calls[id].Waiting? && id in m.channels && m.channels[id].buffer != []
    case GiveUp(id, reason) => id in m.calls && m.calls[id].Waiting? && (reason.Closed? ==> m.failure.DoneClosed?)
    case Remove(id) => id in m.calls && m.calls[id].Removing?
  }

  function Pushed(ch: Channel, r: Response): Channel { Channel(ch.buffer + [r], ch.sends + 1) }

  /** The channels after fail sent its failure to every pending id. */
  function Failed(channels: map<int, Channel>, ids: set<int>): map<int, Channel> {
    map id | id in channels :: if id in ids then Pushed(channels[id], Failure) else channels[id]
  }

  function Step(m: Mux, e: Event): Mux
    requires Enabled(m, e)
  {
    match e
    case Allocate =>
      var id := m.nextID + 1;
      m.(nextID := id, channels := m.channels[id := Channel([], 0)], calls := m.calls[id := Allocated])
    case Register(id) => m.(pending := m.pending + {id}, calls := m.calls[id := Waiting])
    case Take(wireID, payload) =>
      if wireID.Some? && wireID.value in m.pending then
        m.(pending := m.pending - {wireID.value}, reader := Sending(wireID.value, Result(wireID.value, payload)))
      else m.(reader := Stopped)
    case Send =>
      m.(channels := m.channels[m.reader.id := Pushed(m.channels[m.reader.id], m.reader.response)], reader := Reading)
    case BeginFail => m.(failure := Failing)
    case Drain => m.(channels := Failed(m.channels, m.pending), pending := {}, failure := Drained)
    case CloseDone => m.(failure := DoneClosed)
    case Receive(id) =>
      m.(channels := m.channels[id := m.channels[id].(buffer := m.channels[id].buffer[1..])],
         calls := m.calls[id := Returned(Answered(m.channels[id].buffer[0]))])
    case GiveUp(id, reason) => m.(calls := m.calls[id := Removing(reason)])
    case Remove(id) => m.(pending := m.pending - {id}, calls := m.calls[id := Returned(GaveUp(m.calls[id].reason))])
  }

  predicate Valid(es: seq<Event>)
    decreases |es|, 0
  {
    es == [] || (Valid(es[..|es| - 1]) && Enabled(Run(es[..|es| - 1]), es[|es| - 1]))
  }

  function Run(es: seq<Event>): Mux
    requires Valid(es)
    decreases |es|, 1
  {
    if es == [] then Start() else Step(Run(es[..|es| - 1]), es[|es| - 1])
  }

  // ---------------------------------------------------------------- invariant

  predicate Meant(id: int, r: Response) { r.Failure? || r.id == id }

  predicate ChannelInv(id: int, ch: Channel) {
    ch.sends <= 1 && |ch.buffer| <= ch.sends && forall r | r in ch.buffer :: Meant(id, r)
  }

  /** Someone may still send on the channel of id: it is registered, or the reader took it. */
  predicate Owed(m: Mux, id: int) {
    id in m.pending || (m.reader.Sending? && m.reader.id == id)
  }

  /** What holds of one call, its channel and its place in the table. */
  predicate CallInv(m: Mux, id: int)
    requires id in m.calls && id in m.channels
  {
    && id <= m.nextID
    && ChannelInv(id, m.channels[id])
    && (Owed(m, id) ==> m.channels[id] == Channel([], 0))
    && match m.calls[id]
       case Allocated => !Owed(m, id) && m.channels[id].sends == 0
       case Waiting => true
       case Removing(_) => true
       case Returned(Answered(r)) => id !in m.pending && Meant(id, r)
       case Returned(GaveUp(_)) => id !in m.pending
  }

  predicate MuxInv(m: Mux) {
    && m.channels.Keys == m.calls.Keys && m.pending <= m.calls.Keys
    && (m.reader.Sending? ==>
          m.reader.id in m.calls && m.reader.id !in m.pending && Meant(m.reader.id, m.reader.response))
    && forall id | id in m.calls :: CallInv(m, id)
  }

  lemma ReceiveKeepsInv(m: Mux, e: Event)
    requires MuxInv(m) && Enabled(m, e) && e.Receive?
    ensures MuxInv(Step(m, e))
  {
    var m', ch := Step(m, e), m.channels[e.id];
    assert CallInv(m, e.id) && ch.buffer[0] in ch.buffer;
    assert forall r | r in ch.buffer[1..] :: r in ch.buffer;
    assert forall id | id in m.calls && id != e.id :: CallInv(m, id) && CallInv(m', id);
  }

  lemma DrainKeepsInv(m: Mux, e: Event)
    requires MuxInv(m) && Enabled(m, e) && e.Drain?
    ensures MuxInv(Step(m, e))
  {
    var m' := Step(m, e);
    forall id | id in m'.calls ensures CallInv(m', id) {
      assert CallInv(m, id);
    }
  }

  lemma StepKeepsInv(m: Mux, e: Event)
    requires MuxInv(m) && Enabled(m, e)
    ensures MuxInv(Step(m, e))
  {
    if e.Receive? {
      ReceiveKeepsInv(m, e);
    } else if e.Drain? {
      DrainKeepsInv(m, e);
    } else {
      var m' := Step(m, e);
      forall id | id in m'.calls ensures CallInv(m', id) {
        assert id in m.calls ==> CallInv(m, id);
      }
    }
  }

  /** In every interleaving the table, the channels and the calls stay consistent. */
  lemma {:induction false} ReachableStatesAreSound(es: seq<Event>)
    requires Valid(es)
    ensures MuxInv(Run(es))
  {
    if es != [] {
      ReachableStatesAreSound(es[..|es| - 1]);
      StepKeepsInv(Run(es[..|es| - 1]), es[|es| - 1]);
    }
  }

  // ---------------------------------------------------------------- theorems

  /** No send ever blocks: the reader's channel and every pending channel have room. */
  lemma NoSendBlocks(es: seq<Event>)
    requires Valid(es)
    ensures var m := Run(es);
      && (m.reader.Sending? ==>
            Enabled(m, Send) && m.reader.id in m.channels && m.channels[m.reader.id] == Channel([], 0))
      && forall id | id in m.pending :: id in m.channels && m.channels[id] == Channel([], 0)
  {
    ReachableStatesAreSound(es);
    var m := Run(es);
    assert forall id | id in m.pending :: CallInv(m, id);
    assert m.reader.Sending? ==> CallInv(m, m.reader.id);
  }

  /** A channel gets at most one value, and a call that is answered gets the response to its
      own request or the failure. */
  lemma EachCallGetsItsOwnAnswer(es: seq<Event>, id: int)
    requires Valid(es) && id in Run(es).calls
    ensures id in Run(es).channels && Run(es).channels[id].sends <= 1
    ensures Run(es).calls[id].Returned? && Run(es).calls[id].ending.Answered? ==>
      Meant(id, Run(es).calls[id].ending.response)
  {
    ReachableStatesAreSound(es);
    assert CallInv(Run(es), id);
  }

  /** Event k is the response with this payload to id, which is pending. */
  predicate TakenAt(es: seq<Event>, k: nat, id: int, payload: string) {
    k < |es| && es[k] == Take(Some(id), payload) && Valid(es[..k]) && id in Run(es[..k]).pending
  }

  /** Event k fails id, which is pending. */
  predicate FailedAt(es: seq<Event>, k: nat, id: int) {
    k < |es| && es[k] == Drain && Valid(es[..k]) && id in Run(es[..k]).pending
  }

  /** What is sent to id is the payload of a response to it, or the failure that found it pending. */
  ghost predicate Caused(es: seq<Event>, id: int, r: Response) {
    match r
    case Result(i, payload) => i == id && exists k: nat :: TakenAt(es, k, id, payload)
    case Failure => exists k: nat :: FailedAt(es, k, id)
  }

  /** A call is answered for such a cause, or gave up for its reason. */
  ghost predicate Justified(es: seq<Event>, id: int, ending: Ending) {
    if ending.Answered? then Caused(es, id, ending.response) else GiveUp(id, ending.reason) in es
  }

  ghost predicate Explained(es: seq<Event>, id: int)
    requires Valid(es)
  {
    var m := Run(es);
    && (id in m.channels ==> forall r | r in m.channels[id].buffer :: Caused(es, id, r))
    && (m.reader.Sending? && m.reader.id == id ==> Caused(es, id, m.reader.response))
    && (id in m.calls && m.calls[id].Returned? ==> Justified(es, id, m.calls[id].ending))
    && (id in m.calls && m.calls[id].Removing? ==> GiveUp(id, m.calls[id].reason) in es)
  }

  lemma CausedStays(es: seq<Event>, e: Event, id: int, r: Response)
    requires Caused(es, id, r)
    ensures Caused(es + [e], id, r)
  {
    var es' := es + [e];
    assert forall k: nat | k < |es| :: es'[..k] == es[..k] && es'[k] == es[k];
    match r
    case Result(_, payload) =>
      var k: nat :| TakenAt(es, k, id, payload);
      assert TakenAt(es', k, id, payload);
    case Failure =>
      var k: nat :| FailedAt(es, k, id);
      assert FailedAt(es', k, id);
  }

  lemma LastIsTaken(es: seq<Event>, id: int, payload: string)
    requires Valid(es) && id in Run(es).pending
    ensures Caused(es + [Take(Some(id), payload)], id, Result(id, payload))
  {
    var es' := es + [Take(Some(id), payload)];
    assert es'[..|es|] == es;
    assert TakenAt(es', |es|, id, payload);
  }

  lemma LastFails(es: seq<Event>, id: int)
    requires Valid(es) && id in Run(es).pending
    ensures Caused(es + [Drain], id, Failure)
  {
    var es' := es + [Drain];
    assert es'[..|es|] == es;
    assert FailedAt(es', |es|, id);
  }

  lemma ExplainedNext(es: seq<Event>, e: Event, id: int)
    requires Valid(es) && Enabled(Run(es), e) && Explained(es, id) && Valid(es + [e]) && Run(es + [e]) == Step(Run(es), e)
    ensures Explained(es + [e], id)
  {
    var m := Run(es);
    forall r | Caused(es, id, r) ensures Caused(es + [e], id, r) {
      CausedStays(es, e, id, r);
    }
    match e
    case Take(wireID, payload) =>
      if wireID == Some(id) && id in m.pending {
        LastIsTaken(es, id, payload);
      }
    case Drain =>
      if id in m.pending {
        LastFails(es, id);
      }
    case Receive(i) =>
      if i == id {
        assert m.channels[id].buffer[0] in m.channels[id].buffer;
      }
    case _ =>
  }

  lemma {:induction false} AllExplained(es: seq<Event>, id: int)
    requires Valid(es)
    ensures Explained(es, id)
  {
    if es != [] {
      var before, e := es[..|es| - 1], es[|es| - 1];
      assert es == before + [e];
      AllExplained(before, id);
      ExplainedNext(before, e, id);
    }
  }

  /** A call that is answered with a result gets the payload of a response that carried its own id
      while it was pending; one that is failed was pending when everything failed; and one that gives
      up returns its own reason. */
  lemma AnswersHaveCauses(es: seq<Event>, id: int)
    requires Valid(es) && id in Run(es).calls && Run(es).calls[id].Returned?
    ensures var ending := Run(es).calls[id].ending;
      if ending.GaveUp? then GiveUp(id, ending.reason) in es
      else if ending.response.Failure? then exists k: nat :: FailedAt(es, k, id)
      else ending.response.id == id && exists k: nat :: TakenAt(es, k, id, ending.response.payload)
  {
    AllExplained(es, id);
  }

  /** The response to a pending id is what its channel holds when the reader has sent it. */
  lemma ResponseIsDelivered(es: seq<Event>, id: int, payload: string)
    requires Valid(es) && Run(es).reader.Reading? && id in Run(es).pending
    ensures var es' := es + [Take(Some(id), payload)] + [Send];
      && Valid(es') && id in Run(es').channels && id !in Run(es').pending
      && Run(es').channels[id].buffer == [Result(id, payload)] && Run(es').reader.Reading?
  {
    var one := es + [Take(Some(id), payload)];
    assert one[..|es|] == es;
    assert Valid(one);
    NoSendBlocks(one);
    NoSendBlocks(es);
    assert (one + [Send])[..|one|] == one;
  }

  /** Failing gives every pending call the failure and nothing to the others. */
  lemma DrainFailsPending(es: seq<Event>, id: int)
    requires Valid(es) && Run(es).failure.Failing? && id in Run(es).channels
    ensures var es' := es + [Drain];
      && Valid(es') && Run(es').pending == {} && id in Run(es').channels
      && Run(es').channels[id].buffer == if id in Run(es).pending then [Failure] else Run(es).channels[id].buffer
  {
    assert (es + [Drain])[..|es|] == es;
    NoSendBlocks(es);
  }

  /** Once every call has returned, the pending table is empty: no id leaks. */
  lemma NoPendingAfterReturn(es: seq<Event>)
    requires Valid(es) && forall id | id in Run(es).calls :: Run(es).calls[id].Returned?
    ensures Run(es).pending == {}
  {
    ReachableStatesAreSound(es);
    var m := Run(es);
    forall id | id in m.calls.Keys ensures id !in m.pending {
      assert CallInv(m, id);
    }
    assert !exists id: int :: id in m.pending;
  }

  /** Failing happens once, in three steps: it begins, it gives every pending call the failure, and
      only then is done closed. */
  lemma {:induction false} FailureIs(es: seq<Event>)
    requires Valid(es)
    ensures Run(es).failure
      == if CloseDone in es then DoneClosed else if Drain in es then Drained else if BeginFail in es then Failing else Running
    ensures (CloseDone in es ==> Drain in es) && (Drain in es ==> BeginFail in es)
  {
    if es != [] {
      var before, e := es[..|es| - 1], es[|es| - 1];
      FailureIs(before);
      assert es == before + [e];
    }
  }

  /** How many of its own steps a call is away from returning once done is closed. */
  function Distance(pc: CallPc): nat {
    match pc
    case Allocated => 3
    case Waiting => 2
    case Removing(_) => 1
    case Returned(_) => 0
  }

  function OwnStep(id: int, pc: CallPc): Event {
    match pc
    case Allocated => Register(id)
    case Waiting => GiveUp(id, Closed)
    case _ => Remove(id)
  }

  predicate IsOwnStep(e: Event, id: int) { e in {Register(id), GiveUp(id, Closed), Remove(id)} }

  /** After done is closed a call that has not returned can always move, and its own step brings
      it nearer to returning; no step of anyone else takes it further away or reopens done. */
  lemma EveryCallReturnsAfterDone(es: seq<Event>, id: int, other: Event)
    requires Valid(es) && Run(es).failure.DoneClosed? && id in Run(es).calls
    ensures var m := Run(es);
      && (!m.calls[id].Returned? ==>
            var e := OwnStep(id, m.calls[id]);
            Enabled(m, e) && id in Step(m, e).calls && Distance(Step(m, e).calls[id]) == Distance(m.calls[id]) - 1)
      && (Enabled(m, other) ==>
            id in Step(m, other).calls && Distance(Step(m, other).calls[id]) <= Distance(m.calls[id])
            && Step(m, other).failure.DoneClosed?)
  {
    ReachableStatesAreSound(es);
    assert CallInv(Run(es), id);
  }

  /** A call, from wherever it stands, returns by its own steps alone once done is closed. */
  lemma {:induction false} ReturnsAlone(es: seq<Event>, id: int) returns (es': seq<Event>)
    requires Valid(es) && Run(es).failure.DoneClosed? && id in Run(es).calls
    ensures Valid(es') && |es'| <= |es| + 3 && es <= es'
    ensures id in Run(es').calls && Run(es').calls[id].Returned?
    ensures |es'| - |es| == Distance(Run(es).calls[id])
    ensures forall k | |es| <= k < |es'| :: IsOwnStep(es'[k], id)
    decreases Distance(Run(es).calls[id])
  {
    if Run(es).calls[id].Returned? {
      es' := es;
    } else {
      var e := OwnStep(id, Run(es).calls[id]);
      EveryCallReturnsAfterDone(es, id, e);
      assert (es + [e])[..|es|] == es;
      es' := ReturnsAlone(es + [e], id);
    }
  }

  lemma NextIDIsFresh(m: Mux)
    requires MuxInv(m)
    ensures m.nextID + 1 !in m.channels && m.nextID + 1 !in m.pending
  {
    assert forall id | id in m.calls :: CallInv(m, id) && id <= m.nextID;
  }

  // ---------------------------------------------------------------- the Go object

  /** codexAppServer. Where the goroutines stand is not in its fields: the calls, the reader and fail
      are followed beside them, so that every method is a step of the machine. */
  class AppServer {
    var nextID: int
    var pending: set<int>
    var channels: map<int, Channel>
    ghost var calls: map<int, CallPc>
    ghost var reader: ReaderPc
    ghost var failure: FailPc

    ghost function State(): Mux
      reads this
    {
      Mux(nextID, pending, channels, calls, reader, failure)
    }

    ghost predicate Valid()
      reads this
    {
      MuxInv(State())
    }

    constructor ()
      ensures State() == Start() && Valid()
    {
      nextID, pending, channels := 0, {}, map[];
      calls, reader, failure := map[], Reading, Running;
    }

    /** The counter and the channel of call. */
    method AllocateID() returns (id: int)
      requires Valid()
      modifies this
      ensures Valid() && State() == Step(old(State()), Allocate) && id == nextID
      ensures id !in old(channels) && id !in old(pending)
    {
      NextIDIsFresh(State());
      StepKeepsInv(State(), Allocate);
      nextID := nextID + 1;
      id := nextID;
      channels := channels[id := Channel([], 0)];
      calls := calls[id := Allocated];
    }

    /** The critical section of call that makes the id pending. */
    method AddPending(id: int)
      requires Valid() && Enabled(State(), Register(id))
      modifies this
      ensures Valid() && State() == Step(old(State()), Register(id))
    {
      StepKeepsInv(State(), Register(id));
      pending := pending + {id};
      calls := calls[id := Waiting];
    }

    /** call up to its request: the two steps with nothing between them. */
    method Open() returns (id: int)
      requires Valid()
      modifies this
      ensures Valid() && id !in old(channels) && id !in old(pending) && id == old(nextID) + 1
      ensures State() == Step(Step(old(State()), Allocate), Register(id))
    {
      id := AllocateID();
      AddPending(id);
    }

    /** removePending, by a call that gives up. */
    method RemovePending(id: int)
      requires Valid() && Enabled(State(), Remove(id))
      modifies this
      ensures Valid() && State() == Step(old(State()), Remove(id))
    {
      StepKeepsInv(State(), Remove(id));
      pending := pending - {id};
      calls := calls[id := Returned(GaveUp(calls[id].reason))];
    }

    /** The critical section of readLoop: the id of a response stops being pending. */
    method TakePending(wireID: Option<int>, ghost payload: string) returns (id: Option<int>)
      requires Valid() && reader.Reading?
      modifies this
      ensures Valid() && State() == Step(old(State()), Take(wireID, payload))
      ensures id == if wireID.Some? && wireID.value in old(pending) then wireID else None
    {
      StepKeepsInv(State(), Take(wireID, payload));
      if wireID.None? || wireID.value !in pending {
        reader := Stopped;
        return None;
      }
      pending := pending - {wireID.value};
      reader := Sending(wireID.value, Result(wireID.value, payload));
      return wireID;
    }

    /** The send of readLoop, after the critical section; the channel has room. */
    method SendResponse(id: int, payload: string)
      requires Valid() && reader == Sending(id, Result(id, payload))
      modifies this
      ensures Valid() && old(Enabled(State(), Send)) && State() == Step(old(State()), Send)
    {
      assert CallInv(State(), id);
      StepKeepsInv(State(), Send);
      channels := channels[id := Pushed(channels[id], Result(id, payload))];
      reader := Reading;
    }

    /** readLoop's handling of a response message; false makes it fail and stop. */
    method Dispatch(wireID: Option<int>, payload: string) returns (known: bool)
      requires Valid() && reader.Reading?
      modifies this
      ensures Valid() && (known <==> wireID.Some? && wireID.value in old(pending))
      ensures !known ==> State() == Step(old(State()), Take(wireID, payload))
      ensures known ==>
        var taken := Step(old(State()), Take(wireID, payload));
        Enabled(taken, Send) && State() == Step(taken, Send)
    {
      var id := TakePending(wireID, payload);
      if id.None? {
        return false;
      }
      SendResponse(id.value, payload);
      return true;
    }

    /** The loop of fail over the pending table, in whatever order the map yields it. */
    method DrainPending()
      requires Valid() && failure.Failing?
      modifies this
      ensures Valid() && State() == Step(old(State()), Drain)
    {
      StepKeepsInv(State(), Drain);
      var rest := pending;
      ghost var done: set<int> := {};
      while rest != {}
        invariant pending == rest && done !! rest && done + rest == old(pending) <= channels.Keys
        invariant nextID == old(nextID) && calls == old(calls) && reader == old(reader)
        invariant channels == Failed(old(channels), done)
        decreases rest
      {
        var id := Any(rest);
        rest, done := rest - {id}, done + {id};
        channels := channels[id := Pushed(channels[id], Failure)];
        pending := pending - {id};
      }
      assert done == old(pending);
      failure := Drained;
    }
  }
}
