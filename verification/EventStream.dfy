/** The event stream of one connection: a channel of published events merged with a polled scan
    that a watermark skips. */
module EventStream {
  import opened Wrappers
  import opened HandoffTracker

  /** eventFilter: the project, goal and task asked for, and the session behind the monitor token, 0
      when there is none. */
  datatype Filter = Filter(project: Option<int>, goal: Option<int>, task: Option<int>, session: int)

  /** What scanHandoffEntryRecords looks for: one task, or the goals left by the filter. */
  predicate Matches(f: Filter, e: HandoffEvent) {
    if f.task.Some? then e.scope == "task" && e.taskID == f.task.value
    else (f.goal.Some? ==> e.goalID == f.goal.value) && (f.project.Some? ==> e.projectID == f.project.value)
  }

  /** What one scan covers: it does not list the goals of projects that were hidden when it listed them. */
  predicate Covers(f: Filter, hidden: set<int>, e: HandoffEvent) { Matches(f, e) && e.projectID !in hidden }

  /** The part of eventPasses that looks at the session: not its own entry, and a party if any are known. */
  predicate Concerns(f: Filter, e: HandoffEvent) {
    f.session != 0 ==> e.author != f.session && (e.parties == {} || f.session in e.parties)
  }

  /** eventPasses for a handoff entry event; project is the one of the envelope, 0 when it has none. */
  predicate Passes(f: Filter, project: int, e: HandoffEvent) {
    && Normalized(e).Some? && Concerns(f, e)
    && (f.project.Some? ==>
          var p := if project != 0 then project else e.projectID;
          p == 0 || p == f.project.value)
    && (f.goal.Some? ==> e.goalID != 0 && e.goalID == f.goal.value)
    && (f.task.Some? ==> e.taskID != 0 && e.taskID == f.task.value)
  }

  /** An event the stream had not known, and whether it was written to the client. */
  datatype Verdict = Verdict(event: HandoffEvent, project: int, written: bool)

  /** What a connection knows, and its verdicts in order. */
  datatype View = View(known: set<EntryKey>, verdicts: seq<Verdict>)

  /** mark, and for news a verdict. */
  function Judged(v: View, f: Filter, project: int, e: HandoffEvent): View
    requires e.id > 0
  {
    if KeyOf(e) in v.known then v
    else View(v.known + {KeyOf(e)}, v.verdicts + [Verdict(e, project, Passes(f, project, e))])
  }

  /** One scan's records in order. */
  function JudgedAll(v: View, f: Filter, records: seq<HandoffEvent>): View
    requires forall e | e in records :: e.id > 0
  {
    if records == [] then v
    else
      var rest := records[..|records| - 1];
      Judged(JudgedAll(v, f, rest), f, 0, records[|records| - 1])
  }

  /** An entry as the store keeps it: who takes part in its handoff is not part of it. */
  function Entry(e: HandoffEvent): HandoffEvent { e.(parties := {}) }

  predicate Holds(records: seq<HandoffEvent>, e: HandoffEvent) { exists r | r in records :: Entry(r) == e }

  /** Where the select loop stands: waiting, having read the task entries' highest id, about to
      scan, or having listed the goals to scan. begun is how long the store's log was when the tick
      began, read how long it was when the watermark was read, and hidden are the projects whose
      goals were not listed. */
  datatype Pc =
    | Idle
    | HasTaskMax(taskMax: int, begun: nat)
    | Scanning(mark: Option<(int, int)>, begun: nat, read: nat)
    | Listed(mark: Option<(int, int)>, begun: nat, read: nat, hidden: set<int>)

  /** The store's append-only log of entries and its archived projects, and one connection to it.
      seen is the watermark of the last scan, -1 when unknown; seenParts are the two ids it is the
      sum of, and seenHidden the projects that scan left out. */
  datatype Stream = Stream(
    log: seq<HandoffEvent>, archived: set<int>, filter: Filter, base: set<EntryKey>, view: View, pc: Pc,
    seen: int, seenParts: (int, int), seenHidden: set<int>)

  /** The projects a scan leaves out: ListAllGoals drops those that are archived, but the scan of
      one task does not list goals. */
  function Hidden(s: Stream): set<int> { if s.filter.task.Some? then {} else s.archived }

  datatype Event =
    | Append(entry: HandoffEvent)
    | Archive(project: int)
    | Restore(project: int)
    | Publish(project: int, event: HandoffEvent)
    | ReadTaskMax(ok: bool)
    | ReadGoalMax(ok: bool)
    | ListGoals
    | Scan(ok: bool, records: seq<HandoffEvent>)

  /** COALESCE(MAX(id), 0) over one of the two tables. */
  function MaxID(log: seq<HandoffEvent>, scope: string): (m: int)
    ensures m >= 0
    ensures forall e | e in log && e.scope == scope :: e.id <= m
    ensures m == 0 || exists e :: e in log && e.scope == scope && e.id == m
  {
    if log == [] then 0
    else
      var m := MaxID(log[..|log| - 1], scope);
      var e := log[|log| - 1];
      assert log == log[..|log| - 1] + [e];
      if e.scope == scope && e.id > m then e.id else m
  }

  /** Rows are stored in one of the two tables, under an id above every earlier one of that table. */
  predicate Storable(log: seq<HandoffEvent>, e: HandoffEvent) {
    e.scope in {"goal", "task"} && (e.scope == "goal" <==> e.taskID == 0) && e.id > MaxID(log, e.scope) && e == Entry(e)
  }

  predicate Enabled(s: Stream, e: Event) {
    match e
    case Append(entry) => Storable(s.log, entry)
    case Archive(_) => true
    case Restore(_) => true
    case Publish(_, _) => s.pc.Idle?
    case ReadTaskMax(_) => s.pc.Idle?
    case ReadGoalMax(_) => s.pc.HasTaskMax?
    case ListGoals => s.pc.Scanning?
    case Scan(ok, records) =>
      // A scan may run while entries are appended: it returns every covered entry that was there
      // when it began, and only covered entries that are there, with the parties of the moment.
      && s.pc.Listed?
      && (forall r | r in records :: Entry(r) in s.log && r.id > 0 && Covers(s.filter, s.pc.hidden, Entry(r)))
      && (ok ==>
            && s.pc.read <= |s.log|
            && forall i | 0 <= i < s.pc.read && Covers(s.filter, s.pc.hidden, s.log[i]) :: Holds(records, s.log[i]))
  }

  function Step(s: Stream, e: Event): Stream
    requires Enabled(s, e)
  {
    match e
    case Append(entry) => s.(log := s.log + [entry])
    case Archive(project) => s.(archived := s.archived + {project})
    case Restore(project) => s.(archived := s.archived - {project})
    case Publish(project, event) =>
      var d := Normalized(event);
      if d.None? then s else s.(view := Judged(s.view, s.filter, project, d.value))
    case ReadTaskMax(ok) =>
      if ok then s.(pc := HasTaskMax(MaxID(s.log, "task"), |s.log|))
      else s.(pc := Scanning(None, |s.log|, |s.log|))
    case ReadGoalMax(ok) =>
      if !ok then s.(pc := Scanning(None, s.pc.begun, |s.log|))
      else
        var parts := (s.pc.taskMax, MaxID(s.log, "goal"));
        if parts.0 + parts.1 == s.seen then s.(pc := Idle)
        else s.(pc := Scanning(Some(parts), s.pc.begun, |s.log|))
    case ListGoals => s.(pc := Listed(s.pc.mark, s.pc.begun, s.pc.read, Hidden(s)))
    case Scan(ok, records) =>
      if !ok then s.(pc := Idle)
      else
        var v := JudgedAll(s.view, s.filter, records);
        match s.pc.mark
        case Some(parts) => s.(view := v, pc := Idle, seen := parts.0 + parts.1, seenParts := parts,
                                seenHidden := s.pc.hidden)
        case None => s.(view := v, pc := Idle, seen := -1)
  }

  /** The tick ends well: it skipped its scan, or scanned. */
  predicate EndsTick(s: Stream, e: Event) {
    Enabled(s, e) && ((e.ReadGoalMax? && Step(s, e).pc.Idle?) || (e.Scan? && e.ok))
  }

  // ---------------------------------------------------------------- verdicts

  /** Every verdict is on an entry of its own, none on an entry that was known from the start. */
  predicate ViewInv(base: set<EntryKey>, v: View) {
    && (forall k | k in v.known :: k in base || exists i :: 0 <= i < |v.verdicts| && KeyOf(v.verdicts[i].event) == k)
    && (forall i | 0 <= i < |v.verdicts| :: KeyOf(v.verdicts[i].event) in v.known && KeyOf(v.verdicts[i].event) !in base)
    && (forall i, j | 0 <= i < j < |v.verdicts| :: KeyOf(v.verdicts[i].event) != KeyOf(v.verdicts[j].event))
    && base <= v.known
  }

  lemma JudgedKeepsView(base: set<EntryKey>, v: View, f: Filter, project: int, e: HandoffEvent)
    requires ViewInv(base, v) && e.id > 0
    ensures var v' := Judged(v, f, project, e);
      ViewInv(base, v') && v.known <= v'.known && KeyOf(e) in v'.known && v.verdicts <= v'.verdicts
  {
    var v' := Judged(v, f, project, e);
    if KeyOf(e) !in v.known {
      assert v'.verdicts[|v.verdicts|] == Verdict(e, project, Passes(f, project, e));
      forall k | k in v'.known ensures k in base || exists i :: 0 <= i < |v'.verdicts| && KeyOf(v'.verdicts[i].event) == k {
        if k in v.known && k !in base {
          var i :| 0 <= i < |v.verdicts| && KeyOf(v.verdicts[i].event) == k;
          assert v'.verdicts[i] == v.verdicts[i];
        }
      }
    }
  }

  lemma {:induction false} JudgedAllKeepsView(base: set<EntryKey>, v: View, f: Filter, records: seq<HandoffEvent>)
    requires ViewInv(base, v) && forall e | e in records :: e.id > 0
    ensures var v' := JudgedAll(v, f, records);
      ViewInv(base, v') && v.known <= v'.known && v.verdicts <= v'.verdicts && forall e | e in records :: KeyOf(e) in v'.known
  {
    if records != [] {
      var rest, e := records[..|records| - 1], records[|records| - 1];
      assert records == rest + [e];
      JudgedAllKeepsView(base, v, f, rest);
      JudgedKeepsView(base, JudgedAll(v, f, rest), f, 0, e);
    }
  }

  /** Records that are all known change nothing. */
  lemma {:induction false} KnownRecordsChangeNothing(v: View, f: Filter, records: seq<HandoffEvent>)
    requires forall e | e in records :: e.id > 0 && KeyOf(e) in v.known
    ensures JudgedAll(v, f, records) == v
  {
    if records != [] {
      KnownRecordsChangeNothing(v, f, records[..|records| - 1]);
      assert records[|records| - 1] in records;
    }
  }

  // ---------------------------------------------------------------- invariant

  /** The entry's id is not above the part of the watermark for its table. */
  predicate Within(e: HandoffEvent, parts: (int, int)) {
    e.id <= if e.scope == "task" then parts.0 else parts.1
  }

  predicate LogInv(log: seq<HandoffEvent>) {
    && (forall i | 0 <= i < |log| :: log[i].id > 0 && log[i] == Entry(log[i]) && log[i].scope in {"goal", "task"}
          && (log[i].scope == "goal" <==> log[i].taskID == 0))
    && (forall i, j | 0 <= i < j < |log| && log[i].scope == log[j].scope :: log[i].id != log[j].id)
  }

  /** What the last scan's watermark vouches for. */
  predicate SeenInv(s: Stream) {
    s.seen != -1 ==>
      && s.seen == s.seenParts.0 + s.seenParts.1
      && s.seenParts.0 <= MaxID(s.log, "task") && s.seenParts.1 <= MaxID(s.log, "goal")
      && forall e | e in s.log && Covers(s.filter, s.seenHidden, e) && Within(e, s.seenParts) :: KeyOf(e) in s.view.known
  }

  predicate PcInv(s: Stream) {
    match s.pc
    case Idle => true
    case HasTaskMax(t, begun) =>
      && begun <= |s.log| && 0 <= t <= MaxID(s.log, "task")
      && (s.seen != -1 ==> s.seenParts.0 <= t)
      && forall i | 0 <= i < begun && s.log[i].scope == "task" :: s.log[i].id <= t
    case Scanning(mark, begun, read) => MarkInv(s, mark, begun, read)
    case Listed(mark, begun, read, _) => MarkInv(s, mark, begun, read)
  }

  /** What the watermark of a scan under way says of the log. */
  predicate MarkInv(s: Stream, mark: Option<(int, int)>, begun: nat, read: nat) {
    && begun <= read <= |s.log|
    && (mark.Some? ==>
          && mark.value.0 <= MaxID(s.log, "task") && mark.value.1 <= MaxID(s.log, "goal")
          && mark.value.0 + mark.value.1 != s.seen
          && forall i | 0 <= i < |s.log| && Within(s.log[i], mark.value) :: i < read)
  }

  predicate StreamInv(s: Stream) {
    LogInv(s.log) && ViewInv(s.base, s.view) && SeenInv(s) && PcInv(s)
  }

  /** A connection to a store with these entries, whose tracker starts out knowing base. */
  predicate IsStart(s: Stream) {
    LogInv(s.log) && s.view == View(s.base, []) && s.pc.Idle? && s.seen == -1
  }

  lemma MaxIDGrows(log: seq<HandoffEvent>, e: HandoffEvent, scope: string)
    requires Storable(log, e)
    ensures MaxID(log + [e], scope) == if e.scope == scope then e.id else MaxID(log, scope)
  {
    assert (log + [e])[..|log|] == log;
  }

  lemma AppendRaisesMax(log: seq<HandoffEvent>, e: HandoffEvent)
    requires Storable(log, e)
    ensures MaxID(log + [e], "task") >= MaxID(log, "task") && MaxID(log + [e], "goal") >= MaxID(log, "goal")
    ensures forall parts: (int, int) | parts.0 <= MaxID(log, "task") && parts.1 <= MaxID(log, "goal") ::
      !Within(e, parts)
  {
    MaxIDGrows(log, e, "task");
    MaxIDGrows(log, e, "goal");
  }

  lemma AppendKeepsSeenInv(s: Stream, e: Event)
    requires SeenInv(s) && Enabled(s, e) && e.Append?
    ensures SeenInv(Step(s, e))
  {
    AppendRaisesMax(s.log, e.entry);
    assert forall x | x in Step(s, e).log :: x in s.log || x == e.entry;
  }

  lemma AppendKeepsLogInv(log: seq<HandoffEvent>, e: HandoffEvent)
    requires LogInv(log) && Storable(log, e)
    ensures LogInv(log + [e])
  {
    assert forall i | 0 <= i < |log| :: log[i] in log;
  }

  lemma AppendKeepsMark(s: Stream, e: HandoffEvent, mark: Option<(int, int)>, begun: nat, read: nat)
    requires MarkInv(s, mark, begun, read) && Storable(s.log, e)
    ensures MarkInv(s.(log := s.log + [e]), mark, begun, read)
  {
    AppendRaisesMax(s.log, e);
    if mark.Some? {
      assert !Within(e, mark.value);
    }
  }

  lemma AppendKeepsPcInv(s: Stream, e: Event)
    requires PcInv(s) && Enabled(s, e) && e.Append?
    ensures PcInv(Step(s, e))
  {
    if s.pc.Scanning? || s.pc.Listed? {
      AppendKeepsMark(s, e.entry, s.pc.mark, s.pc.begun, s.pc.read);
    } else {
      AppendRaisesMax(s.log, e.entry);
    }
  }

  lemma {:induction false} AppendKeepsInv(s: Stream, e: Event)
    requires StreamInv(s) && Enabled(s, e) && e.Append?
    ensures StreamInv(Step(s, e))
  {
    AppendKeepsLogInv(s.log, e.entry);
    AppendKeepsSeenInv(s, e);
    AppendKeepsPcInv(s, e);
    assert Step(s, e) == s.(log := s.log + [e.entry]);
  }

  lemma ReadKeepsPcInv(s: Stream, e: Event)
    requires SeenInv(s) && PcInv(s) && Enabled(s, e) && (e.ReadTaskMax? || e.ReadGoalMax?)
    ensures PcInv(Step(s, e))
  {
    if e.ReadTaskMax? {
      assert forall i | 0 <= i < |s.log| :: s.log[i] in s.log;
    }
  }

  lemma ReadKeepsInv(s: Stream, e: Event)
    requires StreamInv(s) && Enabled(s, e) && (e.ReadTaskMax? || e.ReadGoalMax?)
    ensures StreamInv(Step(s, e))
  {
    ReadKeepsPcInv(s, e);
    assert Step(s, e) == s.(pc := Step(s, e).pc);
  }

  lemma ScanKeepsInv(s: Stream, e: Event)
    requires StreamInv(s) && Enabled(s, e) && e.Scan?
    ensures StreamInv(Step(s, e))
  {
    if e.ok {
      JudgedAllKeepsView(s.base, s.view, s.filter, e.records);
      var s' := Step(s, e);
      if s.pc.mark.Some? {
        forall x | x in s.log && Covers(s.filter, s.pc.hidden, x) && Within(x, s.pc.mark.value) ensures KeyOf(x) in s'.view.known {
          var i :| 0 <= i < |s.log| && s.log[i] == x;
          assert Holds(e.records, x);
        }
      }
    }
  }

  lemma PublishKeepsInv(s: Stream, e: Event)
    requires StreamInv(s) && Enabled(s, e) && e.Publish?
    ensures StreamInv(Step(s, e))
  {
    var d := Normalized(e.event);
    if d.Some? {
      JudgedKeepsView(s.base, s.view, s.filter, e.project, d.value);
    }
  }

  lemma {:induction false} OtherKeepsInv(s: Stream, e: Event)
    requires StreamInv(s) && Enabled(s, e) && (e.Archive? || e.Restore? || e.ListGoals?)
    ensures StreamInv(Step(s, e))
  {
    assert Step(s, e) == s.(archived := Step(s, e).archived, pc := Step(s, e).pc);
  }

  lemma {:induction false} StepKeepsInv(s: Stream, e: Event)
    requires StreamInv(s) && Enabled(s, e)
    ensures StreamInv(Step(s, e))
  {
    match e
    case Append(_) => AppendKeepsInv(s, e);
    case Publish(_, _) => PublishKeepsInv(s, e);
    case Scan(_, _) => ScanKeepsInv(s, e);
    case ReadTaskMax(_) => ReadKeepsInv(s, e);
    case ReadGoalMax(_) => ReadKeepsInv(s, e);
    case _ => OtherKeepsInv(s, e);
  }

  // ---------------------------------------------------------------- runs

  datatype Trace = Trace(states: seq<Stream>, events: seq<Event>)

  predicate Moves(r: Trace, i: nat)
    requires |r.states| == |r.events| + 1 && i < |r.events|
  {
    Enabled(r.states[i], r.events[i]) && r.states[i + 1] == Step(r.states[i], r.events[i])
  }

  predicate IsRun(r: Trace) {
    |r.states| == |r.events| + 1 && IsStart(r.states[0]) && forall i | 0 <= i < |r.events| :: Moves(r, i)
  }

  lemma Extended(r: Trace, e: Event, s: Stream) returns (r': Trace)
    requires IsRun(r) && Enabled(r.states[|r.events|], e) && Step(r.states[|r.events|], e) == s
    ensures IsRun(r') && r'.events == r.events + [e] && r'.states == r.states + [s]
  {
    r' := Trace(r.states + [s], r.events + [e]);
    forall i | 0 <= i < |r'.events| ensures Moves(r', i) {
      assert i < |r.events| ==> Moves(r, i);
    }
  }

  lemma {:induction false} ReachableStatesAreSound(r: Trace, n: nat)
    requires IsRun(r) && n < |r.states|
    ensures StreamInv(r.states[n])
  {
    if n > 0 {
      ReachableStatesAreSound(r, n - 1);
      assert Moves(r, n - 1);
      StepKeepsInv(r.states[n - 1], r.events[n - 1]);
    }
  }

  /** Each entry is written to a client at most once per connection, whether it came from the
      channel or from a scan. */
  lemma WrittenAtMostOnce(r: Trace, n: nat, i: nat, j: nat)
    requires IsRun(r) && n < |r.states| && i < |r.states[n].view.verdicts| && j < |r.states[n].view.verdicts|
    requires KeyOf(r.states[n].view.verdicts[i].event) == KeyOf(r.states[n].view.verdicts[j].event)
    ensures i == j
  {
    ReachableStatesAreSound(r, n);
  }

  lemma ScanLeavesNothingNew(s: Stream, e: Event)
    requires ViewInv(s.base, s.view) && PcInv(s) && Enabled(s, e) && e.Scan? && e.ok
    ensures forall i | 0 <= i < s.pc.begun && Covers(s.filter, s.pc.hidden, s.log[i]) ::
      KeyOf(s.log[i]) in Step(s, e).view.known
  {
    JudgedAllKeepsView(s.base, s.view, s.filter, e.records);
    forall i | 0 <= i < s.pc.begun && Covers(s.filter, s.pc.hidden, s.log[i])
      ensures KeyOf(s.log[i]) in Step(s, e).view.known
    {
      assert Holds(e.records, s.log[i]);
    }
  }

  /** A watermark that has not moved is the sum of the same two ids. */
  lemma SkipMeansSameParts(s: Stream, e: Event)
    requires SeenInv(s) && PcInv(s) && Enabled(s, e) && e.ReadGoalMax? && Step(s, e).pc.Idle?
    ensures s.seen != -1 && s.pc.begun <= |s.log| && (s.pc.taskMax, MaxID(s.log, "goal")) == s.seenParts
  {
    var parts := (s.pc.taskMax, MaxID(s.log, "goal"));
    assert parts.0 + parts.1 == s.seen >= 0;
  }

  lemma SkipLeavesNothingNew(s: Stream, e: Event)
    requires LogInv(s.log) && SeenInv(s) && PcInv(s) && Enabled(s, e) && e.ReadGoalMax? && Step(s, e).pc.Idle?
    ensures s.seen != -1 && s.pc.begun <= |s.log|
    ensures forall i | 0 <= i < s.pc.begun && Covers(s.filter, s.seenHidden, s.log[i]) :: KeyOf(s.log[i]) in s.view.known
  {
    SkipMeansSameParts(s, e);
    forall i | 0 <= i < s.pc.begun && Covers(s.filter, s.seenHidden, s.log[i]) ensures KeyOf(s.log[i]) in s.view.known {
      assert s.log[i] in s.log;
      assert Within(s.log[i], s.seenParts);
    }
  }

  /** The projects that the scan a tick ends with, or relies on, left out. */
  function LeftOut(s: Stream, e: Event): set<int>
    requires EndsTick(s, e)
  {
    if e.Scan? then s.pc.hidden else s.seenHidden
  }

  lemma TickLeavesNothingNew(s: Stream, e: Event)
    requires StreamInv(s) && EndsTick(s, e)
    ensures s.pc.begun <= |s.log|
    ensures forall i | 0 <= i < s.pc.begun && Covers(s.filter, LeftOut(s, e), s.log[i]) ::
      KeyOf(s.log[i]) in Step(s, e).view.known
  {
    if e.Scan? {
      ScanLeavesNothingNew(s, e);
    } else {
      SkipLeavesNothingNew(s, e);
    }
  }

  // ---------------------------------------------------------------- skipped scans

  /** What a scan of the first n entries would return, were it made at once. */
  predicate ScanOf(s: Stream, n: nat, records: seq<HandoffEvent>)
    requires n <= |s.log|
  {
    && (forall x | x in records :: x.id > 0 && Entry(x) in s.log[..n] && Covers(s.filter, Hidden(s), Entry(x)))
    && (forall x | x in s.log[..n] && Covers(s.filter, Hidden(s), x) :: Holds(records, x))
  }

  /** An entry the stream does not know, of a project that the last scan left out and that a scan
      would not leave out now. */
  predicate Regained(s: Stream, n: nat, x: HandoffEvent)
    requires n <= |s.log|
  {
    x in s.log[..n] && Matches(s.filter, x) && x.projectID in s.seenHidden - Hidden(s) && KeyOf(x) !in s.view.known
  }

  lemma ScanFindsNewsIff(s: Stream, n: nat, records: seq<HandoffEvent>)
    requires n <= |s.log| && ScanOf(s, n, records) && ViewInv(s.base, s.view)
    ensures JudgedAll(s.view, s.filter, records) == s.view
      <==> forall x | x in s.log[..n] && Covers(s.filter, Hidden(s), x) :: KeyOf(x) in s.view.known
  {
    JudgedAllKeepsView(s.base, s.view, s.filter, records);
    if forall x | x in s.log[..n] && Covers(s.filter, Hidden(s), x) :: KeyOf(x) in s.view.known {
      forall x | x in records ensures x.id > 0 && KeyOf(x) in s.view.known {
        assert KeyOf(Entry(x)) == KeyOf(x);
      }
      KnownRecordsChangeNothing(s.view, s.filter, records);
    }
    if JudgedAll(s.view, s.filter, records) == s.view {
      forall x | x in s.log[..n] && Covers(s.filter, Hidden(s), x) ensures KeyOf(x) in s.view.known {
        assert Holds(records, x);
      }
    }
  }

  lemma {:induction false} SkipIsSafeIff(s: Stream, e: Event, records: seq<HandoffEvent>)
    requires StreamInv(s) && Enabled(s, e) && e.ReadGoalMax? && Step(s, e).pc.Idle?
    requires s.pc.begun <= |s.log| && ScanOf(s, s.pc.begun, records)
    ensures JudgedAll(s.view, s.filter, records) == s.view <==> !exists x :: Regained(s, s.pc.begun, x)
  {
    SkipLeavesNothingNew(s, e);
    ScanFindsNewsIff(s, s.pc.begun, records);
    var earlier := s.log[..s.pc.begun];
    forall x | x in earlier && Covers(s.filter, Hidden(s), x) && KeyOf(x) !in s.view.known
      ensures Regained(s, s.pc.begun, x)
    {
      var i :| 0 <= i < |earlier| && earlier[i] == x;
      assert s.log[i] == x;
    }
  }

  /** The scan whose watermark is remembered listed its goals at some step, and left out what was
      hidden then. */
  predicate ListedAt(r: Trace, c: nat, n: nat, hidden: set<int>)
    requires IsRun(r)
  {
    c < n <= |r.events| && r.events[c].ListGoals? && hidden == Hidden(r.states[c])
  }

  lemma {:induction false} HiddenIsFromListing(r: Trace, n: nat) returns (c: nat, d: nat)
    requires IsRun(r) && n < |r.states|
    ensures r.states[n].seen != -1 ==> ListedAt(r, c, n, r.states[n].seenHidden)
    ensures r.states[n].pc.Listed? ==> ListedAt(r, d, n, r.states[n].pc.hidden)
  {
    c, d := 0, 0;
    if n > 0 {
      c, d := HiddenIsFromListing(r, n - 1);
      assert Moves(r, n - 1);
      var e := r.events[n - 1];
      if e.ListGoals? {
        d := n - 1;
      } else if e.Scan? && e.ok {
        c := d;
      }
    }
  }

  /** A project that was hidden and is not any more has been restored in between. */
  lemma {:induction false} RestoredBetween(r: Trace, c: nat, n: nat, p: int) returns (k: nat)
    requires IsRun(r) && c < n < |r.states| && p in Hidden(r.states[c]) && p !in Hidden(r.states[n])
    ensures c <= k < n && r.events[k] == Restore(p)
    decreases n
  {
    assert Moves(r, n - 1);
    if p in Hidden(r.states[n - 1]) || n == c + 1 {
      k := n - 1;
    } else {
      k := RestoredBetween(r, c, n - 1, p);
    }
  }

  /** Event n finds the watermark of the last scan, and the tick ends without one. */
  predicate SkipsAt(r: Trace, n: nat)
    requires IsRun(r)
  {
    && n < |r.events| && r.events[n] == ReadGoalMax(true) && r.states[n + 1].pc.Idle?
    && r.states[n].pc.HasTaskMax? && r.states[n].pc.begun <= |r.states[n].log|
  }

  lemma LastScanListed(r: Trace, n: nat) returns (c: nat)
    requires IsRun(r) && SkipsAt(r, n)
    ensures c < n && ListedAt(r, c, n, r.states[n].seenHidden)
  {
    ReachableStatesAreSound(r, n);
    assert Moves(r, n);
    SkipLeavesNothingNew(r.states[n], r.events[n]);
    var d;
    c, d := HiddenIsFromListing(r, n);
  }

  lemma NoneRegained(r: Trace, c: nat, n: nat)
    requires IsRun(r) && SkipsAt(r, n) && ListedAt(r, c, n, r.states[n].seenHidden)
    requires forall k | c < k < n :: !r.events[k].Restore?
    ensures !exists x :: Regained(r.states[n], r.states[n].pc.begun, x)
  {
    if x :| Regained(r.states[n], r.states[n].pc.begun, x) {
      var k := RestoredBetween(r, c, n, x.projectID);
    }
  }

  lemma SkippedAtIff(r: Trace, n: nat, records: seq<HandoffEvent>)
    requires IsRun(r) && SkipsAt(r, n) && ScanOf(r.states[n], r.states[n].pc.begun, records)
    ensures r.states[n + 1].view == r.states[n].view
    ensures JudgedAll(r.states[n].view, r.states[n].filter, records) == r.states[n].view
      <==> !exists x :: Regained(r.states[n], r.states[n].pc.begun, x)
  {
    ReachableStatesAreSound(r, n);
    assert Moves(r, n);
    SkipIsSafeIff(r.states[n], r.events[n], records);
  }

  /** When the watermark equals the last scan's, the scan that is skipped would have changed nothing
      if and only if no entry is regained. And none is, unless a project was restored after that
      scan listed its goals: restoring does not move the watermark. */
  lemma SkippedScanFindsNothingIff(r: Trace, n: nat, records: seq<HandoffEvent>) returns (c: nat)
    requires IsRun(r) && SkipsAt(r, n) && ScanOf(r.states[n], r.states[n].pc.begun, records)
    ensures r.states[n + 1].view == r.states[n].view
    ensures JudgedAll(r.states[n].view, r.states[n].filter, records) == r.states[n].view
      <==> !exists x :: Regained(r.states[n], r.states[n].pc.begun, x)
    ensures c < n && ListedAt(r, c, n, r.states[n].seenHidden)
    ensures (forall k | c < k < n :: !r.events[k].Restore?) ==>
      JudgedAll(r.states[n].view, r.states[n].filter, records) == r.states[n].view
  {
    SkippedAtIff(r, n, records);
    c := LastScanListed(r, n);
    if forall k | c < k < n :: !r.events[k].Restore? {
      NoneRegained(r, c, n);
    }
  }

  /** Events i to j belong to one tick, which event i begins. */
  predicate SameTick(r: Trace, i: nat, j: nat)
    requires IsRun(r)
  {
    i < j < |r.events| && r.events[i].ReadTaskMax? && forall m | i < m <= j :: !r.states[m].pc.Idle?
  }

  lemma {:induction false} TickRemembersItsStart(r: Trace, i: nat, j: nat, n: nat)
    requires IsRun(r) && SameTick(r, i, j) && i < n <= j
    ensures var s := r.states[n];
      !s.pc.Idle? && s.pc.begun == |r.states[i].log| && r.states[i].log <= s.log && s.filter == r.states[i].filter && s.base == r.states[i].base
    ensures r.states[n].view == r.states[i].view && r.states[n].seen == r.states[i].seen
  {
    assert Moves(r, n - 1);
    if n > i + 1 {
      TickRemembersItsStart(r, i, j, n - 1);
    }
  }

  lemma KnownAfterTick(s: Stream, ev: Event, log: seq<HandoffEvent>, e: HandoffEvent)
    requires StreamInv(s) && EndsTick(s, ev) && s.pc.begun == |log| && log <= s.log && e in log
    requires Covers(s.filter, LeftOut(s, ev), e)
    ensures KeyOf(e) in Step(s, ev).view.known
  {
    TickLeavesNothingNew(s, ev);
    var k :| 0 <= k < |log| && log[k] == e;
    assert s.log[k] == e;
  }

  // ---------------------------------------------------------------- what is written

  /** Every verdict is that of eventPasses, on an entry that is in the store. */
  predicate VerdictsInv(s: Stream) {
    forall k | 0 <= k < |s.view.verdicts| ::
      var v := s.view.verdicts[k];
      && Entry(v.event) in s.log && v.project in {0, v.event.projectID}
      && v.written == Passes(s.filter, v.project, v.event)
  }

  /** A published event is about an entry that is in the store, in its own project. */
  predicate Truthful(s: Stream, e: Event) {
    e.Publish? && Normalized(e.event).Some? ==>
      Entry(Normalized(e.event).value) in s.log && e.project in {0, e.event.projectID}
  }

  lemma {:induction false} JudgedAllKeepsVerdicts(s: Stream, records: seq<HandoffEvent>)
    requires VerdictsInv(s) && forall e | e in records :: e.id > 0 && Entry(e) in s.log
    ensures VerdictsInv(s.(view := JudgedAll(s.view, s.filter, records)))
  {
    if records != [] {
      var rest, e := records[..|records| - 1], records[|records| - 1];
      JudgedAllKeepsVerdicts(s, rest);
      assert e in records;
    }
  }

  lemma {:induction false} VerdictsAreEventPasses(r: Trace, n: nat)
    requires IsRun(r) && n < |r.states| && forall m | 0 <= m < n :: Truthful(r.states[m], r.events[m])
    ensures VerdictsInv(r.states[n])
  {
    if n > 0 {
      VerdictsAreEventPasses(r, n - 1);
      assert Moves(r, n - 1);
      var s, e := r.states[n - 1], r.events[n - 1];
      assert Truthful(s, e);
      if e.Scan? && e.ok {
        JudgedAllKeepsVerdicts(s, e.records);
      }
    }
  }

  /** What the filter says of an entry whoever takes part in its handoff. */
  predicate Admits(f: Filter, e: HandoffEvent) {
    && Normalized(e).Some? && (f.session != 0 ==> e.author != f.session)
    && (f.project.Some? ==> e.projectID == 0 || e.projectID == f.project.value)
    && (f.goal.Some? ==> e.goalID == f.goal.value) && (f.task.Some? ==> e.taskID != 0 && e.taskID == f.task.value)
  }

  /** A scan looks for exactly the entries that the filter admits, own entries aside. A filter with a
      task, a goal and a project is of a task of that goal in that project. */
  lemma ScanLooksForAdmitted(f: Filter, e: HandoffEvent)
    requires e.scope in {"goal", "task"} && (e.scope == "goal" <==> e.taskID == 0) && e.projectID != 0
    requires Normalized(e).Some? && (f.session != 0 ==> e.author != f.session)
    requires f.task == Some(e.taskID) ==> f.goal in {None, Some(e.goalID)} && f.project in {None, Some(e.projectID)}
    ensures Matches(f, e) <==> Admits(f, e)
  {
  }

  /** The entry got its verdict at k, and was written if and only if the filter admits it and the
      session was a party then, or no parties were known. */
  predicate SettledAt(s: Stream, e: HandoffEvent, k: nat) {
    && k < |s.view.verdicts|
    && var v := s.view.verdicts[k];
      && Entry(v.event) == e
      && (v.written <==>
        Admits(s.filter, e) && (s.filter.session != 0 && v.event.parties != {} ==> s.filter.session in v.event.parties))
  }

  lemma VerdictSettles(s: Stream, e: HandoffEvent, k: nat)
    requires LogInv(s.log) && VerdictsInv(s) && e in s.log
    requires k < |s.view.verdicts| && KeyOf(s.view.verdicts[k].event) == KeyOf(e)
    ensures SettledAt(s, e, k)
  {
    var v := s.view.verdicts[k];
    var i :| 0 <= i < |s.log| && s.log[i] == e;
    var j :| 0 <= j < |s.log| && s.log[j] == Entry(v.event);
    assert i == j;
  }

  lemma KnownIsSettled(s: Stream, e: HandoffEvent) returns (k: nat)
    requires LogInv(s.log) && ViewInv(s.base, s.view) && VerdictsInv(s)
    requires e in s.log && KeyOf(e) in s.view.known && KeyOf(e) !in s.base
    ensures SettledAt(s, e, k)
  {
    k :| 0 <= k < |s.view.verdicts| && KeyOf(s.view.verdicts[k].event) == KeyOf(e);
    VerdictSettles(s, e, k);
  }

  lemma TickMakesKnown(r: Trace, i: nat, j: nat, e: HandoffEvent)
    requires IsRun(r) && SameTick(r, i, j) && EndsTick(r.states[j], r.events[j])
    requires e in r.states[i].log && Covers(r.states[i].filter, LeftOut(r.states[j], r.events[j]), e)
    ensures var s := r.states[j + 1]; e in s.log && KeyOf(e) in s.view.known && s.base == r.states[i].base
  {
    assert Moves(r, j);
    TickRemembersItsStart(r, i, j, j);
    ReachableStatesAreSound(r, j);
    KnownAfterTick(r.states[j], r.events[j], r.states[i].log, e);
    var k :| 0 <= k < |r.states[i].log| && r.states[i].log[k] == e;
    assert r.states[j + 1].log[k] == e;
  }

  /** One tick that ends well settles every entry that was there when it began and that its scan, or
      the one it relies on, covers, except those the stream took as reported from the start: it has
      been written if the filter passes it, by this tick, an earlier one or the channel, and not
      written otherwise. */
  lemma TickLeavesNothingUnwritten(r: Trace, i: nat, j: nat, e: HandoffEvent) returns (k: nat)
    requires IsRun(r) && SameTick(r, i, j) && EndsTick(r.states[j], r.events[j])
    requires e in r.states[i].log && Covers(r.states[i].filter, LeftOut(r.states[j], r.events[j]), e)
    requires KeyOf(e) !in r.states[i].base
    requires forall m | 0 <= m <= j :: Truthful(r.states[m], r.events[m])
    ensures SettledAt(r.states[j + 1], e, k)
  {
    TickMakesKnown(r, i, j, e);
    ReachableStatesAreSound(r, j + 1);
    VerdictsAreEventPasses(r, j + 1);
    k := KnownIsSettled(r.states[j + 1], e);
  }

  /** A project that is never archived is in every scan. */
  predicate NeverArchived(r: Trace, n: nat, project: int)
    requires IsRun(r) && n < |r.states|
  {
    r.states[n].filter.task.None? ==> forall m | 0 <= m <= n :: project !in r.states[m].archived
  }

  lemma {:induction false} FilterStays(r: Trace, n: nat)
    requires IsRun(r) && n < |r.states|
    ensures r.states[n].filter == r.states[0].filter && r.states[n].base == r.states[0].base
  {
    if n > 0 {
      FilterStays(r, n - 1);
      assert Moves(r, n - 1);
    }
  }

  lemma NeverLeftOut(r: Trace, j: nat, project: int)
    requires IsRun(r) && j < |r.events| && EndsTick(r.states[j], r.events[j]) && NeverArchived(r, j, project)
    ensures project !in LeftOut(r.states[j], r.events[j])
  {
    ReachableStatesAreSound(r, j);
    if r.events[j].ReadGoalMax? {
      SkipLeavesNothingNew(r.states[j], r.events[j]);
    }
    var c, d := HiddenIsFromListing(r, j);
    var k := if r.events[j].Scan? then d else c;
    FilterStays(r, k);
    FilterStays(r, j);
  }

  /** A record before the one at k was created before the baseline and has the id the client names. */
  predicate AfterLast(records: seq<Record>, lastID: Option<int>, baseline: Option<int>, k: int)
    requires k <= |records|
  {
    && lastID.Some? && lastID.value > 0
    && exists j | 0 <= j < k :: records[j].event.id == lastID.value && (baseline.Some? ==> records[j].createdAt < baseline.value)
  }

  /** So every entry of a project that is not archived during the connection, and that the initial
      tracker did not take as reported (it was created after the baseline, or comes after
      Last-Event-ID, or was appended later), is settled by the next tick that ends well; without a
      monitor token it is written exactly when the filter admits it. */
  lemma NewEntryIsWritten(r: Trace, i: nat, j: nat, e: HandoffEvent, records: seq<Record>, lastID: Option<int>, baseline: Option<int>)
    returns (k: nat)
    requires IsRun(r) && SameTick(r, i, j) && EndsTick(r.states[j], r.events[j])
    requires e in r.states[i].log && Matches(r.states[i].filter, e) && NeverArchived(r, j, e.projectID)
    requires forall m | 0 <= m <= j :: Truthful(r.states[m], r.events[m])
    requires r.states[i].base == InitialKnown(records, lastID, baseline)
    requires forall k | 0 <= k < |records| && KeyOf(records[k].event) == KeyOf(e) ::
      (baseline.Some? && records[k].createdAt >= baseline.value) || AfterLast(records, lastID, baseline, k)
    ensures SettledAt(r.states[j + 1], e, k)
    ensures r.states[j + 1].filter.session == 0 ==>
      (r.states[j + 1].view.verdicts[k].written <==> Admits(r.states[j + 1].filter, e))
  {
    OldKeyHasIndex(records, baseline, Reported(records, lastID, baseline), KeyOf(e));
    NeverLeftOut(r, j, e.projectID);
    k := TickLeavesNothingUnwritten(r, i, j, e);
  }

  /** A stream opened while a project is archived: a first tick scans without it, the project is
      restored, and the second tick skips its scan, because the watermark has not moved. The entry
      is in the store, matches the filter and passes it, and was not known from the start; a scan
      would write it, but it is not written. */
  lemma RestoredProjectIsSkipped(e: HandoffEvent) returns (r: Trace)
    requires Storable([], e) && Normalized(e).Some?
    ensures IsRun(r) && |r.events| == 7 && SameTick(r, 5, 6) && EndsTick(r.states[6], r.events[6])
    ensures r.events[4] == Restore(e.projectID) && r.states[7].pc.Idle?
    ensures var s := r.states[7];
      && s.log == [e] && s.archived == {} && Matches(s.filter, e) && Passes(s.filter, 0, e) && KeyOf(e) !in s.base
      && s.view == View({}, []) && JudgedAll(s.view, s.filter, [e]).verdicts == [Verdict(e, 0, true)]
  {
    r := RestoredRun(e);
    var v := View({}, []);
    assert [e][..0] == [] && JudgedAll(v, r.states[7].filter, [e][..0]) == v;
  }

  /** That stream, before its first scan or after it. */
  function Watching(e: HandoffEvent, archived: set<int>, pc: Pc, scanned: bool): Stream {
    var parts := (MaxID([e], "task"), MaxID([e], "goal"));
    Stream([e], archived, Filter(None, None, None, 0), {}, View({}, []), pc,
           if scanned then parts.0 + parts.1 else -1, if scanned then parts else (0, 0), if scanned then {e.projectID} else {})
  }

  /** Its first tick, and the restoring. */
  lemma FirstTickSteps(e: HandoffEvent, t: int, parts: (int, int), p: int)
    requires Storable([], e) && p == e.projectID && t == MaxID([e], "task") && parts == (t, MaxID([e], "goal"))
    ensures Step(Watching(e, {p}, Idle, false), ReadTaskMax(true)) == Watching(e, {p}, HasTaskMax(t, 1), false)
    ensures Step(Watching(e, {p}, HasTaskMax(t, 1), false), ReadGoalMax(true))
      == Watching(e, {p}, Scanning(Some(parts), 1, 1), false)
    ensures Step(Watching(e, {p}, Scanning(Some(parts), 1, 1), false), ListGoals)
      == Watching(e, {p}, Listed(Some(parts), 1, 1, {p}), false)
  {
  }

  lemma FirstScanStep(e: HandoffEvent, parts: (int, int), p: int)
    requires Storable([], e) && p == e.projectID && parts == (MaxID([e], "task"), MaxID([e], "goal"))
    ensures var s := Watching(e, {p}, Listed(Some(parts), 1, 1, {p}), false);
      Enabled(s, Scan(true, [])) && Step(s, Scan(true, [])) == Watching(e, {p}, Idle, true)
  {
  }

  lemma SecondTickSteps(e: HandoffEvent, t: int, p: int)
    requires Storable([], e) && p == e.projectID && t == MaxID([e], "task")
    ensures Step(Watching(e, {p}, Idle, true), Restore(p)) == Watching(e, {}, Idle, true)
    ensures Step(Watching(e, {}, Idle, true), ReadTaskMax(true)) == Watching(e, {}, HasTaskMax(t, 1), true)
    ensures Step(Watching(e, {}, HasTaskMax(t, 1), true), ReadGoalMax(true)) == Watching(e, {}, Idle, true)
  {
    assert {p} - {p} == {};
  }

  lemma StartsWatching(e: HandoffEvent)
    requires Storable([], e)
    ensures IsStart(Watching(e, {e.projectID}, Idle, false))
  {
    assert e.id > 0;
  }

  lemma FirstTickRun(e: HandoffEvent) returns (r: Trace)
    requires Storable([], e)
    ensures IsRun(r) && |r.events| == 4 && r.states[4] == Watching(e, {e.projectID}, Idle, true)
  {
    var p, t := e.projectID, MaxID([e], "task");
    var parts := (t, MaxID([e], "goal"));
    StartsWatching(e);
    FirstTickSteps(e, t, parts, p);
    FirstScanStep(e, parts, p);
    r := Trace([Watching(e, {p}, Idle, false)], []);
    r := Extended(r, ReadTaskMax(true), Watching(e, {p}, HasTaskMax(t, 1), false));
    r := Extended(r, ReadGoalMax(true), Watching(e, {p}, Scanning(Some(parts), 1, 1), false));
    r := Extended(r, ListGoals, Watching(e, {p}, Listed(Some(parts), 1, 1, {p}), false));
    r := Extended(r, Scan(true, []), Watching(e, {p}, Idle, true));
  }

  /** The run of that stream. */
  lemma RestoredRun(e: HandoffEvent) returns (r: Trace)
    requires Storable([], e)
    ensures IsRun(r) && |r.events| == 7 && SameTick(r, 5, 6) && EndsTick(r.states[6], r.events[6])
    ensures r.events[4] == Restore(e.projectID) && r.states[7] == Watching(e, {}, Idle, true)
  {
    var p, t := e.projectID, MaxID([e], "task");
    SecondTickSteps(e, t, p);
    r := FirstTickRun(e);
    r := Extended(r, Restore(p), Watching(e, {}, Idle, true));
    r := Extended(r, ReadTaskMax(true), Watching(e, {}, HasTaskMax(t, 1), true));
    r := Extended(r, ReadGoalMax(true), Watching(e, {}, Idle, true));
  }

  // ---------------------------------------------------------------- the loop itself

  /** What one turn of the ticker branch makes of the view and the remembered watermark; mark is the
      watermark, None when reading it failed, and records is the scan's, None when it failed. */
  function AfterTick(v: View, seen: int, f: Filter, mark: Option<int>, records: Option<seq<HandoffEvent>>): (View, int)
    requires records.Some? ==> forall e | e in records.value :: e.id > 0
  {
    if mark == Some(seen) || records.None? then (v, seen)
    else (JudgedAll(v, f, records.value), if mark.Some? then mark.value else -1)
  }

  /** The steps of a tick, with whatever is appended, archived or restored between them, are one turn of the
      ticker branch. */
  lemma TickIsOneTurn(r: Trace, i: nat, j: nat) returns (mark: Option<int>, records: Option<seq<HandoffEvent>>)
    requires IsRun(r) && SameTick(r, i, j) && r.states[j + 1].pc.Idle?
    ensures records.Some? ==> forall e | e in records.value :: e.id > 0
    ensures (r.states[j + 1].view, r.states[j + 1].seen)
      == AfterTick(r.states[i].view, r.states[i].seen, r.states[i].filter, mark, records)
    ensures mark == Some(r.states[i].seen) <==> r.events[j].ReadGoalMax?
    ensures r.events[j].Scan? ==> records == if r.events[j].ok then Some(r.events[j].records) else None
  {
    assert Moves(r, j);
    TickRemembersItsStart(r, i, j, j);
    var s, e := r.states[j], r.events[j];
    if e.ReadGoalMax? {
      mark, records := Some(s.seen), None;
    } else {
      records := if e.ok then Some(e.records) else None;
      mark := if s.pc.mark.Some? then Some(s.pc.mark.value.0 + s.pc.mark.value.1) else None;
      ReachableStatesAreSound(r, j);
    }
  }

  class Connection {
    const filter: Filter
    var tracker: Tracker
    var seen: int
    var verdicts: seq<Verdict>

    constructor (f: Filter, t: Tracker)
      ensures filter == f && tracker == t && seen == -1 && verdicts == []
    {
      filter, tracker, seen, verdicts := f, t, -1, [];
    }

    function Current(): View
      reads this, tracker
    {
      View(tracker.known, verdicts)
    }

    /** The channel branch of handleEvents for a handoff entry event. */
    method OnPublished(project: int, event: HandoffEvent)
      modifies this`verdicts, tracker
      ensures tracker == old(tracker) && seen == old(seen)
      ensures var d := Normalized(event);
        Current() == if d.None? then old(Current()) else Judged(old(Current()), filter, project, d.value)
    {
      var d := Normalized(event);
      if d.None? {
        return;
      }
      var news := tracker.Mark(d.value);
      if !news {
        return;
      }
      verdicts := verdicts + [Verdict(d.value, project, Passes(filter, project, d.value))];
    }

    /** The ticker branch. */
    method OnTick(mark: Option<int>, records: Option<seq<HandoffEvent>>) returns (skipped: bool)
      requires records.Some? ==> forall e | e in records.value :: e.id > 0
      modifies this, tracker
      ensures tracker == old(tracker)
      ensures skipped <==> mark == Some(old(seen))
      ensures (Current(), seen) == AfterTick(old(Current()), old(seen), filter, mark, records)
    {
      if mark.Some? && mark.value == seen {
        return true;
      }
      if records.None? {
        return false;
      }
      seen := if mark.Some? then mark.value else -1;
      var rs := records.value;
      for i := 0 to |rs|
        invariant tracker == old(tracker) && seen == if mark.Some? then mark.value else -1
        invariant Current() == JudgedAll(old(Current()), filter, rs[..i])
      {
        assert rs[..i + 1][..i] == rs[..i] && rs[i] in rs;
        var news := tracker.Mark(rs[i]);
        if !news {
          continue;
        }
        verdicts := verdicts + [Verdict(rs[i], 0, Passes(filter, 0, rs[i]))];
      }
      assert rs[..|rs|] == rs;
      return false;
    }
  }
}
