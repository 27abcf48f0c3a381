/** Two connections in a row: what the second one, resumed with Last-Event-ID, sends of the entries
    that the first one did or did not send. */
module Resume {
  import opened Wrappers
  import opened HandoffTracker
  import opened EventStream

  /** The id a client resumes with: that of the last frame it received, or the one it had before. */
  function LastID(vs: seq<Verdict>, prior: Option<int>): Option<int> {
    if vs == [] then prior
    else if vs[|vs| - 1].written then Some(vs[|vs| - 1].event.id)
    else LastID(vs[..|vs| - 1], prior)
  }

  /** Whether the entry with the key was written. */
  predicate Sent(vs: seq<Verdict>, key: EntryKey) {
    exists k | 0 <= k < |vs| :: vs[k].written && KeyOf(vs[k].event) == key
  }

  /** Whether a resumed stream takes a record of its first scan as reported. */
  predicate Taken(records: seq<Record>, last: Option<int>, baseline: Option<int>, i: nat)
    requires i < |records|
  {
    && IsOld(records[i], baseline)
    && (last.Some? && last.value > 0 ==>
          var k := LastSeenAt(records, last.value, baseline);
          k < |records| ==> records[i].event.id < last.value || i == k)
  }

  lemma KnownIffTaken(records: seq<Record>, last: Option<int>, baseline: Option<int>, i: nat)
    requires WellStored(records) && SortedByID(records) && i < |records|
    ensures KeyOf(records[i].event) in InitialKnown(records, last, baseline) <==> Taken(records, last, baseline, i)
  {
    if last.Some? && last.value > 0 {
      ResumeLosesIff(records, last.value, baseline, i);
    } else {
      UnknownIff(records, last, baseline, i);
    }
  }

  // ---------------------------------------------------------------- what one connection sends

  /** The session was a party whenever the stream judged the entry, or no parties were known. */
  predicate PartyThen(s: Stream, e: HandoffEvent) {
    forall k | 0 <= k < |s.view.verdicts| && Entry(s.view.verdicts[k].event) == e ::
      s.filter.session != 0 && s.view.verdicts[k].event.parties != {} ==> s.filter.session in s.view.verdicts[k].event.parties
  }

  /** A tick of the run, from event i to event j, ends well and covers the entry. */
  predicate Reaches(r: Trace, i: nat, j: nat, e: HandoffEvent) {
    && IsRun(r) && SameTick(r, i, j) && EndsTick(r.states[j], r.events[j])
    && e in r.states[i].log && Covers(r.states[i].filter, LeftOut(r.states[j], r.events[j]), e)
    && (forall m | 0 <= m <= j :: Truthful(r.states[m], r.events[m]))
    && PartyThen(r.states[j + 1], e)
  }

  lemma KnownIsNeverSent(r: Trace, n: nat, key: EntryKey)
    requires IsRun(r) && n < |r.states| && key in r.states[0].base
    ensures !Sent(r.states[n].view.verdicts, key)
  {
    ReachableStatesAreSound(r, n);
    FilterStays(r, n);
  }

  /** After such a tick a connection has sent the entry exactly when its filter admits it and it did
      not take it as reported at its start. */
  lemma SendsIff(r: Trace, i: nat, j: nat, e: HandoffEvent)
    requires Reaches(r, i, j, e)
    ensures Sent(r.states[j + 1].view.verdicts, KeyOf(e)) <==> KeyOf(e) !in r.states[0].base && Admits(r.states[0].filter, e)
  {
    FilterStays(r, i);
    FilterStays(r, j + 1);
    ReachableStatesAreSound(r, j + 1);
    if KeyOf(e) in r.states[0].base {
      KnownIsNeverSent(r, j + 1, KeyOf(e));
    } else {
      var k := TickLeavesNothingUnwritten(r, i, j, e);
      var vs := r.states[j + 1].view.verdicts;
      assert KeyOf(vs[k].event) == KeyOf(e);
    }
  }

  // ---------------------------------------------------------------- two connections

  /** The first connection was cut when the client had received what was written of the first m
      verdicts of its state n; the second one starts with the id the client then has. */
  predicate Resumes(
    first: Trace, n: nat, m: nat, prior: Option<int>, second: Trace, records: seq<Record>, baseline: Option<int>)
  {
    && IsRun(first) && n < |first.states| && m <= |first.states[n].view.verdicts|
    && IsRun(second) && second.states[0].filter == first.states[0].filter
    && WellStored(records) && SortedByID(records)
    && second.states[0].base == InitialKnown(records, LastID(first.states[n].view.verdicts[..m], prior), baseline)
  }

  /** For every old entry of the second connection's first scan that the filter admits: neither
      connection sends it exactly when the first had not and the second takes it as reported, and
      both send it exactly when the first had and the second does not. */
  lemma ResumedEntry(
    first: Trace, n: nat, m: nat, prior: Option<int>, second: Trace, i2: nat, j2: nat, records: seq<Record>,
    baseline: Option<int>, i: nat)
    requires Resumes(first, n, m, prior, second, records, baseline) && i < |records|
    requires Reaches(second, i2, j2, Entry(records[i].event)) && Admits(second.states[0].filter, Entry(records[i].event))
    ensures var vs, key := first.states[n].view.verdicts[..m], KeyOf(records[i].event);
      var one, two := Sent(vs, key), Sent(second.states[j2 + 1].view.verdicts, key);
      var taken := Taken(records, LastID(vs, prior), baseline, i);
      (!one && !two <==> !one && taken) && (one && two <==> one && !taken)
  {
    KnownIffTaken(records, LastID(first.states[n].view.verdicts[..m], prior), baseline, i);
    SendsIff(second, i2, j2, Entry(records[i].event));
    assert KeyOf(Entry(records[i].event)) == KeyOf(records[i].event);
  }

  predicate Due(f: Filter, records: seq<Record>, baseline: Option<int>, i: nat)
    requires i < |records|
  {
    IsOld(records[i], baseline) && Admits(f, Entry(records[i].event))
  }

  /** Every old entry that the filter admits is sent by one of the two connections and by one only,
      or by neither if the first one took it as reported. */
  predicate ExactlyOnce(one: seq<Verdict>, two: seq<Verdict>, base: set<EntryKey>, f: Filter, records: seq<Record>, baseline: Option<int>) {
    forall i: nat | i < |records| && Due(f, records, baseline, i) ::
      var key := KeyOf(records[i].event);
      if key in base then !Sent(two, key) else Sent(one, key) != Sent(two, key)
  }

  /** What the first connection took as reported or wrote is every such entry up to the last id. */
  predicate UpToLast(one: seq<Verdict>, base: set<EntryKey>, f: Filter, records: seq<Record>, last: Option<int>, baseline: Option<int>) {
    forall i: nat | i < |records| && Due(f, records, baseline, i) ::
      KeyOf(records[i].event) in base || Sent(one, KeyOf(records[i].event)) <==> Taken(records, last, baseline, i)
  }

  /** Resuming is exact if and only if the first connection had written every entry up to the last
      id, and none beyond. */
  lemma ResumingIsExactIff(
    first: Trace, n: nat, m: nat, prior: Option<int>, second: Trace, i2: nat, j2: nat, records: seq<Record>, baseline: Option<int>)
    requires Resumes(first, n, m, prior, second, records, baseline) && j2 + 1 < |second.states|
    requires forall i: nat | i < |records| && Due(second.states[0].filter, records, baseline, i) ::
      Reaches(second, i2, j2, Entry(records[i].event))
    ensures var vs, base, f := first.states[n].view.verdicts[..m], first.states[0].base, first.states[0].filter;
      ExactlyOnce(vs, second.states[j2 + 1].view.verdicts, base, f, records, baseline)
      <==> UpToLast(vs, base, f, records, LastID(vs, prior), baseline)
  {
    var all, two := first.states[n].view.verdicts, second.states[j2 + 1].view.verdicts;
    var vs, base, f := all[..m], first.states[0].base, first.states[0].filter;
    forall i: nat | i < |records| && Due(f, records, baseline, i)
      ensures Sent(two, KeyOf(records[i].event)) <==> !Taken(records, LastID(vs, prior), baseline, i)
      ensures KeyOf(records[i].event) in base ==> !Sent(vs, KeyOf(records[i].event))
    {
      ResumedEntry(first, n, m, prior, second, i2, j2, records, baseline, i);
      if KeyOf(records[i].event) in base {
        KnownIsNeverSent(first, n, KeyOf(records[i].event));
        SentOfPrefix(all, m, KeyOf(records[i].event));
      }
    }
  }

  lemma SentOfPrefix(vs: seq<Verdict>, m: nat, key: EntryKey)
    requires m <= |vs| && !Sent(vs, key)
    ensures !Sent(vs[..m], key)
  {
    assert forall k | 0 <= k < m :: vs[..m][k] == vs[k];
  }

  // ---------------------------------------------------------------- streams of one task

  /** An entry in the store that the stream looks for and its filter admits. */
  predicate Wanted(s: Stream, e: HandoffEvent) { e in s.log && Matches(s.filter, e) && Admits(s.filter, e) }

  predicate Past(vs: seq<Verdict>, base: set<EntryKey>, e: HandoffEvent) { KeyOf(e) in base || Sent(vs, KeyOf(e)) }

  /** Of the wanted entries exactly those with a smaller id are past. */
  ghost predicate NextInOrder(s: Stream, vs: seq<Verdict>, id: int) {
    forall e | Wanted(s, e) :: e.id < id <==> Past(vs, s.base, e)
  }

  /** Each entry was written when it was the next in order. */
  ghost predicate InOrder(s: Stream) {
    forall b | 0 <= b < |s.view.verdicts| && s.view.verdicts[b].written ::
      NextInOrder(s, s.view.verdicts[..b], s.view.verdicts[b].event.id)
  }

  /** The stream after the first k records of a scan. */
  function Upon(s: Stream, records: seq<HandoffEvent>, k: nat): Stream
    requires k <= |records| && forall e | e in records :: e.id > 0
  {
    s.(view := JudgedAll(s.view, s.filter, records[..k]))
  }

  /** A record that is news and passes is the next in order. */
  ghost predicate OrderlyRecord(s: Stream, project: int, x: HandoffEvent) {
    KeyOf(x) !in s.view.known && Passes(s.filter, project, x) ==> NextInOrder(s, s.view.verdicts, x.id)
  }

  /** Each of the first n records of a scan is, when its turn comes. */
  ghost predicate OrderlyRecords(s: Stream, records: seq<HandoffEvent>, n: nat)
    requires n <= |records| && forall e | e in records :: e.id > 0
  {
    n > 0 ==> OrderlyRecords(s, records, n - 1) && OrderlyRecord(Upon(s, records, n - 1), 0, records[n - 1])
  }

  /** The event writes entries in order: a published entry is the next one, and each record of a scan
      is, when its turn comes. */
  ghost predicate Orderly(s: Stream, e: Event)
    requires Enabled(s, e)
  {
    match e
    case Publish(project, event) =>
      Normalized(event).Some? ==> OrderlyRecord(s, project, Normalized(event).value)
    case Scan(ok, records) => ok ==> OrderlyRecords(s, records, |records|)
    case _ => true
  }

  lemma JudgedInOrderIff(s: Stream, project: int, x: HandoffEvent)
    requires x.id > 0
    ensures InOrder(s.(view := Judged(s.view, s.filter, project, x))) <==> InOrder(s) && OrderlyRecord(s, project, x)
  {
    var vs, t := s.view.verdicts, s.(view := Judged(s.view, s.filter, project, x));
    if KeyOf(x) !in s.view.known {
      var ws := t.view.verdicts;
      assert ws[..|vs|] == vs;
      assert forall b | 0 <= b < |vs| :: ws[b] == vs[b] && ws[..b] == vs[..b];
      forall b | 0 <= b < |vs| && vs[b].written
        ensures NextInOrder(t, ws[..b], ws[b].event.id) <==> NextInOrder(s, vs[..b], vs[b].event.id)
      {
        SameOrder(s, t, vs[..b], vs[b].event.id);
      }
      SameOrder(s, t, vs, x.id);
    }
  }

  lemma SameOrder(s: Stream, t: Stream, vs: seq<Verdict>, id: int)
    requires t == s.(view := t.view)
    ensures NextInOrder(t, vs, id) <==> NextInOrder(s, vs, id)
  {
    assert forall e :: Wanted(t, e) <==> Wanted(s, e);
  }

  lemma UponNext(s: Stream, records: seq<HandoffEvent>, n: nat)
    requires n < |records| && forall e | e in records :: e.id > 0
    ensures records[n].id > 0
    ensures var t := Upon(s, records, n); Upon(s, records, n + 1) == t.(view := Judged(t.view, t.filter, 0, records[n]))
  {
    assert records[..n + 1][..n] == records[..n];
  }

  lemma UponNone(s: Stream, records: seq<HandoffEvent>)
    requires forall e | e in records :: e.id > 0
    ensures InOrder(Upon(s, records, 0)) <==> InOrder(s) && OrderlyRecords(s, records, 0)
  {
    assert Upon(s, records, 0) == s;
  }

  lemma NextRecordInOrderIff(s: Stream, records: seq<HandoffEvent>, n: nat)
    requires n < |records| && forall e | e in records :: e.id > 0
    ensures InOrder(Upon(s, records, n + 1)) <==> InOrder(Upon(s, records, n)) && OrderlyRecord(Upon(s, records, n), 0, records[n])
  {
    UponNext(s, records, n);
    JudgedInOrderIff(Upon(s, records, n), 0, records[n]);
  }

  lemma {:induction false} ScanInOrderIff(s: Stream, records: seq<HandoffEvent>, n: nat)
    requires n <= |records| && forall e | e in records :: e.id > 0
    ensures InOrder(Upon(s, records, n)) <==> InOrder(s) && OrderlyRecords(s, records, n)
  {
    if n == 0 {
      UponNone(s, records);
    } else {
      ScanInOrderIff(s, records, n - 1);
      NextRecordInOrderIff(s, records, n - 1);
    }
  }

  /** What the tracker knew from the start are keys of stored entries. */
  ghost predicate BaseIsStored(s: Stream) { forall key | key in s.base :: exists e | e in s.log :: KeyOf(e) == key }

  ghost predicate Sound(s: Stream) { LogInv(s.log) && ViewInv(s.base, s.view) && VerdictsInv(s) && BaseIsStored(s) && s.filter.task.Some? }

  /** What is written in the stream of a task are entries of that task. */
  lemma WrittenIsOfTask(s: Stream, b: nat)
    requires Sound(s) && b < |s.view.verdicts| && s.view.verdicts[b].written
    ensures var x := Entry(s.view.verdicts[b].event); x in s.log && Matches(s.filter, x) && x.scope == "task" && x.id > 0
    ensures Entry(s.view.verdicts[b].event).id <= MaxID(s.log, "task")
  {
    var x := Entry(s.view.verdicts[b].event);
    var i :| 0 <= i < |s.log| && s.log[i] == x;
  }

  lemma UniqueInLog(log: seq<HandoffEvent>, x: HandoffEvent, y: HandoffEvent)
    requires LogInv(log) && x in log && y in log && x.scope == y.scope && x.id == y.id
    ensures x == y
  {
    var i :| 0 <= i < |log| && log[i] == x;
    var j :| 0 <= j < |log| && log[j] == y;
    assert i == j;
  }

  /** An entry with an id above all others of the task is past for nobody. */
  lemma LaterIsNotPast(s: Stream, b: nat, e: HandoffEvent)
    requires Sound(s) && b <= |s.view.verdicts| && e.scope == "task" && e.id > MaxID(s.log, "task")
    ensures !Past(s.view.verdicts[..b], s.base, e)
  {
    var vs := s.view.verdicts;
    assert forall x | x in s.log :: KeyOf(x) != KeyOf(e);
    forall k | 0 <= k < b && vs[..b][k].written ensures KeyOf(vs[..b][k].event) != KeyOf(e) {
      assert vs[..b][k] == vs[k];
      WrittenIsOfTask(s, k);
    }
  }

  lemma AppendKeepsOrderAt(s: Stream, e: HandoffEvent, b: nat)
    requires Sound(s) && Storable(s.log, e) && b < |s.view.verdicts| && s.view.verdicts[b].written
    ensures NextInOrder(s.(log := s.log + [e]), s.view.verdicts[..b], s.view.verdicts[b].event.id)
      <==> NextInOrder(s, s.view.verdicts[..b], s.view.verdicts[b].event.id)
  {
    var t := s.(log := s.log + [e]);
    WrittenIsOfTask(s, b);
    if Matches(s.filter, e) {
      LaterIsNotPast(s, b, e);
    }
    assert forall x :: Wanted(t, x) <==> Wanted(s, x) || (x == e && Matches(s.filter, e) && Admits(s.filter, e));
  }

  lemma AppendInOrderIff(s: Stream, e: HandoffEvent)
    requires Sound(s) && Storable(s.log, e)
    ensures InOrder(s.(log := s.log + [e])) <==> InOrder(s)
  {
    forall b: nat | b < |s.view.verdicts| && s.view.verdicts[b].written
      ensures NextInOrder(s.(log := s.log + [e]), s.view.verdicts[..b], s.view.verdicts[b].event.id)
        <==> NextInOrder(s, s.view.verdicts[..b], s.view.verdicts[b].event.id)
    {
      AppendKeepsOrderAt(s, e, b);
    }
  }

  lemma StepInOrderIff(s: Stream, e: Event)
    requires Sound(s) && Enabled(s, e)
    ensures InOrder(Step(s, e)) <==> InOrder(s) && Orderly(s, e)
  {
    match e
    case Append(entry) => AppendInOrderIff(s, entry);
    case Publish(project, event) =>
      if Normalized(event).Some? {
        JudgedInOrderIff(s, project, Normalized(event).value);
      }
    case Scan(ok, records) =>
      if ok {
        ScanInOrderIff(s, records, |records|);
        assert records[..|records|] == records;
        SameView(Upon(s, records, |records|), Step(s, e));
      }
    case _ => SameView(s, Step(s, e));
  }

  lemma SameView(s: Stream, t: Stream)
    requires t.log == s.log && t.filter == s.filter && t.base == s.base && t.view == s.view
    ensures InOrder(t) <==> InOrder(s)
  {
    assert forall e :: Wanted(t, e) <==> Wanted(s, e);
  }

  ghost predicate TaskRun(r: Trace) {
    && IsRun(r) && r.states[0].filter.task.Some? && BaseIsStored(r.states[0])
    && forall m | 0 <= m < |r.events| :: Truthful(r.states[m], r.events[m])
  }

  lemma {:induction false} BaseStaysStored(r: Trace, n: nat)
    requires IsRun(r) && n < |r.states| && BaseIsStored(r.states[0])
    ensures BaseIsStored(r.states[n])
  {
    if n > 0 {
      BaseStaysStored(r, n - 1);
      assert Moves(r, n - 1);
      assert forall e | e in r.states[n - 1].log :: e in r.states[n].log;
    }
  }

  lemma TaskRunIsSound(r: Trace, n: nat)
    requires TaskRun(r) && n < |r.states|
    ensures Sound(r.states[n])
  {
    ReachableStatesAreSound(r, n);
    VerdictsAreEventPasses(r, n);
    BaseStaysStored(r, n);
    FilterStays(r, n);
  }

  /** Every one of the first n events of the run writes entries in order. */
  ghost predicate OrderlyRun(r: Trace, n: nat)
    requires IsRun(r) && n <= |r.events|
  {
    n > 0 ==> OrderlyRun(r, n - 1) && Moves(r, n - 1) && Orderly(r.states[n - 1], r.events[n - 1])
  }

  lemma {:induction false} InOrderIffOrderly(r: Trace, n: nat)
    requires TaskRun(r) && n < |r.states|
    ensures InOrder(r.states[n]) <==> OrderlyRun(r, n)
  {
    if n > 0 {
      InOrderIffOrderly(r, n - 1);
      assert Moves(r, n - 1);
      TaskRunIsSound(r, n - 1);
      StepInOrderIff(r.states[n - 1], r.events[n - 1]);
    }
  }

  // ---------------------------------------------------------------- every cut of a connection

  /** The first scan of a later connection: every entry the stream looks for, all of them old by then,
      and whatever was appended since. */
  ghost predicate ScansAll(s: Stream, records: seq<Record>, baseline: Option<int>) {
    && WellStored(records) && SortedByID(records)
    && (forall e | e in s.log && Matches(s.filter, e) ::
          exists i | 0 <= i < |records| :: Entry(records[i].event) == e && IsOld(records[i], baseline))
    && (forall i | 0 <= i < |records| ::
          var e := Entry(records[i].event); Matches(s.filter, e) && (e in s.log || e.id > MaxID(s.log, "task")))
  }

  lemma RecordOf(s: Stream, records: seq<Record>, baseline: Option<int>, x: HandoffEvent) returns (i: nat)
    requires Sound(s) && ScansAll(s, records, baseline) && x in s.log && Matches(s.filter, x)
    ensures i < |records| && Entry(records[i].event) == x && IsOld(records[i], baseline)
    ensures x.id > 0 && LastSeenAt(records, x.id, baseline) == i
    ensures forall j: nat | j < |records| && records[j].event.id == x.id :: j == i
  {
    var k :| 0 <= k < |records| && Entry(records[k].event) == x && IsOld(records[k], baseline);
    i := k;
    assert records[i].event.id == x.id && records[i].event.scope == "task";
    assert forall j | 0 <= j < |records| :: Matches(s.filter, Entry(records[j].event)) && records[j].event.scope == "task";
  }

  lemma SentWithNext(vs: seq<Verdict>, b: nat, key: EntryKey)
    requires b < |vs| && vs[b].written
    ensures Sent(vs[..b + 1], key) <==> Sent(vs[..b], key) || key == KeyOf(vs[b].event)
    ensures LastID(vs[..b + 1], None) == Some(vs[b].event.id)
  {
    var ws := vs[..b + 1];
    assert ws[b] == vs[b] && forall k | 0 <= k < b :: ws[k] == vs[..b][k];
    if Sent(vs[..b], key) {
      var k :| 0 <= k < b && vs[..b][k].written && KeyOf(vs[..b][k].event) == key;
      assert ws[k].written && KeyOf(ws[k].event) == key;
    }
  }

  lemma NotPastBefore(s: Stream, b: nat)
    requires Sound(s) && b < |s.view.verdicts|
    ensures !Past(s.view.verdicts[..b], s.base, Entry(s.view.verdicts[b].event))
  {
    var vs := s.view.verdicts;
    assert KeyOf(Entry(vs[b].event)) == KeyOf(vs[b].event);
    assert forall k | 0 <= k < b :: vs[..b][k] == vs[k];
  }

  /** One record, when the connection is cut right after verdict b. */
  lemma RecordAtCut(s: Stream, b: nat, records: seq<Record>, baseline: Option<int>, i: nat)
    requires Sound(s) && ScansAll(s, records, baseline) && i < |records| && IsOld(records[i], baseline)
    requires b < |s.view.verdicts| && s.view.verdicts[b].written
    ensures var vs, x, e := s.view.verdicts, s.view.verdicts[b].event, Entry(records[i].event);
      && (Past(vs[..b + 1], s.base, e) <==> Past(vs[..b], s.base, e) || e.id == x.id)
      && (Taken(records, Some(x.id), baseline, i) <==> e.id <= x.id)
      && (e !in s.log ==> !Past(vs[..b + 1], s.base, e) && e.id > x.id)
      && (e.id == x.id ==> !Past(vs[..b], s.base, e))
  {
    var vs, x, e := s.view.verdicts, Entry(s.view.verdicts[b].event), Entry(records[i].event);
    WrittenIsOfTask(s, b);
    var k := RecordOf(s, records, baseline, x);
    SentWithNext(vs, b, KeyOf(e));
    assert Matches(s.filter, e);
    NotPastBefore(s, b);
    if e.id == x.id {
      assert i == k;
    }
    if e !in s.log {
      LaterIsNotPast(s, b + 1, e);
    }
  }

  lemma OrderMakesCutExact(s: Stream, b: nat, records: seq<Record>, baseline: Option<int>)
    requires Sound(s) && ScansAll(s, records, baseline)
    requires b < |s.view.verdicts| && s.view.verdicts[b].written
    requires NextInOrder(s, s.view.verdicts[..b], s.view.verdicts[b].event.id)
    ensures UpToLast(s.view.verdicts[..b + 1], s.base, s.filter, records, Some(s.view.verdicts[b].event.id), baseline)
  {
    forall i: nat | i < |records| && Due(s.filter, records, baseline, i)
      ensures KeyOf(records[i].event) in s.base || Sent(s.view.verdicts[..b + 1], KeyOf(records[i].event))
        <==> Taken(records, Some(s.view.verdicts[b].event.id), baseline, i)
    {
      RecordAtCut(s, b, records, baseline, i);
      assert Entry(records[i].event) in s.log ==> Wanted(s, Entry(records[i].event));
    }
  }

  lemma ExactCutMeansOrder(s: Stream, b: nat, records: seq<Record>, baseline: Option<int>)
    requires Sound(s) && ScansAll(s, records, baseline)
    requires b < |s.view.verdicts| && s.view.verdicts[b].written
    requires UpToLast(s.view.verdicts[..b + 1], s.base, s.filter, records, Some(s.view.verdicts[b].event.id), baseline)
    ensures NextInOrder(s, s.view.verdicts[..b], s.view.verdicts[b].event.id)
  {
    forall e | Wanted(s, e) ensures e.id < s.view.verdicts[b].event.id <==> Past(s.view.verdicts[..b], s.base, e) {
      var i := RecordOf(s, records, baseline, e);
      RecordAtCut(s, b, records, baseline, i);
      assert Due(s.filter, records, baseline, i);
    }
  }

  /** For the stream of one task: resuming is exact after every entry at which the connection may be
      cut, if and only if every event of it wrote entries in order: each published entry that was
      written, and each record of a scan in its turn, was the wanted entry with the smallest id not
      written yet, and had a larger id than all before. */
  lemma TaskStreamResumesExactlyIff(r: Trace, n: nat, records: seq<Record>, baseline: Option<int>)
    requires TaskRun(r) && n < |r.states| && ScansAll(r.states[n], records, baseline)
    ensures var s := r.states[n];
      (forall b: nat | b < |s.view.verdicts| && s.view.verdicts[b].written ::
        UpToLast(s.view.verdicts[..b + 1], s.base, s.filter, records, LastID(s.view.verdicts[..b + 1], None), baseline))
      <==> OrderlyRun(r, n)
  {
    var s := r.states[n];
    TaskRunIsSound(r, n);
    InOrderIffOrderly(r, n);
    forall b: nat | b < |s.view.verdicts| && s.view.verdicts[b].written
      ensures UpToLast(s.view.verdicts[..b + 1], s.base, s.filter, records, LastID(s.view.verdicts[..b + 1], None), baseline)
        <==> NextInOrder(s, s.view.verdicts[..b], s.view.verdicts[b].event.id)
    {
      SentWithNext(s.view.verdicts, b, KeyOf(s.view.verdicts[b].event));
      if NextInOrder(s, s.view.verdicts[..b], s.view.verdicts[b].event.id) {
        OrderMakesCutExact(s, b, records, baseline);
      } else if UpToLast(s.view.verdicts[..b + 1], s.base, s.filter, records, Some(s.view.verdicts[b].event.id), baseline) {
        ExactCutMeansOrder(s, b, records, baseline);
      }
    }
  }

  /** So a connection with the stream of one task, all of whose events wrote entries in order, may be
      cut after any entry: what it sent and what the next connection sends make up every entry once. */
  lemma OrderlyStreamIsResumedExactly(
    first: Trace, n: nat, b: nat, second: Trace, i2: nat, j2: nat, records: seq<Record>, baseline: Option<int>)
    requires TaskRun(first) && n < |first.states| && OrderlyRun(first, n)
    requires b < |first.states[n].view.verdicts| && first.states[n].view.verdicts[b].written
    requires ScansAll(first.states[n], records, baseline) && Resumes(first, n, b + 1, None, second, records, baseline)
    requires j2 + 1 < |second.states|
    requires forall i: nat | i < |records| && Due(second.states[0].filter, records, baseline, i) ::
      Reaches(second, i2, j2, Entry(records[i].event))
    ensures ExactlyOnce(first.states[n].view.verdicts[..b + 1], second.states[j2 + 1].view.verdicts, first.states[0].base,
                        first.states[0].filter, records, baseline)
  {
    TaskStreamResumesExactlyIff(first, n, records, baseline);
    FilterStays(first, n);
    ResumingIsExactIff(first, n, b + 1, None, second, i2, j2, records, baseline);
  }

  // ---------------------------------------------------------------- scans that are in order

  /** A scan of everything there is at its end, in order of ids. */
  ghost predicate Complete(s: Stream, records: seq<HandoffEvent>) {
    && (forall e | e in records :: e.id > 0 && Entry(e) in s.log && Matches(s.filter, Entry(e)))
    && (forall i, j | 0 <= i <= j < |records| :: records[i].id <= records[j].id)
    && forall e | Wanted(s, e) :: Holds(records, e)
  }

  /** No wanted entry is past before one with a smaller id. */
  ghost predicate PastFirst(s: Stream) {
    forall x, y | Wanted(s, x) && Wanted(s, y) && x.id <= y.id && Past(s.view.verdicts, s.base, y) ::
      Past(s.view.verdicts, s.base, x)
  }

  lemma PastIffKnown(s: Stream, e: HandoffEvent)
    requires Sound(s) && s.filter.session == 0 && Wanted(s, e)
    ensures Past(s.view.verdicts, s.base, e) <==> KeyOf(e) in s.view.known
  {
    if KeyOf(e) in s.view.known && KeyOf(e) !in s.base {
      var k := KnownIsSettled(s, e);
      assert KeyOf(s.view.verdicts[k].event) == KeyOf(e);
    }
  }

  lemma {:induction false} KnownAfterRecords(v: View, f: Filter, records: seq<HandoffEvent>, key: EntryKey)
    requires forall e | e in records :: e.id > 0
    ensures key in JudgedAll(v, f, records).known <==> key in v.known || exists e :: e in records && KeyOf(e) == key
  {
    if records != [] {
      var rest, x := records[..|records| - 1], records[|records| - 1];
      assert records == rest + [x];
      KnownAfterRecords(v, f, rest, key);
      assert forall e :: e in records <==> e in rest || e == x;
    }
  }

  lemma UponIsSound(s: Stream, records: seq<HandoffEvent>, k: nat)
    requires Sound(s) && k <= |records| && forall e | e in records :: e.id > 0 && Entry(e) in s.log
    ensures Sound(Upon(s, records, k))
  {
    JudgedAllKeepsView(s.base, s.view, s.filter, records[..k]);
    JudgedAllKeepsVerdicts(s, records[..k]);
  }

  /** An entry that is wanted is past after the first k records exactly when its id is below that of
      the next one, if that is news. */
  lemma PastBeforeNext(s: Stream, records: seq<HandoffEvent>, k: nat, e: HandoffEvent)
    requires Sound(s) && s.filter.session == 0 && PastFirst(s) && Complete(s, records) && Wanted(s, e)
    requires k < |records| && Wanted(s, Entry(records[k])) && KeyOf(records[k]) !in Upon(s, records, k).view.known
    ensures e.id < records[k].id <==> Past(Upon(s, records, k).view.verdicts, s.base, e)
  {
    var t, x := Upon(s, records, k), records[k];
    UponIsSound(s, records, k);
    PastIffKnown(t, e);
    KnownAfterRecords(s.view, s.filter, records[..k], KeyOf(e));
    KnownAfterRecords(s.view, s.filter, records[..k], KeyOf(x));
    if e.id < x.id {
      var j :| 0 <= j < |records| && Entry(records[j]) == e;
      assert records[..k][j] in records[..k] && KeyOf(records[j]) == KeyOf(e);
    }
    if KeyOf(e) in s.view.known {
      PastIffKnown(s, e);
      PastIffKnown(s, Entry(x));
    } else if KeyOf(e) in t.view.known {
      var j :| 0 <= j < k && KeyOf(records[..k][j]) == KeyOf(e);
      assert records[j] == records[..k][j];
      if e.id == x.id {
        UniqueInLog(s.log, e, Entry(x));
      }
    }
  }

  /** Without a monitor token, a scan that misses nothing that is there when it ends writes in order,
      if nothing is past out of order before it. So the order is broken only by a scan that misses
      what is appended meanwhile, or by a published event. */
  lemma {:induction false} CompleteScanIsOrderly(s: Stream, records: seq<HandoffEvent>, n: nat)
    requires Sound(s) && s.filter.session == 0 && PastFirst(s) && Complete(s, records) && n <= |records|
    ensures OrderlyRecords(s, records, n)
  {
    if n > 0 {
      CompleteScanIsOrderly(s, records, n - 1);
      RecordIsOrderly(s, records, n - 1);
    }
  }

  lemma RecordIsOrderly(s: Stream, records: seq<HandoffEvent>, k: nat)
    requires Sound(s) && s.filter.session == 0 && PastFirst(s) && Complete(s, records) && k < |records|
    ensures OrderlyRecord(Upon(s, records, k), 0, records[k])
  {
    var t, x := Upon(s, records, k), records[k];
    if KeyOf(x) !in t.view.known && Passes(s.filter, 0, x) {
      forall e | Wanted(t, e) ensures e.id < x.id <==> Past(t.view.verdicts, t.base, e) {
        PastBeforeNext(s, records, k, e);
      }
    }
  }

  /** After it everything wanted is past, so that the next such scan is in order too. */
  lemma CompleteScanKeepsPastFirst(s: Stream, records: seq<HandoffEvent>)
    requires Sound(s) && s.filter.session == 0 && Complete(s, records)
    ensures var t := Upon(s, records, |records|);
      PastFirst(t) && forall e | Wanted(t, e) :: Past(t.view.verdicts, t.base, e)
  {
    var t := Upon(s, records, |records|);
    assert records[..|records|] == records;
    UponIsSound(s, records, |records|);
    forall e | Wanted(t, e) ensures Past(t.view.verdicts, t.base, e) {
      assert Wanted(s, e);
      var r :| r in records && Entry(r) == e;
      assert KeyOf(r) == KeyOf(e);
      KnownAfterRecords(s.view, s.filter, records, KeyOf(e));
      PastIffKnown(t, e);
    }
  }

  // ---------------------------------------------------------------- runs that resume badly

  /** A connection to a store without archived projects; mark is the watermark it remembers. */
  function Conn(f: Filter, log: seq<HandoffEvent>, base: set<EntryKey>, v: View, mark: Option<(int, int)>, pc: Pc): Stream {
    Stream(log, {}, f, base, v, pc,
           if mark.Some? then mark.value.0 + mark.value.1 else -1, if mark.Some? then mark.value else (0, 0), {})
  }

  function Mark(log: seq<HandoffEvent>): (int, int) { (MaxID(log, "task"), MaxID(log, "goal")) }

  /** The steps of a tick up to its scan, in a stream whose watermark has moved. */
  lemma TickSteps(f: Filter, log: seq<HandoffEvent>, base: set<EntryKey>, v: View, mark: Option<(int, int)>)
    requires mark.Some? ==> mark.value.0 + mark.value.1 != Mark(log).0 + Mark(log).1
    ensures var n, parts := |log|, Some(Mark(log));
      && Step(Conn(f, log, base, v, mark, Idle), ReadTaskMax(true)) == Conn(f, log, base, v, mark, HasTaskMax(Mark(log).0, n))
      && Step(Conn(f, log, base, v, mark, HasTaskMax(Mark(log).0, n)), ReadGoalMax(true))
        == Conn(f, log, base, v, mark, Scanning(parts, n, n))
      && Step(Conn(f, log, base, v, mark, Scanning(parts, n, n)), ListGoals)
        == Conn(f, log, base, v, mark, Listed(parts, n, n, {}))
  {
  }

  lemma TickBegins(r: Trace, f: Filter, log: seq<HandoffEvent>, base: set<EntryKey>, v: View, mark: Option<(int, int)>)
    returns (r': Trace)
    requires IsRun(r) && r.states[|r.events|] == Conn(f, log, base, v, mark, Idle)
    requires mark.Some? ==> mark.value.0 + mark.value.1 != Mark(log).0 + Mark(log).1
    ensures IsRun(r') && r'.events == r.events + [ReadTaskMax(true), ReadGoalMax(true), ListGoals]
    ensures r'.states[..|r.states|] == r.states && SameTick(r', |r.events|, |r.events| + 2)
    ensures r'.states[|r'.events|] == Conn(f, log, base, v, mark, Listed(Some(Mark(log)), |log|, |log|, {}))
  {
    var n, parts := |log|, Some(Mark(log));
    TickSteps(f, log, base, v, mark);
    r' := Extended(r, ReadTaskMax(true), Conn(f, log, base, v, mark, HasTaskMax(Mark(log).0, n)));
    r' := Extended(r', ReadGoalMax(true), Conn(f, log, base, v, mark, Scanning(parts, n, n)));
    r' := Extended(r', ListGoals, Conn(f, log, base, v, mark, Listed(parts, n, n, {})));
  }

  lemma FullScanIsEnabled(f: Filter, log: seq<HandoffEvent>, base: set<EntryKey>, v: View)
    requires LogInv(log) && forall e | e in log :: Matches(f, e)
    ensures Enabled(Conn(f, log, base, v, None, Listed(Some(Mark(log)), |log|, |log|, {})), Scan(true, log))
  {
    forall e | e in log ensures e.id > 0 && Entry(e) == e && Holds(log, e) {
      var i :| 0 <= i < |log| && log[i] == e;
    }
  }

  lemma TickScans(r: Trace, i: nat, e: Event) returns (r': Trace)
    requires |r.events| > 0 && IsRun(r) && SameTick(r, i, |r.events| - 1) && e.Scan? && e.ok && Enabled(r.states[|r.events|], e)
    ensures IsRun(r') && r'.events == r.events + [e] && r'.states == r.states + [Step(r.states[|r.events|], e)]
    ensures SameTick(r', i, |r.events|) && EndsTick(r'.states[|r.events|], e)
  {
    r' := Extended(r, e, Step(r.states[|r.events|], e));
  }

  /** A connection that starts out knowing base, up to its first scan. */
  lemma Begins(f: Filter, log: seq<HandoffEvent>, base: set<EntryKey>) returns (r: Trace)
    requires LogInv(log)
    ensures IsRun(r) && |r.events| == 3 && r.states[0] == Conn(f, log, base, View(base, []), None, Idle)
    ensures r.states[3] == Conn(f, log, base, View(base, []), None, Listed(Some(Mark(log)), |log|, |log|, {}))
    ensures r.events == [ReadTaskMax(true), ReadGoalMax(true), ListGoals] && SameTick(r, 0, 2)
  {
    var v := View(base, []);
    r := Trace([Conn(f, log, base, v, None, Idle)], []);
    r := TickBegins(r, f, log, base, v, None);
    assert r.states[0] == r.states[..1][0];
  }

  lemma FullScanEnds(f: Filter, log: seq<HandoffEvent>, base: set<EntryKey>)
    requires LogInv(log) && forall e | e in log :: Matches(f, e)
    ensures var s := Conn(f, log, base, View(base, []), None, Listed(Some(Mark(log)), |log|, |log|, {}));
      EndsTick(s, Scan(true, log)) && LeftOut(s, Scan(true, log)) == {}
  {
    FullScanIsEnabled(f, log, base, View(base, []));
  }

  lemma NothingPublished(events: seq<Event>, records: seq<HandoffEvent>)
    requires events == [ReadTaskMax(true), ReadGoalMax(true), ListGoals] + [Scan(true, records)]
    ensures events[3] == Scan(true, records) && forall m | 0 <= m <= 3 :: !events[m].Publish?
  {
  }

  lemma FullTick(f: Filter, log: seq<HandoffEvent>, base: set<EntryKey>) returns (r: Trace)
    requires LogInv(log) && forall e | e in log :: Matches(f, e)
    ensures IsRun(r) && |r.events| == 4 && r.states[0] == Conn(f, log, base, View(base, []), None, Idle)
    ensures r.states[3] == Conn(f, log, base, View(base, []), None, Listed(Some(Mark(log)), |log|, |log|, {}))
    ensures r.events == [ReadTaskMax(true), ReadGoalMax(true), ListGoals] + [Scan(true, log)] && SameTick(r, 0, 3)
  {
    var r3 := Begins(f, log, base);
    FullScanIsEnabled(f, log, base, View(base, []));
    r := TickScans(r3, 0, Scan(true, log));
    assert r.states[0] == r3.states[0] && r.states[3] == r3.states[3];
  }

  /** A connection that starts out knowing base and completes one scan of everything. */
  lemma OneTick(f: Filter, log: seq<HandoffEvent>, base: set<EntryKey>) returns (r: Trace)
    requires LogInv(log) && f.session == 0 && forall e | e in log :: Matches(f, e)
    ensures IsRun(r) && |r.events| == 4 && r.states[0] == Conn(f, log, base, View(base, []), None, Idle)
    ensures forall e | e in log :: Reaches(r, 0, 3, e)
  {
    r := FullTick(f, log, base);
    FullScanEnds(f, log, base);
    NothingPublished(r.events, log);
    FilterStays(r, 3);
    FilterStays(r, 4);
  }

  /** What the connection knows and has judged when it has written x. */
  function Wrote(x: HandoffEvent): View { View({KeyOf(x)}, [Verdict(x, 0, true)]) }

  lemma FirstRecordIsWritten(f: Filter, x: HandoffEvent)
    requires f.session == 0 && Admits(f, x) && x.id > 0
    ensures JudgedAll(View({}, []), f, [x]) == Wrote(x)
  {
    assert [x][..0] == [] && JudgedAll(View({}, []), f, [x][..0]) == View({}, []);
  }

  lemma Grows(r: Trace, s: Stream, e: HandoffEvent) returns (r': Trace)
    requires IsRun(r) && r.states[|r.events|] == s && Storable(s.log, e)
    ensures IsRun(r') && |r'.events| == |r.events| + 1 && r'.states[|r'.events|] == s.(log := s.log + [e])
    ensures r'.states[0] == r.states[0]
  {
    r' := Extended(r, Append(e), s.(log := s.log + [e]));
  }

  /** A connection to an empty store, whose first scan is under way, writes x, appended by then. */
  lemma Writes(r: Trace, f: Filter, log: seq<HandoffEvent>, x: HandoffEvent) returns (r': Trace)
    requires f.session == 0 && Admits(f, x) && Matches(f, x) && x in log && LogInv(log) && Entry(x) == x && x.id > 0
    requires IsRun(r) && r.states[|r.events|] == Conn(f, log, {}, View({}, []), None, Listed(Some((0, 0)), 0, 0, {}))
    ensures IsRun(r') && |r'.events| == |r.events| + 1 && r'.states[0] == r.states[0]
    ensures r'.states[|r'.events|] == Conn(f, log, {}, Wrote(x), Some((0, 0)), Idle)
  {
    FirstRecordIsWritten(f, x);
    r' := Extended(r, Scan(true, [x]), Conn(f, log, {}, Wrote(x), Some((0, 0)), Idle));
  }

  lemma OneStored(x: HandoffEvent)
    requires Storable([], x)
    ensures LogInv([x]) && Entry(x) == x && x.id > 0
  {
  }

  lemma TwoStored(x: HandoffEvent, y: HandoffEvent)
    requires Storable([], x) && Storable([x], y)
    ensures LogInv([x, y]) && Entry(x) == x && Entry(y) == y && x.id > 0 && y.id > 0
  {
    OneStored(x);
    AppendKeepsLogInv([x], y);
    assert [x] + [y] == [x, y];
  }

  /** A connection writes x, and y is appended after that. */
  lemma WritesThenGrows(f: Filter, x: HandoffEvent, y: HandoffEvent) returns (r: Trace)
    requires f.session == 0 && Admits(f, x) && Matches(f, x) && Storable([], x) && Storable([x], y)
    ensures IsRun(r) && r.states[|r.events|] == Conn(f, [x, y], {}, Wrote(x), Some((0, 0)), Idle)
    ensures r.states[0].base == {} && r.states[0].filter == f
  {
    r := Begins(f, [], {});
    r := Grows(r, r.states[3], x);
    TwoStored(x, y);
    AppendKeepsLogInv([], x);
    assert [] + [x] == [x] && [x] + [y] == [x, y];
    r := Writes(r, f, [x], x);
    r := Grows(r, r.states[5], y);
  }

  /** While a scan runs, y is appended to a handoff that it has read already, and then x to one
      that it reads next: it returns x alone. */
  lemma WritesTheLater(f: Filter, x: HandoffEvent, y: HandoffEvent) returns (r: Trace)
    requires f.session == 0 && Admits(f, x) && Matches(f, x) && Storable([], y) && Storable([y], x)
    ensures IsRun(r) && r.states[|r.events|] == Conn(f, [y, x], {}, Wrote(x), Some((0, 0)), Idle)
    ensures r.states[0].base == {} && r.states[0].filter == f
  {
    r := Begins(f, [], {});
    r := Grows(r, r.states[3], y);
    assert [] + [y] == [y] && [y] + [x] == [y, x];
    r := Grows(r, r.states[4], x);
    TwoStored(y, x);
    r := Writes(r, f, [y, x], x);
  }

  /** The records of a second connection's first scan: y first, then x. */
  function Both(y: HandoffEvent, x: HandoffEvent): seq<Record> { [Record(y, 0), Record(x, 0)] }

  /** The connection after a cut at which the client had x alone. */
  lemma ResumesAfter(first: Trace, f: Filter, log: seq<HandoffEvent>, y: HandoffEvent, x: HandoffEvent) returns (second: Trace)
    requires f.session == 0 && LogInv(log) && (log == [x, y] || log == [y, x])
    requires forall e | e in log :: Matches(f, e)
    requires y.id <= x.id && x.id > 0 && y.id > 0 && (y.scope == x.scope ==> y.id != x.id)
    requires IsRun(first) && first.states[0].filter == f && first.states[0].base == {}
    requires first.states[|first.events|].view == Wrote(x)
    ensures Resumes(first, |first.events|, 1, None, second, Both(y, x), None)
    ensures |second.events| == 4 && Reaches(second, 0, 3, y) && Reaches(second, 0, 3, x)
    ensures second.states[0].filter == f
  {
    var vs := first.states[|first.events|].view.verdicts;
    assert vs[..1] == vs && LastID(vs, None) == Some(x.id);
    var base := InitialKnown(Both(y, x), Some(x.id), None);
    second := OneTick(f, log, base);
    assert y in log && x in log && forall i | 0 <= i < 2 :: log[i] in log;
  }

  /** What the two connections send, when the client had x alone at the cut. */
  lemma AfterWritingX(first: Trace, second: Trace, y: HandoffEvent, x: HandoffEvent)
    requires Resumes(first, |first.events|, 1, None, second, Both(y, x), None)
    requires first.states[|first.events|].view == Wrote(x)
    requires Entry(x) == x && Entry(y) == y && KeyOf(x) != KeyOf(y) && y.id <= x.id
    requires Reaches(second, 0, 3, y) && Reaches(second, 0, 3, x)
    requires Admits(second.states[0].filter, y) && Admits(second.states[0].filter, x)
    ensures !Sent(first.states[|first.events|].view.verdicts[..1], KeyOf(y))
    ensures !Sent(second.states[4].view.verdicts, KeyOf(y))
    ensures Sent(first.states[|first.events|].view.verdicts[..1], KeyOf(x))
    ensures Sent(second.states[4].view.verdicts, KeyOf(x)) <==> y.id == x.id
  {
    var vs, records := first.states[|first.events|].view.verdicts[..1], Both(y, x);
    assert vs == [Verdict(x, 0, true)] && LastID(vs, None) == Some(x.id);
    assert KeyOf(vs[0].event) == KeyOf(x);
    assert LastSeenAt(records, x.id, None) == if y.id == x.id then 0 else 1;
    ResumedEntry(first, |first.events|, 1, None, second, 0, 3, records, None, 0);
    ResumedEntry(first, |first.events|, 1, None, second, 0, 3, records, None, 1);
  }

  /** A goal entry y is appended while the client is away that had task entry x. If its id is not
      above that of x, which counts other entries, neither connection sends it; and with the same
      id, both send x. */
  lemma GoalEntryIsLost(x: HandoffEvent, y: HandoffEvent) returns (first: Trace, second: Trace)
    requires x.scope == "task" && y.scope == "goal" && y.id <= x.id && Storable([], x) && Storable([x], y)
    requires Normalized(x).Some? && Normalized(y).Some?
    ensures Resumes(first, |first.events|, 1, None, second, Both(y, x), None)
    ensures first.states[0].base == {} && first.states[0].filter == Filter(None, None, None, 0)
    ensures Reaches(second, 0, 3, y)
    ensures !Sent(first.states[|first.events|].view.verdicts[..1], KeyOf(y)) && !Sent(second.states[4].view.verdicts, KeyOf(y))
    ensures Sent(first.states[|first.events|].view.verdicts[..1], KeyOf(x))
    ensures Sent(second.states[4].view.verdicts, KeyOf(x)) <==> y.id == x.id
  {
    var f := Filter(None, None, None, 0);
    TwoStored(x, y);
    first := WritesThenGrows(f, x, y);
    second := ResumesAfter(first, f, [x, y], y, x);
    AfterWritingX(first, second, y, x);
  }

  /** A stream of one task: its scan has read the handoff of y when y is appended to it, and then
      reads the one of x, whose id is greater. Cut right after it, neither connection sends y. */
  lemma TornScanLosesAnEntry(x: HandoffEvent, y: HandoffEvent) returns (first: Trace, second: Trace)
    requires x.taskID == y.taskID != 0 && x.handoffID != y.handoffID && Storable([], y) && Storable([y], x)
    requires Normalized(x).Some? && Normalized(y).Some?
    ensures Resumes(first, |first.events|, 1, None, second, Both(y, x), None)
    ensures first.states[0].base == {} && first.states[0].filter == Filter(None, None, Some(x.taskID), 0)
    ensures Reaches(second, 0, 3, y)
    ensures !Sent(first.states[|first.events|].view.verdicts[..1], KeyOf(y)) && !Sent(second.states[4].view.verdicts, KeyOf(y))
  {
    var f := Filter(None, None, Some(x.taskID), 0);
    TwoStored(y, x);
    assert [y][0] in [y];
    first := WritesTheLater(f, x, y);
    second := ResumesAfter(first, f, [y, x], y, x);
    AfterWritingX(first, second, y, x);
  }

  /** What the connection knows and has judged when it has written x and then y. */
  function WroteBoth(x: HandoffEvent, y: HandoffEvent): View {
    View({KeyOf(x), KeyOf(y)}, [Verdict(x, 0, true), Verdict(y, 0, true)])
  }

  lemma SecondRecordIsWritten(f: Filter, x: HandoffEvent, y: HandoffEvent)
    requires f.session == 0 && Admits(f, y) && KeyOf(x) != KeyOf(y) && x.id > 0 && y.id > 0
    ensures JudgedAll(Wrote(x), f, [y, x]) == WroteBoth(x, y)
  {
    assert [y, x][..1] == [y] && [y][..0] == [];
    assert JudgedAll(Wrote(x), f, []) == Wrote(x);
    assert JudgedAll(Wrote(x), f, [y]) == WroteBoth(x, y);
  }

  lemma SecondScanStep(f: Filter, x: HandoffEvent, y: HandoffEvent)
    requires f.session == 0 && Admits(f, y) && Matches(f, x) && Matches(f, y)
    requires Storable([], y) && Storable([y], x) && KeyOf(x) != KeyOf(y)
    ensures var s := Conn(f, [y, x], {}, Wrote(x), Some((0, 0)), Listed(Some(Mark([y, x])), 2, 2, {}));
      && Enabled(s, Scan(true, [y, x])) && Step(s, Scan(true, [y, x])).view == WroteBoth(x, y)
  {
    TwoStored(y, x);
    SecondRecordIsWritten(f, x, y);
    assert forall i | 0 <= i < 2 :: [y, x][i] in [y, x];
  }

  /** The tick after that scan writes y too. */
  lemma WritesTheEarlierNext(f: Filter, x: HandoffEvent, y: HandoffEvent) returns (r: Trace)
    requires f.session == 0 && Admits(f, x) && Admits(f, y) && Matches(f, x) && Matches(f, y)
    requires Storable([], y) && Storable([y], x) && x.scope == y.scope
    ensures IsRun(r) && r.states[|r.events|].view == WroteBoth(x, y)
    ensures r.states[0].base == {} && r.states[0].filter == f
  {
    assert [y][0] in [y] && [y, x][1] in [y, x];
    r := WritesTheLater(f, x, y);
    SecondScanStep(f, x, y);
    var n := |r.events|;
    var r' := TickBegins(r, f, [y, x], {}, Wrote(x), Some((0, 0)));
    assert r'.states[0] == r'.states[..n + 1][0];
    r := TickScans(r', n, Scan(true, [y, x]));
  }

  /** If that stream is cut after the next tick instead, both connections send x. */
  lemma TornScanSendsTwice(x: HandoffEvent, y: HandoffEvent) returns (first: Trace, second: Trace)
    requires x.taskID == y.taskID != 0 && x.handoffID != y.handoffID && Storable([], y) && Storable([y], x)
    requires Normalized(x).Some? && Normalized(y).Some?
    ensures Resumes(first, |first.events|, 2, None, second, Both(y, x), None)
    ensures first.states[0].base == {} && first.states[0].filter == Filter(None, None, Some(x.taskID), 0)
    ensures Reaches(second, 0, 3, x)
    ensures Sent(first.states[|first.events|].view.verdicts[..2], KeyOf(x)) && Sent(second.states[4].view.verdicts, KeyOf(x))
  {
    var f, records := Filter(None, None, Some(x.taskID), 0), Both(y, x);
    TwoStored(y, x);
    assert [y][0] in [y];
    first := WritesTheEarlierNext(f, x, y);
    var vs := first.states[|first.events|].view.verdicts;
    assert vs[..2] == vs && KeyOf(vs[0].event) == KeyOf(x) && LastID(vs, None) == Some(y.id);
    second := OneTick(f, [y, x], InitialKnown(records, Some(y.id), None));
    assert [y, x][1] in [y, x];
    assert LastSeenAt(records, y.id, None) == 0;
    ResumedEntry(first, |first.events|, 2, None, second, 0, 3, records, None, 1);
  }

  const TASK_SEVEN := HandoffEvent("task", 1, 2, "t", 7, "request", 1, 5, {})
  const GOAL_THREE := HandoffEvent("goal", 1, 0, "g", 3, "request", 1, 5, {})
  const TASK_EIGHT := HandoffEvent("task", 1, 2, "u", 8, "request", 1, 5, {})

  lemma StorableAfter(log: seq<HandoffEvent>, x: HandoffEvent)
    requires log == [] || (|log| == 1 && (log[0].scope != x.scope || log[0].id < x.id))
    requires x.scope in {"goal", "task"} && (x.scope == "goal" <==> x.taskID == 0) && x.id > 0 && x.parties == {}
    ensures Storable(log, x)
  {
    if log != [] {
      assert log[..0] == [] && MaxID(log[..0], x.scope) == 0;
    }
  }

  /** The client last saw task entry 7; goal entry 3 is appended while it is away; it never gets it. */
  lemma GoalThreeIsLost() returns (first: Trace, second: Trace)
    ensures Resumes(first, |first.events|, 1, None, second, Both(GOAL_THREE, TASK_SEVEN), None)
    ensures Reaches(second, 0, 3, GOAL_THREE) && !Sent(second.states[4].view.verdicts, KeyOf(GOAL_THREE))
    ensures !Sent(first.states[|first.events|].view.verdicts[..1], KeyOf(GOAL_THREE))
  {
    StorableAfter([], TASK_SEVEN);
    StorableAfter([TASK_SEVEN], GOAL_THREE);
    first, second := GoalEntryIsLost(TASK_SEVEN, GOAL_THREE);
  }

  /** A scan misses task entry 7 and writes entry 8 of another handoff; the client never gets 7. */
  lemma TaskSevenIsLost() returns (first: Trace, second: Trace)
    ensures Resumes(first, |first.events|, 1, None, second, Both(TASK_SEVEN, TASK_EIGHT), None)
    ensures Reaches(second, 0, 3, TASK_SEVEN) && !Sent(second.states[4].view.verdicts, KeyOf(TASK_SEVEN))
    ensures !Sent(first.states[|first.events|].view.verdicts[..1], KeyOf(TASK_SEVEN))
  {
    StorableAfter([], TASK_SEVEN);
    StorableAfter([TASK_SEVEN], TASK_EIGHT);
    first, second := TornScanLosesAnEntry(TASK_EIGHT, TASK_SEVEN);
  }
}
