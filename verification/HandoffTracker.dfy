/** Handoff entry events, their keys, and the tracker of what a stream already knows. */
module HandoffTracker {
  import opened Wrappers
  import opened Text

  /** HandoffEntryAddedEvent, as far as the stream reads it. parties are the sessions with a role in
      the handoff when the event was made; none of them are known when it is empty. */
  datatype HandoffEvent = HandoffEvent(
    scope: string, goalID: int, taskID: int, handoffID: string, id: int, kind: string,
    projectID: int, author: int, parties: set<int>)

  datatype Record = Record(event: HandoffEvent, createdAt: int)

  const KINDS: set<string> :=
    {"request", "received", "review_requested", "review_received", "review_rejected", "completed"}

  /** normalizeHandoffEntryEvent without the shortened body. */
  function Normalized(e: HandoffEvent): (r: Option<HandoffEvent>)
    ensures r.Some? <==>
      (e.id > 0 && e.handoffID != "" && e.goalID != 0
       && e.kind in {"request", "received", "review_requested", "review_received", "review_rejected", "completed"})
    ensures r.Some? ==> r.value == e.(scope := r.value.scope) && r.value.scope != ""
    ensures r.Some? && e.scope != "" ==> r.value == e
    ensures r.Some? && e.scope == "" ==> (r.value.scope == "task" <==> e.taskID != 0) && r.value.scope in {"goal", "task"}
  {
    var scope := if e.scope != "" then e.scope else if e.taskID != 0 then "task" else if e.goalID != 0 then "goal" else "";
    if e.handoffID == "" || e.id <= 0 || e.goalID == 0 || e.kind !in KINDS then None
    else Some(e.(scope := scope))
  }

  /** What handoffEventKey makes of an event with a positive id; KeyText is the string it builds. */
  datatype EntryKey = EntryKey(scope: string, handoffID: string, id: int)

  function KeyOf(e: HandoffEvent): EntryKey { EntryKey(e.scope, e.handoffID, e.id) }

  function KeyText(k: EntryKey): string {
    k.scope + ":" + k.handoffID + ":" + Decimal(k.id)
  }

  /** The key string names one entry of one handoff in one scope, whatever the handoff id
      contains, so comparing strings is comparing keys. */
  lemma KeyTextInjective(x: EntryKey, y: EntryKey)
    requires ':' !in x.scope && ':' !in y.scope
    requires KeyText(x) == KeyText(y)
    ensures x == y
  {
    var dx, dy := Decimal(x.id), Decimal(y.id);
    var a, b := x.handoffID + [':'] + dx, y.handoffID + [':'] + dy;
    assert KeyText(x) == x.scope + [':'] + a && KeyText(y) == y.scope + [':'] + b;
    SplitUnique(x.scope, y.scope, a, b, ':');
    SplitUniqueLast(x.handoffID, y.handoffID, dx, dy, ':');
    DecimalInjective(x.id, y.id);
  }

  /** Two events have the same key string if and only if they are of the same entry of the same
      handoff in the same scope. */
  lemma SameKeyTextIff(a: HandoffEvent, b: HandoffEvent)
    requires ':' !in a.scope && ':' !in b.scope
    ensures KeyText(KeyOf(a)) == KeyText(KeyOf(b)) <==> a.scope == b.scope && a.handoffID == b.handoffID && a.id == b.id
    ensures KeyText(KeyOf(a)) == a.scope + ":" + a.handoffID + ":" + Decimal(a.id)
  {
    if KeyText(KeyOf(a)) == KeyText(KeyOf(b)) {
      KeyTextInjective(KeyOf(a), KeyOf(b));
    }
  }

  /** The key string of a scope with a colon has another reading. */
  lemma KeyTextCollides(x: EntryKey) returns (y: EntryKey)
    requires ':' in x.scope
    ensures x != y && KeyText(x) == KeyText(y)
  {
    var i :| 0 <= i < |x.scope| && x.scope[i] == ':';
    y := EntryKey(x.scope[..i], x.scope[i + 1..] + ":" + x.handoffID, x.id);
    assert |y.scope| < |x.scope|;
    assert x.scope == y.scope + ":" + x.scope[i + 1..];
  }

  /** A key string has one reading if and only if there is no colon in the scope or the handoff id. */
  lemma KeyTextUniqueIff(x: EntryKey)
    ensures (forall y | KeyText(y) == KeyText(x) :: y == x) <==> ':' !in x.scope && ':' !in x.handoffID
  {
    if ':' in x.scope {
      var y := KeyTextCollides(x);
    } else if i :| 0 <= i < |x.handoffID| && x.handoffID[i] == ':' {
      var y := EntryKey(x.scope + ":" + x.handoffID[..i], x.handoffID[i + 1..], x.id);
      assert x.handoffID == x.handoffID[..i] + ":" + x.handoffID[i + 1..];
      assert KeyText(y) == KeyText(x) && |y.scope| > |x.scope|;
    } else {
      forall y | KeyText(y) == KeyText(x) ensures y == x {
        NoOtherReading(x, y);
        KeyTextInjective(x, y);
      }
    }
  }

  lemma NoOtherReading(x: EntryKey, y: EntryKey)
    requires ':' !in x.scope && ':' !in x.handoffID && KeyText(y) == KeyText(x)
    ensures ':' !in y.scope
  {
    if ':' in y.scope {
      var i := FirstColon(y.scope);
      var p, q, dx, dy := y.scope[..i], y.scope[i + 1..], Decimal(x.id), Decimal(y.id);
      var a, b := x.handoffID + [':'] + dx, q + [':'] + y.handoffID + [':'] + dy;
      assert y.scope == p + [':'] + q;
      assert KeyText(x) == x.scope + [':'] + a && KeyText(y) == p + [':'] + b;
      SplitUnique(x.scope, p, a, b, ':');
      SplitUniqueLast(x.handoffID, q + [':'] + y.handoffID, dx, dy, ':');
    }
  }

  lemma {:induction false} FirstColon(s: string) returns (i: nat)
    requires ':' in s
    ensures i < |s| && s[i] == ':' && ':' !in s[..i]
  {
    if s[0] == ':' {
      i := 0;
    } else {
      i := FirstColon(s[1..]);
      i := i + 1;
      assert s[..i] == [s[0]] + s[1..][..i - 1];
    }
  }

  /** A record the stream was connected too late to report: created before the baseline. */
  predicate IsOld(r: Record, baseline: Option<int>) {
    baseline.None? || r.createdAt < baseline.value
  }

  /** The first old record whose id is lastID, or the number of records when there is none. */
  function LastSeenAt(records: seq<Record>, lastID: int, baseline: Option<int>): (k: nat)
    ensures k <= |records|
    ensures k < |records| ==> IsOld(records[k], baseline) && records[k].event.id == lastID
    ensures forall i | 0 <= i < k :: !(IsOld(records[i], baseline) && records[i].event.id == lastID)
  {
    if records == [] || (IsOld(records[0], baseline) && records[0].event.id == lastID) then 0
    else 1 + LastSeenAt(records[1..], lastID, baseline)
  }

  /** How many of the records a resumed stream takes as reported: those up to the one the client
      names, or all of them when it names none that is found. */
  function Reported(records: seq<Record>, lastID: Option<int>, baseline: Option<int>): (n: nat)
    ensures n <= |records|
  {
    if lastID.None? || lastID.value <= 0 then |records|
    else
      var k := LastSeenAt(records, lastID.value, baseline);
      if k < |records| then k + 1 else |records|
  }

  /** The keys of the old ones among the first n records. */
  function OldKeys(records: seq<Record>, n: nat, baseline: Option<int>): set<EntryKey>
    requires n <= |records|
  {
    if n == 0 then {}
    else
      var r := records[n - 1];
      OldKeys(records, n - 1, baseline) + if IsOld(r, baseline) && r.event.id > 0 then {KeyOf(r.event)} else {}
  }

  /** What a new stream starts out knowing. */
  function InitialKnown(records: seq<Record>, lastID: Option<int>, baseline: Option<int>): set<EntryKey> {
    OldKeys(records, Reported(records, lastID, baseline), baseline)
  }

  class Tracker {
    var known: set<EntryKey>

    /** newHandoffEntryTracker; lastID is the parsed Last-Event-ID header, None when it is blank
        or no integer, and baseline is None for the zero time. */
    constructor (records: seq<Record>, lastID: Option<int>, baseline: Option<int>)
      ensures known == InitialKnown(records, lastID, baseline)
    {
      known := {};
      new;
      if lastID.None? || lastID.value <= 0 {
        MarkOld(records, baseline);
        return;
      }
      var found := MarkThrough(records, lastID.value, baseline);
      if !found {
        MarkOld(records, baseline);
      }
    }

    /** The loop that marks old records up to the one the client saw last. */
    method MarkThrough(records: seq<Record>, lastID: int, baseline: Option<int>) returns (found: bool)
      requires known == {}
      modifies this
      ensures var k := LastSeenAt(records, lastID, baseline);
        found == (k < |records|) && known == OldKeys(records, if found then k + 1 else |records|, baseline)
    {
      ghost var k := LastSeenAt(records, lastID, baseline);
      found := false;
      for i := 0 to |records|
        invariant found == (k < i)
        invariant known == OldKeys(records, if found then k + 1 else i, baseline)
      {
        var record := records[i];
        if !IsOld(record, baseline) {
          continue;
        }
        if !found {
          var news := Mark(record.event);
        }
        if record.event.id == lastID {
          found := true;
        }
      }
    }

    /** The loop that marks every record created before the baseline. */
    method MarkOld(records: seq<Record>, baseline: Option<int>)
      modifies this
      ensures known == old(known) + OldKeys(records, |records|, baseline)
    {
      for i := 0 to |records|
        invariant known == old(known) + OldKeys(records, i, baseline)
      {
        if !IsOld(records[i], baseline) {
          continue;
        }
        var news := Mark(records[i].event);
      }
    }

    /** mark: whether the event is news; an event without a key always is. */
    method Mark(event: HandoffEvent) returns (news: bool)
      modifies this
      ensures news <==> event.id <= 0 || KeyOf(event) !in old(known)
      ensures known == old(known) + if event.id > 0 then {KeyOf(event)} else {}
    {
      if event.id <= 0 {
        return true;
      }
      var key := KeyOf(event);
      if key in known {
        return false;
      }
      known := known + {key};
      return true;
    }
  }

  // ---------------------------------------------------------------- resuming

  /** Records of the store: stored under one of the two scopes, with positive ids that are
      unique within a scope, and keys to match. */
  predicate WellStored(records: seq<Record>) {
    && (forall i | 0 <= i < |records| :: records[i].event.id > 0 && records[i].event.scope in {"goal", "task"})
    && (forall i, j | 0 <= i < j < |records| && records[i].event.scope == records[j].event.scope ::
          records[i].event.id != records[j].event.id)
  }

  predicate SortedByID(records: seq<Record>) {
    forall i, j | 0 <= i <= j < |records| :: records[i].event.id <= records[j].event.id
  }

  lemma {:induction false} OldKeyHasIndex(records: seq<Record>, baseline: Option<int>, n: nat, key: EntryKey)
    requires n <= |records|
    ensures key in OldKeys(records, n, baseline) <==>
      exists j :: 0 <= j < n && IsOld(records[j], baseline) && records[j].event.id > 0 && KeyOf(records[j].event) == key
  {
    if n > 0 {
      OldKeyHasIndex(records, baseline, n - 1, key);
    }
  }

  /** A record is still to be reported exactly when it is not old, or comes after the reported ones. */
  lemma UnknownIff(records: seq<Record>, lastID: Option<int>, baseline: Option<int>, i: nat)
    requires WellStored(records) && i < |records|
    ensures KeyOf(records[i].event) in InitialKnown(records, lastID, baseline) <==>
      IsOld(records[i], baseline) && i < Reported(records, lastID, baseline)
  {
    var n, key := Reported(records, lastID, baseline), KeyOf(records[i].event);
    OldKeyHasIndex(records, baseline, n, key);
    if key in OldKeys(records, n, baseline) {
      var j :| 0 <= j < n && IsOld(records[j], baseline) && KeyOf(records[j].event) == key;
    }
  }

  /** What a new stream takes as known, in terms of times and ids: the records created before the
      baseline, if there is one; and of those, when the client names the id of one of them, none
      after the first with that id. */
  lemma KnownAtStartIff(records: seq<Record>, lastID: Option<int>, baseline: Option<int>, i: nat)
    requires WellStored(records) && i < |records|
    ensures KeyOf(records[i].event) in InitialKnown(records, lastID, baseline) <==>
      && (baseline.Some? ==> records[i].createdAt < baseline.value)
      && (lastID.Some? && lastID.value > 0 ==>
            forall j | 0 <= j < |records| && records[j].event.id == lastID.value
              && (baseline.Some? ==> records[j].createdAt < baseline.value) :: i <= j)
  {
    UnknownIff(records, lastID, baseline, i);
  }

  /** Where all records share one scope, a resumed stream has still to report exactly the records
      that are new or have an id greater than the one the client names. Whether the client had all
      the others is a question about the first connection: see module Resume. */
  lemma OneScopeResumesAfterLast(records: seq<Record>, last: nat, baseline: Option<int>, i: nat)
    requires WellStored(records) && SortedByID(records) && i < |records|
    requires forall j, k | 0 <= j < |records| && 0 <= k < |records| :: records[j].event.scope == records[k].event.scope
    requires last < |records| && IsOld(records[last], baseline)
    ensures KeyOf(records[i].event) !in InitialKnown(records, Some(records[last].event.id), baseline) <==>
      !IsOld(records[i], baseline) || records[i].event.id > records[last].event.id
  {
    UnknownIff(records, Some(records[last].event.id), baseline, i);
    var k := LastSeenAt(records, records[last].event.id, baseline);
    assert k <= last;
    assert k == last;
  }

  /** Goal and task entries count their ids separately. On resuming, a stream over both takes as
      reported exactly the old entries with an id below the one the client names, and the first old
      entry in order with that very id; or all old entries, when none has it. */
  lemma ResumeLosesIff(records: seq<Record>, lastID: int, baseline: Option<int>, i: nat)
    requires WellStored(records) && SortedByID(records) && i < |records| && lastID > 0
    ensures var k := LastSeenAt(records, lastID, baseline);
      KeyOf(records[i].event) in InitialKnown(records, Some(lastID), baseline) <==>
        IsOld(records[i], baseline) && (k < |records| ==> records[i].event.id < lastID || i == k)
  {
    UnknownIff(records, Some(lastID), baseline, i);
  }
}
