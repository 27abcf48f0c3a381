/** When a wakeup is published, and the bookkeeping of one evaluation over all projects. */
module Wakeup {
  import opened Wrappers
  import opened Text

  /** wakeupState; a time is an integer. */
  datatype WakeupState = WakeupState(activeSince: int, lastPublished: int, published: bool)

  type Wakeups = map<string, WakeupState>

  /** What can happen to the map of wakeups: one call of publishWakeup, where no startedAt is the
      zero time, or the removal, after an evaluation, of the keys it did not see. */
  datatype Step =
    | Touch(key: string, now: int, startedAt: Option<int>, after: int, resend: int)
    | Prune(current: set<string>)

  /** wakeupKey. */
  function WakeupKey(name: string, target: string): string { name + ['\0'] + target }

  lemma WakeupKeyInjective(name: string, target: string, name': string, target': string)
    requires '\0' !in name && '\0' !in name'
    requires WakeupKey(name, target) == WakeupKey(name', target')
    ensures name == name' && target == target'
  {
    SplitUnique(name, name', target, target', '\0');
  }

  function Get(w: Wakeups, key: string): Option<WakeupState> { if key in w then Some(w[key]) else None }

  /** The entry of a touched key before it is decided whether to publish. */
  function Renewed(before: Option<WakeupState>, s: Step): WakeupState
    requires s.Touch?
  {
    if before.None? then WakeupState(if s.startedAt.Some? then s.startedAt.value else s.now, 0, false)
    else if s.startedAt.Some? && before.value.activeSince != s.startedAt.value then
      WakeupState(s.startedAt.value, 0, false)
    else before.value
  }

  predicate Due(w: WakeupState, s: Step)
    requires s.Touch?
  {
    s.now >= w.activeSince + s.after && (!w.published || (s.resend > 0 && s.now >= w.lastPublished + s.resend))
  }

  predicate Publishes(w: Wakeups, s: Step) { s.Touch? && Due(Renewed(Get(w, s.key), s), s) }

  function Applied(w: Wakeups, s: Step): Wakeups {
    match s
    case Touch(key, now, _, _, _) =>
      var renewed := Renewed(Get(w, key), s);
      w[key := if Due(renewed, s) then renewed.(published := true, lastPublished := now) else renewed]
    case Prune(current) => map k | k in w && k in current :: w[k]
  }

  // ---------------------------------------------------------------- the history of one key

  datatype Trace = Trace(states: seq<Wakeups>, steps: seq<Step>)

  predicate Shaped(r: Trace) { |r.states| == |r.steps| + 1 }

  predicate Moves(r: Trace, i: nat)
    requires Shaped(r) && i < |r.steps|
  {
    r.states[i + 1] == Applied(r.states[i], r.steps[i])
  }

  predicate IsRun(r: Trace) {
    Shaped(r) && r.states[0] == map[] && forall i: nat | i < |r.steps| :: Moves(r, i)
  }

  predicate Touches(r: Trace, i: nat, key: string) {
    i < |r.steps| && r.steps[i].Touch? && r.steps[i].key == key
  }

  predicate Published(r: Trace, i: nat, key: string)
    requires Shaped(r)
  {
    Touches(r, i, key) && Publishes(r.states[i], r.steps[i])
  }

  /** A touch that starts a presence of the key: the key is unknown, or what it reports began at
      another time. */
  predicate Begins(r: Trace, i: nat, key: string)
    requires Shaped(r)
  {
    && Touches(r, i, key)
    && (key !in r.states[i]
        || (r.steps[i].startedAt.Some? && r.states[i][key].activeSince != r.steps[i].startedAt.value))
  }

  /** The presence of the key at step i lasts through step j. */
  predicate Continues(r: Trace, i: nat, j: nat, key: string)
    requires Shaped(r)
  {
    && i <= j < |r.steps|
    && forall k | i < k <= j :: !Begins(r, k, key) && (r.steps[k].Prune? ==> key in r.steps[k].current)
  }

  /** When the presence that starts at a touch began. */
  function BegunAt(s: Step): int
    requires s.Touch?
  {
    if s.startedAt.Some? then s.startedAt.value else s.now
  }

  lemma {:induction false} SinceBegin(r: Trace, i: nat, j: nat, key: string)
    requires IsRun(r) && Begins(r, i, key) && Continues(r, i, j, key)
    ensures key in r.states[j + 1] && r.states[j + 1][key].activeSince == BegunAt(r.steps[i])
    decreases j
  {
    assert Moves(r, j);
    if i < j {
      SinceBegin(r, i, j - 1, key);
      assert !Begins(r, j, key);
    }
  }

  lemma {:induction false} EveryPresenceBegins(r: Trace, j: nat, key: string) returns (i: nat)
    requires IsRun(r) && j < |r.steps| && key in r.states[j + 1]
    ensures i <= j && Begins(r, i, key) && Continues(r, i, j, key)
    decreases j
  {
    assert Moves(r, j);
    if Begins(r, j, key) {
      i := j;
    } else {
      assert key in r.states[j];
      assert j > 0;
      i := EveryPresenceBegins(r, j - 1, key);
    }
  }

  /** A wakeup is never published before it has been present for its grace period: every
      publication belongs to a presence, and comes no sooner than that long after its beginning. */
  lemma NeverEarly(r: Trace, j: nat, key: string) returns (i: nat)
    requires IsRun(r) && j < |r.steps| && Published(r, j, key)
    ensures i <= j && Begins(r, i, key) && Continues(r, i, j, key)
    ensures r.steps[j].now >= BegunAt(r.steps[i]) + r.steps[j].after
  {
    assert Moves(r, j);
    i := EveryPresenceBegins(r, j, key);
    SinceBegin(r, i, j, key);
  }

  lemma {:induction false} StaysPublished(r: Trace, i: nat, j: nat, key: string)
    requires IsRun(r) && i < |r.steps| && Published(r, i, key) && Continues(r, i, j, key)
    ensures key in r.states[j + 1] && r.states[j + 1][key].published
    ensures r.states[j + 1][key].lastPublished >= r.steps[i].now
    decreases j
  {
    assert Moves(r, j);
    if i < j {
      StaysPublished(r, i, j - 1, key);
      assert !Begins(r, j, key);
    }
  }

  /** Within one presence a key is published again only when it has a resend interval, and that
      much later. */
  lemma ResendGap(r: Trace, i: nat, j: nat, key: string)
    requires IsRun(r) && i < j && Continues(r, i, j, key) && Published(r, i, key) && Published(r, j, key)
    ensures r.steps[j].resend > 0 && r.steps[j].now >= r.steps[i].now + r.steps[j].resend
  {
    StaysPublished(r, i, j - 1, key);
    assert !Begins(r, j, key);
  }

  /** An entry marked published was published in its presence. */
  lemma {:induction false} PublishedEntryWasPublished(r: Trace, i: nat, j: nat, key: string) returns (k: nat)
    requires IsRun(r) && Begins(r, i, key) && Continues(r, i, j, key)
    requires key in r.states[j + 1] && r.states[j + 1][key].published
    ensures i <= k <= j && Published(r, k, key)
    decreases j
  {
    assert Moves(r, j);
    if Published(r, j, key) {
      k := j;
    } else {
      assert i < j;
      assert !Begins(r, j, key);
      k := PublishedEntryWasPublished(r, i, j - 1, key);
    }
  }

  /** A key without a resend interval that is touched at or after the end of its grace period has
      been published exactly once in its presence. */
  lemma ExactlyOnce(r: Trace, i: nat, j: nat, key: string) returns (k: nat)
    requires IsRun(r) && Begins(r, i, key) && Continues(r, i, j, key) && Touches(r, j, key)
    requires forall m | i <= m <= j && Touches(r, m, key) :: r.steps[m].resend <= 0
    requires r.steps[j].now >= BegunAt(r.steps[i]) + r.steps[j].after
    ensures i <= k <= j && Published(r, k, key)
    ensures forall m | i <= m <= j && m != k :: !Published(r, m, key)
  {
    SinceBegin(r, i, j, key);
    assert Moves(r, j);
    k := PublishedEntryWasPublished(r, i, j, key);
    forall m | i <= m <= j && m != k ensures !Published(r, m, key) {
      if Published(r, m, key) {
        var first, second := if m < k then m else k, if m < k then k else m;
        assert Touches(r, second, key);
        ResendGap(r, first, second, key);
      }
    }
  }

  /** The key was published at m and not again before j. */
  predicate PublishedLast(r: Trace, m: nat, j: nat, key: string)
    requires Shaped(r)
  {
    m < j && Published(r, m, key) && forall k | m < k < j :: !Published(r, k, key)
  }

  lemma {:induction false} LastPublishedIs(r: Trace, m: nat, j: nat, key: string)
    requires IsRun(r) && PublishedLast(r, m, j, key) && Continues(r, m, j - 1, key)
    ensures key in r.states[j] && r.states[j][key].published && r.states[j][key].lastPublished == r.steps[m].now
    decreases j
  {
    assert Moves(r, j - 1);
    if m < j - 1 {
      LastPublishedIs(r, m, j - 1, key);
      assert !Begins(r, j - 1, key) && !Published(r, j - 1, key);
    }
  }

  lemma {:induction false} FindLast(r: Trace, i: nat, k: nat, j: nat, key: string) returns (m: nat)
    requires IsRun(r) && i <= k < j && Published(r, k, key)
    ensures k <= m < j && PublishedLast(r, m, j, key)
    decreases j - k
  {
    m := k;
    if n :| k < n < j && Published(r, n, key) {
      m := FindLast(r, i, n, j, key);
    }
  }

  /** A touch within a presence publishes if and only if the grace period is over, and either
      nothing was published in the presence before, or the touch has a resend interval and the last
      publication is at least that long ago. */
  lemma PublishedIff(r: Trace, i: nat, j: nat, key: string)
    requires IsRun(r) && Begins(r, i, key) && Continues(r, i, j, key) && Touches(r, j, key)
    ensures Published(r, j, key) <==>
      && r.steps[j].now >= BegunAt(r.steps[i]) + r.steps[j].after
      && ((forall m | i <= m < j :: !Published(r, m, key))
          || (r.steps[j].resend > 0
              && exists m | i <= m < j :: PublishedLast(r, m, j, key) && r.steps[j].now >= r.steps[m].now + r.steps[j].resend))
  {
    if i < j {
      assert !Begins(r, j, key);
      SinceBegin(r, i, j - 1, key);
      if k :| i <= k < j && Published(r, k, key) {
        var m := FindLast(r, i, k, j, key);
        LastPublishedIs(r, m, j, key);
        assert forall n | i <= n < j && PublishedLast(r, n, j, key) :: n == m;
      } else if r.states[j][key].published {
        var k := PublishedEntryWasPublished(r, i, j - 1, key);
      }
    }
  }

  /** How often the key was published at steps i to j - 1. */
  function Count(r: Trace, i: nat, j: nat, key: string): nat
    requires Shaped(r) && i <= j <= |r.steps|
    decreases j
  {
    if i == j then 0 else Count(r, i, j - 1, key) + if Published(r, j - 1, key) then 1 else 0
  }

  lemma {:induction false} CountBounded(r: Trace, i: nat, j: nat, key: string, resend: int)
    requires IsRun(r) && Begins(r, i, key) && Continues(r, i, j, key) && resend > 0
    requires forall m | i <= m <= j && Touches(r, m, key) :: r.steps[m].resend == resend && r.steps[m].now >= r.steps[i].now
    ensures key in r.states[j + 1]
    ensures var c, w := Count(r, i, j + 1, key), r.states[j + 1][key];
      c > 0 ==> w.published && resend * (c - 1) <= w.lastPublished - r.steps[i].now
    ensures Count(r, i, j + 1, key) == 0 ==> !r.states[j + 1][key].published
    decreases j
  {
    assert Moves(r, j);
    assert Count(r, i, j + 1, key) == Count(r, i, j, key) + if Published(r, j, key) then 1 else 0;
    if i < j {
      CountBounded(r, i, j - 1, key, resend);
      assert !Begins(r, j, key);
      if Published(r, j, key) {
        assert Touches(r, j, key);
        var c: int := Count(r, i, j, key);
        assert resend * c == resend * (c - 1) + resend;
      }
    }
  }

  predicate ClockRuns(r: Trace) {
    forall m, n | 0 <= m <= n < |r.steps| && r.steps[m].Touch? && r.steps[n].Touch? :: r.steps[m].now <= r.steps[n].now
  }

  /** With a resend interval, a key is published at most once for each interval its presence has
      lasted, and once more. */
  lemma AtMostOncePerInterval(r: Trace, i: nat, j: nat, key: string, resend: int)
    requires IsRun(r) && ClockRuns(r) && Begins(r, i, key) && Continues(r, i, j, key) && Touches(r, j, key)
    requires resend > 0 && forall m | i <= m <= j && Touches(r, m, key) :: r.steps[m].resend == resend
    ensures Count(r, i, j + 1, key) <= 1 + (r.steps[j].now - r.steps[i].now) / resend
  {
    CountBounded(r, i, j, key, resend);
    var c: int, elapsed := Count(r, i, j + 1, key), r.steps[j].now - r.steps[i].now;
    assert r.steps[i].now <= r.steps[j].now;
    if c > 0 {
      LastPublishedPast(r, j, key);
      AtMostQuotient(c - 1, resend, elapsed);
    } else {
      AtMostQuotient(0, resend, elapsed);
    }
  }

  lemma AtMostQuotient(n: int, d: int, x: int)
    requires d > 0 && d * n <= x
    ensures n <= x / d
  {
    var q := x / d;
    assert q + 1 <= n ==> d * (q + 1) <= d * n;
  }

  lemma {:induction false} LastPublishedPast(r: Trace, j: nat, key: string)
    requires IsRun(r) && ClockRuns(r) && j < |r.steps| && key in r.states[j + 1] && r.states[j + 1][key].published
    ensures forall n | j <= n < |r.steps| && r.steps[n].Touch? :: r.states[j + 1][key].lastPublished <= r.steps[n].now
  {
    assert Moves(r, j);
    if !Published(r, j, key) {
      assert j > 0;
      LastPublishedPast(r, j - 1, key);
    }
  }

  // ---------------------------------------------------------------- one evaluation

  /** The two counts of unstarted tasks that one look at a project compares. */
  datatype Counts = Counts(evaluated: nat, counted: nat) {
    predicate Mismatch() { evaluated == 0 && counted > 0 }
  }

  /** A wakeup an evaluation finds to be true. */
  datatype Wake = Wake(key: string, startedAt: Option<int>, after: int, resend: int)

  /** What the store answers about one project: the counts at the first look and, after a mismatch,
      at the second, each possibly failing; then the wakeups found up to the end or up to the
      query that failed. */
  datatype Project = Project(
    id: int, archived: bool, first: Option<Counts>, second: Option<Counts>, wakes: seq<Wake>, failed: bool)

  datatype Event = Discrepancy(projectID: int) | Woken(key: string)

  /** The tracker's fields, and the events of the evaluation so far. */
  datatype Tracker = Tracker(wakeups: Wakeups, discrepancySeen: set<int>, events: seq<Event>)

  /** Whether the counts of a project could be read, and the counts its verdict rests on. */
  function Settled(p: Project): Option<Counts> {
    if p.first.Some? && p.first.value.Mismatch() then p.second else p.first
  }

  predicate Fails(p: Project) { !p.archived && (Settled(p).None? || p.failed) }

  /** The wakeups of a project that the evaluation gets to. */
  function Found(p: Project): seq<Wake> { if p.archived || Settled(p).None? then [] else p.wakes }

  function TouchOf(w: Wake, now: int): Step { Touch(w.key, now, w.startedAt, w.after, w.resend) }

  function AfterWake(t: Tracker, s: Step): Tracker {
    t.(wakeups := Applied(t.wakeups, s), events := if Publishes(t.wakeups, s) then t.events + [Woken(s.key)] else t.events)
  }

  function AfterWakes(t: Tracker, now: int, wakes: seq<Wake>): Tracker
    decreases |wakes|
  {
    if wakes == [] then t else AfterWakes(AfterWake(t, TouchOf(wakes[0], now)), now, wakes[1..])
  }

  function AfterCounts(t: Tracker, p: Project, c: Counts): Tracker {
    if !c.Mismatch() then t.(discrepancySeen := t.discrepancySeen - {p.id})
    else if p.id in t.discrepancySeen then t
    else t.(discrepancySeen := t.discrepancySeen + {p.id}, events := t.events + [Discrepancy(p.id)])
  }

  function AfterProject(t: Tracker, now: int, p: Project): Tracker {
    if p.archived || Settled(p).None? then t
    else AfterWakes(AfterCounts(t, p, Settled(p).value), now, p.wakes)
  }

  function AfterProjects(t: Tracker, now: int, ps: seq<Project>): Tracker
    decreases |ps|
  {
    if ps == [] then t else AfterProjects(AfterProject(t, now, ps[0]), now, ps[1..])
  }

  function Keys(wakes: seq<Wake>): set<string> { set w | w in wakes :: w.key }

  function AllFound(ps: seq<Project>): seq<Wake> {
    if ps == [] then [] else Found(ps[0]) + AllFound(ps[1..])
  }

  predicate Succeeds(ps: seq<Project>) { forall p | p in ps :: !Fails(p) }

  /** What an evaluation makes of the tracker; without a list of projects it does nothing. */
  function Evaluated(t: Tracker, now: int, projects: Option<seq<Project>>): Tracker {
    if projects.None? then t
    else
      var last := AfterProjects(t, now, projects.value);
      if Succeeds(projects.value) then last.(wakeups := Applied(last.wakeups, Prune(Keys(AllFound(projects.value)))))
      else last
  }

  class WakeupTracker {
    var wakeups: Wakeups
    var discrepancySeen: set<int>

    constructor ()
      ensures wakeups == map[] && discrepancySeen == {}
    {
      wakeups, discrepancySeen := map[], {};
    }

    ghost function Fields(events: seq<Event>): Tracker
      reads this
    {
      Tracker(wakeups, discrepancySeen, events)
    }

    method PublishWakeup(now: int, key: string, startedAt: Option<int>, after: int, resendInterval: int)
      returns (publish: bool)
      modifies this`wakeups
      ensures var s := Touch(key, now, startedAt, after, resendInterval);
        wakeups == Applied(old(wakeups), s) && publish == Publishes(old(wakeups), s)
    {
      var wakeup;
      if key !in wakeups {
        wakeup := WakeupState(if startedAt.Some? then startedAt.value else now, 0, false);
      } else {
        wakeup := wakeups[key];
        if startedAt.Some? && wakeup.activeSince != startedAt.value {
          wakeup := WakeupState(startedAt.value, 0, false);
        }
      }
      if now < wakeup.activeSince + after {
        wakeups := wakeups[key := wakeup];
        return false;
      }
      if !wakeup.published {
        wakeup := wakeup.(published := true, lastPublished := now);
        wakeups := wakeups[key := wakeup];
        return true;
      }
      if resendInterval <= 0 || now < wakeup.lastPublished + resendInterval {
        wakeups := wakeups[key := wakeup];
        return false;
      }
      wakeup := wakeup.(lastPublished := now);
      wakeups := wakeups[key := wakeup];
      return true;
    }

    /** recordWakeupEvent for each wakeup of a project in turn. */
    method RecordWakeups(now: int, wakes: seq<Wake>, before: seq<Event>, current: set<string>)
      returns (events: seq<Event>, current': set<string>)
      modifies this`wakeups
      ensures Fields(events) == AfterWakes(old(Fields(before)), now, wakes)
      ensures current' == current + Keys(wakes)
    {
      events, current' := before, current;
      var i := 0;
      while i < |wakes|
        invariant 0 <= i <= |wakes|
        invariant discrepancySeen == old(discrepancySeen)
        invariant AfterWakes(Fields(events), now, wakes[i..]) == AfterWakes(old(Fields(before)), now, wakes)
        invariant current' == current + Keys(wakes[..i])
      {
        NextWake(Fields(events), now, wakes, i);
        var w := wakes[i];
        current' := current' + {w.key};
        var publish := PublishWakeup(now, w.key, w.startedAt, w.after, w.resend);
        if publish {
          events := events + [Woken(w.key)];
        }
        i := i + 1;
      }
      assert wakes[..i] == wakes;
    }

    /** What evaluateWith does for one project. */
    method EvaluateProject(now: int, p: Project, before: seq<Event>, current: set<string>)
      returns (events: seq<Event>, current': set<string>, failed: bool)
      modifies this
      ensures Fields(events) == AfterProject(old(Fields(before)), now, p)
      ensures current' == current + Keys(Found(p)) && failed == Fails(p)
    {
      events, current', failed := before, current, false;
      if p.archived {
        return;
      }
      if p.first.None? {
        failed := true;
        return;
      }
      var counts := p.first.value;
      if counts.Mismatch() {
        if p.second.None? {
          failed := true;
          return;
        }
        counts := p.second.value;
      }
      if counts.Mismatch() {
        if p.id !in discrepancySeen {
          events := events + [Discrepancy(p.id)];
          discrepancySeen := discrepancySeen + {p.id};
        }
      } else {
        discrepancySeen := discrepancySeen - {p.id};
      }
      assert Fields(events) == AfterCounts(old(Fields(before)), p, counts);
      events, current' := RecordWakeups(now, p.wakes, events, current');
      failed := p.failed;
    }

    /** evaluateWith. */
    method EvaluateWith(now: int, projects: Option<seq<Project>>) returns (events: seq<Event>, ok: bool)
      modifies this
      ensures Tracker(wakeups, discrepancySeen, events)
        == Evaluated(Tracker(old(wakeups), old(discrepancySeen), []), now, projects)
      ensures ok == (projects.Some? && Succeeds(projects.value))
    {
      events := [];
      if projects.None? {
        return events, false;
      }
      var ps := projects.value;
      var current := {};
      var errors := 0;
      var i := 0;
      while i < |ps|
        invariant 0 <= i <= |ps|
        invariant AfterProjects(Fields(events), now, ps[i..]) == AfterProjects(old(Fields([])), now, ps)
        invariant current == Keys(AllFound(ps[..i]))
        invariant (errors == 0) == Succeeds(ps[..i]) && errors >= 0
      {
        NextProject(Fields(events), now, ps, i);
        var failed;
        events, current, failed := EvaluateProject(now, ps[i], events, current);
        if failed {
          errors := errors + 1;
        }
        i := i + 1;
      }
      assert ps[..i] == ps && ps[i..] == [];
      ghost var seen := Fields(events);
      assert seen == AfterProjects(old(Fields([])), now, ps);
      if errors > 0 {
        return events, false;
      }
      PruneWakeups(current);
      assert Fields(events) == seen.(wakeups := wakeups);
      return events, true;
    }

    /** The end of evaluateWith: the keys it did not see are removed. */
    method PruneWakeups(current: set<string>)
      modifies this`wakeups
      ensures wakeups == Applied(old(wakeups), Prune(current))
    {
      var keys := wakeups.Keys;
      while keys != {}
        invariant keys <= wakeups.Keys <= old(wakeups).Keys
        invariant forall k | k in old(wakeups) :: k in wakeups || k !in current
        invariant forall k | k in wakeups :: wakeups[k] == old(wakeups)[k] && (k in current || k in keys)
        decreases |keys|
      {
        var key := Any(keys);
        keys := keys - {key};
        if key !in current {
          wakeups := wakeups - {key};
        }
      }
    }
  }

  lemma NextProject(t: Tracker, now: int, ps: seq<Project>, i: nat)
    requires i < |ps|
    ensures AfterProjects(t, now, ps[i..]) == AfterProjects(AfterProject(t, now, ps[i]), now, ps[i + 1..])
    ensures Keys(AllFound(ps[..i + 1])) == Keys(AllFound(ps[..i])) + Keys(Found(ps[i]))
    ensures Succeeds(ps[..i + 1]) == (Succeeds(ps[..i]) && !Fails(ps[i]))
  {
    var past, p := ps[..i], ps[i];
    assert ps[i..][1..] == ps[i + 1..];
    assert ps[..i + 1] == past + [p];
    AllFoundInTurn(past, p);
    KeysInTurn(AllFound(past), Found(p));
    assert forall q | q in past + [p] :: q in past || q == p;
    assert p in past + [p] && forall q | q in past :: q in past + [p];
  }

  lemma NextWake(t: Tracker, now: int, wakes: seq<Wake>, i: nat)
    requires i < |wakes|
    ensures AfterWakes(t, now, wakes[i..]) == AfterWakes(AfterWake(t, TouchOf(wakes[i], now)), now, wakes[i + 1..])
    ensures Keys(wakes[..i + 1]) == Keys(wakes[..i]) + {wakes[i].key}
  {
    assert wakes[i..][1..] == wakes[i + 1..];
    assert wakes[..i + 1] == wakes[..i] + [wakes[i]];
    KeysInTurn(wakes[..i], [wakes[i]]);
  }

  lemma {:induction false} AllFoundInTurn(ps: seq<Project>, p: Project)
    ensures AllFound(ps + [p]) == AllFound(ps) + Found(p)
  {
    if ps == [] {
      assert ps + [p] == [p] && [p][1..] == [];
    } else {
      assert (ps + [p])[1..] == ps[1..] + [p];
      AllFoundInTurn(ps[1..], p);
      Regrouped(Found(ps[0]), AllFound(ps[1..]), Found(p));
    }
  }

  // ---------------------------------------------------------------- evaluations as histories of keys

  /** The steps one evaluation takes: its touches, and, if nothing failed, the removal of the keys
      it did not see. */
  function StepsOf(now: int, projects: Option<seq<Project>>): seq<Step> {
    if projects.None? then []
    else
      var found := AllFound(projects.value);
      TouchesOf(found, now) + if Succeeds(projects.value) then [Prune(Keys(found))] else []
  }

  function TouchesOf(wakes: seq<Wake>, now: int): seq<Step> {
    if wakes == [] then [] else [TouchOf(wakes[0], now)] + TouchesOf(wakes[1..], now)
  }

  /** Each wakeup found is one touch of its key, at the time of the evaluation, with its own times. */
  lemma {:induction false} EachWakeIsTouched(wakes: seq<Wake>, now: int, i: nat)
    requires i < |wakes|
    ensures |TouchesOf(wakes, now)| == |wakes|
    ensures var w := wakes[i]; TouchesOf(wakes, now)[i] == Touch(w.key, now, w.startedAt, w.after, w.resend)
    decreases |wakes|
  {
    if |wakes| > 1 {
      EachWakeIsTouched(wakes[1..], now, if i > 0 then i - 1 else 0);
    }
  }

  /** A history that leads to a tracker's map, and has published the key as often as the tracker
      has an event for it. */
  predicate Logs(r: Trace, t: Tracker, key: string) {
    && IsRun(r) && r.states[|r.steps|] == t.wakeups
    && multiset(t.events)[Woken(key)] == Count(r, 0, |r.steps|, key)
  }

  lemma {:induction false} CountOfPrefix(r: Trace, r': Trace, n: nat, key: string)
    requires Shaped(r) && Shaped(r') && n <= |r.steps| && r.steps <= r'.steps && r.states <= r'.states
    ensures Count(r, 0, n, key) == Count(r', 0, n, key)
    decreases n
  {
    if n > 0 {
      CountOfPrefix(r, r', n - 1, key);
    }
  }

  lemma Extended(r: Trace, s: Step) returns (r': Trace)
    requires IsRun(r)
    ensures IsRun(r') && r'.steps == r.steps + [s] && r.states <= r'.states
    ensures r'.states[|r'.steps|] == Applied(r.states[|r.steps|], s)
  {
    var n := |r.steps|;
    r' := Trace(r.states + [Applied(r.states[n], s)], r.steps + [s]);
    forall i: nat | i < n + 1 ensures Moves(r', i) {
      assert i < n ==> Moves(r, i);
    }
  }

  lemma StepLogged(r: Trace, t: Tracker, s: Step, t': Tracker, key: string) returns (r': Trace)
    requires Logs(r, t, key) && t'.wakeups == Applied(t.wakeups, s)
    requires t'.events == if Publishes(t.wakeups, s) then t.events + [Woken(s.key)] else t.events
    ensures Logs(r', t', key) && r'.steps == r.steps + [s]
  {
    var n := |r.steps|;
    r' := Extended(r, s);
    CountOfPrefix(r, r', n, key);
    assert Count(r', 0, n + 1, key) == Count(r', 0, n, key) + if Published(r', n, key) then 1 else 0;
  }

  lemma {:induction false} WakesLogged(r: Trace, t: Tracker, now: int, wakes: seq<Wake>, key: string) returns (r': Trace)
    requires Logs(r, t, key)
    ensures Logs(r', AfterWakes(t, now, wakes), key) && r'.steps == r.steps + TouchesOf(wakes, now)
    decreases |wakes|
  {
    if wakes == [] {
      r' := r;
    } else {
      var s := TouchOf(wakes[0], now);
      var t1 := AfterWake(t, s);
      var r1 := StepLogged(r, t, s, t1, key);
      r' := WakesLogged(r1, t1, now, wakes[1..], key);
      Regrouped(r.steps, [s], TouchesOf(wakes[1..], now));
    }
  }

  lemma ProjectLogged(r: Trace, t: Tracker, now: int, p: Project, key: string) returns (r': Trace)
    requires Logs(r, t, key)
    ensures Logs(r', AfterProject(t, now, p), key) && r'.steps == r.steps + TouchesOf(Found(p), now)
  {
    if p.archived || Settled(p).None? {
      r' := r;
    } else {
      r' := WakesLogged(r, AfterCounts(t, p, Settled(p).value), now, p.wakes, key);
    }
  }

  lemma {:induction false} ProjectsLogged(r: Trace, t: Tracker, now: int, ps: seq<Project>, key: string) returns (r': Trace)
    requires Logs(r, t, key)
    ensures Logs(r', AfterProjects(t, now, ps), key) && r'.steps == r.steps + TouchesOf(AllFound(ps), now)
    decreases |ps|
  {
    if ps == [] {
      r' := r;
    } else {
      var r1 := ProjectLogged(r, t, now, ps[0], key);
      r' := ProjectsLogged(r1, AfterProject(t, now, ps[0]), now, ps[1..], key);
      TouchesInTurn(Found(ps[0]), AllFound(ps[1..]), now);
      Regrouped(r.steps, TouchesOf(Found(ps[0]), now), TouchesOf(AllFound(ps[1..]), now));
    }
  }

  lemma {:induction false} TouchesInTurn(a: seq<Wake>, b: seq<Wake>, now: int)
    ensures TouchesOf(a + b, now) == TouchesOf(a, now) + TouchesOf(b, now)
  {
    if a == [] {
      assert a + b == b;
    } else {
      assert (a + b)[1..] == a[1..] + b;
      TouchesInTurn(a[1..], b, now);
      Regrouped([TouchOf(a[0], now)], TouchesOf(a[1..], now), TouchesOf(b, now));
    }
  }

  lemma EvaluationLogged(r: Trace, t: Tracker, now: int, projects: Option<seq<Project>>, key: string) returns (r': Trace)
    requires Logs(r, t, key)
    ensures Logs(r', Evaluated(t, now, projects), key) && r'.steps == r.steps + StepsOf(now, projects)
  {
    if projects.None? {
      r' := r;
    } else {
      var ps := projects.value;
      r' := ProjectsLogged(r, t, now, ps, key);
      if Succeeds(ps) {
        var prune := Prune(Keys(AllFound(ps)));
        r' := StepLogged(r', AfterProjects(t, now, ps), prune, Evaluated(t, now, projects), key);
        Regrouped(r.steps, TouchesOf(AllFound(ps), now), [prune]);
      }
    }
  }

  datatype Evaluation = Evaluation(now: int, projects: Option<seq<Project>>)

  function Ran(t: Tracker, es: seq<Evaluation>): Tracker
    decreases |es|
  {
    if es == [] then t else Ran(Evaluated(t, es[0].now, es[0].projects), es[1..])
  }

  function AllSteps(es: seq<Evaluation>): seq<Step> {
    if es == [] then [] else StepsOf(es[0].now, es[0].projects) + AllSteps(es[1..])
  }

  lemma {:induction false} EvaluationsLogged(r: Trace, t: Tracker, es: seq<Evaluation>, key: string) returns (r': Trace)
    requires Logs(r, t, key)
    ensures Logs(r', Ran(t, es), key) && r'.steps == r.steps + AllSteps(es)
    decreases |es|
  {
    if es == [] {
      r' := r;
    } else {
      var e := es[0];
      var r1 := EvaluationLogged(r, t, e.now, e.projects, key);
      r' := EvaluationsLogged(r1, Evaluated(t, e.now, e.projects), es[1..], key);
      Regrouped(r.steps, StepsOf(e.now, e.projects), AllSteps(es[1..]));
    }
  }

  /** Over any sequence of evaluations from an empty tracker, whatever fails in them, a key has
      exactly as many wakeup events returned as the history of the touches and removals those
      evaluations made has publications, and that history leads to the tracker's map. */
  lemma EventsAreThePublications(es: seq<Evaluation>, key: string) returns (r: Trace)
    ensures IsRun(r) && r.steps == AllSteps(es)
    ensures var t := Ran(Tracker(map[], {}, []), es);
      && t.wakeups == r.states[|r.steps|]
      && multiset(t.events)[Woken(key)] == Count(r, 0, |r.steps|, key)
  {
    r := EvaluationsLogged(Trace([map[]], []), Tracker(map[], {}, []), es, key);
  }

  // ---------------------------------------------------------------- failing evaluations

  /** Whether the later tracker has the key published, and not because the earlier one had. */
  predicate NewlyPublished(t: Tracker, t': Tracker, key: string) {
    && key in t'.wakeups && t'.wakeups[key].published
    && !(key in t.wakeups && t.wakeups[key].published && t.wakeups[key].lastPublished == t'.wakeups[key].lastPublished)
  }

  predicate Reports(t: Tracker, t': Tracker, key: string) {
    && t.events <= t'.events
    && (NewlyPublished(t, t', key) ==> Woken(key) in t'.events)
  }

  lemma {:induction false} WakesReport(t: Tracker, now: int, wakes: seq<Wake>, key: string)
    ensures Reports(t, AfterWakes(t, now, wakes), key)
    ensures forall k | k in t.wakeups :: k in AfterWakes(t, now, wakes).wakeups
    ensures forall k | k in t.wakeups && k !in Keys(wakes) :: AfterWakes(t, now, wakes).wakeups[k] == t.wakeups[k]
    decreases |wakes|
  {
    if wakes != [] {
      var t1 := AfterWake(t, TouchOf(wakes[0], now));
      assert Reports(t, t1, key);
      WakesReport(t1, now, wakes[1..], key);
      var t' := AfterWakes(t1, now, wakes[1..]);
      assert Woken(key) in t1.events ==> Woken(key) in t'.events;
      assert wakes[0].key in Keys(wakes) && forall k | k in Keys(wakes[1..]) :: k in Keys(wakes);
    }
  }

  lemma {:induction false} ProjectsReport(t: Tracker, now: int, ps: seq<Project>, key: string)
    ensures var t' := AfterProjects(t, now, ps);
      && Reports(t, t', key)
      && (forall k | k in t.wakeups :: k in t'.wakeups)
      && (forall k | k in t.wakeups && k !in Keys(AllFound(ps)) :: t'.wakeups[k] == t.wakeups[k])
    decreases |ps|
  {
    if ps != [] {
      var p := ps[0];
      var t1 := AfterProject(t, now, p);
      ProjectReports(t, now, p, key);
      ProjectsReport(t1, now, ps[1..], key);
      var t' := AfterProjects(t1, now, ps[1..]);
      assert Woken(key) in t1.events ==> Woken(key) in t'.events;
      forall k | k in Keys(Found(p)) || k in Keys(AllFound(ps[1..])) ensures k in Keys(AllFound(ps)) {
        KeysInTurn(Found(p), AllFound(ps[1..]));
      }
    }
  }

  lemma ProjectReports(t: Tracker, now: int, p: Project, key: string)
    ensures var t1 := AfterProject(t, now, p);
      && Reports(t, t1, key)
      && (forall k | k in t.wakeups :: k in t1.wakeups)
      && (forall k | k in t.wakeups && k !in Keys(Found(p)) :: t1.wakeups[k] == t.wakeups[k])
  {
    if !p.archived && Settled(p).Some? {
      WakesReport(AfterCounts(t, p, Settled(p).value), now, p.wakes, key);
    }
  }

  lemma KeysInTurn(a: seq<Wake>, b: seq<Wake>)
    ensures Keys(a + b) == Keys(a) + Keys(b)
  {
    assert forall w | w in a || w in b :: w in a + b;
  }

  /** Every key an evaluation newly publishes has its event in the list it returns, also when the
      evaluation fails; and a failing evaluation removes no key and leaves every key it did not
      get to as it was, so that the grace period of none of them starts again. */
  lemma FailureLosesNothing(t: Tracker, now: int, projects: Option<seq<Project>>, key: string)
    ensures var t' := Evaluated(t, now, projects);
      && (NewlyPublished(t, t', key) ==> Woken(key) in t'.events)
      && (!(projects.Some? && Succeeds(projects.value)) ==>
        && (forall k | k in t.wakeups :: k in t'.wakeups)
        && (forall k | k in t.wakeups && (projects.None? || k !in Keys(AllFound(projects.value))) ::
          t'.wakeups[k] == t.wakeups[k]))
  {
    if projects.Some? {
      ProjectsReport(t, now, projects.value, key);
    }
  }

  // ---------------------------------------------------------------- discrepancies

  /** A look at the project found its two counts to agree. */
  predicate Agrees(p: Project, id: int) {
    p.id == id && !p.archived && Settled(p).Some? && !Settled(p).value.Mismatch()
  }

  function Reported(t: Tracker, id: int): nat { multiset(t.events)[Discrepancy(id)] }

  /** Nothing of the discrepancy of a project changes. */
  predicate StaysReported(t: Tracker, t': Tracker, id: int) {
    id in t.discrepancySeen && id in t'.discrepancySeen && Reported(t', id) == Reported(t, id)
  }

  lemma {:induction false} WakesReportNoDiscrepancy(t: Tracker, now: int, wakes: seq<Wake>, id: int)
    ensures AfterWakes(t, now, wakes).discrepancySeen == t.discrepancySeen
    ensures Reported(AfterWakes(t, now, wakes), id) == Reported(t, id)
    decreases |wakes|
  {
    if wakes != [] {
      WakesReportNoDiscrepancy(AfterWake(t, TouchOf(wakes[0], now)), now, wakes[1..], id);
    }
  }

  lemma {:induction false} ProjectsReportNoDiscrepancy(t: Tracker, now: int, ps: seq<Project>, id: int)
    requires id in t.discrepancySeen && forall p | p in ps :: !Agrees(p, id)
    ensures StaysReported(t, AfterProjects(t, now, ps), id)
    decreases |ps|
  {
    if ps != [] {
      var p := ps[0];
      assert p in ps && !Agrees(p, id);
      if !p.archived && Settled(p).Some? {
        WakesReportNoDiscrepancy(AfterCounts(t, p, Settled(p).value), now, p.wakes, id);
      }
      ProjectsReportNoDiscrepancy(AfterProject(t, now, p), now, ps[1..], id);
    }
  }

  /** A discrepancy that was reported is not reported again, over any evaluations, failing or not,
      until a look at the project finds its counts to agree. */
  lemma {:induction false} DiscrepancyReportedOnce(t: Tracker, es: seq<Evaluation>, id: int)
    requires id in t.discrepancySeen
    requires forall e | e in es && e.projects.Some? :: forall p | p in e.projects.value :: !Agrees(p, id)
    ensures StaysReported(t, Ran(t, es), id)
    decreases |es|
  {
    if es != [] {
      var e := es[0];
      assert e in es;
      if e.projects.Some? {
        ProjectsReportNoDiscrepancy(t, e.now, e.projects.value, id);
      }
      DiscrepancyReportedOnce(Evaluated(t, e.now, e.projects), es[1..], id);
    }
  }

  /** No unstarted task was found by the one count, and some by the other. */
  predicate Doubtful(c: Option<Counts>) { c.Some? && c.value.evaluated == 0 && c.value.counted > 0 }

  /** What one look at a project does. A project that is archived is passed over; one whose counts
      cannot be read, at the first look or at the second that doubtful counts lead to, fails and
      changes nothing; any other has its wakeups touched, and fails only if a later query does. Its
      discrepancy is remembered exactly while both looks find it, and reported when that begins. */
  lemma LookIs(t: Tracker, now: int, p: Project)
    ensures var t', confirmed := AfterProject(t, now, p), Doubtful(p.first) && Doubtful(p.second);
      if p.archived then t' == t && !Fails(p) && Found(p) == []
      else if p.first.None? || (Doubtful(p.first) && p.second.None?) then t' == t && Fails(p) && Found(p) == []
      else
        && Fails(p) == p.failed && Found(p) == p.wakes
        && t'.discrepancySeen == (if confirmed then t.discrepancySeen + {p.id} else t.discrepancySeen - {p.id})
        && (forall id :: Reported(t', id)
              == Reported(t, id) + if id == p.id && confirmed && id !in t.discrepancySeen then 1 else 0)
  {
    if !p.archived && Settled(p).Some? {
      var c := AfterCounts(t, p, Settled(p).value);
      WakesReportNoDiscrepancy(c, now, p.wakes, p.id);
      forall id ensures Reported(AfterProject(t, now, p), id) == Reported(c, id) {
        WakesReportNoDiscrepancy(c, now, p.wakes, id);
      }
    }
  }

  /** And it is reported by the first look that finds it twice. */
  lemma DiscrepancyReportedAtFirst(t: Tracker, now: int, p: Project)
    requires !p.archived && Settled(p).Some? && p.id !in t.discrepancySeen
    ensures var t' := AfterProject(t, now, p);
      if Settled(p).value.Mismatch() then p.id in t'.discrepancySeen && Reported(t', p.id) == Reported(t, p.id) + 1
      else p.id !in t'.discrepancySeen && Reported(t', p.id) == Reported(t, p.id)
  {
    WakesReportNoDiscrepancy(AfterCounts(t, p, Settled(p).value), now, p.wakes, p.id);
  }
}
