/** The registry of watch processes, and how a new watch stops the others of its scope. */
module WatchRegistry {
  import opened Wrappers

  datatype Scope = Scope(projectID: string, goalID: string, monitorToken: string)

  /** The contents of a registry file: JSON, the bare pid an older version wrote, or neither. A start
      time that cannot be parsed is None. */
  datatype File =
    | Registered(pid: int, scope: Scope, startedAt: Option<int>)
    | Legacy(pid: int)
    | Unreadable

  /** The files, each named by the decimal form of a pid, and the processes that are alive. */
  datatype World = World(files: map<int, File>, alive: set<int>)

  /** A watch that reaps, and the start time it read from its own registration. */
  datatype Reaper = Reaper(pid: int, scope: Scope, start: Option<int>)

  datatype Verdict = Skipped | Stale | Failed(pid: int) | Stopped(file: File)

  /** Whether one watch must give way to another: it started earlier, or at the same time with the
      smaller pid. */
  predicate Before(start: int, pid: int, start': int, pid': int) { start < start' || (start == start' && pid < pid') }

  /** What a reaper does about one file; obeys says whether the process there ends on its signal. */
  function Judge(w: World, r: Reaper, name: int, obeys: bool): Verdict {
    if name !in w.files || w.files[name].Unreadable? then Skipped
    else
      var f := w.files[name];
      if f.pid !in w.alive then Stale
      else if f.Legacy? || f.pid == r.pid || f.scope != r.scope then Skipped
      else if r.start.None? || f.startedAt.None? then Skipped
      else if !Before(f.startedAt.value, f.pid, r.start.value, r.pid) then Skipped
      else if !obeys then Failed(f.pid)
      else Stopped(f)
  }

  function AfterOne(w: World, r: Reaper, name: int, obeys: bool, removable: bool): World {
    var files := if removable then w.files - {name} else w.files;
    match Judge(w, r, name, obeys)
    case Stale => w.(files := files)
    case Stopped(f) => World(files, w.alive - {f.pid})
    case _ => w
  }

  // ---------------------------------------------------------------- ReapWatches

  /** ReapResult, with the world it leaves and whether a file could not be removed. */
  datatype Reaping = Reaping(world: World, removedStale: nat, stopped: seq<File>, failed: seq<int>, aborted: bool)

  /** What cannot be seen here: the processes that end on a signal and the files that can be removed. */
  datatype Environment = Environment(obeying: set<int>, removable: set<int>)

  function Obeys(w: World, name: int, e: Environment): bool {
    name in w.files && !w.files[name].Unreadable? && w.files[name].pid in e.obeying
  }

  function ReapedOne(x: Reaping, r: Reaper, name: int, e: Environment): Reaping {
    if x.aborted then x
    else
      var verdict := Judge(x.world, r, name, Obeys(x.world, name, e));
      var removes := verdict.Stale? || verdict.Stopped?;
      var y := x.(world := AfterOne(x.world, r, name, Obeys(x.world, name, e), name in e.removable),
                  aborted := removes && name !in e.removable);
      if y.aborted then y
      else match verdict
        case Stale => y.(removedStale := y.removedStale + 1)
        case Stopped(f) => y.(stopped := y.stopped + [f])
        case Failed(pid) => y.(failed := y.failed + [pid])
        case Skipped => y
  }

  function Reaped(x: Reaping, r: Reaper, names: seq<int>, e: Environment): Reaping
    decreases |names|
  {
    if names == [] then x else Reaped(ReapedOne(x, r, names[0], e), r, names[1..], e)
  }

  /** The start time a reaper goes by: that of its own registration, if it can be read. */
  function OwnStart(w: World, pid: int): Option<int> {
    if pid in w.files && w.files[pid].Registered? then w.files[pid].startedAt else None
  }

  predicate NoScope(s: Scope) { s.projectID == "" && s.monitorToken == "" }

  class Registry {
    var files: map<int, File>
    var alive: set<int>

    constructor (w: World)
      ensures World(files, alive) == w
    {
      files, alive := w.files, w.alive;
    }

    /** ReapWatches; names are the registry's entries in the order they are read. */
    method ReapWatches(self: Scope, selfPID: int, names: seq<int>, e: Environment) returns (result: Reaping, ok: bool)
      modifies this
      ensures World(files, alive) == result.world
      ensures result == if self.projectID == "" && self.monitorToken == "" then Reaping(old(World(files, alive)), 0, [], [], false)
        else Reaped(Reaping(old(World(files, alive)), 0, [], [], false),
                    Reaper(selfPID, self, OwnStart(old(World(files, alive)), selfPID)), names, e)
      ensures ok == (!result.aborted && result.failed == [])
    {
      result := Reaping(World(files, alive), 0, [], [], false);
      if self.projectID == "" && self.monitorToken == "" {
        return result, true;
      }
      var r := Reaper(selfPID, self, OwnStart(World(files, alive), selfPID));
      ghost var all := Reaped(result, r, names, e);
      var i := 0;
      while i < |names|
        invariant 0 <= i <= |names|
        invariant result.world == World(files, alive) && !result.aborted
        invariant Reaped(result, r, names[i..], e) == all
      {
        assert names[i..][1..] == names[i + 1..];
        result := ReapFile(r, names[i], e, result);
        i := i + 1;
        if result.aborted {
          AbortedStays(result, r, names[i..], e);
          return result, false;
        }
      }
      assert names[i..] == [];
      return result, result.failed == [];
    }

    /** One turn of the loop over the entries. */
    method ReapFile(r: Reaper, name: int, e: Environment, before: Reaping) returns (after: Reaping)
      requires before.world == World(files, alive) && !before.aborted
      modifies this
      ensures after == ReapedOne(before, r, name, e) && after.world == World(files, alive)
    {
      after := before;
      if name !in files || files[name].Unreadable? {
        return;
      }
      var f := files[name];
      if f.pid !in alive {
        if name !in e.removable {
          return after.(aborted := true);
        }
        files := files - {name};
        return after.(world := World(files, alive), removedStale := after.removedStale + 1);
      }
      if f.Legacy? || f.pid == r.pid || f.scope != r.scope || r.start.None? || f.startedAt.None? {
        return;
      }
      if f.startedAt.value > r.start.value || (f.startedAt.value == r.start.value && f.pid > r.pid) {
        return;
      }
      if f.pid !in e.obeying {
        return after.(failed := after.failed + [f.pid]);
      }
      alive := alive - {f.pid};
      if name !in e.removable {
        return after.(world := World(files, alive), aborted := true);
      }
      files := files - {name};
      return after.(world := World(files, alive), stopped := after.stopped + [f]);
    }
  }

  lemma {:induction false} AbortedStays(x: Reaping, r: Reaper, names: seq<int>, e: Environment)
    requires x.aborted
    ensures Reaped(x, r, names, e) == x
    decreases |names|
  {
    if names != [] {
      AbortedStays(x, r, names[1..], e);
    }
  }

  // ---------------------------------------------------------------- what one reap does

  /** Files and processes only go. */
  predicate Shrinks(w: World, w': World) {
    && w'.alive <= w.alive
    && forall n | n in w'.files :: n in w.files && w'.files[n] == w.files[n]
  }

  lemma OneShrinks(x: Reaping, r: Reaper, name: int, e: Environment)
    ensures Shrinks(x.world, ReapedOne(x, r, name, e).world)
  {
  }

  lemma {:induction false} ReapShrinks(x: Reaping, r: Reaper, names: seq<int>, e: Environment)
    ensures Shrinks(x.world, Reaped(x, r, names, e).world)
    ensures x.aborted ==> Reaped(x, r, names, e).aborted
    decreases |names|
  {
    if names != [] {
      OneShrinks(x, r, names[0], e);
      ReapShrinks(ReapedOne(x, r, names[0], e), r, names[1..], e);
    }
  }

  /** The registration of a live process of the reaper's scope that started before the reaper, or at
      the same time with a smaller pid. */
  predicate GivesWay(w: World, r: Reaper, n: int) {
    && n in w.files && w.files[n].Registered? && w.files[n].pid in w.alive && w.files[n].pid != r.pid
    && w.files[n].scope == r.scope && r.start.Some? && w.files[n].startedAt.Some?
    && (w.files[n].startedAt.value < r.start.value
        || (w.files[n].startedAt.value == r.start.value && w.files[n].pid < r.pid))
  }

  predicate IsDead(w: World, n: int) { n in w.files && !w.files[n].Unreadable? && w.files[n].pid !in w.alive }

  /** What becomes of one registration: a dead one is removed, and a live one that gives way is
      stopped and removed if it obeys, and counted as failed if it does not. */
  predicate SettledFile(w: World, r: Reaper, n: int, e: Environment, y: Reaping) {
    && (IsDead(w, n) ==> n !in y.world.files)
    && (GivesWay(w, r, n) && w.files[n].pid in e.obeying ==> n !in y.world.files && w.files[n].pid !in y.world.alive)
    && (GivesWay(w, r, n) && w.files[n].pid !in e.obeying ==> w.files[n].pid in y.failed || w.files[n].pid !in y.world.alive)
  }

  /** What a reap does at one entry: the world it leaves, what it counts, and whether it is cut short,
      which it is exactly when a file that has to go cannot be removed. */
  lemma EntryIs(x: Reaping, r: Reaper, n: int, e: Environment)
    requires !x.aborted
    ensures var y, w := ReapedOne(x, r, n, e), x.world;
      var stops := GivesWay(w, r, n) && w.files[n].pid in e.obeying;
      var goes := IsDead(w, n) || stops;
      && y.aborted == (goes && n !in e.removable)
      && y.world.files == (if goes && n in e.removable then w.files - {n} else w.files)
      && y.world.alive == (if stops then w.alive - {w.files[n].pid} else w.alive)
      && (y.aborted ==> y.removedStale == x.removedStale && y.stopped == x.stopped && y.failed == x.failed)
      && (!y.aborted ==>
            && y.removedStale == x.removedStale + (if IsDead(w, n) then 1 else 0)
            && y.stopped == x.stopped + (if stops then [w.files[n]] else [])
            && y.failed == x.failed + (if GivesWay(w, r, n) && !stops then [w.files[n].pid] else []))
  {
  }

  lemma OneSettles(x: Reaping, r: Reaper, n: int, e: Environment)
    requires !x.aborted && !ReapedOne(x, r, n, e).aborted
    ensures SettledFile(x.world, r, n, e, ReapedOne(x, r, n, e))
  {
  }

  lemma {:induction false} FailuresStay(x: Reaping, r: Reaper, names: seq<int>, e: Environment)
    ensures x.failed <= Reaped(x, r, names, e).failed
    decreases |names|
  {
    if names != [] {
      FailuresStay(ReapedOne(x, r, names[0], e), r, names[1..], e);
    }
  }

  /** A registration that is not the one looked at changes only if its process ends or it is gone. */
  lemma {:induction false} SettledLater(w: World, x: Reaping, r: Reaper, n: int, names: seq<int>, e: Environment)
    requires Shrinks(w, x.world) && SettledFile(w, r, n, e, x)
    ensures SettledFile(w, r, n, e, Reaped(x, r, names, e))
  {
    ReapShrinks(x, r, names, e);
    FailuresStay(x, r, names, e);
  }

  /** A reap that is not cut short settles every entry that was there when it began, whatever it did
      to the others. */
  lemma {:induction false} ReapSettles(w: World, x: Reaping, r: Reaper, names: seq<int>, n: int, e: Environment)
    requires Shrinks(w, x.world) && n in names && !Reaped(x, r, names, e).aborted
    requires forall m | m in w.files && m !in x.world.files :: !w.files[m].Unreadable? && w.files[m].pid !in x.world.alive
    ensures SettledFile(w, r, n, e, Reaped(x, r, names, e))
    decreases |names|
  {
    ReapShrinks(ReapedOne(x, r, names[0], e), r, names[1..], e);
    var y := ReapedOne(x, r, names[0], e);
    OneShrinks(x, r, names[0], e);
    if names[0] == n {
      ReapShrinks(x, r, names, e);
      OneSettles(x, r, n, e);
      SettledLater(w, y, r, n, names[1..], e);
    } else {
      ReapSettles(w, y, r, names[1..], n, e);
    }
  }

  /** And nothing else goes: a process is stopped only if it gives way and obeys, and a file removed
      only if it can be read and its process is dead by then. */
  lemma {:induction false} ReapTakesNothingElse(x: Reaping, r: Reaper, names: seq<int>, e: Environment)
    ensures var y := Reaped(x, r, names, e);
      && (forall p | p in x.world.alive && p !in y.world.alive ::
            p in e.obeying && exists n | n in names :: GivesWay(x.world, r, n) && x.world.files[n].pid == p)
      && (forall n | n in x.world.files && n !in y.world.files ::
            n in names && n in e.removable && !x.world.files[n].Unreadable? && x.world.files[n].pid !in y.world.alive)
    decreases |names|
  {
    if names != [] {
      var y := ReapedOne(x, r, names[0], e);
      OneShrinks(x, r, names[0], e);
      ReapTakesNothingElse(y, r, names[1..], e);
      ReapShrinks(y, r, names[1..], e);
      OneTakes(x, r, names[0], e);
      assert names[0] in names && forall n | n in names[1..] :: n in names;
    }
  }

  lemma OneTakes(x: Reaping, r: Reaper, name: int, e: Environment)
    ensures var y := ReapedOne(x, r, name, e);
      && (forall p | p in x.world.alive && p !in y.world.alive ::
            p in e.obeying && GivesWay(x.world, r, name) && x.world.files[name].pid == p)
      && (forall n | n in x.world.files && n !in y.world.files ::
            n == name && n in e.removable && !x.world.files[n].Unreadable? && x.world.files[n].pid !in y.world.alive)
  {
  }

  // ---------------------------------------------------------------- many watches

  /** A watch process: what it registered, and the entries its reap still has to look at. */
  datatype Watch = Watch(scope: Scope, startedAt: int, todo: Option<set<int>>)

  datatype System = System(world: World, watches: map<int, Watch>)

  datatype Event =
    | Register(pid: int, scope: Scope, startedAt: int)
    | RegisterLegacy(pid: int)
    | Begin(pid: int)
    | One(pid: int, name: int, obeys: bool, removable: bool)
    | End(pid: int, cleanly: bool)

  /** Pids are not used twice; only a live watch reaps or ends; a reap looks at the entries it read. */
  predicate Enabled(s: System, e: Event) {
    match e
    case Register(pid, _, _) => pid !in s.watches && pid !in s.world.files && pid !in s.world.alive
    case RegisterLegacy(pid) => pid !in s.watches && pid !in s.world.files && pid !in s.world.alive
    case Begin(pid) => pid in s.watches && pid in s.world.alive
    case One(pid, name, _, _) =>
      pid in s.watches && pid in s.world.alive && s.watches[pid].todo.Some? && name in s.watches[pid].todo.value
    case End(pid, _) => pid in s.world.alive
  }

  /** The start time is that of the registration, which does not change while the watch is alive. */
  function ReaperOf(s: System, pid: int): Reaper
    requires pid in s.watches
  {
    Reaper(pid, s.watches[pid].scope, OwnStart(s.world, pid))
  }

  function Step(s: System, e: Event): System
    requires Enabled(s, e)
  {
    match e
    case Register(pid, scope, startedAt) =>
      System(World(s.world.files[pid := Registered(pid, scope, Some(startedAt))], s.world.alive + {pid}),
             s.watches[pid := Watch(scope, startedAt, None)])
    case RegisterLegacy(pid) =>
      s.(world := World(s.world.files[pid := Legacy(pid)], s.world.alive + {pid}))
    case Begin(pid) =>
      s.(watches := s.watches[pid := s.watches[pid].(
        todo := Some(if NoScope(s.watches[pid].scope) then {} else s.world.files.Keys))])
    case One(pid, name, obeys, removable) =>
      System(AfterOne(s.world, ReaperOf(s, pid), name, obeys, removable),
             s.watches[pid := s.watches[pid].(todo := Some(s.watches[pid].todo.value - {name}))])
    case End(pid, cleanly) =>
      s.(world := World(if cleanly then s.world.files - {pid} else s.world.files, s.world.alive - {pid}))
  }

  predicate Stops(s: System, e: Event, victim: int)
    requires Enabled(s, e)
  {
    e.One? && var v := Judge(s.world, ReaperOf(s, e.pid), e.name, e.obeys); v.Stopped? && v.file.pid == victim
  }

  /** Every registration says what its watch registered, under that watch's own name, and the
      registration of a live watch is there. */
  predicate SystemInv(s: System) {
    && (forall n | n in s.world.files :: !s.world.files[n].Unreadable? && s.world.files[n].pid == n)
    && (forall n | n in s.world.files && s.world.files[n].Registered? ::
      n in s.watches && s.world.files[n] == Registered(n, s.watches[n].scope, Some(s.watches[n].startedAt)))
    && (forall p | p in s.watches && p in s.world.alive :: p in s.world.files && s.world.files[p].Registered?)
  }

  lemma StepKeepsInv(s: System, e: Event)
    requires SystemInv(s) && Enabled(s, e)
    ensures SystemInv(Step(s, e))
  {
  }

  /** A watch is stopped only by one of its own scope that comes after it. */
  lemma StoppedByALaterOne(s: System, e: Event, victim: int)
    requires SystemInv(s) && Enabled(s, e) && Stops(s, e, victim)
    ensures victim in s.watches && s.watches[victim].scope == s.watches[e.pid].scope
    ensures Before(s.watches[victim].startedAt, victim, s.watches[e.pid].startedAt, e.pid)
  {
  }

  // ---------------------------------------------------------------- runs

  datatype Trace = Trace(states: seq<System>, events: seq<Event>)

  predicate Moves(r: Trace, i: nat)
    requires |r.states| == |r.events| + 1 && i < |r.events|
  {
    Enabled(r.states[i], r.events[i]) && r.states[i + 1] == Step(r.states[i], r.events[i])
  }

  predicate IsRun(r: Trace) {
    && |r.states| == |r.events| + 1 && r.states[0] == System(World(map[], {}), map[])
    && forall i: nat | i < |r.events| :: Moves(r, i)
  }

  lemma {:induction false} ReachableStatesAreSound(r: Trace, i: nat)
    requires IsRun(r) && i <= |r.events|
    ensures SystemInv(r.states[i])
    decreases i
  {
    if i > 0 {
      ReachableStatesAreSound(r, i - 1);
      assert Moves(r, i - 1);
      StepKeepsInv(r.states[i - 1], r.events[i - 1]);
    }
  }

  predicate StoppedAt(r: Trace, i: nat, victim: int)
    requires IsRun(r)
  {
    i < |r.events| && Moves(r, i) && Stops(r.states[i], r.events[i], victim)
  }

  /** What a watch registered stays known for the rest of the run. */
  lemma {:induction false} RegistrationsStay(r: Trace, i: nat, j: nat, pid: int)
    requires IsRun(r) && i <= j <= |r.events| && pid in r.states[i].watches
    ensures pid in r.states[j].watches
    ensures r.states[j].watches[pid].scope == r.states[i].watches[pid].scope
    ensures r.states[j].watches[pid].startedAt == r.states[i].watches[pid].startedAt
    decreases j
  {
    if i < j {
      RegistrationsStay(r, i, j - 1, pid);
      assert Moves(r, j - 1);
    }
  }

  /** The watch of its scope that comes last, by start time and then pid, is never stopped, however
      registrations and reaps interleave. */
  lemma LastIsNeverStopped(r: Trace, last: int, i: nat)
    requires IsRun(r) && last in r.states[|r.events|].watches
    requires var all := r.states[|r.events|].watches;
      forall p | p in all && p != last && all[p].scope == all[last].scope ::
        Before(all[p].startedAt, p, all[last].startedAt, last)
    ensures !StoppedAt(r, i, last)
  {
    if StoppedAt(r, i, last) {
      ReachableStatesAreSound(r, i);
      StoppedByALaterOne(r.states[i], r.events[i], last);
      RegistrationsStay(r, i, |r.events|, last);
      RegistrationsStay(r, i, |r.events|, r.events[i].pid);
    }
  }

  /** Of two watches at most one can ever be stopped by the other, and only one of its own scope. */
  lemma NoMutualStops(r: Trace, i: nat, j: nat, a: int, b: int)
    requires IsRun(r) && StoppedAt(r, i, a) && r.events[i].pid == b
    ensures var w := r.states[i].watches; a in w && b in w && w[a].scope == w[b].scope
    ensures !(StoppedAt(r, j, b) && r.events[j].pid == a)
  {
    ReachableStatesAreSound(r, i);
    StoppedByALaterOne(r.states[i], r.events[i], a);
    if StoppedAt(r, j, b) && r.events[j].pid == a {
      ReachableStatesAreSound(r, j);
      StoppedByALaterOne(r.states[j], r.events[j], b);
      RegistrationsStay(r, i, |r.events|, a);
      RegistrationsStay(r, i, |r.events|, b);
      RegistrationsStay(r, j, |r.events|, a);
      RegistrationsStay(r, j, |r.events|, b);
    }
  }

  // ---------------------------------------------------------------- one survivor

  /** The scope has a project or a monitor token. */
  predicate Scoped(s: Scope) { s.projectID != "" || s.monitorToken != "" }

  lemma {:induction false} UnscopedLooksAtNothing(r: Trace, n: nat, p: int)
    requires IsRun(r) && n <= |r.events| && p in r.states[n].watches && !Scoped(r.states[n].watches[p].scope)
    ensures r.states[n].watches[p].todo in {None, Some({})}
    decreases n
  {
    if n > 0 {
      assert Moves(r, n - 1);
      if p in r.states[n - 1].watches {
        UnscopedLooksAtNothing(r, n - 1, p);
      }
    }
  }

  /** A watch without a project and a monitor token stops no other, in any run; one that has either
      looks at every registration there is when it begins. */
  lemma OnlyScopedReap(r: Trace, i: nat)
    requires IsRun(r) && i < |r.events| && (r.events[i].Begin? || r.events[i].One?)
    ensures var p := r.events[i].pid;
      && p in r.states[i].watches && p in r.states[i + 1].watches
      && (r.events[i].One? ==> Scoped(r.states[i].watches[p].scope))
      && (r.events[i].Begin? ==>
            var all := if Scoped(r.states[i].watches[p].scope) then r.states[i].world.files.Keys else {};
            r.states[i + 1].watches[p].todo == Some(all))
  {
    assert Moves(r, i);
    if r.events[i].One? && !Scoped(r.states[i].watches[r.events[i].pid].scope) {
      UnscopedLooksAtNothing(r, i, r.events[i].pid);
    }
  }

  /** Every other live watch of the scope comes before this one and is still to be looked at. */
  predicate Covers(s: System, m: int) {
    && m in s.watches && m in s.world.alive && s.watches[m].todo.Some?
    && forall p | p in s.watches && p != m && p in s.world.alive && s.watches[p].scope == s.watches[m].scope ::
      p in s.watches[m].todo.value && Before(s.watches[p].startedAt, p, s.watches[m].startedAt, m)
  }

  lemma BeginCovers(s: System, m: int)
    requires SystemInv(s) && Enabled(s, Begin(m)) && Scoped(s.watches[m].scope)
    requires forall p | p in s.watches && p != m && p in s.world.alive && s.watches[p].scope == s.watches[m].scope ::
      Before(s.watches[p].startedAt, p, s.watches[m].startedAt, m)
    ensures Covers(Step(s, Begin(m)), m)
  {
  }

  lemma StepKeepsCovering(s: System, e: Event, m: int)
    requires SystemInv(s) && Enabled(s, e) && Covers(s, m)
    requires e.Register? ==> e.scope != s.watches[m].scope
    requires e.End? ==> e.pid != m
    requires e.One? && e.pid == m ==> e.obeys
    requires e.Begin? ==> e.pid != m
    ensures Covers(Step(s, e), m)
  {
  }

  /** Once the last live watch of a scope has begun to reap, no other watch of the scope registers,
      and the watches it stops do end, it has outlived every other watch of its scope when it has
      looked at all the entries it read. */
  lemma {:induction false} StaysCovering(r: Trace, b: nat, i: nat, m: int)
    requires IsRun(r) && b < i <= |r.events| && r.events[b] == Begin(m) && m in r.states[b].watches
    requires Scoped(r.states[b].watches[m].scope)
    requires var w := r.states[b].watches;
      forall p | p in w && p != m && p in r.states[b].world.alive && w[p].scope == w[m].scope ::
        Before(w[p].startedAt, p, w[m].startedAt, m)
    requires forall k | b < k < i :: Undisturbed(r.events[k], m, r.states[b].watches[m].scope)
    ensures Covers(r.states[i], m) && r.states[i].watches[m].scope == r.states[b].watches[m].scope
    decreases i
  {
    assert Moves(r, i - 1);
    ReachableStatesAreSound(r, i - 1);
    if i == b + 1 {
      BeginCovers(r.states[b], m);
    } else {
      StaysCovering(r, b, i - 1, m);
      StepKeepsCovering(r.states[i - 1], r.events[i - 1], m);
    }
  }

  /** No registration in the scope, no end and no second reap of m, and nothing m stops refuses. */
  predicate Undisturbed(e: Event, m: int, scope: Scope) {
    && (e.Register? ==> e.scope != scope) && (e.End? ==> e.pid != m) && (e.Begin? ==> e.pid != m)
    && (e.One? && e.pid == m ==> e.obeys)
  }

  /** When the watch that comes last among the live ones of its scope reaps after all registrations
      in it, and everything it signals ends, then at the end of its reap exactly it is left. */
  lemma ExactlyOneSurvives(r: Trace, b: nat, i: nat, m: int)
    requires IsRun(r) && b < i <= |r.events| && r.events[b] == Begin(m) && m in r.states[b].watches
    requires Scoped(r.states[b].watches[m].scope)
    requires var w := r.states[b].watches;
      forall p | p in w && p != m && p in r.states[b].world.alive && w[p].scope == w[m].scope ::
        Before(w[p].startedAt, p, w[m].startedAt, m)
    requires forall k | b < k < i :: Undisturbed(r.events[k], m, r.states[b].watches[m].scope)
    requires m in r.states[i].watches && r.states[i].watches[m].todo == Some({})
    ensures forall p | p in r.states[i].watches && r.states[i].watches[p].scope == r.states[i].watches[m].scope ::
      p in r.states[i].world.alive <==> p == m
  {
    StaysCovering(r, b, i, m);
  }
}
