/** The delivery record of a watch that is armed again and again, and what it delivers twice. */
module WatchOnce {
  import opened Wrappers
  import opened Durations
  import opened Text

  datatype Action = Action(deliveryKey: string, generation: string, eventName: string, controlOnly: bool)

  /** The record's key. */
  function KeyOf(a: Action): string { a.deliveryKey + ['\0'] + a.generation }

  /** The key tells delivery keys and generations apart, unless a delivery key contains a zero byte. */
  lemma KeyInjective(a: Action, b: Action)
    requires '\0' !in a.deliveryKey && '\0' !in b.deliveryKey && KeyOf(a) == KeyOf(b)
    ensures a.deliveryKey == b.deliveryKey && a.generation == b.generation
  {
    SplitUnique(a.deliveryKey, b.deliveryKey, a.generation, b.generation, '\0');
  }

  /** How long after a delivery an event may be delivered again; None is never. */
  function RepeatInterval(eventName: string): Option<int> {
    if eventName == "monitor.liveness" then Some(30 * MINUTE)
    else if eventName == "watch.snapshot.failing" then Some(30 * MINUTE)
    else None
  }

  /** watchRepeatDue. */
  predicate RepeatDue(eventName: string, elapsed: int) {
    RepeatInterval(eventName).Some? && elapsed >= RepeatInterval(eventName).value
  }

  /** Time.Unix of a time in nanoseconds. */
  function Unix(t: int): int { t / SECOND }

  type Record = map<string, int>

  predicate Skipped(seen: Record, a: Action, now: int) {
    KeyOf(a) in seen && !RepeatDue(a.eventName, now - seen[KeyOf(a)] * SECOND)
  }

  /** The record of the process now watching, and the saved one. */
  datatype State = State(seen: Record, saved: Option<Record>)

  datatype Event =
    | Offer(action: Action, asked: int, done: int, nextOk: bool, saveOk: bool)
    | Rearm(readable: bool)

  predicate Delivers(s: State, e: Event) {
    e.Offer? && !e.action.controlOnly && e.nextOk && !Skipped(s.seen, e.action, e.asked)
  }

  function Loaded(s: State, readable: bool): Record { if readable && s.saved.Some? then s.saved.value else map[] }

  function Step(s: State, e: Event): State {
    if e.Rearm? then s.(seen := Loaded(s, e.readable))
    else if Delivers(s, e) then
      var seen := s.seen[KeyOf(e.action) := Unix(e.done)];
      State(seen, if e.saveOk then Some(seen) else s.saved)
    else s
  }

  /** The saved record. */
  class RecordFile {
    var saved: Option<Record>

    constructor ()
      ensures saved == None
    {
      saved := None;
    }
  }

  class WatchOnce {
    const file: RecordFile
    const once: bool
    var seen: Record
    var fired: bool
    var timerSet: bool

    /** newWatchOnce; a record that is missing or cannot be read is empty. */
    constructor (file: RecordFile, once: bool, readable: bool)
      ensures this.file == file && this.once == once && !fired && !timerSet
      ensures seen == Loaded(State(map[], file.saved), readable)
    {
      this.file, this.once, fired, timerSet := file, once, false, false;
      seen := if readable && file.saved.Some? then file.saved.value else map[];
    }

    /** The sink around the next sink. The parameters after the action are what the calls it makes
        return: the clock before and after the delivery, the next sink, and the save. */
    method Sink(a: Action, asked: int, done: int, nextOk: bool, saveOk: bool) returns (passed: bool, ok: bool)
      modifies this, file
      ensures passed == (a.controlOnly || !Skipped(old(seen), a, asked))
      ensures ok == (!passed || nextOk)
      ensures State(seen, file.saved) == Step(old(State(seen, file.saved)), Offer(a, asked, done, nextOk, saveOk))
      ensures fired == (old(fired) || (passed && nextOk && !a.controlOnly))
      ensures timerSet == (old(timerSet) || (once && passed && nextOk && !a.controlOnly))
    {
      if a.controlOnly {
        return true, nextOk;
      }
      var key := KeyOf(a);
      if key in seen {
        if !RepeatDue(a.eventName, asked - seen[key] * SECOND) {
          return false, true;
        }
      }
      if !nextOk {
        return true, false;
      }
      fired := true;
      seen := seen[key := Unix(done)];
      if saveOk {
        file.saved := Some(seen);
      }
      if once && !timerSet {
        timerSet := true;
      }
      return true, true;
    }
  }

  // ---------------------------------------------------------------- processes in turn

  datatype Trace = Trace(states: seq<State>, events: seq<Event>)

  predicate Moves(r: Trace, i: nat)
    requires |r.states| == |r.events| + 1 && i < |r.events|
  {
    r.states[i + 1] == Step(r.states[i], r.events[i])
  }

  /** A run that starts without any record. */
  predicate IsRun(r: Trace) {
    && |r.states| == |r.events| + 1 && r.states[0] == State(map[], None)
    && forall i: nat | i < |r.events| :: Moves(r, i)
  }

  predicate DeliveredAt(r: Trace, i: nat, key: string)
    requires |r.states| == |r.events| + 1
  {
    i < |r.events| && Delivers(r.states[i], r.events[i]) && KeyOf(r.events[i].action) == key
  }

  function Get(m: Record, key: string): Option<int> { if key in m then Some(m[key]) else None }

  /** A process armed at step m that does not know what the one before it knew about the key. */
  predicate Forgets(r: Trace, m: nat, key: string)
    requires |r.states| == |r.events| + 1
  {
    && m < |r.events| && r.events[m].Rearm?
    && Get(Loaded(r.states[m], r.events[m].readable), key) != Get(r.states[m].seen, key)
  }

  /** The last delivery before step j, as far as the processes since then know. */
  lemma {:induction false} LastDelivery(r: Trace, i: nat, j: nat, key: string)
    requires IsRun(r) && i < j <= |r.events| && DeliveredAt(r, i, key)
    requires forall m | i < m < j :: !DeliveredAt(r, m, key) && !Forgets(r, m, key)
    ensures Get(r.states[j].seen, key) == Some(Unix(r.events[i].done))
    decreases j
  {
    assert Moves(r, j - 1);
    if i < j - 1 {
      LastDelivery(r, i, j - 1, key);
      assert !DeliveredAt(r, j - 1, key) && !Forgets(r, j - 1, key);
    }
  }

  /** A key whose last delivery no process since has forgotten is delivered again only for an event
      that repeats, and then more than its interval less one second after that delivery: the
      record keeps whole seconds. */
  lemma DeliveredAgainOnlyWhenDue(r: Trace, i: nat, j: nat, key: string)
    requires IsRun(r) && i < j && DeliveredAt(r, i, key) && DeliveredAt(r, j, key)
    requires forall m | i < m < j :: !DeliveredAt(r, m, key) && !Forgets(r, m, key)
    ensures r.events[j].action.eventName in {"monitor.liveness", "watch.snapshot.failing"}
    ensures r.events[j].asked - r.events[i].done > 30 * MINUTE - SECOND
  {
    LastDelivery(r, i, j, key);
  }

  predicate SavesFrom(r: Trace, i: nat, j: nat, key: string)
    requires |r.states| == |r.events| + 1
  {
    forall m | i <= m < j && m < |r.events| ::
      && (DeliveredAt(r, m, key) ==> r.events[m].saveOk)
      && (r.events[m].Rearm? ==> r.events[m].readable)
  }

  /** While the deliveries of a key are saved and the record can be read, no process forgets it. */
  lemma {:induction false} SavedIsKnown(r: Trace, j: nat, key: string)
    requires IsRun(r) && j <= |r.events| && SavesFrom(r, 0, j, key)
    ensures Get(r.states[j].seen, key) == Get(Loaded(r.states[j], true), key)
    decreases j
  {
    if j > 0 {
      SavedIsKnown(r, j - 1, key);
      assert Moves(r, j - 1);
      assert r.events[j - 1].Rearm? ==> r.events[j - 1].readable;
      assert DeliveredAt(r, j - 1, key) ==> r.events[j - 1].saveOk;
    }
  }

  /** Across any number of processes that share a record that can be read and to which every
      delivery of the key was saved, a key is delivered once, unless its event repeats; and then
      two deliveries are more than the interval less one second apart. */
  lemma DeliveredOnce(r: Trace, i: nat, j: nat, key: string)
    requires IsRun(r) && i < j && DeliveredAt(r, i, key) && DeliveredAt(r, j, key)
    requires forall m | i < m < j :: !DeliveredAt(r, m, key)
    requires SavesFrom(r, 0, j, key)
    ensures r.events[j].action.eventName in {"monitor.liveness", "watch.snapshot.failing"}
    ensures r.events[j].asked - r.events[i].done > 30 * MINUTE - SECOND
  {
    forall m | i < m < j ensures !Forgets(r, m, key) {
      SavedIsKnown(r, m, key);
    }
    DeliveredAgainOnlyWhenDue(r, i, j, key);
  }

  lemma {:induction false} RecordedWasDelivered(r: Trace, j: nat, key: string, at: int, saved: bool) returns (i: nat)
    requires IsRun(r) && j <= |r.events|
    requires Get(if saved then Loaded(r.states[j], true) else r.states[j].seen, key) == Some(at)
    ensures i < j && DeliveredAt(r, i, key) && at == Unix(r.events[i].done)
    decreases j
  {
    assert j > 0;
    assert Moves(r, j - 1);
    var e := r.events[j - 1];
    var writes := Delivers(r.states[j - 1], e) && e.saveOk;
    if DeliveredAt(r, j - 1, key) && (saved ==> e.saveOk) {
      i := j - 1;
    } else {
      i := RecordedWasDelivered(r, j - 1, key, at, e.Rearm? || (saved && !writes));
    }
  }

  /** An action is skipped only when one with its key was delivered before, and, if its event
      repeats, less than its interval after the second in which that was. */
  lemma SkippedOnlyIfDelivered(r: Trace, j: nat) returns (i: nat)
    requires IsRun(r) && j < |r.events| && r.events[j].Offer?
    requires Skipped(r.states[j].seen, r.events[j].action, r.events[j].asked)
    ensures i < j && DeliveredAt(r, i, KeyOf(r.events[j].action))
    ensures r.events[j].action.eventName in {"monitor.liveness", "watch.snapshot.failing"} ==>
      r.events[j].asked - r.events[i].done / SECOND * SECOND < 30 * MINUTE
  {
    var key := KeyOf(r.events[j].action);
    i := RecordedWasDelivered(r, j, key, r.states[j].seen[key], false);
  }

  /** An action of a generation that was never delivered under its delivery key is delivered, whatever
      was delivered of the other generations. */
  lemma NewGenerationIsDelivered(r: Trace, j: nat)
    requires IsRun(r) && j < |r.events| && r.events[j].Offer? && !r.events[j].action.controlOnly && r.events[j].nextOk
    requires forall i | 0 <= i <= j && r.events[i].Offer? :: '\0' !in r.events[i].action.deliveryKey
    requires forall i | 0 <= i < j && r.events[i].Offer? && DeliveredAt(r, i, KeyOf(r.events[i].action)) ::
      r.events[i].action.deliveryKey != r.events[j].action.deliveryKey
      || r.events[i].action.generation != r.events[j].action.generation
    ensures DeliveredAt(r, j, KeyOf(r.events[j].action))
    ensures Get(r.states[j + 1].seen, r.events[j].action.deliveryKey + "\0" + r.events[j].action.generation)
      == Some(r.events[j].done / SECOND)
  {
    assert Moves(r, j);
    if Skipped(r.states[j].seen, r.events[j].action, r.events[j].asked) {
      var i := SkippedOnlyIfDelivered(r, j);
      KeyInjective(r.events[i].action, r.events[j].action);
    }
  }

  /** A delivery that fails is not recorded, and neither is an action that only controls: nothing
      changes, so that the next one with the key is delivered as if it had not been asked. */
  lemma OnlyDeliveriesAreRecorded(r: Trace, i: nat)
    requires IsRun(r) && i < |r.events| && r.events[i].Offer?
    ensures r.events[i].action.controlOnly || !r.events[i].nextOk ==>
      r.states[i + 1] == r.states[i] && !DeliveredAt(r, i, KeyOf(r.events[i].action))
    ensures forall key | key in r.states[i + 1].seen && Get(r.states[i].seen, key) != Get(r.states[i + 1].seen, key) ::
      key == r.events[i].action.deliveryKey + "\0" + r.events[i].action.generation && r.events[i].nextOk
  {
    assert Moves(r, i);
  }

  /** The bound is the best there is: a repeating event can come back one second, less a
      nanosecond, before its interval is over. */
  lemma ShortestRepeat(a: Action) returns (r: Trace)
    requires !a.controlOnly && a.eventName in {"monitor.liveness", "watch.snapshot.failing"}
    ensures IsRun(r) && |r.events| == 2 && DeliveredAt(r, 0, KeyOf(a)) && DeliveredAt(r, 1, KeyOf(a))
    ensures r.events[1].action == a
    ensures r.events[1].asked - r.events[0].done == 30 * MINUTE - SECOND + 1
  {
    var interval := RepeatInterval(a.eventName).value;
    var first, second := Offer(a, SECOND - 1, SECOND - 1, true, true), Offer(a, interval, interval, true, true);
    var start := State(map[], None);
    r := Trace([start, Step(start, first), Step(Step(start, first), second)], [first, second]);
    assert Unix(SECOND - 1) == 0;
    assert Moves(r, 0) && Moves(r, 1);
  }

  // ---------------------------------------------------------------- saves that fail

  /** A delivery after which the whole record was saved. */
  predicate Saves(r: Trace, i: nat)
    requires |r.states| == |r.events| + 1
  {
    i < |r.events| && Delivers(r.states[i], r.events[i]) && r.events[i].saveOk
  }

  /** The last save before step n was made by a process that knew the key. */
  predicate SavedWith(r: Trace, n: nat, key: string)
    requires |r.states| == |r.events| + 1
  {
    exists s | 0 <= s < n :: Saves(r, s) && (forall k | s < k < n :: !Saves(r, k)) && key in r.states[s + 1].seen
  }

  predicate OnDisk(s: State, key: string) { s.saved.Some? && key in s.saved.value }

  lemma {:induction false} DiskIsLastSave(r: Trace, n: nat, key: string)
    requires IsRun(r) && n <= |r.events|
    ensures OnDisk(r.states[n], key) <==> SavedWith(r, n, key)
    decreases n
  {
    if n > 0 {
      DiskIsLastSave(r, n - 1, key);
      assert Moves(r, n - 1);
      if !Saves(r, n - 1) && SavedWith(r, n - 1, key) {
        var s :| 0 <= s < n - 1 && Saves(r, s) && (forall k | s < k < n - 1 :: !Saves(r, k)) && key in r.states[s + 1].seen;
        assert forall k | s < k < n :: !Saves(r, k);
      }
    }
  }

  /** Step m arms the process that watches at step n. */
  predicate LastRearm(r: Trace, m: nat, n: nat) {
    m < n <= |r.events| && r.events[m].Rearm? && forall k | m < k < n :: !r.events[k].Rearm?
  }

  lemma {:induction false} KnownSince(r: Trace, m: nat, n: nat, key: string)
    requires IsRun(r) && m < n <= |r.events|
    requires forall k | m < k < n :: !r.events[k].Rearm? && !DeliveredAt(r, k, key)
    ensures key in r.states[n].seen <==> key in r.states[m + 1].seen
    decreases n
  {
    if m + 1 < n {
      KnownSince(r, m, n - 1, key);
      assert Moves(r, n - 1);
      assert !r.events[n - 1].Rearm? && !DeliveredAt(r, n - 1, key);
    }
  }

  lemma {:induction false} FindLastRearm(r: Trace, i: nat, n: nat) returns (m: nat)
    requires i < n <= |r.events|
    ensures m == i ==> forall k | i < k < n :: !r.events[k].Rearm?
    ensures m != i ==> i < m && LastRearm(r, m, n)
    decreases n
  {
    if n == i + 1 {
      m := i;
    } else if r.events[n - 1].Rearm? {
      m := n - 1;
    } else {
      m := FindLastRearm(r, i, n - 1);
    }
  }

  predicate ArmedWithout(r: Trace, i: nat, m: nat, j: nat, key: string)
    requires |r.states| == |r.events| + 1
  {
    i < m && LastRearm(r, m, j) && !(r.events[m].readable && SavedWith(r, m, key))
  }

  /** An action that does not repeat and was delivered before is delivered again if and only if the
      process that is asked was armed since, with a record that could not be read or that was last
      saved by a process that did not know the key. */
  lemma DeliveredAgainIff(r: Trace, i: nat, j: nat, key: string)
    requires IsRun(r) && i < j < |r.events| && DeliveredAt(r, i, key)
    requires forall m | i < m < j :: !DeliveredAt(r, m, key)
    requires var e := r.events[j];
      e.Offer? && KeyOf(e.action) == key && !e.action.controlOnly && e.nextOk
      && e.action.eventName !in {"monitor.liveness", "watch.snapshot.failing"}
    ensures DeliveredAt(r, j, key) <==> exists m :: ArmedWithout(r, i, m, j, key)
  {
    var m := FindLastRearm(r, i, j);
    assert Moves(r, m);
    KnownSince(r, m, j, key);
    if m != i {
      DiskIsLastSave(r, m, key);
      assert DeliveredAt(r, j, key) <==> ArmedWithout(r, i, m, j, key);
    }
  }

  lemma {:induction false} DiskSinceFirst(r: Trace, i: nat, n: nat, key: string)
    requires IsRun(r) && i < n <= |r.events| && DeliveredAt(r, i, key)
    requires forall k | 0 <= k < i :: !DeliveredAt(r, k, key)
    requires forall k | i < k < n :: !r.events[k].Rearm?
    ensures key in r.states[n].seen
    ensures OnDisk(r.states[n], key) <==> exists s | i <= s < n :: Saves(r, s)
    decreases n
  {
    assert Moves(r, n - 1);
    if n == i + 1 {
      if OnDisk(r.states[i], key) {
        var k := RecordedWasDelivered(r, i, key, r.states[i].saved.value[key], true);
      }
      assert Saves(r, i) <==> r.events[i].saveOk;
    } else {
      DiskSinceFirst(r, i, n - 1, key);
      assert !r.events[n - 1].Rearm?;
      assert OnDisk(r.states[n], key) <==> OnDisk(r.states[n - 1], key) || Saves(r, n - 1);
    }
  }

  /** The first process armed after the first delivery of a key does not know it if and only if it
      could not read the record, or no delivery of any action since then was saved. */
  lemma FirstRearmForgetsIff(r: Trace, i: nat, m: nat, key: string)
    requires IsRun(r) && i < m < |r.events| && DeliveredAt(r, i, key) && r.events[m].Rearm?
    requires forall k | 0 <= k < i :: !DeliveredAt(r, k, key)
    requires forall k | i < k < m :: !r.events[k].Rearm?
    ensures key !in Loaded(r.states[m], r.events[m].readable)
      <==> !r.events[m].readable || forall s | i <= s < m :: !Saves(r, s)
  {
    DiskSinceFirst(r, i, m, key);
  }

  /** A delivery whose save failed, with nothing saved after it, is made again by the next process. */
  lemma FailedSaveDeliversTwice(a: Action, now: int) returns (r: Trace)
    requires !a.controlOnly
    ensures IsRun(r) && |r.events| == 3 && r.events[0].Offer? && !r.events[0].saveOk
    ensures DeliveredAt(r, 0, KeyOf(a)) && DeliveredAt(r, 2, KeyOf(a))
  {
    var first, again := Offer(a, now, now, true, false), Rearm(true);
    var s0 := State(map[], None);
    var s1 := Step(s0, first);
    var s2 := Step(s1, again);
    r := Trace([s0, s1, s2, Step(s2, first)], [first, again, first]);
    assert Moves(r, 0) && Moves(r, 1) && Moves(r, 2);
  }

  /** But if another action is delivered and saved before the next process is armed, it is not. */
  lemma LaterSaveHeals(a: Action, b: Action, now: int) returns (r: Trace)
    requires !a.controlOnly && !b.controlOnly && KeyOf(a) != KeyOf(b)
    requires a.eventName !in {"monitor.liveness", "watch.snapshot.failing"}
    ensures IsRun(r) && |r.events| == 4 && r.events[0].Offer? && !r.events[0].saveOk
    ensures DeliveredAt(r, 0, KeyOf(a)) && r.events[3] == r.events[0] && !DeliveredAt(r, 3, KeyOf(a))
  {
    var first, other, again := Offer(a, now, now, true, false), Offer(b, now, now, true, true), Rearm(true);
    var s0 := State(map[], None);
    var s1 := Step(s0, first);
    var s2 := Step(s1, other);
    var s3 := Step(s2, again);
    r := Trace([s0, s1, s2, s3, Step(s3, first)], [first, other, again, first]);
    assert Moves(r, 0) && Moves(r, 1) && Moves(r, 2) && Moves(r, 3);
  }
}
