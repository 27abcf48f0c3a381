/** codexMonitorAcknowledgements: which watch actions the bridge suppresses, as used-up tokens. */
module Acks {
  import opened Wrappers
  import opened Durations
  import opened Text

  /** codexMonitorAckLifetime, in nanoseconds. */
  const LIFETIME: int := 5 * MINUTE

  datatype Key = Key(actionClass: string, handoffID: string, targetID: int)
  datatype Pair = Pair(goalID: int, handoffID: string)

  const ACTION_CLASSES: set<string> := {
    "task.handoff.request", "task.handoff.receive", "task.handoff.complete",
    "task.handoff.review.request", "task.handoff.review.receive", "task.handoff.review.reject",
    "handoff_reported.task",
    "goal.handoff.request", "goal.handoff.receive", "goal.handoff.complete",
    "goal.handoff.review.request", "goal.handoff.review.receive", "goal.handoff.review.reject",
    "handoff_reported.goal",
    "plan.handoff.review.request", "plan.handoff.review.receive", "plan.handoff.review.reject"}

  predicate ValidKey(key: Key) {
    key.targetID > 0 && !Blank(key.handoffID) && key.actionClass in ACTION_CLASSES
  }

  predicate ValidPair(p: Pair) { p.goalID > 0 && !Blank(p.handoffID) }

  function RequestKey(p: Pair): Key { Key("goal.handoff.request", p.handoffID, p.goalID) }
  function ReceiveKey(p: Pair): Key { Key("goal.handoff.receive", p.handoffID, p.goalID) }
  function PairOf(key: Key): Pair { Pair(key.targetID, key.handoffID) }

  datatype Ledger = Ledger(acknowledged: set<Key>, candidates: map<Pair, int>, armed: map<Key, int>)

  /** The entries that expire after now. */
  function Unexpired<K>(m: map<K, int>, now: int): map<K, int> {
    map k | k in m && now < m[k] :: m[k]
  }

  function Pruned(l: Ledger, now: int): Ledger {
    l.(candidates := Unexpired(l.candidates, now), armed := Unexpired(l.armed, now))
  }

  /** One call, at the time the store's clock shows. trusted says whether the capability matched. */
  datatype Call =
    | Acknowledge(now: int, trusted: bool, key: Key)
    | Launch(now: int, trusted: bool, pair: Pair)
    | Consume(now: int, key: Key)

  function Acknowledged(l: Ledger, now: int, key: Key): Ledger {
    var p := Pruned(l, now);
    p.(acknowledged := p.acknowledged + {key},
       candidates := if key.actionClass == "goal.handoff.request"
                     then p.candidates[PairOf(key) := now + LIFETIME] else p.candidates)
  }

  function Launched(l: Ledger, now: int, pair: Pair): Ledger {
    var p := Pruned(l, now);
    if pair in p.candidates then
      p.(candidates := p.candidates - {pair}, armed := p.armed[ReceiveKey(pair) := now + LIFETIME])
    else p
  }

  function Consumed(l: Ledger, now: int, key: Key): Ledger {
    var p := Pruned(l, now);
    if key in p.acknowledged then p.(acknowledged := p.acknowledged - {key})
    else p.(armed := p.armed - {key})
  }

  predicate Effective(c: Call) {
    match c
    case Acknowledge(_, trusted, key) => trusted && ValidKey(key)
    case Launch(_, trusted, pair) => trusted && ValidPair(pair)
    case Consume(_, key) => ValidKey(key)
  }

  function Step(l: Ledger, c: Call): Ledger {
    if !Effective(c) then l else
    match c
    case Acknowledge(now, _, key) => Acknowledged(l, now, key)
    case Launch(now, _, pair) => Launched(l, now, pair)
    case Consume(now, key) => Consumed(l, now, key)
  }

  /** What the call returns: acknowledged, armed, or suppressed. */
  predicate Succeeds(l: Ledger, c: Call) {
    Effective(c) &&
    match c
    case Acknowledge(_, _, _) => true
    case Launch(now, _, pair) => pair in Pruned(l, now).candidates
    case Consume(now, key) => key in l.acknowledged || key in Pruned(l, now).armed
  }

  class Acknowledgements {
    const capability: string
    var acknowledged: set<Key>
    var candidates: map<Pair, int>
    var armed: map<Key, int>

    function State(): Ledger
      reads this
    {
      Ledger(acknowledged, candidates, armed)
    }

    constructor (capability: string)
      ensures State() == Ledger({}, map[], map[]) && this.capability == capability
    {
      this.capability := capability;
      acknowledged, candidates, armed := {}, map[], map[];
    }

    /** pruneLocked: one pass over each map, in whatever order it is ranged. */
    method PruneLocked(now: int)
      modifies this
      ensures State() == Pruned(old(State()), now)
    {
      candidates := WithoutExpired(candidates, now);
      armed := WithoutExpired(armed, now);
    }

    static method WithoutExpired<K(==)>(m: map<K, int>, now: int) returns (kept: map<K, int>)
      ensures kept == Unexpired(m, now)
    {
      kept := m;
      var rest := m.Keys;
      while rest != {}
        invariant rest <= m.Keys
        invariant kept == map k | k in m && (k in rest || now < m[k]) :: m[k]
        decreases rest
      {
        var k := Any(rest);
        rest := rest - {k};
        if !(now < m[k]) {
          kept := kept - {k};
        }
      }
    }

    method Acknowledge(now: int, given: string, key: Key) returns (ok: bool)
      modifies this
      ensures var c := Call.Acknowledge(now, given == capability, key);
        State() == Step(old(State()), c) && ok == Succeeds(old(State()), c)
      ensures ok <==> given == capability && key.targetID > 0 && !Blank(key.handoffID) && key.actionClass in ACTION_CLASSES
      ensures !ok ==> State() == old(State())
    {
      if given != capability || !ValidKey(key) {
        return false;
      }
      PruneLocked(now);
      acknowledged := acknowledged + {key};
      if key.actionClass == "goal.handoff.request" {
        candidates := candidates[Pair(key.targetID, key.handoffID) := now + LIFETIME];
      }
      return true;
    }

    method Consume(now: int, key: Key) returns (suppressed: bool)
      modifies this
      ensures var c := Call.Consume(now, key);
        State() == Step(old(State()), c) && suppressed == Succeeds(old(State()), c)
      ensures var valid := key.targetID > 0 && !Blank(key.handoffID) && key.actionClass in ACTION_CLASSES;
        && (suppressed <==>
              valid && (key in old(acknowledged) || (key in old(armed) && now < old(armed)[key])))
        && (!valid ==> State() == old(State()))
    {
      if !ValidKey(key) {
        return false;
      }
      PruneLocked(now);
      if key in acknowledged {
        acknowledged := acknowledged - {key};
        return true;
      }
      suppressed := key in armed;
      armed := armed - {key};
    }

    method SubcommanderLaunched(now: int, given: string, goalID: int, handoffID: string) returns (ok: bool)
      modifies this
      ensures var c := Call.Launch(now, given == capability, Pair(goalID, handoffID));
        State() == Step(old(State()), c) && ok == Succeeds(old(State()), c)
      ensures var valid, pair := given == capability && goalID > 0 && !Blank(handoffID), Pair(goalID, handoffID);
        && (ok <==> valid && pair in old(candidates) && now < old(candidates)[pair])
        && (!valid ==> State() == old(State()))
    {
      if given != capability || goalID <= 0 || Blank(handoffID) {
        return false;
      }
      PruneLocked(now);
      var pair := Pair(goalID, handoffID);
      if pair !in candidates {
        return false;
      }
      candidates := candidates - {pair};
      armed := armed[Key("goal.handoff.receive", handoffID, goalID) := now + LIFETIME];
      return true;
    }
  }

  // ---------------------------------------------------------------- runs

  /** The calls of one run, and the store before each and after the last. */
  datatype Run = Run(calls: seq<Call>, ledgers: seq<Ledger>)

  predicate Moves(r: Run, i: nat)
    requires i < |r.calls| && |r.ledgers| == |r.calls| + 1
  {
    r.ledgers[i + 1] == Step(r.ledgers[i], r.calls[i])
  }

  /** A run from an empty store under a clock that never goes back. */
  predicate IsRun(r: Run) {
    && |r.ledgers| == |r.calls| + 1 && r.ledgers[0] == Ledger({}, map[], map[])
    && (forall i | 0 <= i < |r.calls| :: Moves(r, i))
    && (forall i, j | 0 <= i <= j < |r.calls| :: r.calls[i].now <= r.calls[j].now)
  }

  predicate Acks(c: Call, key: Key) { c.Acknowledge? && Effective(c) && c.key == key }
  predicate Asks(c: Call, key: Key) { c.Consume? && Effective(c) && c.key == key }
  predicate Launches(c: Call, p: Pair) { c.Launch? && Effective(c) && c.pair == p }

  /** Some acknowledgement of key before n has not been asked for since. */
  predicate AckWaits(h: seq<Call>, n: nat, key: Key)
    requires n <= |h|
  {
    exists i :: 0 <= i < n && Acks(h[i], key) && forall m | i < m < n :: !Asks(h[m], key)
  }

  /** The goal's request was acknowledged less than five minutes ago, with no launch since. */
  predicate RequestWaits(h: seq<Call>, n: nat, p: Pair, now: int)
    requires n <= |h|
  {
    exists i :: 0 <= i < n && Acks(h[i], RequestKey(p)) && now < h[i].now + LIFETIME
      && forall m | i < m < n :: !Launches(h[m], p)
  }

  /** Call i launches p's subcommander while the acknowledged request still waits. */
  predicate Arms(h: seq<Call>, i: nat, p: Pair)
    requires i < |h|
  {
    Launches(h[i], p) && RequestWaits(h, i, p, h[i].now)
  }

  /** Such a launch happened less than five minutes ago, and since then the receipt was asked
      for only while an acknowledgement of its own was waiting. */
  predicate LaunchWaits(h: seq<Call>, n: nat, p: Pair, now: int)
    requires n <= |h|
  {
    exists i :: 0 <= i < n && Arms(h, i, p) && now < h[i].now + LIFETIME && Unclaimed(h, i, n, ReceiveKey(p))
  }

  /** Every question for key strictly between i and n found an acknowledgement waiting. */
  predicate Unclaimed(h: seq<Call>, i: nat, n: nat, key: Key)
    requires n <= |h|
  {
    forall m | i < m < n && Asks(h[m], key) :: AckWaits(h, m, key)
  }

  lemma AckWaitsNext(h: seq<Call>, n: nat, key: Key)
    requires n < |h|
    ensures AckWaits(h, n + 1, key) <==> Acks(h[n], key) || (AckWaits(h, n, key) && !Asks(h[n], key))
  {
    if AckWaits(h, n, key) && !Asks(h[n], key) {
      var i :| 0 <= i < n && Acks(h[i], key) && forall m | i < m < n :: !Asks(h[m], key);
      assert forall m | i < m < n + 1 :: !Asks(h[m], key);
    }
  }

  lemma RequestWaitsNext(h: seq<Call>, n: nat, p: Pair, now: int)
    requires n < |h|
    ensures RequestWaits(h, n + 1, p, now) <==>
      (Acks(h[n], RequestKey(p)) && now < h[n].now + LIFETIME) || (RequestWaits(h, n, p, now) && !Launches(h[n], p))
  {
    if RequestWaits(h, n, p, now) && !Launches(h[n], p) {
      var i :| 0 <= i < n && Acks(h[i], RequestKey(p)) && now < h[i].now + LIFETIME
        && forall m | i < m < n :: !Launches(h[m], p);
      assert forall m | i < m < n + 1 :: !Launches(h[m], p);
    }
  }

  lemma LaunchWaitsNext(h: seq<Call>, n: nat, p: Pair, now: int)
    requires n < |h|
    ensures LaunchWaits(h, n + 1, p, now) <==>
      (Arms(h, n, p) && now < h[n].now + LIFETIME)
      || (LaunchWaits(h, n, p, now) && (Asks(h[n], ReceiveKey(p)) ==> AckWaits(h, n, ReceiveKey(p))))
  {
    var key := ReceiveKey(p);
    forall i | 0 <= i < n
      ensures Unclaimed(h, i, n + 1, key) <==> Unclaimed(h, i, n, key) && (Asks(h[n], key) ==> AckWaits(h, n, key))
    {
    }
    assert Unclaimed(h, n, n + 1, key);
  }

  /** The last call, if any, was not after now. */
  predicate NotBefore(h: seq<Call>, n: nat, now: int)
    requires n <= |h|
  {
    n > 0 ==> h[n - 1].now <= now
  }

  predicate Unspent<K>(m: map<K, int>, k: K, now: int) { k in m && now < m[k] }

  lemma {:induction false} AcknowledgedIffWaits(r: Run, n: nat, key: Key)
    requires IsRun(r) && n <= |r.calls|
    ensures key in r.ledgers[n].acknowledged <==> AckWaits(r.calls, n, key)
  {
    if n > 0 {
      AcknowledgedIffWaits(r, n - 1, key);
      AckWaitsNext(r.calls, n - 1, key);
      assert Moves(r, n - 1);
    }
  }

  lemma CandidateStep(l: Ledger, c: Call, p: Pair, now: int)
    requires c.now <= now
    ensures Unspent(Step(l, c).candidates, p, now) <==>
      (Acks(c, RequestKey(p)) && now < c.now + LIFETIME) ||
      (Unspent(l.candidates, p, now) && !Launches(c, p) && !Acks(c, RequestKey(p)))
  {
  }

  /** Under a clock that never goes back, pruning is invisible: a candidate that is unexpired at
      now is an acknowledged request that still waits. */
  lemma {:induction false} CandidateIffWaits(r: Run, n: nat, p: Pair, now: int)
    requires IsRun(r) && n <= |r.calls| && NotBefore(r.calls, n, now)
    ensures Unspent(r.ledgers[n].candidates, p, now) <==> RequestWaits(r.calls, n, p, now)
  {
    if n > 0 {
      CandidateIffWaits(r, n - 1, p, now);
      RequestWaitsNext(r.calls, n - 1, p, now);
      assert Moves(r, n - 1);
      CandidateStep(r.ledgers[n - 1], r.calls[n - 1], p, now);
      if Acks(r.calls[n - 1], RequestKey(p)) && RequestWaits(r.calls, n - 1, p, now) {
        var i :| 0 <= i < n - 1 && Acks(r.calls[i], RequestKey(p)) && now < r.calls[i].now + LIFETIME;
        assert r.calls[i].now <= r.calls[n - 1].now;
      }
    }
  }

  lemma ArmedStep(l: Ledger, c: Call, p: Pair, now: int)
    requires c.now <= now
    ensures Unspent(Step(l, c).armed, ReceiveKey(p), now) <==>
      (Launches(c, p) && Unspent(l.candidates, p, c.now) && now < c.now + LIFETIME) ||
      (Unspent(l.armed, ReceiveKey(p), now)
       && !(Launches(c, p) && Unspent(l.candidates, p, c.now))
       && (Asks(c, ReceiveKey(p)) ==> ReceiveKey(p) in l.acknowledged))
  {
    assert forall q: Pair :: ReceiveKey(q) == ReceiveKey(p) ==> q == p;
  }

  /** An armed receipt that is unexpired at now is a launch that still waits. */
  lemma {:induction false} ArmedIffWaits(r: Run, n: nat, p: Pair, now: int)
    requires IsRun(r) && n <= |r.calls| && NotBefore(r.calls, n, now)
    ensures Unspent(r.ledgers[n].armed, ReceiveKey(p), now) <==> LaunchWaits(r.calls, n, p, now)
  {
    if n > 0 {
      var c := r.calls[n - 1];
      ArmedIffWaits(r, n - 1, p, now);
      CandidateIffWaits(r, n - 1, p, c.now);
      AcknowledgedIffWaits(r, n - 1, ReceiveKey(p));
      LaunchWaitsNext(r.calls, n - 1, p, now);
      assert Moves(r, n - 1);
      ArmedStep(r.ledgers[n - 1], c, p, now);
      if Arms(r.calls, n - 1, p) && LaunchWaits(r.calls, n - 1, p, now) {
        var i :| 0 <= i < n - 1 && Arms(r.calls, i, p) && now < r.calls[i].now + LIFETIME;
        assert r.calls[i].now <= c.now;
      }
    }
  }

  lemma ArmedKeysAreReceipts(r: Run, n: nat, key: Key)
    requires IsRun(r) && n <= |r.calls| && key in r.ledgers[n].armed
    ensures key == ReceiveKey(PairOf(key))
  {
    if n > 0 {
      assert Moves(r, n - 1);
      if key in r.ledgers[n - 1].armed {
        ArmedKeysAreReceipts(r, n - 1, key);
      }
    }
  }

  /** A watch action is suppressed exactly when a token for it waits: an acknowledgement not yet
      asked for, or a fresh launch that itself used up a freshly acknowledged request. */
  lemma SuppressedIffTokenWaits(r: Run, n: nat)
    requires IsRun(r) && n < |r.calls| && r.calls[n].Consume? && Effective(r.calls[n])
    ensures var key, now := r.calls[n].key, r.calls[n].now;
      Succeeds(r.ledgers[n], r.calls[n]) <==>
      AckWaits(r.calls, n, key) ||
      (key == ReceiveKey(PairOf(key)) && LaunchWaits(r.calls, n, PairOf(key), now))
  {
    var key, now := r.calls[n].key, r.calls[n].now;
    AcknowledgedIffWaits(r, n, key);
    if key == ReceiveKey(PairOf(key)) {
      ArmedIffWaits(r, n, PairOf(key), now);
    } else if key in r.ledgers[n].armed {
      ArmedKeysAreReceipts(r, n, key);
    }
  }

  /** A watch action is suppressed by its own acknowledgement, whatever came between, unless it was
      asked for since. */
  lemma AcknowledgedIsSuppressed(r: Run, i: nat, n: nat)
    requires IsRun(r) && i < n < |r.calls| && r.calls[i].Acknowledge? && Effective(r.calls[i])
    requires r.calls[n].Consume? && r.calls[n].key == r.calls[i].key
    requires forall m | i < m < n :: !Asks(r.calls[m], r.calls[n].key)
    ensures Succeeds(r.ledgers[n], r.calls[n])
  {
    AcknowledgedIffWaits(r, n, r.calls[n].key);
    assert Acks(r.calls[i], r.calls[n].key);
  }

  /** A subcommander launched less than five minutes after the request of its goal was acknowledged
      is not asked to receive it: the first such action within five minutes is suppressed. And no
      launch suppresses an action of another class, goal or handoff. */
  lemma LaunchSuppressesReceive(r: Run, i: nat, j: nat, n: nat, goalID: int, handoffID: string)
    requires IsRun(r) && i < j < n < |r.calls|
    requires r.calls[i].Acknowledge? && Effective(r.calls[i]) && r.calls[i].key == Key("goal.handoff.request", handoffID, goalID)
    requires r.calls[j].Launch? && Effective(r.calls[j]) && r.calls[j].pair == Pair(goalID, handoffID)
    requires r.calls[n].Consume? && r.calls[n].key == Key("goal.handoff.receive", handoffID, goalID)
    requires forall m | i < m < j :: !Launches(r.calls[m], Pair(goalID, handoffID))
    requires forall m | j < m < n :: !Asks(r.calls[m], r.calls[n].key)
    requires r.calls[j].now < r.calls[i].now + 300_000_000_000 && r.calls[n].now < r.calls[j].now + 300_000_000_000
    ensures Succeeds(r.ledgers[n], r.calls[n])
  {
    var p := Pair(goalID, handoffID);
    assert Acks(r.calls[i], RequestKey(p));
    assert RequestWaits(r.calls, j, p, r.calls[j].now);
    assert Arms(r.calls, j, p) && Unclaimed(r.calls, j, n, ReceiveKey(p));
    assert LaunchWaits(r.calls, n, p, r.calls[n].now);
    SuppressedIffTokenWaits(r, n);
  }

  /** Only an action that tells a goal's receiver of its handoff is ever suppressed without an
      acknowledgement of its own, and only after both calls that lead to it, in their order. */
  lemma OnlyLaunchesSuppress(r: Run, n: nat) returns (i: nat, j: nat)
    requires IsRun(r) && n < |r.calls| && r.calls[n].Consume? && Succeeds(r.ledgers[n], r.calls[n])
    requires !AckWaits(r.calls, n, r.calls[n].key)
    ensures i < j < n && r.calls[n].key.actionClass == "goal.handoff.receive"
    ensures r.calls[i].Acknowledge? && r.calls[i].trusted
      && r.calls[i].key == r.calls[n].key.(actionClass := "goal.handoff.request")
    ensures r.calls[j].Launch? && r.calls[j].trusted
      && r.calls[j].pair == Pair(r.calls[n].key.targetID, r.calls[n].key.handoffID)
    ensures r.calls[j].now < r.calls[i].now + 300_000_000_000 && r.calls[n].now < r.calls[j].now + 300_000_000_000
  {
    var key, now := r.calls[n].key, r.calls[n].now;
    var p := PairOf(key);
    SuppressedIffTokenWaits(r, n);
    j :| j < n && Arms(r.calls, j, p) && now < r.calls[j].now + LIFETIME;
    i :| i < j && Acks(r.calls[i], RequestKey(p)) && r.calls[j].now < r.calls[i].now + LIFETIME;
  }

  // ---------------------------------------------------------------- counting

  function Bit(b: bool): nat { if b then 1 else 0 }

  /** How many of the first n calls acknowledge key, launch its goal, and are suppressed for it. */
  function Grants(r: Run, n: nat, key: Key): nat
    requires IsRun(r) && n <= |r.calls|
  {
    if n == 0 then 0 else Grants(r, n - 1, key) + Bit(Acks(r.calls[n - 1], key))
  }

  function Armings(r: Run, n: nat, p: Pair): nat
    requires IsRun(r) && n <= |r.calls|
  {
    if n == 0 then 0
    else Armings(r, n - 1, p) + Bit(Launches(r.calls[n - 1], p) && Succeeds(r.ledgers[n - 1], r.calls[n - 1]))
  }

  function Suppressions(r: Run, n: nat, key: Key): nat
    requires IsRun(r) && n <= |r.calls|
  {
    if n == 0 then 0
    else Suppressions(r, n - 1, key) + Bit(Asks(r.calls[n - 1], key) && Succeeds(r.ledgers[n - 1], r.calls[n - 1]))
  }

  lemma CountStep(l: Ledger, c: Call, p: Pair, key: Key)
    requires PairOf(key) == p
    requires key in l.armed || key in Step(l, c).armed ==> key == ReceiveKey(p)
    ensures Bit(Asks(c, key) && Succeeds(l, c)) + Bit(key in Step(l, c).acknowledged) + Bit(key in Step(l, c).armed)
      <= Bit(Acks(c, key)) + Bit(Launches(c, p) && Succeeds(l, c)) + Bit(key in l.acknowledged) + Bit(key in l.armed)
    ensures Bit(Launches(c, p) && Succeeds(l, c)) + Bit(p in Step(l, c).candidates)
      <= Bit(Acks(c, RequestKey(p))) + Bit(p in l.candidates)
  {
    assert forall q: Pair :: ReceiveKey(q) == ReceiveKey(p) ==> q == p;
  }

  /** Suppressions of a key never exceed its acknowledgements plus its goal's armed launches, and
      armed launches never exceed the acknowledged requests. */
  lemma {:induction false} SuppressionsBounded(r: Run, n: nat, key: Key)
    requires IsRun(r) && n <= |r.calls|
    ensures var p := PairOf(key);
      && Suppressions(r, n, key) + Bit(key in r.ledgers[n].acknowledged) + Bit(key in r.ledgers[n].armed)
           <= Grants(r, n, key) + Armings(r, n, p)
      && Armings(r, n, p) + Bit(p in r.ledgers[n].candidates) <= Grants(r, n, RequestKey(p))
  {
    if n > 0 {
      SuppressionsBounded(r, n - 1, key);
      assert Moves(r, n - 1);
      if key in r.ledgers[n - 1].armed {
        ArmedKeysAreReceipts(r, n - 1, key);
      }
      if key in r.ledgers[n].armed {
        ArmedKeysAreReceipts(r, n, key);
      }
      CountStep(r.ledgers[n - 1], r.calls[n - 1], PairOf(key), key);
    }
  }
}
