/** Telling a session what is unapplied: the whole list when it changed, otherwise only its length. */
module Receipt {
  import opened Wrappers
  import opened Text
  import opened Numbers

  datatype Notice = Notice(decisionID: int64, question: string)

  const ZERO: char := '\0'
  const ONE: char := '\U{1}'

  /** unappliedSignature. */
  function Signature(list: seq<Notice>): string {
    if list == [] then ""
    else Decimal(list[0].decisionID) + [ZERO] + list[0].question + [ONE] + Signature(list[1..])
  }

  /** A question that reads, after its character at i, like the beginning of another notice. */
  predicate SplitsAt(q: string, i: nat, n: int64) {
    i < |q| && q[i] == ONE && Decimal(n) + [ZERO] <= q[i + 1..]
  }

  ghost predicate Ambiguous(list: seq<Notice>) {
    exists k: nat, i: nat, n: int64 | k < |list| :: SplitsAt(list[k].question, i, n)
  }

  lemma DecimalIsPlain(n: int)
    ensures ZERO !in Decimal(n) && ONE !in Decimal(n)
  {
  }

  /** A text that begins with d and a zero, cut at its first ONE, has both before the cut. */
  lemma HeadWithin(d: string, rest: string, a: string, b: string)
    requires ONE !in d && d + [ZERO] + rest == a + [ONE] + b
    ensures d + [ZERO] <= a
  {
    var s := a + [ONE] + b;
    assert s[|a|] == ONE && s[|d|] == ZERO;
    assert forall i | 0 <= i < |d| :: s[i] == d[i] != ONE;
    assert d + [ZERO] == s[..|d| + 1] == a[..|d| + 1];
  }

  /** Where the longer of two questions continues after the shorter, the rest of the shorter one's
      list continues alike. */
  lemma LongerQuestion(q: string, t: string, q': string, t': string)
    requires q + [ONE] + t == q' + [ONE] + t' && |q| < |q'|
    ensures q'[|q|] == ONE && t == q'[|q| + 1..] + [ONE] + t'
  {
    var s := q' + [ONE] + t';
    assert s[|q|] == ONE && s[|q|] == q'[|q|];
    assert t == s[|q| + 1..];
  }

  lemma LongerIsAmbiguous(q: string, tail: seq<Notice>, q': string, t': string)
    requires q + [ONE] + Signature(tail) == q' + [ONE] + t' && |q| < |q'|
    ensures tail != [] && SplitsAt(q', |q|, tail[0].decisionID)
  {
    LongerQuestion(q, Signature(tail), q', t');
    var d := Decimal(tail[0].decisionID);
    var rest := tail[0].question + [ONE] + Signature(tail[1..]);
    DecimalIsPlain(tail[0].decisionID);
    SignatureHead(tail, d, rest);
    HeadWithin(d, rest, q'[|q| + 1..], t');
  }

  /** Two lists without ambiguous questions have the same signature only if they are the same. */
  lemma {:induction false} SignatureInjective(a: seq<Notice>, b: seq<Notice>)
    requires !Ambiguous(a) && !Ambiguous(b) && Signature(a) == Signature(b)
    ensures a == b
  {
    if a == [] || b == [] {
      assert a == b == [];
    } else {
      var qa, qb := a[0].question, b[0].question;
      SameHead(a, b);
      assert qa + [ONE] + Signature(a[1..]) == qb + [ONE] + Signature(b[1..]);
      NotLonger(a, b);
      NotLonger(b, a);
      SameLength(qa, Signature(a[1..]), qb, Signature(b[1..]));
      TailIsClear(a);
      TailIsClear(b);
      SignatureInjective(a[1..], b[1..]);
      assert a == [a[0]] + a[1..] && b == [b[0]] + b[1..];
    }
  }

  lemma NotLonger(a: seq<Notice>, b: seq<Notice>)
    requires a != [] && b != [] && !Ambiguous(b)
    requires a[0].question + [ONE] + Signature(a[1..]) == b[0].question + [ONE] + Signature(b[1..])
    ensures |b[0].question| <= |a[0].question|
  {
    if |a[0].question| < |b[0].question| {
      LongerIsAmbiguous(a[0].question, a[1..], b[0].question, Signature(b[1..]));
    }
  }

  lemma SameLength(q: string, t: string, q': string, t': string)
    requires q + [ONE] + t == q' + [ONE] + t' && |q| == |q'|
    ensures q == q' && t == t'
  {
    var s, s' := q + [ONE] + t, q' + [ONE] + t';
    assert q == s[..|q|] && q' == s'[..|q|];
    assert t == s[|q| + 1..] && t' == s'[|q| + 1..];
  }

  lemma TailIsClear(list: seq<Notice>)
    requires list != [] && !Ambiguous(list)
    ensures !Ambiguous(list[1..])
  {
    forall k: nat, i: nat, n: int64 | k < |list[1..]| ensures !SplitsAt(list[1..][k].question, i, n) {
      assert list[1..][k] == list[k + 1];
    }
  }

  lemma SameHead(a: seq<Notice>, b: seq<Notice>)
    requires a != [] && b != [] && Signature(a) == Signature(b)
    ensures a[0].decisionID == b[0].decisionID
    ensures a[0].question + [ONE] + Signature(a[1..]) == b[0].question + [ONE] + Signature(b[1..])
  {
    var da, db := Decimal(a[0].decisionID), Decimal(b[0].decisionID);
    var ra, rb := a[0].question + [ONE] + Signature(a[1..]), b[0].question + [ONE] + Signature(b[1..]);
    SignatureHead(a, da, ra);
    SignatureHead(b, db, rb);
    SplitUnique(da, db, ra, rb, ZERO);
    DecimalInjective(a[0].decisionID, b[0].decisionID);
  }

  lemma SignatureHead(list: seq<Notice>, d: string, rest: string)
    requires list != [] && d == Decimal(list[0].decisionID)
    requires rest == list[0].question + [ONE] + Signature(list[1..])
    ensures Signature(list) == d + [ZERO] + rest && ZERO !in d
  {
    DecimalIsPlain(list[0].decisionID);
  }

  lemma {:induction false} SignatureInTurn(a: seq<Notice>, b: seq<Notice>)
    ensures Signature(a + b) == Signature(a) + Signature(b)
  {
    if a == [] {
      assert a + b == b;
    } else {
      assert (a + b)[1..] == a[1..] + b;
      SignatureInTurn(a[1..], b);
    }
  }

  /** Every list with an ambiguous question shares its signature with a longer list. */
  lemma {:induction false} AmbiguousCollides(list: seq<Notice>) returns (other: seq<Notice>)
    requires Ambiguous(list)
    ensures |other| == |list| + 1 && Signature(other) == Signature(list)
  {
    var k: nat, i: nat, n: int64 :| k < |list| && SplitsAt(list[k].question, i, n);
    var split := OneAsTwo(list[k], i, n);
    other := list[..k] + split + list[k + 1..];
    ReplacedOne(list, k, split);
  }

  lemma {:induction false} SignatureIsLonger(list: seq<Notice>)
    ensures |list| <= |Signature(list)|
  {
    if list != [] {
      SignatureIsLonger(list[1..]);
    }
  }

  lemma {:induction false} WithoutAmbiguity(list: seq<Notice>) returns (clear: seq<Notice>)
    ensures !Ambiguous(clear) && Signature(clear) == Signature(list)
    decreases |Signature(list)| - |list|
  {
    if Ambiguous(list) {
      var longer := AmbiguousCollides(list);
      SignatureIsLonger(longer);
      clear := WithoutAmbiguity(longer);
    } else {
      clear := list;
    }
  }

  /** Every signature is that of exactly one list without ambiguous questions. So the signature is
      injective on those lists, and on no larger set of lists: a list with an ambiguous question has
      the signature of one of them. */
  lemma OneClearListPerSignature(list: seq<Notice>) returns (clear: seq<Notice>)
    ensures !Ambiguous(clear) && Signature(clear) == Signature(list)
    ensures forall other | !Ambiguous(other) && Signature(other) == Signature(list) :: other == clear
    ensures Ambiguous(list) <==> clear != list
  {
    clear := WithoutAmbiguity(list);
    forall other | !Ambiguous(other) && Signature(other) == Signature(list) ensures other == clear {
      SignatureInjective(other, clear);
    }
  }

  lemma {:induction false} OneAsTwo(x: Notice, i: nat, n: int64) returns (split: seq<Notice>)
    requires SplitsAt(x.question, i, n)
    ensures |split| == 2 && Signature(split) == Signature([x])
  {
    var q, d := x.question, Decimal(n);
    SplitQuestion(q, i, d);
    var first, second := Notice(x.decisionID, q[..i]), Notice(n, q[i + 1 + |d| + 1..]);
    split := [first, second];
    SignatureOfOne(x);
    SignatureOfOne(first);
    SignatureOfOne(second);
    SignatureInTurn([first], [second]);
    assert [first] + [second] == split;
    Rejoined(Decimal(x.decisionID), first.question, d, second.question, q);
  }

  lemma Rejoined(a: string, p: string, d: string, r: string, q: string)
    requires q == p + [ONE] + d + [ZERO] + r
    ensures (a + [ZERO] + p + [ONE]) + (d + [ZERO] + r + [ONE]) == a + [ZERO] + q + [ONE]
  {
  }

  lemma ReplacedOne(list: seq<Notice>, k: nat, split: seq<Notice>)
    requires k < |list| && Signature(split) == Signature([list[k]])
    ensures Signature(list[..k] + split + list[k + 1..]) == Signature(list)
  {
    CutAt(list, k);
    Substituted(list[..k], split, [list[k]], list[k + 1..]);
  }

  lemma CutAt(list: seq<Notice>, k: nat)
    requires k < |list|
    ensures list[..k] + [list[k]] + list[k + 1..] == list
  {
  }

  lemma Substituted(a: seq<Notice>, b: seq<Notice>, b': seq<Notice>, c: seq<Notice>)
    requires Signature(b) == Signature(b')
    ensures Signature(a + b + c) == Signature(a + b' + c)
  {
    SignatureOfThree(a, b, c);
    SignatureOfThree(a, b', c);
  }

  lemma SignatureOfThree(a: seq<Notice>, b: seq<Notice>, c: seq<Notice>)
    ensures Signature(a + b + c) == Signature(a) + Signature(b) + Signature(c)
  {
    SignatureInTurn(a, b);
    SignatureInTurn(a + b, c);
  }

  lemma SignatureOfOne(n: Notice)
    ensures Signature([n]) == Decimal(n.decisionID) + [ZERO] + n.question + [ONE]
  {
    assert [n][1..] == [];
  }

  lemma SplitQuestion(q: string, i: nat, d: string)
    requires i < |q| && q[i] == ONE && d + [ZERO] <= q[i + 1..]
    ensures i + 1 + |d| + 1 <= |q|
    ensures q == q[..i] + [ONE] + d + [ZERO] + q[i + 1 + |d| + 1..]
  {
    var rest := q[i + 1..];
    assert rest == rest[..|d| + 1] + rest[|d| + 1..];
    assert rest[..|d| + 1] == d + [ZERO];
    assert q == q[..i] + [ONE] + rest;
  }

  // ---------------------------------------------------------------- the shim and its caller

  /** What a response says about unapplied decisions: the list, or only a count. */
  datatype Said = Said(listed: Option<seq<Notice>>, count: nat)

  /** A call: whether it asks for unapplied answers, whether it lists goals, and the daemon's list. */
  datatype Call = Call(asks: bool, listsGoals: bool, list: seq<Notice>)

  /** unappliedState: what the session was last told. */
  datatype State = State(seen: bool, sig: string)

  const START := State(false, "")

  function Told(s: State, c: Call): State { if c.asks then State(true, Signature(c.list)) else s }

  function Says(s: State, c: Call): Said {
    var changed := !s.seen || Signature(c.list) != s.sig;
    if !c.asks then Said(if c.list == [] then None else Some(c.list), 0)
    else if c.list != [] && (changed || c.listsGoals) then Said(Some(c.list), 0)
    else if c.list == [] && changed && s.seen then Said(Some([]), 0)
    else Said(None, |c.list|)
  }

  /** The list that the last asking call before the n-th was about. */
  function LastAsked(calls: seq<Call>, n: nat): (list: Option<seq<Notice>>)
    requires n <= |calls|
  {
    if n == 0 then None else if calls[n - 1].asks then Some(calls[n - 1].list) else LastAsked(calls, n - 1)
  }

  lemma {:induction false} RemembersLastAsked(calls: seq<Call>)
    ensures var last := LastAsked(calls, |calls|);
      StateAfter(calls) == if last.None? then START else State(true, Signature(last.value))
  {
    if calls != [] {
      var before := calls[..|calls| - 1];
      RemembersLastAsked(before);
      AskedBefore(calls, |calls| - 1);
    }
  }

  lemma {:induction false} AskedBefore(calls: seq<Call>, n: nat)
    requires n <= |calls|
    ensures LastAsked(calls[..n], n) == LastAsked(calls, n)
    decreases n
  {
    if n > 0 {
      assert calls[..n][..n - 1] == calls[..n - 1];
      AskedBefore(calls, n - 1);
      AskedBefore(calls[..n], n - 1);
    }
  }

  /** What a response says after any calls. A call that does not ask is told of every list that is not
      empty. One that asks is told the list when its signature differs from that of the list asked
      about last, when it lists goals, and when it is the first to ask, except for an empty list
      where there is no news; otherwise it is told the length. */
  lemma SaysIs(calls: seq<Call>, c: Call)
    ensures var last := LastAsked(calls, |calls|);
      Says(StateAfter(calls), c)
      == if !c.asks then Said(if c.list == [] then None else Some(c.list), 0)
         else if last.Some? && Signature(last.value) != Signature(c.list) then Said(Some(c.list), 0)
         else if c.list != [] && (last.None? || c.listsGoals) then Said(Some(c.list), 0)
         else Said(None, |c.list|)
  {
    RemembersLastAsked(calls);
  }

  class Client {
    var seen: bool
    var sig: string

    constructor ()
      ensures State(seen, sig) == START
    {
      seen, sig := false, "";
    }

    method ReconcileUnapplied(c: Call) returns (said: Said)
      modifies this
      ensures said == Says(old(State(seen, sig)), c) && State(seen, sig) == Told(old(State(seen, sig)), c)
    {
      if !c.asks {
        return Said(if |c.list| == 0 then None else Some(c.list), 0);
      }
      var signature := UnappliedSignature(c.list);
      var first := !seen;
      var changed := first || signature != sig;
      seen, sig := true, signature;
      if |c.list| > 0 && (changed || c.listsGoals) {
        return Said(Some(c.list), 0);
      }
      if |c.list| == 0 && changed && !first {
        return Said(Some([]), 0);
      }
      return Said(None, |c.list|);
    }
  }

  /** The loop over the list that writes the signature. */
  method UnappliedSignature(list: seq<Notice>) returns (b: string)
    ensures b == Signature(list)
  {
    b := "";
    for i := 0 to |list|
      invariant b == Signature(list[..i])
    {
      NextSignature(list, i);
      b := b + (Decimal(list[i].decisionID) + [ZERO] + list[i].question + [ONE]);
    }
    assert list[..|list|] == list;
  }

  lemma NextSignature(list: seq<Notice>, i: nat)
    requires i < |list|
    ensures Signature(list[..i + 1])
      == Signature(list[..i]) + (Decimal(list[i].decisionID) + [ZERO] + list[i].question + [ONE])
  {
    SignatureInTurn(list[..i], [list[i]]);
    SignatureOfOne(list[i]);
    assert list[..i + 1] == list[..i] + [list[i]];
  }

  /** A caller's view: replaced by a list, kept on a count. */
  function Folded(view: seq<Notice>, said: Said): seq<Notice> {
    if said.listed.Some? then said.listed.value else view
  }

  /** What the caller of the asking calls holds after some calls, and what the shim remembers. */
  function StateAfter(calls: seq<Call>): State {
    if calls == [] then START else Told(StateAfter(calls[..|calls| - 1]), calls[|calls| - 1])
  }

  function ViewAfter(calls: seq<Call>): seq<Notice> {
    if calls == [] then []
    else
      var before, last := calls[..|calls| - 1], calls[|calls| - 1];
      if last.asks then Folded(ViewAfter(before), Says(StateAfter(before), last)) else ViewAfter(before)
  }

  ghost predicate Clear(calls: seq<Call>) { forall i | 0 <= i < |calls| :: !Ambiguous(calls[i].list) }

  lemma {:induction false} ViewIsWhatWasTold(calls: seq<Call>)
    requires Clear(calls)
    ensures var s := StateAfter(calls);
      && (!s.seen ==> ViewAfter(calls) == [])
      && (s.seen ==> s.sig == Signature(ViewAfter(calls)) && !Ambiguous(ViewAfter(calls)))
  {
    if calls != [] {
      var before, last := calls[..|calls| - 1], calls[|calls| - 1];
      ViewIsWhatWasTold(before);
      if last.asks {
        ViewIsCurrent(before, last);
      }
    }
  }

  lemma ViewIsCurrent(before: seq<Call>, last: Call)
    requires last.asks && !Ambiguous(last.list)
    requires var s := StateAfter(before);
      && (!s.seen ==> ViewAfter(before) == [])
      && (s.seen ==> s.sig == Signature(ViewAfter(before)) && !Ambiguous(ViewAfter(before)))
    ensures var said := Says(StateAfter(before), last);
      Folded(ViewAfter(before), said) == last.list && (said.listed.None? ==> said.count == |last.list|)
  {
    var s := StateAfter(before);
    if s.seen && Signature(last.list) == s.sig {
      SignatureInjective(last.list, ViewAfter(before));
    }
  }

  /** While no question is ambiguous, a caller that starts with nothing, replaces its view by every
      list and keeps it on a count holds the current list after every call that asks for it, and
      the count it is given is the length of that list. */
  lemma CallerHoldsTheList(calls: seq<Call>)
    requires Clear(calls) && calls != [] && calls[|calls| - 1].asks
    ensures ViewAfter(calls) == calls[|calls| - 1].list
    ensures var said := Says(StateAfter(calls[..|calls| - 1]), calls[|calls| - 1]);
      said.listed.None? ==> said.count == |ViewAfter(calls)|
  {
    var before := calls[..|calls| - 1];
    ViewIsWhatWasTold(before);
    ViewIsCurrent(before, calls[|calls| - 1]);
  }

  /** After any list with an ambiguous question there is a current list that the caller is not told:
      it is given a count that is not the length of what it holds. */
  lemma {:induction false} AmbiguousListMisleads(list: seq<Notice>) returns (calls: seq<Call>)
    requires Ambiguous(list)
    ensures |calls| == 2 && calls[0].list == list && calls[0].asks && calls[1].asks
    ensures ViewAfter(calls) == list != calls[1].list
  {
    var other := AmbiguousCollides(list);
    var first, second := Call(true, false, list), Call(true, false, other);
    calls := [first, second];
    assert calls[..1] == [first] && [first][..0] == [];
    assert StateAfter([]) == START && ViewAfter([]) == [];
    assert StateAfter([first]) == State(true, Signature(list));
    assert ViewAfter([first]) == list;
  }

  /** A caller that also takes the lists of the calls that do not ask can be left with an old list. */
  lemma PlainListsMustNotBeFolded(a: seq<Notice>, b: seq<Notice>)
    requires a != [] && b != [] && a != b
    ensures var ask, plain := Call(true, false, a), Call(false, false, b);
      var told := Told(START, ask);
      var view := Folded(Folded([], Says(START, ask)), Says(told, plain));
      Folded(view, Says(Told(told, plain), ask)) == b
  {
  }
}
