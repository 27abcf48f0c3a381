/** The decisions table: each conditional update of the store is one step. */
module Decisions {
  import opened Wrappers
  import opened Durations
  import opened Numbers

  const GOAL_REVIEW: string := "goal_review"

  datatype Status = Open | Answered | Applied | Withdrawn

  /** Where an answer came from; a dashboard answer has no prompt id. */
  datatype Source = Source(via: string, quote: string, evidence: string, promptID: string)

  const DASHBOARD := Source("", "", "", "")

  /** A row. Times are in nanoseconds. */
  datatype Decision = Decision(
    goalID: int, kind: string, question: string, options: seq<string>,
    defaultOption: string, defaultAfterMs: Option<int64>, createdAt: int, session: int,
    status: Status, answerLabel: string, answerText: string, source: Source,
    answeredAt: Option<int>, appliedAt: Option<int>, defaultAppliedAt: Option<int>)

  type Table = map<int, Decision>

  datatype AskInput = AskInput(
    goalID: int, kind: string, question: string, options: seq<string>,
    defaultOption: string, defaultAfterMs: Option<int64>, session: int)

  datatype Error = NotFound | NotOpen | InvalidDefault | GoalNotActive | PromptReused | QuoteUnverified

  datatype Result<+T> = Ok(value: T) | Err(error: Error)

  // ---------------------------------------------------------------- rows

  /** RFC 3339 text keeps whole seconds. */
  function Stored(t: int): int { t / SECOND * SECOND }

  /** validateDecisionDefault. */
  predicate ValidDefault(a: AskInput) {
    if a.defaultOption == "" then a.defaultAfterMs.None?
    else (a.defaultAfterMs.Some? ==> a.defaultAfterMs.value >= 0) && a.defaultOption in a.options
  }

  function Asked(a: AskInput, now: int): Decision {
    Decision(a.goalID, a.kind, a.question, a.options, a.defaultOption, a.defaultAfterMs, Stored(now), a.session,
             Open, "", "", DASHBOARD, None, None, None)
  }

  /** What 64 bits keep of an integer. */
  function Wrapped64(x: int): (r: int64)
    ensures (x - r) % 0x1_0000_0000_0000_0000 == 0
  {
    (x + MAX_INT64 + 1) % (2 * MAX_INT64 + 2) - MAX_INT64 - 1
  }

  /** The delay of a default, as a product of two 64-bit integers. */
  function Delay(d: Decision): int64
    requires d.defaultAfterMs.Some?
  {
    Wrapped64(d.defaultAfterMs.value * MILLISECOND)
  }

  predicate DefaultDue(d: Decision, now: int) { d.defaultAfterMs.Some? && now >= d.createdAt + Delay(d) }

  /** Selected by ListExpiredDecisions and past its delay. */
  predicate Expired(d: Decision, now: int, archived: set<int>) {
    d.status == Open && d.defaultOption != "" && d.goalID !in archived && DefaultDue(d, now)
  }

  predicate PromptUsed(t: Table, prompt: string) {
    prompt != "" && exists id | id in t :: t[id].source.promptID == prompt
  }

  predicate IsOpen(t: Table, id: int) { id in t && t[id].status == Open }

  predicate IsOpenReview(t: Table, id: int) { IsOpen(t, id) && t[id].kind == GOAL_REVIEW }

  predicate Polls(d: Decision, id: int, session: int, only: int) {
    d.status == Answered && if only == 0 then d.session == session else id == only
  }

  function Defaulted(d: Decision, now: int, archived: set<int>): Decision {
    if !Expired(d, now, archived) then d
    else d.(status := Answered, answerLabel := d.defaultOption,
            answeredAt := Some(Stored(now)), defaultAppliedAt := Some(Stored(now)))
  }

  function Polled(d: Decision, id: int, session: int, only: int, now: int): Decision {
    if !Polls(d, id, session, only) then d else d.(status := Applied, appliedAt := Some(Stored(now)))
  }

  predicate Reassigns(d: Decision, goal: int, previous: set<int>) {
    d.goalID == goal && d.status in {Open, Answered} && d.appliedAt.None? && d.session in previous
  }

  // ---------------------------------------------------------------- steps

  datatype Event =
    | Ask(id: int, input: AskInput, now: int)
    | Answer(id: int, answerLabel: string, answerText: string, source: Source, now: int)
    | Approve(id: int, source: Source, now: int, goalActive: bool)
    | Reject(id: int, answerText: string, source: Source, now: int)
    | Default(now: int, archived: set<int>)
    | Withdraw(id: int, reason: string)
    | Poll(session: int, only: int, now: int)
    | Reassign(goal: int, receiver: int, previous: set<int>)

  /** Whether an event that names one row changes it, or the error it ends with. */
  function Refusal(t: Table, e: Event): Option<Error> {
    match e
    case Ask(_, input, _) => if ValidDefault(input) then None else Some(InvalidDefault)
    case Answer(id, _, _, source, _) =>
      if !IsOpen(t, id) then Some(NotOpen) else if PromptUsed(t, source.promptID) then Some(PromptReused) else None
    case Approve(id, source, _, goalActive) =>
      if !IsOpenReview(t, id) then Some(NotOpen) else if !goalActive then Some(GoalNotActive)
      else if PromptUsed(t, source.promptID) then Some(PromptReused) else None
    case Reject(id, _, source, _) =>
      if !IsOpenReview(t, id) then Some(NotOpen) else if PromptUsed(t, source.promptID) then Some(PromptReused) else None
    case Withdraw(id, _) => if IsOpen(t, id) then None else Some(NotOpen)
    case _ => None
  }

  /** A row after an event that is not refused. */
  function RowAfter(d: Decision, id: int, e: Event): Decision {
    match e
    case Ask(_, _, _) => d
    case Answer(i, answerLabel, answerText, source, now) =>
      if i != id then d
      else d.(status := Answered, answerLabel := answerLabel, answerText := answerText, source := source, answeredAt := Some(Stored(now)))
    case Approve(i, source, now, _) =>
      if i != id then d
      else d.(status := Applied, answerLabel := "approve", source := source,
              answeredAt := Some(Stored(now)), appliedAt := Some(Stored(now)))
    case Reject(i, answerText, source, now) =>
      if i != id then d
      else d.(status := Answered, answerLabel := "reject", answerText := answerText, source := source, answeredAt := Some(now))
    case Default(now, archived) => Defaulted(d, now, archived)
    case Withdraw(i, reason) => if i != id then d else d.(status := Withdrawn, answerText := reason)
    case Poll(session, only, now) => Polled(d, id, session, only, now)
    case Reassign(goal, receiver, previous) =>
      if !Reassigns(d, goal, previous) then d else d.(session := receiver)
  }

  predicate Enabled(t: Table, e: Event) { e.Ask? ==> e.id !in t }

  function Step(t: Table, e: Event): Table
    requires Enabled(t, e)
  {
    if Refusal(t, e).Some? then t
    else
      var rows := map id | id in t :: RowAfter(t[id], id, e);
      if e.Ask? then rows[e.id := Asked(e.input, e.now)] else rows
  }

  lemma EachRowPolled(t: Table, t': Table, session: int, only: int, now: int)
    requires t'.Keys == t.Keys && forall id | id in t :: t'[id] == Polled(t[id], id, session, only, now)
    ensures t' == Step(t, Poll(session, only, now))
  {
    assert forall id | id in t :: t'[id] == RowAfter(t[id], id, Poll(session, only, now));
  }

  lemma EachRowDefaulted(t: Table, t': Table, now: int, archived: set<int>)
    requires t'.Keys == t.Keys && forall id | id in t :: t'[id] == Defaulted(t[id], now, archived)
    ensures t' == Step(t, Default(now, archived))
  {
    assert forall id | id in t :: t'[id] == RowAfter(t[id], id, Default(now, archived));
  }

  // ---------------------------------------------------------------- answers from the chat

  /** A human message of the session's transcript. */
  datatype Human = Human(id: string, text: string)

  const MAX_EVIDENCE: nat := 8000

  function ChatSource(quote: string, human: Human): Source {
    Source("chat", quote, if |human.text| > MAX_EVIDENCE then human.text[..MAX_EVIDENCE] else human.text, human.id)
  }

  function ChatEvent(
    id: int, kind: string, answer: string, answerText: string, source: Source, now: int, goalActive: bool): Event
  {
    if kind == GOAL_REVIEW && answer == "approve" then Approve(id, source, now, goalActive)
    else if kind == GOAL_REVIEW then Reject(id, answerText, source, now)
    else Answer(id, answer, answerText, source, now)
  }

  /** The position of the first message no decision was answered with. */
  function FirstUnused(t: Table, found: seq<Human>): (k: nat)
    ensures k <= |found|
    ensures k < |found| ==> !PromptUsed(t, found[k].id)
    ensures forall i | 0 <= i < k :: PromptUsed(t, found[i].id)
  {
    if found == [] || !PromptUsed(t, found[0].id) then 0 else 1 + FirstUnused(t, found[1..])
  }

  /** The prompt is that of no answer. */
  predicate Fresh(t: Table, prompt: string) { prompt == "" || forall id | id in t :: t[id].source.promptID != prompt }

  /** What an answer from the chat makes of its decision, unless it approves a review of a goal that is
      not active, or its message answered another decision. A review is approved by "approve" and
      rejected by anything else, with the text as its reason; any other decision gets the answer and
      the text. The source is the quoted message, cut at 8000 characters. */
  lemma ChatAnswerIs(
    t: Table, id: int, answer: string, answerText: string, quote: string, human: Human, now: int, goalActive: bool)
    requires IsOpen(t, id)
    ensures var e := ChatEvent(id, t[id].kind, answer, answerText, ChatSource(quote, human), now, goalActive);
      && Enabled(t, e)
      && Refusal(t, e) == (if t[id].kind == "goal_review" && answer == "approve" && !goalActive then Some(GoalNotActive)
                           else if !Fresh(t, human.id) then Some(PromptReused) else None)
      && (Refusal(t, e).None? ==>
            var d, d' := t[id], Step(t, e)[id];
            && d'.source.via == "chat" && d'.source.quote == quote && d'.source.promptID == human.id
            && (if |human.text| <= 8000 then d'.source.evidence == human.text
                else |d'.source.evidence| == 8000 && d'.source.evidence <= human.text)
            && (if d.kind != "goal_review" then
                  d'.status == Answered && d'.answerLabel == answer && d'.answerText == answerText
                else if answer == "approve" then d'.status == Applied && d'.answerLabel == "approve"
                else d'.status == Answered && d'.answerLabel == "reject" && d'.answerText == answerText))
  {
  }

  // ---------------------------------------------------------------- the store

  class Store {
    var rows: Table

    constructor ()
      ensures rows == map[]
    {
      rows := map[];
    }

    /** The decision it returns has its creation time in full; the row has whole seconds. */
    method AskDecision(input: AskInput, now: int, id: int) returns (r: Result<Decision>)
      requires id !in rows
      modifies this
      ensures rows == Step(old(rows), Ask(id, input, now))
      ensures r == if ValidDefault(input) then Ok(Asked(input, now).(createdAt := now)) else Err(InvalidDefault)
    {
      var ok := ValidateDecisionDefault(input.options, input.defaultOption, input.defaultAfterMs);
      if !ok {
        return Err(InvalidDefault);
      }
      assert rows == map i | i in rows :: RowAfter(rows[i], i, Ask(id, input, now));
      rows := rows[id := Asked(input, now)];
      return Ok(rows[id].(createdAt := now));
    }

    static method ValidateDecisionDefault(options: seq<string>, defaultOption: string, defaultAfterMs: Option<int64>)
      returns (ok: bool)
      ensures ok == ValidDefault(AskInput(0, "", "", options, defaultOption, defaultAfterMs, 0))
    {
      if defaultOption == "" && defaultAfterMs.None? {
        return true;
      }
      if defaultOption == "" {
        return false;
      }
      if defaultAfterMs.Some? && defaultAfterMs.value < 0 {
        return false;
      }
      for i := 0 to |options|
        invariant forall k | 0 <= k < i :: options[k] != defaultOption
      {
        if options[i] == defaultOption {
          return true;
        }
      }
      return false;
    }

    method AnswerDecisionWith(id: int, answerLabel: string, answerText: string, source: Source, now: int) returns (r: Result<Decision>)
      modifies this
      ensures rows == Step(old(rows), Answer(id, answerLabel, answerText, source, now))
      ensures var refusal := Refusal(old(rows), Answer(id, answerLabel, answerText, source, now));
        if refusal.Some? then r == Err(refusal.value) else id in rows && r == Ok(rows[id])
    {
      ghost var e := Answer(id, answerLabel, answerText, source, now);
      if id !in rows || rows[id].status != Open {
        return Err(NotOpen);
      }
      var used := Uses(source.promptID);
      if used {
        return Err(PromptReused);
      }
      var d := rows[id].(status := Answered, answerLabel := answerLabel, answerText := answerText, source := source,
                         answeredAt := Some(Stored(now)));
      assert rows[id := d] == map i | i in rows :: RowAfter(rows[i], i, e);
      rows := rows[id := d];
      return Ok(d);
    }

    /** The unique index on the prompt ids that are not empty. */
    method Uses(prompt: string) returns (used: bool)
      ensures used == PromptUsed(rows, prompt)
    {
      if prompt == "" {
        return false;
      }
      var ids := rows.Keys;
      while ids != {}
        invariant ids <= rows.Keys
        invariant forall id | id in rows && id !in ids :: rows[id].source.promptID != prompt
        decreases |ids|
      {
        var id := Any(ids);
        if rows[id].source.promptID == prompt {
          return true;
        }
        ids := ids - {id};
      }
      return false;
    }

    method ApproveGoalReviewWith(id: int, source: Source, now: int, goalActive: bool) returns (r: Result<int>)
      modifies this
      ensures rows == Step(old(rows), Approve(id, source, now, goalActive))
      ensures var refusal := Refusal(old(rows), Approve(id, source, now, goalActive));
        if refusal.Some? then r == Err(refusal.value) else id in rows && r == Ok(rows[id].goalID)
    {
      ghost var e := Approve(id, source, now, goalActive);
      if id !in rows || rows[id].kind != GOAL_REVIEW || rows[id].status != Open {
        return Err(NotOpen);
      }
      if !goalActive {
        return Err(GoalNotActive);
      }
      var used := Uses(source.promptID);
      if used {
        return Err(PromptReused);
      }
      var d := rows[id].(status := Applied, answerLabel := "approve", source := source,
                         answeredAt := Some(Stored(now)), appliedAt := Some(Stored(now)));
      assert rows[id := d] == map i | i in rows :: RowAfter(rows[i], i, e);
      rows := rows[id := d];
      return Ok(d.goalID);
    }

    method RejectGoalReviewWith(id: int, answerText: string, source: Source, now: int) returns (r: Result<()>)
      modifies this
      ensures rows == Step(old(rows), Reject(id, answerText, source, now))
      ensures var refusal := Refusal(old(rows), Reject(id, answerText, source, now));
        r == if refusal.Some? then Err(refusal.value) else Ok(())
    {
      ghost var e := Reject(id, answerText, source, now);
      if id !in rows || rows[id].kind != GOAL_REVIEW || rows[id].status != Open {
        return Err(NotOpen);
      }
      var used := Uses(source.promptID);
      if used {
        return Err(PromptReused);
      }
      var d := rows[id].(status := Answered, answerLabel := "reject", answerText := answerText, source := source, answeredAt := Some(now));
      assert rows[id := d] == map i | i in rows :: RowAfter(rows[i], i, e);
      rows := rows[id := d];
      return Ok(());
    }

    method WithdrawDecision(id: int, reason: string) returns (r: Result<()>)
      modifies this
      ensures rows == Step(old(rows), Withdraw(id, reason))
      ensures r == if IsOpen(old(rows), id) then Ok(()) else Err(NotOpen)
    {
      if id !in rows || rows[id].status != Open {
        return Err(NotOpen);
      }
      var d := rows[id].(status := Withdrawn, answerText := reason);
      assert rows[id := d] == map i | i in rows :: RowAfter(rows[i], i, Withdraw(id, reason));
      rows := rows[id := d];
      return Ok(());
    }

    /** What ApplyExpiredDefaults does with one row. */
    static method SettleDefault(row: Decision, now: int, archived: set<int>) returns (due: bool, d: Decision)
      ensures due == Expired(row, now, archived) && d == Defaulted(row, now, archived)
    {
      due, d := false, row;
      if d.status == Open && d.defaultAfterMs.Some? && d.defaultOption != "" && d.goalID !in archived {
        if now >= d.createdAt + Delay(d) {
          due := true;
          d := d.(status := Answered, answerLabel := d.defaultOption,
                  answeredAt := Some(Stored(now)), defaultAppliedAt := Some(Stored(now)));
        }
      }
    }

    /** ApplyExpiredDefaults; archived holds the goals of archived projects. */
    method ApplyExpiredDefaults(now: int, archived: set<int>) returns (settled: set<int>)
      modifies this
      ensures rows == Step(old(rows), Default(now, archived))
      ensures settled == set id | id in old(rows) && Expired(old(rows)[id], now, archived)
    {
      settled := {};
      var ids := rows.Keys;
      while ids != {}
        invariant ids <= rows.Keys == old(rows).Keys && settled <= rows.Keys
        invariant forall id | id in ids :: rows[id] == old(rows)[id]
        invariant forall id | id in rows && id !in ids :: rows[id] == Defaulted(old(rows)[id], now, archived)
        invariant forall id | id in rows :: id in settled <==> id !in ids && Expired(old(rows)[id], now, archived)
        decreases |ids|
      {
        var id := Any(ids);
        ids := ids - {id};
        var due, d := SettleDefault(rows[id], now, archived);
        if due {
          rows := rows[id := d];
          settled := settled + {id};
        }
      }
      EachRowDefaulted(old(rows), rows, now, archived);
    }

    /** PollDecisions; it returns the decisions it hands out, as they are from then on, with the time
        of applying in full; the rows have whole seconds. */
    method PollDecisions(session: int, only: int, now: int) returns (handed: Table)
      modifies this
      ensures rows == Step(old(rows), Poll(session, only, now))
      ensures forall id :: id in handed <==> id in old(rows) && Polls(old(rows)[id], id, session, only)
      ensures forall id | id in handed :: id in rows && handed[id] == rows[id].(appliedAt := Some(now))
    {
      handed := map[];
      var ids := rows.Keys;
      while ids != {}
        invariant ids <= rows.Keys == old(rows).Keys && handed.Keys <= rows.Keys
        invariant forall id | id in ids :: rows[id] == old(rows)[id]
        invariant forall id | id in rows && id !in ids :: rows[id] == Polled(old(rows)[id], id, session, only, now)
        invariant forall id | id in rows :: id in handed <==> id !in ids && Polls(old(rows)[id], id, session, only)
        invariant forall id | id in handed :: handed[id] == rows[id].(appliedAt := Some(now))
        decreases |ids|
      {
        var id := Any(ids);
        ids := ids - {id};
        var d := rows[id];
        if Polls(d, id, session, only) {
          d := d.(status := Applied, appliedAt := Some(Stored(now)));
          rows := rows[id := d];
          handed := handed[id := d.(appliedAt := Some(now))];
        }
      }
      EachRowPolled(old(rows), rows, session, only, now);
    }

    /** ReassignGoalDecisionsToReceiver: one update statement. */
    method ReassignGoalDecisionsToReceiver(goal: int, receiver: int, previous: set<int>)
      modifies this
      ensures rows == Step(old(rows), Reassign(goal, receiver, previous))
    {
      rows := map id | id in rows ::
        if Reassigns(rows[id], goal, previous) then rows[id].(session := receiver) else rows[id];
    }

    /** writeChatAnswer. */
    method WriteChatAnswer(id: int, kind: string, answer: string, answerText: string, source: Source, now: int, goalActive: bool)
      returns (error: Option<Error>)
      modifies this
      ensures var e := ChatEvent(id, kind, answer, answerText, source, now, goalActive);
        rows == Step(old(rows), e) && error == Refusal(old(rows), e)
    {
      if kind == GOAL_REVIEW && answer == "approve" {
        var r := ApproveGoalReviewWith(id, source, now, goalActive);
        error := if r.Err? then Some(r.error) else None;
      } else if kind == GOAL_REVIEW {
        var r := RejectGoalReviewWith(id, answerText, source, now);
        error := if r.Err? then Some(r.error) else None;
      } else {
        var r := AnswerDecisionWith(id, answer, answerText, source, now);
        error := if r.Err? then Some(r.error) else None;
      }
    }

    /** answerDecisionFromChat after its checks: found holds the human messages that match the
        quote, newest first. A message that already answered another decision is skipped. */
    method AnswerFromChat(id: int, answer: string, answerText: string, quote: string, found: seq<Human>, now: int, goalActive: bool)
      returns (r: Result<Decision>)
      modifies this
      ensures !IsOpen(old(rows), id) ==> r.Err? && rows == old(rows)
      ensures IsOpen(old(rows), id) ==>
        var k := FirstUnused(old(rows), found);
        var kind := old(rows)[id].kind;
        if found != [] && kind == GOAL_REVIEW && answer == "approve" && !goalActive then
          rows == old(rows) && r == Err(GoalNotActive)
        else if k == |found| then rows == old(rows) && r == Err(QuoteUnverified)
        else
          var e := ChatEvent(id, kind, answer, answerText, ChatSource(quote, found[k]), now, goalActive);
          && Refusal(old(rows), e) == None && rows == Step(old(rows), e)
          && id in rows && r == Ok(rows[id]) && rows[id].source.promptID == found[k].id
    {
      if id !in rows {
        return Err(NotFound);
      }
      if rows[id].status != Open {
        return Err(NotOpen);
      }
      for i := 0 to |found|
        invariant rows == old(rows)
        invariant i <= FirstUnused(rows, found)
        invariant i > 0 ==> !(rows[id].kind == GOAL_REVIEW && answer == "approve" && !goalActive)
      {
        var source := ChatSource(quote, found[i]);
        ghost var e := ChatEvent(id, rows[id].kind, answer, answerText, source, now, goalActive);
        var error := WriteChatAnswer(id, rows[id].kind, answer, answerText, source, now, goalActive);
        if error == Some(PromptReused) {
          continue;
        }
        if error.Some? {
          return Err(error.value);
        }
        return Ok(rows[id]);
      }
      return Err(QuoteUnverified);
    }
  }

  // ---------------------------------------------------------------- one step

  /** The statuses a decision can have later. */
  predicate Leads(s: Status, s': Status) { s == s' || s == Open || (s == Answered && s' == Applied) }

  predicate SameAnswer(d: Decision, d': Decision) {
    && d'.answerLabel == d.answerLabel && d'.answerText == d.answerText && d'.source == d.source
    && d'.answeredAt == d.answeredAt && d'.defaultAppliedAt == d.defaultAppliedAt
  }

  predicate SameQuestion(d: Decision, d': Decision) {
    && d'.goalID == d.goalID && d'.kind == d.kind && d'.question == d.question && d'.options == d.options
    && d'.defaultOption == d.defaultOption && d'.defaultAfterMs == d.defaultAfterMs && d'.createdAt == d.createdAt
  }

  /** How a row may change in any number of steps: what was asked never changes, and the answer is
      final once the decision is not open any more. */
  predicate Evolves(d: Decision, d': Decision) {
    && SameQuestion(d, d') && Leads(d.status, d'.status)
    && (d.status != Open ==> SameAnswer(d, d'))
    && (d.status == Applied ==> d'.appliedAt == d.appliedAt)
  }

  lemma RowEvolves(t: Table, e: Event, id: int)
    requires Enabled(t, e) && id in t
    ensures id in Step(t, e) && Evolves(t[id], Step(t, e)[id])
  {
  }

  predicate RowInv(d: Decision) {
    && (d.status == Open ==>
          d.answerLabel == "" && d.answerText == "" && d.source == DASHBOARD
          && d.answeredAt == None && d.defaultAppliedAt == None && d.appliedAt == None)
    && (d.defaultAfterMs.Some? ==> d.defaultAfterMs.value >= 0 && d.defaultOption in d.options)
    && (d.defaultAppliedAt.Some? ==> d.answerLabel == d.defaultOption && d.defaultAfterMs.Some?)
    && (d.appliedAt.Some? <==> d.status == Applied)
  }

  /** A human prompt answers at most one decision. */
  predicate PromptsDiffer(t: Table) {
    forall i, j | i in t && j in t && i != j && t[i].source.promptID != "" ::
      t[i].source.promptID != t[j].source.promptID
  }

  /** A default label is one of the options, an open decision has no trace of an answer, exactly
      the applied decisions have been applied at some time, and no prompt is used twice. */
  predicate TableInv(t: Table) { (forall id | id in t :: RowInv(t[id])) && PromptsDiffer(t) }

  lemma RowKeepsInv(t: Table, e: Event, id: int)
    requires Enabled(t, e) && TableInv(t) && id in Step(t, e)
    ensures RowInv(Step(t, e)[id])
  {
    if id in t {
      assert RowInv(t[id]);
    }
  }

  /** A step gives a new source to one row at most, and never a prompt that was used before. */
  lemma SourceAfter(t: Table, e: Event, id: int)
    requires Enabled(t, e) && id in Step(t, e)
    ensures var source := Step(t, e)[id].source;
      || source == (if id in t then t[id].source else DASHBOARD)
      || ((e.Answer? || e.Approve? || e.Reject?) && e.id == id && !PromptUsed(t, source.promptID))
  {
  }

  lemma {:induction false} StepKeepsInv(t: Table, e: Event)
    requires Enabled(t, e) && TableInv(t)
    ensures TableInv(Step(t, e))
  {
    var t' := Step(t, e);
    forall id | id in t' ensures RowInv(t'[id]) {
      RowKeepsInv(t, e, id);
    }
    forall i, j | i in t' && j in t' && i != j && t'[i].source.promptID != ""
      ensures t'[i].source.promptID != t'[j].source.promptID
    {
      SourceAfter(t, e, i);
      SourceAfter(t, e, j);
    }
  }

  // ---------------------------------------------------------------- runs

  datatype Trace = Trace(states: seq<Table>, events: seq<Event>)

  predicate Moves(r: Trace, i: nat)
    requires |r.states| == |r.events| + 1 && i < |r.events|
  {
    Enabled(r.states[i], r.events[i]) && r.states[i + 1] == Step(r.states[i], r.events[i])
  }

  predicate IsRun(r: Trace) {
    && |r.states| == |r.events| + 1 && r.states[0] == map[]
    && forall i: nat | i < |r.events| :: Moves(r, i)
  }

  lemma {:induction false} ReachableTablesAreSound(r: Trace, i: nat)
    requires IsRun(r) && i <= |r.events|
    ensures TableInv(r.states[i])
    decreases i
  {
    if i > 0 {
      ReachableTablesAreSound(r, i - 1);
      assert Moves(r, i - 1);
      StepKeepsInv(r.states[i - 1], r.events[i - 1]);
    }
  }

  /** Over any run, a decision goes from open to answered to applied, or from open to withdrawn, or
      from open to applied; what was asked never changes, and neither does the answer once the
      decision is not open: a default never overwrites a human's answer, nor a second answer the
      first. */
  lemma {:induction false} DecisionEvolves(r: Trace, i: nat, j: nat, id: int)
    requires IsRun(r) && i <= j <= |r.events| && id in r.states[i]
    ensures id in r.states[j] && Evolves(r.states[i][id], r.states[j][id])
    decreases j
  {
    if i < j {
      DecisionEvolves(r, i, j - 1, id);
      assert Moves(r, j - 1);
      RowEvolves(r.states[j - 1], r.events[j - 1], id);
    }
  }

  predicate HandedOut(r: Trace, k: nat, id: int)
    requires IsRun(r)
  {
    && k < |r.events| && r.events[k].Poll? && id in r.states[k]
    && Polls(r.states[k][id], id, r.events[k].session, r.events[k].only)
  }

  predicate Approved(r: Trace, k: nat, id: int)
    requires IsRun(r)
  {
    k < |r.events| && r.events[k].Approve? && r.events[k].id == id && Refusal(r.states[k], r.events[k]) == None
  }

  /** Where a decision became applied. */
  lemma {:induction false} AppliedSomewhere(r: Trace, n: nat, id: int) returns (k: nat)
    requires IsRun(r) && n <= |r.events| && id in r.states[n] && r.states[n][id].status == Applied
    ensures k < n && (HandedOut(r, k, id) || Approved(r, k, id))
    decreases n
  {
    assert n > 0;
    assert Moves(r, n - 1);
    if HandedOut(r, n - 1, id) || Approved(r, n - 1, id) {
      k := n - 1;
    } else {
      k := AppliedSomewhere(r, n - 1, id);
    }
  }

  /** An applied decision was handed out by one poll or approved by one approval of a goal review,
      never both and never twice. */
  lemma AppliedExactlyOnce(r: Trace, n: nat, id: int) returns (k: nat)
    requires IsRun(r) && n <= |r.events| && id in r.states[n] && r.states[n][id].status == Applied
    ensures k < n && (HandedOut(r, k, id) != Approved(r, k, id))
    ensures Approved(r, k, id) ==> r.states[n][id].kind == GOAL_REVIEW
    ensures forall m: nat | m < |r.events| && m != k :: !HandedOut(r, m, id) && !Approved(r, m, id)
  {
    k := AppliedSomewhere(r, n, id);
    DecisionEvolves(r, k, n, id);
    forall m: nat | m < |r.events| && m != k ensures !HandedOut(r, m, id) && !Approved(r, m, id) {
      AtMostOnce(r, k, m, id);
    }
  }

  lemma AtMostOnce(r: Trace, k: nat, m: nat, id: int)
    requires IsRun(r) && k != m && (HandedOut(r, k, id) || Approved(r, k, id))
    ensures !HandedOut(r, m, id) && !Approved(r, m, id)
  {
    if HandedOut(r, m, id) || Approved(r, m, id) {
      var first, second := if k < m then k else m, if k < m then m else k;
      assert Moves(r, first);
      assert r.states[first + 1][id].status == Applied;
      DecisionEvolves(r, first + 1, second, id);
      assert false;
    }
  }

  // ---------------------------------------------------------------- the answer that was given

  /** An answer as the row holds it. */
  datatype Answering = Answering(answerLabel: string, answerText: string, source: Source, answeredAt: Option<int>)

  function AnswerOf(d: Decision): Answering { Answering(d.answerLabel, d.answerText, d.source, d.answeredAt) }

  /** Event k settles the open decision id: what it is answered with, and its status then. An answer
      and an approval are stored with whole seconds, a rejection with its full time; a withdrawal
      keeps its reason where an answer has its text. */
  predicate Settles(r: Trace, k: nat, id: int, given: Answering, status: Status)
    requires IsRun(r)
  {
    && k < |r.events| && id in r.states[k] && r.states[k][id].status == Open
    && var t, d := r.states[k], r.states[k][id];
      match r.events[k]
      case Answer(i, answerLabel, answerText, source, now) =>
        i == id && Fresh(t, source.promptID) && status == Answered
        && given == Answering(answerLabel, answerText, source, Some(now / SECOND * SECOND))
      case Approve(i, source, now, goalActive) =>
        i == id && d.kind == "goal_review" && goalActive && Fresh(t, source.promptID) && status == Applied
        && given == Answering("approve", d.answerText, source, Some(now / SECOND * SECOND))
      case Reject(i, answerText, source, now) =>
        i == id && d.kind == "goal_review" && Fresh(t, source.promptID) && status == Answered
        && given == Answering("reject", answerText, source, Some(now))
      case Withdraw(i, reason) =>
        i == id && status == Withdrawn && given == Answering(d.answerLabel, reason, d.source, d.answeredAt)
      case Default(now, archived) =>
        d.defaultOption != "" && d.defaultAfterMs.Some? && d.goalID !in archived && now >= d.createdAt + Delay(d)
        && status == Answered && given == Answering(d.defaultOption, d.answerText, d.source, Some(now / SECOND * SECOND))
      case _ => false
  }

  lemma SettledThen(r: Trace, k: nat, id: int, given: Answering, status: Status)
    requires IsRun(r) && Settles(r, k, id, given, status)
    ensures id in r.states[k + 1] && r.states[k + 1][id].status == status && AnswerOf(r.states[k + 1][id]) == given
  {
    assert Moves(r, k);
    assert PromptUsed(r.states[k], given.source.promptID) <==> !Fresh(r.states[k], given.source.promptID);
  }

  /** What settles a decision stays its answer: at every later time the row has exactly the label,
      the text, the source and the time given, and so has what the poll returns that hands it out. */
  lemma AnswerIsKept(r: Trace, k: nat, n: nat, id: int, given: Answering, status: Status)
    requires IsRun(r) && Settles(r, k, id, given, status) && k < n <= |r.events|
    ensures id in r.states[n] && AnswerOf(r.states[n][id]) == given
    ensures r.states[n][id].status == status || (status == Answered && r.states[n][id].status == Applied)
  {
    SettledThen(r, k, id, given, status);
    DecisionEvolves(r, k + 1, n, id);
  }

  /** The step that took a decision out of the state open. */
  lemma LeavesOpen(t: Table, e: Event, id: int)
    requires Enabled(t, e) && id in t && t[id].status == Open && Step(t, e)[id].status != Open
    ensures Refusal(t, e) == None
    ensures match e
      case Answer(i, _, _, _, _) => i == id
      case Approve(i, _, _, _) => i == id
      case Reject(i, _, _, _) => i == id
      case Withdraw(i, _) => i == id
      case Default(now, archived) => Expired(t[id], now, archived)
      case _ => false
  {
  }

  /** And a decision that is not open was settled by some event, with the answer it has. */
  lemma {:induction false} AnswerWasGiven(r: Trace, n: nat, id: int) returns (k: nat, status: Status)
    requires IsRun(r) && n <= |r.events| && id in r.states[n] && r.states[n][id].status != Open
    ensures k < n && Settles(r, k, id, AnswerOf(r.states[n][id]), status)
    ensures r.states[n][id].status == status || (status == Answered && r.states[n][id].status == Applied)
    decreases n
  {
    assert n > 0;
    assert Moves(r, n - 1);
    var t, e := r.states[n - 1], r.events[n - 1];
    if id in t && t[id].status != Open {
      RowEvolves(t, e, id);
      k, status := AnswerWasGiven(r, n - 1, id);
    } else {
      assert id in t;
      LeavesOpen(t, e, id);
      k, status := n - 1, r.states[n][id].status;
    }
  }

  /** What was asked stays what was asked, and the row is open until it is settled. */
  lemma QuestionIsKept(r: Trace, k: nat, n: nat)
    requires IsRun(r) && k < n <= |r.events| && r.events[k].Ask?
    ensures var e := r.events[k];
      var a := e.input;
      var valid := if a.defaultOption == "" then a.defaultAfterMs.None?
                   else a.defaultOption in a.options && (a.defaultAfterMs.Some? ==> a.defaultAfterMs.value >= 0);
      if valid then
        e.id in r.states[n] && e.id in r.states[k + 1] && r.states[k + 1][e.id].status == Open && r.states[k + 1][e.id].session == a.session
        && var d := r.states[n][e.id];
          d.goalID == a.goalID && d.kind == a.kind && d.question == a.question && d.options == a.options
          && d.defaultOption == a.defaultOption && d.defaultAfterMs == a.defaultAfterMs
          && d.createdAt == e.now / SECOND * SECOND
      else r.states[k + 1] == r.states[k]
  {
    assert Moves(r, k);
    if ValidDefault(r.events[k].input) {
      DecisionEvolves(r, k + 1, n, r.events[k].id);
    }
  }

  /** An applied decision was never in the state answered if and only if it was approved: a review's
      approval goes from open to applied in one step. */
  lemma ApprovedIffNeverAnswered(r: Trace, n: nat, id: int) returns (k: nat)
    requires IsRun(r) && n <= |r.events| && id in r.states[n] && r.states[n][id].status == Applied
    ensures k < n && (HandedOut(r, k, id) != Approved(r, k, id))
    ensures Approved(r, k, id) <==> forall m | 0 <= m <= n && id in r.states[m] :: r.states[m][id].status != Answered
  {
    k := AppliedExactlyOnce(r, n, id);
    if Approved(r, k, id) {
      assert Moves(r, k);
      forall m | 0 <= m <= n && id in r.states[m] ensures r.states[m][id].status != Answered {
        if m <= k {
          DecisionEvolves(r, m, k, id);
        } else {
          DecisionEvolves(r, k + 1, m, id);
        }
      }
    } else {
      assert r.states[k][id].status == Answered;
    }
  }

  /** A poll that asks for the decision, whatever its status: by its id, or by the session it is
      then assigned to. */
  predicate AsksFor(r: Trace, k: nat, id: int)
    requires IsRun(r)
  {
    && k < |r.events| && r.events[k].Poll? && id in r.states[k]
    && if r.events[k].only == 0 then r.states[k][id].session == r.events[k].session else r.events[k].only == id
  }

  /** A decision that was answered stays so until a poll hands it out. */
  lemma AnsweredUntilHandedOut(r: Trace, n: nat, m: nat, id: int)
    requires IsRun(r) && n <= m <= |r.events| && id in r.states[n] && r.states[n][id].status == Answered
    requires forall k | n <= k < m :: !HandedOut(r, k, id)
    ensures id in r.states[m] && r.states[m][id].status == Answered
  {
    DecisionEvolves(r, n, m, id);
    if r.states[m][id].status == Applied {
      var k := AppliedSomewhere(r, m, id);
      if k < n {
        assert Moves(r, k);
        DecisionEvolves(r, k + 1, n, id);
      } else {
        DecisionEvolves(r, n, k, id);
      }
    }
  }

  /** A poll that asks for a decision answered before hands it out if and only if no poll has
      handed it out since. So the first poll to ask hands it out, whether or not its caller gets the
      response, and no later one does. */
  lemma HandedOutByFirstPollIff(r: Trace, n: nat, m: nat, id: int)
    requires IsRun(r) && AsksFor(r, m, id) && n <= m && id in r.states[n] && r.states[n][id].status == Answered
    ensures HandedOut(r, m, id) <==> forall k | n <= k < m :: !HandedOut(r, k, id)
    ensures HandedOut(r, m, id) <==> forall k | n <= k < m :: !AsksFor(r, k, id)
  {
    if forall k | n <= k < m :: !HandedOut(r, k, id) {
      AnsweredUntilHandedOut(r, n, m, id);
    }
    forall k: nat | n <= k < m && HandedOut(r, k, id) ensures AsksFor(r, k, id) && !HandedOut(r, m, id) {
      AtMostOnce(r, k, m, id);
    }
    if k :| n <= k < m && AsksFor(r, k, id) {
      var first := FirstAsking(r, n, k, id);
      forall i: nat | n <= i < first ensures !HandedOut(r, i, id) {
        assert !AsksFor(r, i, id);
      }
      AnsweredUntilHandedOut(r, n, first, id);
      assert HandedOut(r, first, id);
    }
  }

  lemma {:induction false} FirstAsking(r: Trace, n: nat, k: nat, id: int) returns (first: nat)
    requires IsRun(r) && n <= k && AsksFor(r, k, id)
    ensures n <= first <= k && AsksFor(r, first, id) && forall m | n <= m < first :: !AsksFor(r, m, id)
    decreases k
  {
    first := k;
    if m :| n <= m < k && AsksFor(r, m, id) {
      first := FirstAsking(r, n, m, id);
    }
  }

  /** What a poll hands out is applied from then on, at the time of the poll in whole seconds, with
      the answer it had. */
  lemma HandedOutIsApplied(r: Trace, k: nat, n: nat, id: int)
    requires IsRun(r) && HandedOut(r, k, id) && k < n <= |r.events|
    ensures id in r.states[n] && r.states[n][id].status == Applied
    ensures r.states[n][id].appliedAt == Some(r.events[k].now / SECOND * SECOND)
    ensures AnswerOf(r.states[n][id]) == AnswerOf(r.states[k][id])
  {
    assert Moves(r, k);
    DecisionEvolves(r, k + 1, n, id);
  }

  /** Who polls for a decision changes only when its goal is handed over: one that was not applied
      yet goes from an earlier receiver to the new one, and nothing else about any row changes. */
  lemma SessionFollowsReceiver(r: Trace, n: nat, id: int)
    requires IsRun(r) && n < |r.events| && id in r.states[n]
    ensures id in r.states[n + 1]
    ensures var d, d', e := r.states[n][id], r.states[n + 1][id], r.events[n];
      if e.Reassign? then
        d' == if d.goalID == e.goal && d.session in e.previous && (d.status == Open || d.status == Answered)
              then d.(session := e.receiver) else d
      else d'.session == d.session
  {
    assert Moves(r, n);
    ReachableTablesAreSound(r, n);
    assert RowInv(r.states[n][id]);
  }

  /** A poll whose response is lost after its commit has handed the answer out for good: the next
      poll of the same session finds the decision applied and hands out nothing. */
  lemma LostAnswerStaysLost(id: int, session: int, now: int) returns (r: Trace)
    ensures IsRun(r) && |r.events| == 4 && r.events[2] == Poll(session, 0, now) && r.events[3] == r.events[2]
    ensures HandedOut(r, 2, id) && !HandedOut(r, 3, id)
    ensures id in r.states[4] && r.states[4][id].status == Applied
  {
    var ask := Ask(id, AskInput(1, "decision", "Continue?", ["yes"], "", None, session), now);
    var answer, poll := Answer(id, "yes", "", DASHBOARD, now), Poll(session, 0, now);
    var t0: Table := map[];
    var t1 := Step(t0, ask);
    var t2 := Step(t1, answer);
    var t3 := Step(t2, poll);
    assert t1 == map[id := Asked(ask.input, now)];
    assert Refusal(t1, answer) == None && t2[id].status == Answered && t3[id].status == Applied;
    r := Trace([t0, t1, t2, t3, Step(t3, poll)], [ask, answer, poll, poll]);
    assert Moves(r, 0) && Moves(r, 1) && Moves(r, 2) && Moves(r, 3);
    AtMostOnce(r, 2, 3, id);
  }

  /** Where a default was applied: the decision was open, its default is one of its options, and
      its stored delay, as the code computes it, was over. */
  lemma {:induction false} DefaultFiredSomewhere(r: Trace, n: nat, id: int) returns (k: nat)
    requires IsRun(r) && n <= |r.events| && id in r.states[n] && r.states[n][id].defaultAppliedAt.Some?
    ensures k < n && r.events[k].Default? && id in r.states[k]
    ensures r.states[k][id].status == Open && SameQuestion(r.states[k][id], r.states[n][id])
    ensures DefaultDue(r.states[n][id], r.events[k].now)
    decreases n
  {
    assert n > 0;
    assert Moves(r, n - 1);
    if id in r.states[n - 1] && r.states[n - 1][id].defaultAppliedAt.Some? {
      RowEvolves(r.states[n - 1], r.events[n - 1], id);
      k := DefaultFiredSomewhere(r, n - 1, id);
    } else {
      k := n - 1;
    }
  }

  // ---------------------------------------------------------------- when a default is due

  /** The longest delay whose nanoseconds a 64-bit integer holds, in milliseconds. */
  const LONGEST_DELAY: int := MAX_INT64 / MILLISECOND

  /** A default is never due before its creation time and its delay, exactly when the delay is at
      most LONGEST_DELAY; the product wraps around for a longer one, which validation lets through. */
  lemma NeverDueEarlyIff(d: Decision)
    requires d.defaultAfterMs.Some? && d.defaultAfterMs.value >= 0
    ensures (forall now :: DefaultDue(d, now) ==> now >= d.createdAt + d.defaultAfterMs.value * MILLISECOND)
      <==> d.defaultAfterMs.value <= LONGEST_DELAY
  {
    var delay := d.defaultAfterMs.value * MILLISECOND;
    if d.defaultAfterMs.value > LONGEST_DELAY {
      assert delay > MAX_INT64 >= Delay(d);
      assert DefaultDue(d, d.createdAt + Delay(d));
    } else {
      assert delay <= MAX_INT64;
      assert Delay(d) == delay;
    }
  }

  /** A default that was applied had been validated as one of the options, found the decision open,
      and, unless its delay wraps around, was applied no sooner than that delay after the stored
      creation time. */
  lemma DefaultIsTimely(r: Trace, n: nat, id: int) returns (k: nat)
    requires IsRun(r) && n <= |r.events| && id in r.states[n] && r.states[n][id].defaultAppliedAt.Some?
    ensures k < n && r.events[k].Default? && id in r.states[k] && r.states[k][id].status == Open
    ensures var d := r.states[n][id];
      && d.answerLabel == d.defaultOption && d.defaultOption in d.options
      && d.defaultAfterMs.Some?
      && (d.defaultAfterMs.value <= LONGEST_DELAY ==>
        r.events[k].now >= d.createdAt + d.defaultAfterMs.value * MILLISECOND)
  {
    k := DefaultFiredSomewhere(r, n, id);
    ReachableTablesAreSound(r, n);
    assert RowInv(r.states[n][id]);
    NeverDueEarlyIff(r.states[n][id]);
  }

  /** A question asked with a delay one millisecond too long is answered by its default at once. */
  lemma OverlongDelayFiresAtOnce(id: int) returns (r: Trace)
    ensures IsRun(r) && |r.events| == 2 && r.events[1].Default?
    ensures id in r.states[2] && r.states[2][id].status == Answered && r.states[2][id].defaultAppliedAt.Some?
    ensures r.states[2][id].defaultAfterMs == Some(LONGEST_DELAY + 1) && r.events[1].now == r.states[2][id].createdAt
  {
    var ask := Ask(id, AskInput(1, "decision", "Continue?", ["yes"], "yes", Some(LONGEST_DELAY + 1), 7), 0);
    var fire := Default(0, {});
    var t := Step(map[], ask);
    assert ValidDefault(ask.input);
    assert t == map[id := Asked(ask.input, 0)];
    assert Delay(t[id]) < 0;
    r := Trace([map[], t, Step(t, fire)], [ask, fire]);
    assert Moves(r, 0) && Moves(r, 1);
  }
}
