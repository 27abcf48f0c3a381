/** Reading the whole history of a handoff page by page. */
module Paging {
  import opened Wrappers
  import opened Numbers

  /** HandoffHistoryMaxLimit. */
  const MAX_LIMIT: nat := 200

  datatype Entry = Entry(id: int64, body: string)

  datatype Error = CursorInvalid | LimitInvalid | NotFound | CursorDidNotAdvance | PageFailed

  datatype Result<+T> = Ok(value: T) | Err(error: Error)

  datatype Page = Page(entries: seq<Entry>, hasMore: bool, nextCursor: int64)

  // ---------------------------------------------------------------- the store's side

  /** The rows of a handoff past a cursor, in id order. */
  function After(history: seq<Entry>, cursor: int64): seq<Entry> {
    if history == [] then []
    else (if history[0].id > cursor then [history[0]] else []) + After(history[1..], cursor)
  }

  /** trimHandoffEntryPage. */
  function TrimPage(rows: seq<Entry>, limit: nat): Page {
    var entries := if |rows| > limit then rows[..limit] else rows;
    Page(entries, |rows| > limit, if entries == [] then 0 else entries[|entries| - 1].id)
  }

  /** listHandoffEntries; a handoff that does not exist has no history. */
  function ListEntries(history: Option<seq<Entry>>, cursor: int64, limit: int): Result<Page> {
    if cursor < 0 then Err(CursorInvalid)
    else if limit < 1 || limit > MAX_LIMIT then Err(LimitInvalid)
    else if history.None? then Err(NotFound)
    else
      var rows := After(history.value, cursor);
      Ok(TrimPage(if |rows| > limit + 1 then rows[..limit + 1] else rows, limit))
  }

  /** Entry ids are assigned in order, from 1. */
  predicate Ascending(history: seq<Entry>) {
    && (forall i | 0 <= i < |history| :: history[i].id > 0)
    && (forall i, j | 0 <= i < j < |history| :: history[i].id < history[j].id)
  }

  /** The cursor that stands for the first n entries. */
  function CursorAt(history: seq<Entry>, n: nat): int64
    requires n <= |history|
  {
    if n == 0 then 0 else history[n - 1].id
  }

  lemma {:induction false} AfterAll(history: seq<Entry>, cursor: int64)
    requires forall i | 0 <= i < |history| :: history[i].id > cursor
    ensures After(history, cursor) == history
  {
    if history != [] {
      AfterAll(history[1..], cursor);
    }
  }

  lemma {:induction false} AfterCursor(history: seq<Entry>, n: nat, cursor: int64)
    requires Ascending(history) && n <= |history|
    requires forall i | 0 <= i < n :: history[i].id <= cursor
    requires forall i | n <= i < |history| :: history[i].id > cursor
    ensures After(history, cursor) == history[n..]
  {
    if n == 0 {
      AfterAll(history, cursor);
    } else {
      AfterCursor(history[1..], n - 1, cursor);
      assert history[1..][n - 1..] == history[n..];
    }
  }

  /** A page from the cursor of the first n entries holds the entries that follow them. */
  lemma PageFollows(history: seq<Entry>, n: nat, limit: nat)
    requires Ascending(history) && n <= |history| && 1 <= limit <= MAX_LIMIT
    ensures var next := if n + limit < |history| then n + limit else |history|;
      && ListEntries(Some(history), CursorAt(history, n), limit).Ok?
      && var page := ListEntries(Some(history), CursorAt(history, n), limit).value;
      && page.entries == history[n..next]
      && page.hasMore == (next < |history|)
      && (page.hasMore ==> page.nextCursor == CursorAt(history, next) > CursorAt(history, n))
  {
    AfterCursor(history, n, CursorAt(history, n));
    var rows := history[n..];
    if |rows| > limit {
      assert rows[..limit + 1][..limit] == history[n..n + limit];
    }
  }

  // ---------------------------------------------------------------- the reader's side

  /** What one scan of a handoff appends to the records, and the error it ends with. */
  datatype Gathering = Gathering(entries: seq<Entry>, error: Option<Error>)

  /** Answers a page for a call, counted from 0, and a cursor. */
  type Pager = (nat, int64) -> Result<Page>

  function Gathered(pager: Pager, call: nat, afterID: int64): Gathering
    decreases MAX_INT64 - afterID
  {
    match pager(call, afterID)
    case Err(e) => Gathering([], Some(e))
    case Ok(page) =>
      if !page.hasMore then Gathering(page.entries, None)
      else if page.nextCursor <= afterID then Gathering(page.entries, Some(CursorDidNotAdvance))
      else
        var rest := Gathered(pager, call + 1, page.nextCursor);
        Gathering(page.entries + rest.entries, rest.error)
  }

  /** The last page the scan asks for. */
  function LastCall(pager: Pager, call: nat, afterID: int64): (last: nat)
    ensures last >= call
    decreases MAX_INT64 - afterID
  {
    match pager(call, afterID)
    case Err(_) => call
    case Ok(page) =>
      if page.hasMore && page.nextCursor > afterID then LastCall(pager, call + 1, page.nextCursor) else call
  }

  /** appendHandoffEntryRecords. It ends whatever the pager answers, because the cursor either
      advances towards the largest int64 or is an error. */
  method AppendHandoffEntryRecords(records: seq<Entry>, pager: Pager) returns (appended: seq<Entry>, error: Option<Error>)
    ensures Gathered(pager, 0, 0).error == error
    ensures appended == records + Gathered(pager, 0, 0).entries
  {
    appended := records;
    var afterID: int64 := 0;
    var call := 0;
    while true
      invariant Gathered(pager, 0, 0).error == Gathered(pager, call, afterID).error
      invariant records + Gathered(pager, 0, 0).entries == appended + Gathered(pager, call, afterID).entries
      decreases MAX_INT64 - afterID
    {
      var answer := pager(call, afterID);
      if answer.Err? {
        return appended, Some(answer.error);
      }
      var page := answer.value;
      ghost var before := appended;
      for i := 0 to |page.entries|
        invariant appended == before + page.entries[..i]
      {
        appended := appended + [page.entries[i]];
      }
      assert appended == before + page.entries;
      if !page.hasMore {
        return appended, None;
      }
      if page.nextCursor <= afterID {
        return appended, Some(CursorDidNotAdvance);
      }
      assert before + Gathered(pager, call, afterID).entries
        == appended + Gathered(pager, call + 1, page.nextCursor).entries;
      afterID := page.nextCursor;
      call := call + 1;
    }
  }

  // ---------------------------------------------------------------- an honest store

  /** The history of one handoff at each call: entries are only ever added at its end. */
  ghost predicate Growing(history: nat -> seq<Entry>) {
    && (forall k: nat :: Ascending(history(k)))
    && (forall k: nat :: history(k) <= history(k + 1))
  }

  /** A pager that answers from the history of the moment, or fails. */
  ghost predicate Honest(pager: Pager, history: nat -> seq<Entry>) {
    forall k: nat, cursor: int64 ::
      pager(k, cursor) == ListEntries(Some(history(k)), cursor, MAX_LIMIT) || pager(k, cursor) == Err(PageFailed)
  }

  lemma {:induction false} HistoryOnlyGrows(history: nat -> seq<Entry>, j: nat, k: nat)
    requires Growing(history) && j <= k
    ensures history(j) <= history(k)
    decreases k - j
  {
    if j < k {
      assert history(j) <= history(j + 1);
      HistoryOnlyGrows(history, j + 1, k);
    }
  }

  /** The end of the page that starts after the first n entries. */
  function PageEnd(size: nat, n: nat): nat { if n + MAX_LIMIT < size then n + MAX_LIMIT else size }

  lemma HonestPage(pager: Pager, history: nat -> seq<Entry>, call: nat, n: nat)
    requires Growing(history) && Honest(pager, history) && n <= |history(call)|
    ensures var answer := pager(call, CursorAt(history(call), n));
      var next := PageEnd(|history(call)|, n);
      && (answer.Err? ==> answer.error == PageFailed)
      && (answer.Ok? ==>
        && answer.value.entries == history(call)[n..next]
        && answer.value.hasMore == (next < |history(call)|)
        && (next < |history(call)| ==>
          answer.value.nextCursor == CursorAt(history(call), next) > CursorAt(history(call), n)))
  {
    PageFollows(history(call), n, MAX_LIMIT);
  }

  /** What a scan from the first n entries on must have gathered, given the history at its last page. */
  predicate GatheredWell(g: Gathering, whole: seq<Entry>, n: nat) {
    && n <= |whole|
    && g.error in {None, Some(PageFailed)}
    && g.entries <= whole[n..]
    && (g.error == None ==> g.entries == whole[n..])
  }

  lemma GatheredWellFurther(page: seq<Entry>, rest: Gathering, whole: seq<Entry>, n: nat, next: nat)
    requires n <= next <= |whole| && page == whole[n..next] && GatheredWell(rest, whole, next)
    ensures GatheredWell(Gathering(page + rest.entries, rest.error), whole, n)
  {
    assert whole[n..] == whole[n..next] + whole[next..];
  }

  lemma {:induction false} GatheredFrom(pager: Pager, history: nat -> seq<Entry>, call: nat, n: nat)
    requires Growing(history) && Honest(pager, history) && n <= |history(call)|
    ensures var start := CursorAt(history(call), n);
      GatheredWell(Gathered(pager, call, start), history(LastCall(pager, call, start)), n)
    decreases MAX_INT64 - CursorAt(history(call), n)
  {
    var now := history(call);
    var next := PageEnd(|now|, n);
    HonestPage(pager, history, call, n);
    var answer := pager(call, CursorAt(now, n));
    if answer.Ok? && next < |now| {
      assert now <= history(call + 1);
      assert CursorAt(history(call + 1), next) == answer.value.nextCursor;
      GatheredFrom(pager, history, call + 1, next);
      var last := LastCall(pager, call + 1, answer.value.nextCursor);
      HistoryOnlyGrows(history, call, last);
      var rest := Gathered(pager, call + 1, answer.value.nextCursor);
      GatheredWellFurther(answer.value.entries, rest, history(last), n, next);
    }
  }

  /** However the history grows during a scan, a scan that ends without an error has appended the
      history as it was at the last page: every entry once, in id order. A scan that fails has
      appended the beginning of that history, and the error is the page's own. */
  lemma HistoryIsGatheredOnce(pager: Pager, history: nat -> seq<Entry>)
    requires Growing(history) && Honest(pager, history)
    ensures var whole := history(LastCall(pager, 0, 0));
      var g := Gathered(pager, 0, 0);
      && g.entries <= whole
      && (g.error == None ==> g.entries == whole)
      && g.error in {None, Some(PageFailed)}
  {
    GatheredFrom(pager, history, 0, 0);
    assert history(LastCall(pager, 0, 0))[0..] == history(LastCall(pager, 0, 0));
  }
}
