/** Server-sent events: what writeSSEEvent prints, and what readWatchSSEFrames reads back.
    Characters stand for bytes. */
module Sse {
  import opened Wrappers
  import opened Text

  /** An event handed to writeSSEEvent. Handoff entry events carry an id, here in its decimal form. */
  datatype Event = Event(name: string, id: Option<string>, data: string)

  /** A frame as the watcher receives it. */
  datatype Frame = Frame(name: string, id: string, data: string)

  const NL: char := '\n'

  /** writeSSEEvent. */
  function Written(e: Event): string {
    (if e.id.Some? then "id: " + e.id.value + [NL] else "")
    + "event: " + e.name + [NL] + "data: " + e.data + [NL, NL]
  }

  function WrittenAll(es: seq<Event>): string {
    if es == [] then "" else Written(es[0]) + WrittenAll(es[1..])
  }

  // ---------------------------------------------------------------- lines

  /** bufio.ScanLines drops one carriage return at the end of a line. */
  function DropCR(line: string): string {
    if line != "" && line[|line| - 1] == '\r' then line[..|line| - 1] else line
  }

  /** The index of the first newline, or the length of the text. */
  function LineEnd(text: string): (k: nat)
    ensures k <= |text|
    ensures k < |text| ==> text[k] == NL
    ensures forall i | 0 <= i < k :: text[i] != NL
  {
    if text == "" || text[0] == NL then 0 else 1 + LineEnd(text[1..])
  }

  /** What the scanner yields: the lines, and whether every line with its newline fit in its buffer. */
  datatype Scan = Scan(lines: seq<string>, ok: bool)

  /** The first line, and the text after it. */
  function FirstLine(text: string): string { DropCR(text[..LineEnd(text)]) }

  function AfterLine(text: string): string {
    var k := LineEnd(text);
    if k < |text| then text[k + 1..] else ""
  }

  function Lines(text: string, limit: nat): Scan
    decreases |text|
  {
    if text == "" then Scan([], true)
    else if LineEnd(text) >= limit then Scan([], false)
    else
      var rest := Lines(AfterLine(text), limit);
      Scan([FirstLine(text)] + rest.lines, rest.ok)
  }

  /** Each line and its newline. */
  function Joined(lines: seq<string>): string {
    if lines == [] then "" else lines[0] + [NL] + Joined(lines[1..])
  }

  predicate OneLine(s: string) { NL !in s && DropCR(s) == s }

  lemma {:induction false} LinesOfLine(line: string, rest: string, limit: nat)
    requires OneLine(line) && |line| < limit
    ensures Lines(line + [NL] + rest, limit) == Scan([line] + Lines(rest, limit).lines, Lines(rest, limit).ok)
  {
    var text := line + [NL] + rest;
    assert text[|line|] == NL && forall i | 0 <= i < |line| :: text[i] == line[i];
    assert LineEnd(text) == |line|;
    assert text[..|line|] == line && text[|line| + 1..] == rest;
  }

  /** A line that ends with a carriage return and a newline is read without either. */
  lemma CRLFEndsLine(line: string, rest: string, limit: nat)
    requires NL !in line && |line| + 1 < limit
    ensures Lines(line + "\r\n" + rest, limit) == Scan([line] + Lines(rest, limit).lines, Lines(rest, limit).ok)
  {
    var text, k := line + "\r\n" + rest, |line| + 1;
    assert text[k] == NL && text[|line|] == '\r' && forall i | 0 <= i < |line| :: text[i] == line[i];
    assert LineEnd(text) == k;
    assert text[..k] == line + "\r" && text[k + 1..] == rest;
  }

  lemma {:induction false} FirstOfJoined(lines: seq<string>, rest: string, limit: nat)
    requires lines != [] && OneLine(lines[0]) && |lines[0]| < limit
    ensures var below := Lines(Joined(lines[1..]) + rest, limit);
      Lines(Joined(lines) + rest, limit) == Scan([lines[0]] + below.lines, below.ok)
  {
    LinesOfLine(lines[0], Joined(lines[1..]) + rest, limit);
    Regrouped(lines[0] + [NL], Joined(lines[1..]), rest);
  }

  lemma {:induction false} LinesOfJoined(lines: seq<string>, rest: string, limit: nat)
    requires forall l | l in lines :: OneLine(l) && |l| < limit
    ensures Lines(Joined(lines) + rest, limit) == Scan(lines + Lines(rest, limit).lines, Lines(rest, limit).ok)
    decreases |lines|
  {
    if lines == [] {
      assert Joined(lines) + rest == rest;
      assert lines + Lines(rest, limit).lines == Lines(rest, limit).lines;
    } else {
      assert lines[0] in lines && forall l | l in lines[1..] :: l in lines;
      FirstOfJoined(lines, rest, limit);
      LinesOfJoined(lines[1..], rest, limit);
      FirstAndOthers(lines, Lines(rest, limit).lines);
    }
  }

  lemma FirstAndOthers<T>(a: seq<T>, b: seq<T>)
    requires a != []
    ensures [a[0]] + (a[1..] + b) == a + b
  {
  }

  /** A text that ends without a newline yields its last piece as a line all the same. */
  lemma LinesOfLast(line: string, limit: nat)
    requires NL !in line && |line| < limit
    ensures Lines(line, limit) == Scan(if line == "" then [] else [DropCR(line)], true)
  {
    assert forall i | 0 <= i < |line| :: line[i] != NL;
    assert LineEnd(line) == |line|;
    assert line[..|line|] == line;
  }

  // ---------------------------------------------------------------- the reader

  /** The reader's variables, and the frames it has sent. */
  datatype Reader = Reader(name: string, id: string, data: string, frames: seq<Frame>)

  const START := Reader("", "", "", [])

  /** dispatch: an event without a name or without data is dropped. */
  function Dispatched(r: Reader): Reader {
    Reader("", "", "", if r.name == "" || r.data == "" then r.frames else r.frames + [Frame(r.name, r.id, r.data)])
  }

  function DropSpace(s: string): string { if s != "" && s[0] == ' ' then s[1..] else s }

  /** One line of the stream. */
  function Fed(r: Reader, line: string): Reader {
    if line == "" then Dispatched(r)
    else if "event:" <= line then r.(name := TrimSpace(line[6..]))
    else if "id:" <= line then r.(id := TrimSpace(line[3..]))
    else if "data:" <= line then r.(data := r.data + DropSpace(line[5..]) + [NL])
    else r
  }

  function FedAll(r: Reader, lines: seq<string>): Reader
    decreases |lines|
  {
    if lines == [] then r else FedAll(Fed(r, lines[0]), lines[1..])
  }

  /** A field sets what it names, and leaves the rest as it was: a name and an id are taken without
      outer white space, and each data line adds what follows one space, and a line break. */
  lemma FieldLine(r: Reader, value: string)
    ensures Fed(r, "event:" + value) == Reader(TrimSpace(value), r.id, r.data, r.frames)
    ensures Fed(r, "id:" + value) == Reader(r.name, TrimSpace(value), r.data, r.frames)
    ensures Fed(r, "data:" + value)
      == Reader(r.name, r.id, r.data + (if " " <= value then value[1..] else value) + "\n", r.frames)
  {
    var event, id, data := "event:" + value, "id:" + value, "data:" + value;
    assert event[6..] == value && id[3..] == value && data[5..] == value;
    assert event[0] == 'e' && id[0] == 'i' && data[0] == 'd';
    assert !("event:" <= id) && !("event:" <= data) && !("id:" <= data);
  }

  /** The frames a body yields, and whether it was read to its end. The last event is dispatched
      at the end of the stream, but not after a line that was too long. */
  function Read(body: string, limit: nat): (seq<Frame>, bool) {
    var s := Lines(body, limit);
    var r := FedAll(START, s.lines);
    (if s.ok then Dispatched(r).frames else r.frames, s.ok)
  }

  /** readWatchSSEFrames over a whole body. */
  method ReadFrames(body: string, limit: nat) returns (frames: seq<Frame>, ok: bool)
    ensures (frames, ok) == Read(body, limit)
  {
    var r := START;
    var pos := 0;
    while pos < |body|
      invariant 0 <= pos <= |body|
      invariant FedAll(START, Lines(body, limit).lines) == FedAll(r, Lines(body[pos..], limit).lines)
      invariant Lines(body, limit).ok == Lines(body[pos..], limit).ok
    {
      var end := FindNewline(body, pos);
      NextLine(body, pos, end, limit);
      if end - pos >= limit {
        return r.frames, false;
      }
      var next := if end < |body| then end + 1 else end;
      FedFirstLine(r, DropCR(body[pos..end]), Lines(body[next..], limit).lines);
      r := FeedLine(r, DropCR(body[pos..end]));
      pos := next;
    }
    r := FeedLine(r, "");
    return r.frames, true;
  }

  lemma {:induction false} NextLine(body: string, pos: nat, end: nat, limit: nat)
    requires pos < |body| && pos <= end <= |body| && end - pos == LineEnd(body[pos..])
    ensures var next := if end < |body| then end + 1 else end;
      Lines(body[pos..], limit)
        == if end - pos >= limit then Scan([], false)
           else Scan([DropCR(body[pos..end])] + Lines(body[next..], limit).lines, Lines(body[next..], limit).ok)
  {
    var text, k := body[pos..], end - pos;
    var next := if end < |body| then end + 1 else end;
    assert text[..k] == body[pos..end];
    assert (if k < |text| then text[k + 1..] else "") == body[next..];
    assert FirstLine(text) == DropCR(body[pos..end]) && AfterLine(text) == body[next..];
  }

  lemma FedFirstLine(r: Reader, line: string, rest: seq<string>)
    ensures FedAll(r, [line] + rest) == FedAll(Fed(r, line), rest)
  {
    assert ([line] + rest)[1..] == rest;
  }

  /** The switch over one line; the Go variables are the fields of r. */
  method FeedLine(r: Reader, line: string) returns (r': Reader)
    ensures r' == Fed(r, line)
  {
    r' := r;
    if line == "" {
      if r'.name != "" && r'.data != "" {
        r' := r'.(frames := r'.frames + [Frame(r'.name, r'.id, r'.data)]);
      }
      r' := r'.(name := "", id := "", data := "");
    } else if "event:" <= line {
      r' := r'.(name := TrimSpace(line[6..]));
    } else if "id:" <= line {
      r' := r'.(id := TrimSpace(line[3..]));
    } else if "data:" <= line {
      var value := line[5..];
      if " " <= value {
        value := value[1..];
      }
      r' := r'.(data := r'.data + value + [NL]);
    }
  }

  method FindNewline(body: string, pos: nat) returns (end: nat)
    requires pos <= |body|
    ensures pos <= end <= |body| && end - pos == LineEnd(body[pos..])
  {
    end := pos;
    while end < |body| && body[end] != NL
      invariant pos <= end <= |body|
      invariant end - pos + LineEnd(body[end..]) == LineEnd(body[pos..])
    {
      assert body[end..][1..] == body[end + 1..];
      end := end + 1;
    }
  }

  lemma {:induction false} FedAllInTurn(r: Reader, a: seq<string>, b: seq<string>)
    ensures FedAll(r, a + b) == FedAll(FedAll(r, a), b)
    decreases |a|
  {
    if a == [] {
      assert a + b == b;
    } else {
      assert (a + b)[1..] == a[1..] + b;
      FedAllInTurn(Fed(r, a[0]), a[1..], b);
    }
  }

  // ---------------------------------------------------------------- round trip

  predicate Trimmed(s: string) { s != "" && TrimSpace(s) == s }

  /** A name, an id and data as the server prints them, in lines the scanner takes. JSON data has
      no line breaks; of carriage returns only one at its very end would be lost. */
  predicate Printable(e: Event, limit: nat) {
    && Trimmed(e.name) && OneLine("event: " + e.name) && |e.name| + 7 < limit
    && OneLine("data: " + e.data) && |e.data| + 6 < limit
    && (e.id.Some? ==> Trimmed(e.id.value) && OneLine("id: " + e.id.value) && |e.id.value| + 4 < limit)
  }

  /** The frame the reader makes of an event. */
  function Received(e: Event): Frame {
    Frame(e.name, if e.id.Some? then e.id.value else "", e.data + [NL])
  }

  function ReceivedAll(es: seq<Event>): seq<Frame> {
    if es == [] then [] else [Received(es[0])] + ReceivedAll(es[1..])
  }

  function HeadLines(e: Event): seq<string> {
    (if e.id.Some? then ["id: " + e.id.value] else []) + ["event: " + e.name]
  }

  function EventLines(e: Event): seq<string> { HeadLines(e) + ["data: " + e.data, ""] }

  lemma JoinedEvent(e: Event)
    ensures Joined(EventLines(e)) == Written(e)
    ensures Joined(HeadLines(e)) <= Written(e)
  {
    var tail := ["data: " + e.data, ""];
    assert Joined([""]) == [NL];
    assert tail[1..] == [""];
    assert Joined(tail) == "data: " + e.data + [NL] + [NL];
    JoinedInTurn(HeadLines(e), tail);
    var eventLine := "event: " + e.name;
    assert Joined([eventLine]) == eventLine + [NL] by { assert [eventLine][1..] == []; }
    if e.id.Some? {
      var head := ["id: " + e.id.value, eventLine];
      assert head[1..] == [eventLine];
      assert HeadLines(e) == head;
      assert Joined(head) == "id: " + e.id.value + [NL] + (eventLine + [NL]);
    } else {
      assert HeadLines(e) == [eventLine];
    }
    assert Joined(EventLines(e)) == Joined(HeadLines(e)) + Joined(tail);
  }

  lemma {:induction false} JoinedInTurn(a: seq<string>, b: seq<string>)
    ensures Joined(a + b) == Joined(a) + Joined(b)
  {
    if a == [] {
      assert a + b == b;
    } else {
      assert (a + b)[1..] == a[1..] + b;
      JoinedInTurn(a[1..], b);
    }
  }

  lemma SpaceIsTrimmed(s: string)
    requires Trimmed(s)
    ensures TrimSpace(" " + s) == s
  {
    assert (" " + s)[1..] == s;
  }

  lemma FedName(r: Reader, name: string)
    requires Trimmed(name)
    ensures Fed(r, "event: " + name) == r.(name := name)
  {
    var line := "event: " + name;
    assert line[..6] == "event:" && line[6..] == " " + name;
    SpaceIsTrimmed(name);
  }

  lemma FedID(r: Reader, id: string)
    requires Trimmed(id)
    ensures Fed(r, "id: " + id) == r.(id := id)
  {
    var line := "id: " + id;
    assert line[0] == 'i' && line[..3] == "id:" && line[3..] == " " + id;
    SpaceIsTrimmed(id);
  }

  lemma {:induction false} FedHead(fs: seq<Frame>, e: Event, limit: nat)
    requires Printable(e, limit)
    ensures FedAll(Reader("", "", "", fs), HeadLines(e)) == Reader(e.name, Received(e).id, "", fs)
  {
    var r := Reader("", "", "", fs);
    var named := ["event: " + e.name];
    FedName(r.(id := Received(e).id), e.name);
    FedOne(r.(id := Received(e).id), named[0]);
    if e.id.Some? {
      FedID(r, e.id.value);
      FedOne(r, "id: " + e.id.value);
      FedAllInTurn(r, ["id: " + e.id.value], named);
    } else {
      assert HeadLines(e) == named;
    }
  }

  lemma FedOne(r: Reader, line: string)
    ensures FedAll(r, [line]) == Fed(r, line)
  {
    assert [line][1..] == [];
    assert FedAll(Fed(r, line), []) == Fed(r, line);
  }

  lemma FedData(r: Reader, value: string)
    ensures Fed(r, "data: " + value) == r.(data := r.data + value + [NL])
  {
    var line := "data: " + value;
    assert line[0] == 'd' && line[..5] == "data:" && line[5..] == " " + value;
    assert (" " + value)[0] == ' ' && (" " + value)[1..] == value;
  }

  /** The lines of one event send its frame and leave nothing behind for the next event. */
  lemma {:induction false} FedEvent(fs: seq<Frame>, e: Event, limit: nat)
    requires Printable(e, limit)
    ensures FedAll(Reader("", "", "", fs), EventLines(e)) == Reader("", "", "", fs + [Received(e)])
  {
    FedHead(fs, e, limit);
    FedAllInTurn(Reader("", "", "", fs), HeadLines(e), ["data: " + e.data, ""]);
    FedTail(fs, e);
  }

  lemma FedTail(fs: seq<Frame>, e: Event)
    requires e.name != ""
    ensures FedAll(Reader(e.name, Received(e).id, "", fs), ["data: " + e.data, ""])
      == Reader("", "", "", fs + [Received(e)])
  {
    var r, line := Reader(e.name, Received(e).id, "", fs), "data: " + e.data;
    assert [line] + [""] == [line, ""];
    FedFirstLine(r, line, [""]);
    FedOne(Fed(r, line), "");
    FedData(r, e.data);
    assert r.data + e.data + [NL] == e.data + [NL];
  }

  function AllLines(es: seq<Event>): seq<string> {
    if es == [] then [] else EventLines(es[0]) + AllLines(es[1..])
  }

  lemma {:induction false} JoinedEvents(es: seq<Event>)
    ensures Joined(AllLines(es)) == WrittenAll(es)
  {
    if es != [] {
      JoinedEvents(es[1..]);
      JoinedEvent(es[0]);
      JoinedInTurn(EventLines(es[0]), AllLines(es[1..]));
    }
  }

  lemma {:induction false} AllLinesFit(es: seq<Event>, limit: nat)
    requires forall e | e in es :: Printable(e, limit)
    ensures forall l | l in AllLines(es) :: OneLine(l) && |l| < limit
  {
    if es != [] {
      assert Printable(es[0], limit);
      AllLinesFit(es[1..], limit);
    }
  }

  lemma {:induction false} FedEvents(fs: seq<Frame>, es: seq<Event>, limit: nat)
    requires forall e | e in es :: Printable(e, limit)
    ensures FedAll(Reader("", "", "", fs), AllLines(es)) == Reader("", "", "", fs + ReceivedAll(es))
    decreases |es|
  {
    if es == [] {
      assert fs + ReceivedAll(es) == fs;
    } else {
      FedFirst(fs, es, limit);
      FedEvents(fs + [Received(es[0])], es[1..], limit);
      Regrouped(fs, [Received(es[0])], ReceivedAll(es[1..]));
    }
  }

  lemma {:induction false} FedFirst(fs: seq<Frame>, es: seq<Event>, limit: nat)
    requires es != [] && Printable(es[0], limit)
    ensures FedAll(Reader("", "", "", fs), AllLines(es))
      == FedAll(Reader("", "", "", fs + [Received(es[0])]), AllLines(es[1..]))
  {
    FedAllInTurn(Reader("", "", "", fs), EventLines(es[0]), AllLines(es[1..]));
    FedEvent(fs, es[0], limit);
  }

  lemma {:induction false} LinesAfterEvents(es: seq<Event>, rest: string, limit: nat)
    requires forall e | e in es :: Printable(e, limit)
    ensures var s := Lines(rest, limit); Lines(WrittenAll(es) + rest, limit) == Scan(AllLines(es) + s.lines, s.ok)
  {
    JoinedEvents(es);
    AllLinesFit(es, limit);
    LinesOfJoined(AllLines(es), rest, limit);
  }

  lemma {:induction false} FedAfterEvents(es: seq<Event>, lines: seq<string>, limit: nat)
    requires forall e | e in es :: Printable(e, limit)
    ensures FedAll(START, AllLines(es) + lines) == FedAll(Reader("", "", "", ReceivedAll(es)), lines)
  {
    FedEvents([], es, limit);
    assert [] + ReceivedAll(es) == ReceivedAll(es);
    FedAllInTurn(START, AllLines(es), lines);
  }

  /** What the reader makes of any events and the text after them: their frames, in order, each
      with its own id or none, and then the text read afresh. */
  lemma {:induction false} ReadAfterEvents(es: seq<Event>, rest: string, limit: nat)
    requires forall e | e in es :: Printable(e, limit)
    ensures var s := Lines(rest, limit);
      Lines(WrittenAll(es) + rest, limit) == Scan(AllLines(es) + s.lines, s.ok)
      && FedAll(START, AllLines(es) + s.lines) == FedAll(Reader("", "", "", ReceivedAll(es)), s.lines)
  {
    LinesAfterEvents(es, rest, limit);
    FedAfterEvents(es, Lines(rest, limit).lines, limit);
  }

  /** Reading what was written for any events yields exactly their frames, in order. */
  lemma {:induction false} RoundTrip(es: seq<Event>, limit: nat)
    requires forall e | e in es :: Printable(e, limit)
    ensures Read(WrittenAll(es), limit) == (ReceivedAll(es), true)
  {
    ReadAfterEvents(es, "", limit);
    assert WrittenAll(es) + "" == WrittenAll(es);
    assert AllLines(es) + [] == AllLines(es);
  }

  lemma {:induction false} NoFrameWithoutBlank(r: Reader, lines: seq<string>)
    requires "" !in lines
    ensures FedAll(r, lines).frames == r.frames
    decreases |lines|
  {
    if lines != [] {
      assert lines[0] in lines && forall l | l in lines[1..] :: l in lines;
      NoFrameWithoutBlank(Fed(r, lines[0]), lines[1..]);
    }
  }

  /** A line that does not fit the buffer ends the reading with an error: the events before it are
      all sent, and the one it belongs to is not, whatever had arrived of it. */
  lemma OverlongLineStops(es: seq<Event>, begun: seq<string>, long: string, rest: string, limit: nat)
    requires forall e | e in es :: Printable(e, limit)
    requires forall l | l in begun :: l != "" && OneLine(l) && |l| < limit
    requires long != "" && NL !in long && |long| >= limit
    ensures Read(WrittenAll(es) + (Joined(begun) + (long + rest)), limit) == (ReceivedAll(es), false)
  {
    var tail := long + rest;
    assert forall i | 0 <= i < |long| :: tail[i] == long[i] != NL;
    assert LineEnd(tail) >= |long|;
    LinesOfJoined(begun, tail, limit);
    ReadAfterEvents(es, Joined(begun) + tail, limit);
    assert begun + [] == begun;
    NoFrameWithoutBlank(Reader("", "", "", ReceivedAll(es)), begun);
  }

  /** The id line the server prints for an entry is one the round trip takes. */
  lemma DecimalIDIsPrintable(id: int)
    ensures Trimmed(Decimal(id)) && OneLine("id: " + Decimal(id))
  {
    var d := Decimal(id);
    assert d[0] == '-' || '0' <= d[0] <= '9';
    assert d[|d| - 1] == '-' || '0' <= d[|d| - 1] <= '9';
    PlainLine("id: ", d);
  }

  lemma PlainLine(a: string, d: string)
    requires NL !in a && NL !in d && d != "" && d[|d| - 1] != '\r'
    ensures OneLine(a + d)
  {
    var s := a + d;
    assert s[|s| - 1] == d[|d| - 1];
  }

  // ---------------------------------------------------------------- a connection that is cut

  /** The lines the scanner yields when only the first n characters of the lines arrive. */
  function Pieces(lines: seq<string>, n: nat): seq<string> {
    if lines == [] || n == 0 then []
    else if n <= |lines[0]| then [DropCR(lines[0][..n])]
    else [lines[0]] + Pieces(lines[1..], n - |lines[0]| - 1)
  }

  lemma CutInFirst(lines: seq<string>, n: nat, limit: nat)
    requires lines != [] && 0 < n <= |lines[0]| < limit && NL !in lines[0] && n <= |Joined(lines)|
    ensures Lines(Joined(lines)[..n], limit) == Scan([DropCR(lines[0][..n])], true)
  {
    assert Joined(lines)[..n] == lines[0][..n];
    LinesOfLast(lines[0][..n], limit);
  }

  lemma CutPastFirst(line: string, rest: string, n: nat, limit: nat)
    requires |line| < n <= |line| + 1 + |rest| && OneLine(line) && |line| < limit
    ensures var below := Lines(rest[..n - |line| - 1], limit);
      Lines((line + [NL] + rest)[..n], limit) == Scan([line] + below.lines, below.ok)
  {
    assert (line + [NL] + rest)[..n] == line + [NL] + rest[..n - |line| - 1];
    LinesOfLine(line, rest[..n - |line| - 1], limit);
  }

  lemma CutLater(line: string, rest: string, pieces: seq<string>, n: nat, limit: nat)
    requires OneLine(line) && |line| < limit && |line| < n <= |line| + 1 + |rest|
    requires Lines(rest[..n - |line| - 1], limit) == Scan(pieces, true)
    ensures Lines((line + [NL] + rest)[..n], limit) == Scan([line] + pieces, true)
  {
    CutPastFirst(line, rest, n, limit);
  }

  lemma JoinedFirst(lines: seq<string>)
    requires lines != []
    ensures Joined(lines) == lines[0] + [NL] + Joined(lines[1..])
  {
  }

  lemma PiecesLater(lines: seq<string>, n: nat)
    requires lines != [] && n > |lines[0]|
    ensures Pieces(lines, n) == [lines[0]] + Pieces(lines[1..], n - |lines[0]| - 1)
  {
  }

  lemma {:induction false} LinesOfCut(lines: seq<string>, n: nat, limit: nat)
    requires forall l | l in lines :: OneLine(l) && |l| < limit
    requires n <= |Joined(lines)|
    ensures Lines(Joined(lines)[..n], limit) == Scan(Pieces(lines, n), true)
    decreases |lines|
  {
    if n > 0 {
      assert lines[0] in lines && forall l | l in lines[1..] :: l in lines;
      if n <= |lines[0]| {
        CutInFirst(lines, n, limit);
      } else {
        LinesOfCut(lines[1..], n - |lines[0]| - 1, limit);
        JoinedFirst(lines);
        PiecesLater(lines, n);
        CutLater(lines[0], Joined(lines[1..]), Pieces(lines[1..], n - |lines[0]| - 1), n, limit);
      }
    }
  }

  lemma {:induction false} PiecesInTurn(a: seq<string>, b: seq<string>, n: nat)
    ensures n <= |Joined(a)| ==> Pieces(a + b, n) == Pieces(a, n)
    ensures n > |Joined(a)| ==> Pieces(a + b, n) == a + Pieces(b, n - |Joined(a)|)
    decreases |a|
  {
    if a == [] {
      assert a + b == b;
    } else {
      assert (a + b)[1..] == a[1..] + b && (a + b)[0] == a[0];
      JoinedFirst(a);
      if n > |a[0]| {
        PiecesInTurn(a[1..], b, n - |a[0]| - 1);
        PiecesLater(a + b, n);
        PiecesLater(a, n);
        FirstAndOthers(a, Pieces(b, if n > |Joined(a)| then n - |Joined(a)| else 0));
      }
    }
  }

  /** A line that brings no data: it is not blank and no data line. */
  predicate BringsNoData(line: string) { line != "" && line[0] != 'd' && line[0] != '\r' }

  lemma {:induction false} PiecesBringNoData(lines: seq<string>, n: nat)
    requires forall l | l in lines :: BringsNoData(l)
    ensures forall l | l in Pieces(lines, n) :: BringsNoData(l)
    decreases |lines|
  {
    if lines != [] && n > 0 {
      assert BringsNoData(lines[0]);
      if n <= |lines[0]| {
        assert lines[0][..n][0] == lines[0][0];
      } else {
        PiecesBringNoData(lines[1..], n - |lines[0]| - 1);
      }
    }
  }

  lemma {:induction false} FedWithoutData(r: Reader, lines: seq<string>)
    requires forall l | l in lines :: BringsNoData(l)
    ensures FedAll(r, lines).data == r.data && FedAll(r, lines).frames == r.frames
    decreases |lines|
  {
    if lines != [] {
      assert BringsNoData(lines[0]);
      FedWithoutData(Fed(r, lines[0]), lines[1..]);
    }
  }

  /** The data among the first k characters of a data line. */
  function DataUpTo(data: string, k: nat): string {
    if k <= 6 then "" else if k - 6 <= |data| then data[..k - 6] else data
  }

  /** The frame a reader with a name and an id sends when the first k characters of the event's data
      line and its two newlines arrive, and no more. */
  function CutFrame(name: string, id: string, data: string, k: int): seq<Frame> {
    if k < 5 then [] else [Frame(name, id, DropCR(DataUpTo(data, k)) + [NL])]
  }

  lemma FedUnknown(r: Reader, line: string)
    requires line != "" && line <= "data"
    ensures Fed(r, line) == r
  {
    assert line[0] == 'd' && |line| < 5;
  }

  lemma FedBareData(r: Reader)
    requires r.data == ""
    ensures Fed(r, "data:") == r.(data := [NL])
  {
    var line := "data:";
    assert line[0] == 'd' && line[..5] == line && line[5..] == "";
    assert r.data + "" + [NL] == [NL];
  }

  lemma FedFullData(r: Reader, data: string)
    requires r.data == ""
    ensures Fed(r, "data: " + data) == r.(data := data + [NL])
  {
    FedData(r, data);
    assert r.data + data + [NL] == data + [NL];
  }

  /** The data line of which k characters arrived. */
  lemma DataPiece(r: Reader, data: string, k: nat)
    requires r.data == "" && 0 < k <= |data| + 6
    ensures var line := DropCR(("data: " + data)[..k]);
      Fed(r, line) == if k < 5 then r else r.(data := DropCR(DataUpTo(data, k)) + [NL])
  {
    var line := "data: " + data;
    assert line[..6] == "data: " && line[6..] == data;
    if k < 5 {
      assert line[..k] == "data"[..k];
      FedUnknown(r, line[..k]);
    } else if k == 5 {
      assert line[..k] == "data:";
      FedBareData(r);
      assert "" + [NL] == [NL];
    } else {
      var part := data[..k - 6];
      assert line[..k] == "data: " + part;
      assert DropCR("data: " + part) == "data: " + DropCR(part);
      FedFullData(r, DropCR(part));
    }
  }

  /** The pieces of the data line and the blank line after it. */
  lemma TailPieces(line: string, k: nat)
    requires line != "" && 0 < k <= |line| + 2
    ensures Pieces([line, ""], k)
      == if k <= |line| then [DropCR(line[..k])] else if k == |line| + 1 then [line] else [line, ""]
  {
    assert [line, ""][1..] == [""] && [""][1..] == [];
    assert k > |line| ==> Pieces([line, ""], k) == [line] + Pieces([""], k - |line| - 1);
  }

  lemma TailYields(r: Reader, data: string, k: nat)
    requires r.data == "" && r.name != "" && OneLine("data: " + data) && 0 < k <= |data| + 8
    ensures Dispatched(FedAll(r, Pieces(["data: " + data, ""], k))).frames
      == r.frames + CutFrame(r.name, r.id, data, k)
  {
    var line := "data: " + data;
    TailPieces(line, k);
    if k <= |line| {
      FedOne(r, DropCR(line[..k]));
      DataPiece(r, data, k);
      assert r.frames + [] == r.frames;
    } else {
      WholeData(data);
      FedFullData(r, data);
      FedOne(r, line);
      assert [line] + [""] == [line, ""];
      FedFirstLine(r, line, [""]);
      FedOne(Fed(r, line), "");
      assert DataUpTo(data, k) == data;
    }
  }

  lemma WholeData(data: string)
    requires OneLine("data: " + data)
    ensures DropCR(data) == data
  {
    var line := "data: " + data;
    if data != "" {
      assert line[|line| - 1] == data[|data| - 1];
    }
  }

  /** The lines of an event that are cut after n characters, fed to a reader that waits for the next
      event, and the end of the body. */
  lemma PiecesYield(fs: seq<Frame>, head: seq<string>, r: Reader, data: string, n: nat)
    requires forall l | l in head :: BringsNoData(l)
    requires FedAll(Reader("", "", "", fs), head) == r && r.data == "" && r.name != "" && r.frames == fs
    requires OneLine("data: " + data) && n <= |Joined(head)| + |data| + 8
    ensures Dispatched(FedAll(Reader("", "", "", fs), Pieces(head + ["data: " + data, ""], n))).frames
      == fs + CutFrame(r.name, r.id, data, n - |Joined(head)|)
  {
    var tail := ["data: " + data, ""];
    PiecesInTurn(head, tail, n);
    if n <= |Joined(head)| {
      CutInHead(fs, head, n);
      assert fs + [] == fs;
    } else {
      CutInTail(fs, head, r, data, n - |Joined(head)|);
    }
  }

  lemma CutInTail(fs: seq<Frame>, head: seq<string>, r: Reader, data: string, k: nat)
    requires FedAll(Reader("", "", "", fs), head) == r && r.data == "" && r.name != "" && r.frames == fs
    requires OneLine("data: " + data) && 0 < k <= |data| + 8
    ensures Dispatched(FedAll(Reader("", "", "", fs), head + Pieces(["data: " + data, ""], k))).frames
      == fs + CutFrame(r.name, r.id, data, k)
  {
    FedAllInTurn(Reader("", "", "", fs), head, Pieces(["data: " + data, ""], k));
    TailYields(r, data, k);
  }

  lemma CutInHead(fs: seq<Frame>, head: seq<string>, n: nat)
    requires forall l | l in head :: BringsNoData(l)
    ensures Dispatched(FedAll(Reader("", "", "", fs), Pieces(head, n))).frames == fs
  {
    PiecesBringNoData(head, n);
    FedWithoutData(Reader("", "", "", fs), Pieces(head, n));
  }

  lemma HeadBringsNoData(e: Event)
    ensures forall l | l in HeadLines(e) :: BringsNoData(l)
  {
    assert forall l | l in HeadLines(e) :: l[0] == 'i' || l[0] == 'e';
  }

  lemma EventLinesFit(e: Event, limit: nat)
    requires Printable(e, limit)
    ensures forall l | l in EventLines(e) :: OneLine(l) && |l| < limit
    ensures OneLine("data: " + e.data) && e.name != ""
  {
  }

  lemma WrittenSize(e: Event)
    ensures |Written(e)| == |Joined(HeadLines(e))| + |e.data| + 8
  {
    JoinedEvent(e);
    JoinedInTurn(HeadLines(e), ["data: " + e.data, ""]);
    assert ["data: " + e.data, ""][1..] == [""] && [""][1..] == [];
    assert |Joined(["data: " + e.data, ""])| == |e.data| + 8;
  }

  /** The frames the reader sends for an event of which the first n characters arrive. */
  function CutFrames(e: Event, n: nat): seq<Frame> {
    CutFrame(e.name, Received(e).id, e.data, n - |Joined(HeadLines(e))|)
  }

  lemma {:induction false} LinesOfCutEvent(e: Event, n: nat, limit: nat)
    requires Printable(e, limit) && n <= |Written(e)|
    ensures Lines(Written(e)[..n], limit) == Scan(Pieces(EventLines(e), n), true)
  {
    JoinedEvent(e);
    EventLinesFit(e, limit);
    LinesOfCut(EventLines(e), n, limit);
  }

  lemma {:induction false} CutEventYields(fs: seq<Frame>, e: Event, n: nat)
    requires FedAll(Reader("", "", "", fs), HeadLines(e)) == Reader(e.name, Received(e).id, "", fs)
    requires e.name != "" && OneLine("data: " + e.data) && n <= |Written(e)|
    ensures Dispatched(FedAll(Reader("", "", "", fs), Pieces(EventLines(e), n))).frames == fs + CutFrames(e, n)
  {
    WrittenSize(e);
    HeadBringsNoData(e);
    PiecesYield(fs, HeadLines(e), Reader(e.name, Received(e).id, "", fs), e.data, n);
  }

  lemma {:induction false} CutYields(es: seq<Event>, e: Event, n: nat, limit: nat)
    requires (forall x | x in es :: Printable(x, limit)) && Printable(e, limit) && n <= |Written(e)|
    ensures Read(WrittenAll(es) + Written(e)[..n], limit) == (ReceivedAll(es) + CutFrames(e, n), true)
  {
    ReadAfterEvents(es, Written(e)[..n], limit);
    LinesOfCutEvent(e, n, limit);
    FedHead(ReceivedAll(es), e, limit);
    EventLinesFit(e, limit);
    CutEventYields(ReceivedAll(es), e, n);
  }

  /** Wherever a body ends without an input error, after whole events and n characters of one more:
      a frame for that event is sent if and only if the cut comes no sooner than after its "data:",
      and it holds as much of the data as arrived. The reader dispatches at the end of the body, where
      section 9.2.6 of the HTML standard discards an event that no blank line ends. */
  lemma {:induction false} CutIsDispatchedIff(es: seq<Event>, e: Event, n: nat, limit: nat)
    requires (forall x | x in es :: Printable(x, limit)) && Printable(e, limit) && n <= |Written(e)|
    ensures Read(WrittenAll(es) + Written(e)[..n], limit) == (ReceivedAll(es) + CutFrames(e, n), true)
    ensures CutFrames(e, n) != [] <==> n >= |Joined(HeadLines(e))| + |"data:"|
    ensures n > |Joined(HeadLines(e))| + |"data: " + e.data| ==> CutFrames(e, n) == [Received(e)]
  {
    CutYields(es, e, n, limit);
    EventLinesFit(e, limit);
    WholeData(e.data);
  }
}
