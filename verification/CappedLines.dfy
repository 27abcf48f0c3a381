/** Reading a transcript line by line through a buffer that is smaller than its lines. */
module CappedLines {
  import opened Wrappers

  const NL: char := '\n'

  /** The first position at or after pos that holds a newline, or the end of the data. */
  function LineEnd(data: string, pos: nat): (k: nat)
    requires pos <= |data|
    ensures pos <= k <= |data|
    ensures k < |data| ==> data[k] == NL
    ensures forall i | pos <= i < k :: data[i] != NL
    decreases |data| - pos
  {
    if pos == |data| || data[pos] == NL then pos else LineEnd(data, pos + 1)
  }

  lemma LineEndIs(data: string, pos: nat, k: nat)
    requires pos <= k <= |data| && (k < |data| ==> data[k] == NL)
    requires forall i | pos <= i < k :: data[i] != NL
    ensures LineEnd(data, pos) == k
  {
    var e := LineEnd(data, pos);
    assert e < |data| ==> data[e] == NL;
    assert k < |data| ==> data[k] == NL;
  }

  // ---------------------------------------------------------------- the buffered reader

  /** How one ReadSlice ends: at a newline, with a full buffer, at the end of the data, or in an
      input error. */
  datatype SliceEnd = Newline | BufferFull | EndOfFile | Failed

  /** What ReadSlice may return at a position of input that ends after the data, with an error if
      fails: it stops after the first newline, before that wherever its buffer is full, and without
      a newline where the input ends. */
  predicate MaySlice(data: string, fails: bool, pos: nat, n: nat, end: SliceEnd)
    requires pos <= |data|
  {
    var e := LineEnd(data, pos);
    match end
    case Newline => e < |data| && pos + n == e + 1
    case BufferFull => n > 0 && pos + n <= e
    case EndOfFile => e == |data| && pos + n == e && !fails
    case Failed => e == |data| && pos + n == e && fails
  }

  /** A buffered reader: the data its input delivers, and whether the input then ends in an error. */
  class Reader {
    const data: string
    const fails: bool
    var pos: nat

    constructor (data: string, fails: bool)
      ensures this.data == data && this.fails == fails && pos == 0
    {
      this.data, this.fails, pos := data, fails, 0;
    }

    /** bufio.Reader.ReadSlice('\n'), with any size of buffer. */
    method ReadSlice() returns (chunk: string, end: SliceEnd)
      requires pos <= |data|
      modifies this`pos
      ensures pos == old(pos) + |chunk| <= |data| && chunk == data[old(pos)..pos]
      ensures MaySlice(data, fails, old(pos), |chunk|, end)
    {
      var e := LineEnd(data, pos);
      var n: int := *;
      if 0 < n <= e - pos {
        end := BufferFull;
      } else if e < |data| {
        n, end := e + 1 - pos, Newline;
      } else {
        n, end := e - pos, if fails then Failed else EndOfFile;
      }
      chunk := data[pos..pos + n];
      pos := pos + n;
    }
  }

  /** The end of the line at a position: just past its newline, or the end of the data. */
  function LineStop(data: string, pos: nat): nat
    requires pos <= |data|
  {
    if LineEnd(data, pos) < |data| then LineEnd(data, pos) + 1 else |data|
  }

  /** readCappedLine. However the buffer splits the input, it returns the next line, newline
      included, if its length is at most the limit, and otherwise says that the line is too long; in
      both cases the reader stands just past that line. Only a line that no newline ends comes with
      the end of the input. */
  method ReadCappedLine(r: Reader, limit: nat) returns (line: string, tooLong: bool, end: SliceEnd)
    requires r.pos <= |r.data|
    modifies r`pos
    ensures r.pos == LineStop(r.data, old(r.pos))
    ensures tooLong == (r.pos - old(r.pos) > limit)
    ensures line == if tooLong then "" else r.data[old(r.pos)..r.pos]
    ensures end == if LineEnd(r.data, old(r.pos)) < |r.data| then Newline else if r.fails then Failed else EndOfFile
  {
    line, tooLong := "", false;
    ghost var start := r.pos;
    while true
      invariant start <= r.pos <= LineEnd(r.data, start)
      invariant tooLong == (r.pos - start > limit)
      invariant line == if tooLong then "" else r.data[start..r.pos]
      decreases |r.data| - r.pos
    {
      LineEndIs(r.data, r.pos, LineEnd(r.data, start));
      var chunk;
      chunk, end := r.ReadSlice();
      if !tooLong {
        if |line| + |chunk| > limit {
          tooLong := true;
          line := "";
        } else {
          line := line + chunk;
        }
      }
      if end != BufferFull {
        return;
      }
    }
  }

  // ---------------------------------------------------------------- the whole transcript

  /** The lines from a position on, each with its newline, and at the end what follows the last
      newline, which may be nothing. */
  function Lines(data: string, pos: nat): seq<string>
    requires pos <= |data|
    decreases |data| - pos
  {
    var e := LineEnd(data, pos);
    if e == |data| then [data[pos..]] else [data[pos..e + 1]] + Lines(data, e + 1)
  }

  function Concatenation(lines: seq<string>): string {
    if lines == [] then "" else lines[0] + Concatenation(lines[1..])
  }

  /** The lines are the data cut after each of its newlines, and nowhere else. */
  lemma {:induction false} LinesCutAtNewlines(data: string, pos: nat)
    requires pos <= |data|
    ensures var lines := Lines(data, pos);
      && Concatenation(lines) == data[pos..] && lines != []
      && (forall i, k | 0 <= i < |lines| && 0 <= k < |lines[i]| ::
        lines[i][k] == NL <==> i < |lines| - 1 && k == |lines[i]| - 1)
      && (forall i | 0 <= i < |lines| - 1 :: lines[i] != "")
    decreases |data| - pos
  {
    var e, lines := LineEnd(data, pos), Lines(data, pos);
    if e == |data| {
      assert lines[1..] == [];
    } else {
      LinesCutAtNewlines(data, e + 1);
      assert lines[1..] == Lines(data, e + 1);
      assert data[pos..] == data[pos..e + 1] + data[e + 1..];
    }
  }

  /** What one line adds. */
  function FoundIn<T>(line: string, limit: nat, accept: string -> Option<T>): seq<T> {
    if |line| <= limit && accept(line).Some? then [accept(line).value] else []
  }

  /** What matching finds in the lines that are short enough, in order. */
  function Found<T>(lines: seq<string>, limit: nat, accept: string -> Option<T>): seq<T> {
    if lines == [] then [] else FoundIn(lines[0], limit, accept) + Found(lines[1..], limit, accept)
  }

  /** Each line that is short enough adds what it matches, in its place, and a longer one nothing. */
  lemma {:induction false} EachLineMatched<T>(lines: seq<string>, i: nat, limit: nat, accept: string -> Option<T>)
    requires i < |lines|
    ensures Found(lines, limit, accept) == Found(lines[..i], limit, accept)
      + (if |lines[i]| > limit || accept(lines[i]).None? then [] else [accept(lines[i]).value])
      + Found(lines[i + 1..], limit, accept)
  {
    if i > 0 {
      EachLineMatched(lines[1..], i - 1, limit, accept);
      assert lines[1..][..i - 1] == lines[..i][1..] && lines[1..][i..] == lines[i + 1..];
    }
  }

  lemma NextLine<T>(data: string, pos: nat, limit: nat, accept: string -> Option<T>)
    requires pos <= |data|
    ensures var all, next := Found(Lines(data, pos), limit, accept), LineStop(data, pos);
      && pos <= next <= |data|
      && (LineEnd(data, pos) == |data| ==> all == FoundIn(data[pos..next], limit, accept))
      && (LineEnd(data, pos) < |data| ==>
        pos < next && all == FoundIn(data[pos..next], limit, accept) + Found(Lines(data, next), limit, accept))
  {
    var lines, next := Lines(data, pos), LineStop(data, pos);
    if LineEnd(data, pos) == |data| {
      assert lines == [data[pos..]] && lines[1..] == [] && data[pos..] == data[pos..next];
    } else {
      assert lines == [data[pos..next]] + Lines(data, next) && lines[1..] == Lines(data, next);
    }
  }

  /** scanTranscript over an opened file: it ends, and unless the input ends in an error it has
      matched exactly the lines that are short enough, in file order, however the buffer splits
      the file. */
  method ScanTranscript<T>(r: Reader, limit: nat, accept: string -> Option<T>) returns (found: Option<seq<T>>)
    requires r.pos <= |r.data|
    modifies r`pos
    ensures found == if r.fails then None else Some(Found(Lines(r.data, old(r.pos)), limit, accept))
    ensures r.pos == |r.data|
  {
    var humans: seq<T> := [];
    ghost var whole := Found(Lines(r.data, r.pos), limit, accept);
    while true
      invariant r.pos <= |r.data|
      invariant humans + Found(Lines(r.data, r.pos), limit, accept) == whole
      decreases |r.data| - r.pos
    {
      ghost var pos, before := r.pos, humans;
      NextLine(r.data, pos, limit, accept);
      var line, tooLong, end := ReadCappedLine(r, limit);
      ghost var added := FoundIn(r.data[pos..r.pos], limit, accept);
      if !tooLong {
        var human := accept(line);
        if human.Some? {
          humans := humans + [human.value];
        }
      }
      assert humans == before + added;
      if end == EndOfFile {
        return Some(humans);
      }
      if end == Failed {
        return None;
      }
      Regrouped(before, added, Found(Lines(r.data, r.pos), limit, accept));
    }
  }
}
