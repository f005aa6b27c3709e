/** Newline-delimited streams: the splitter the audio and spectrum listeners run
    on whatever chunks the socket delivers. */
module Lines {
  import opened Basics

  const NEWLINE: byte := 10

  /** The first newline, or the length. */
  function NewlineAt(s: seq<byte>): (k: nat)
    ensures k <= |s| && NEWLINE !in s[..k]
    ensures k < |s| ==> s[k] == NEWLINE
    ensures k == |s| <==> NEWLINE !in s
  {
    if s == [] || s[0] == NEWLINE then 0 else 1 + NewlineAt(s[1..])
  }

  /** The complete lines of a stream and the unterminated rest. */
  function Split(s: seq<byte>): (seq<seq<byte>>, seq<byte>) {
    if s == [] then ([], [])
    else
      var (lines, rest) := Split(s[..|s| - 1]);
      if s[|s| - 1] == NEWLINE then (lines + [rest], []) else (lines, rest + [s[|s| - 1]])
  }

  class LineSplitter {
    var buf: seq<byte>

    constructor ()
      ensures buf == []
    {
      buf := [];
    }

    /** Appends a chunk and cuts off every line it completes. */
    method Feed(chunk: seq<byte>) returns (lines: seq<seq<byte>>)
      modifies this
      ensures (lines, buf) == Split(old(buf) + chunk)
    {
      buf := buf + chunk;
      ghost var whole := Split(buf);
      lines := [];
      assert [] + whole.0 == whole.0;
      while NEWLINE in buf
        invariant (lines + Split(buf).0, Split(buf).1) == whole
        decreases |buf|
      {
        var k := NewlineAt(buf);
        var line, tail := buf[..k], buf[k + 1..];
        CutFirst(buf, line, tail);
        JoinLines(lines, line, Split(tail).0);
        lines := lines + [line];
        buf := tail;
      }
      NoLine(buf);
      assert lines + [] == lines;
    }
  }

  lemma {:induction false} NoLine(s: seq<byte>)
    requires NEWLINE !in s
    ensures Split(s) == ([], s)
  {
    if s != [] {
      var n := |s| - 1;
      NoLine(s[..n]);
      assert s[..n] + [s[n]] == s;
    }
  }

  lemma JoinLines(lines: seq<seq<byte>>, line: seq<byte>, more: seq<seq<byte>>)
    ensures lines + ([line] + more) == lines + [line] + more
  {
  }

  lemma SplitSnoc(s: seq<byte>, b: byte)
    ensures var (lines, rest) := Split(s);
            Split(s + [b]) == if b == NEWLINE then (lines + [rest], []) else (lines, rest + [b])
  {
    assert (s + [b])[..|s|] == s;
  }

  /** Splitting a, then its rest followed by b, is splitting a + b. */
  lemma {:induction false} SplitConcat(a: seq<byte>, b: seq<byte>)
    ensures var (lines, rest) := Split(a);
            var (more, last) := Split(rest + b);
            Split(a + b) == (lines + more, last)
    decreases b
  {
    var (lines, rest) := Split(a);
    if b == [] {
      SplitMeaning(a);
      NoLine(rest);
      assert rest + b == rest && a + b == a && lines + [] == lines;
    } else {
      var n := |b| - 1;
      assert a + b == a + b[..n] + [b[n]] && rest + b == rest + b[..n] + [b[n]];
      SplitConcat(a, b[..n]);
      SplitSnoc(a + b[..n], b[n]);
      SplitSnoc(rest + b[..n], b[n]);
      var (more, last) := Split(rest + b[..n]);
      assert lines + (more + [last]) == lines + more + [last];
    }
  }

  lemma CutFirst(s: seq<byte>, line: seq<byte>, tail: seq<byte>)
    requires s == line + [NEWLINE] + tail && NEWLINE !in line
    ensures Split(s) == ([line] + Split(tail).0, Split(tail).1)
  {
    NoLine(line);
    SplitSnoc(line, NEWLINE);
    var head := line + [NEWLINE];
    assert Split(line).0 + [line] == [line] && [] + tail == tail;
    SplitConcat(head, tail);
  }

  // ----- What splitting means -----

  /** The stream is its lines, each with its newline, and the rest. */
  function Unsplit(lines: seq<seq<byte>>, rest: seq<byte>): seq<byte>
    decreases lines
  {
    if lines == [] then rest
    else Unsplit(lines[..|lines| - 1], lines[|lines| - 1]) + [NEWLINE] + rest
  }

  ghost predicate NewlineFree(lines: seq<seq<byte>>, rest: seq<byte>) {
    NEWLINE !in rest && forall i :: 0 <= i < |lines| ==> NEWLINE !in lines[i]
  }

  lemma UnsplitSnoc(lines: seq<seq<byte>>, rest: seq<byte>, b: byte)
    ensures Unsplit(lines, rest + [b]) == Unsplit(lines, rest) + [b]
    ensures Unsplit(lines + [rest], []) == Unsplit(lines, rest) + [NEWLINE]
  {
    assert (lines + [rest])[..|lines|] == lines;
  }

  /** No line and no rest contains a newline, and put together they are the stream. */
  lemma {:induction false} SplitMeaning(s: seq<byte>)
    ensures var (lines, rest) := Split(s);
            Unsplit(lines, rest) == s && NewlineFree(lines, rest)
  {
    if s != [] {
      var n := |s| - 1;
      var (lines, rest) := Split(s[..n]);
      SplitMeaning(s[..n]);
      UnsplitSnoc(lines, rest, s[n]);
      assert s[..n] + [s[n]] == s;
    }
  }

  /** Splitting recovers any lines from their stream. */
  lemma {:induction false} SplitUndoesUnsplit(lines: seq<seq<byte>>, rest: seq<byte>)
    requires NewlineFree(lines, rest)
    ensures Split(Unsplit(lines, rest)) == (lines, rest)
    decreases lines
  {
    if lines == [] {
      NoLine(rest);
    } else {
      var n := |lines| - 1;
      var stream := Unsplit(lines[..n], lines[n]);
      SplitUndoesUnsplit(lines[..n], lines[n]);
      SplitSnoc(stream, NEWLINE);
      SplitConcat(stream + [NEWLINE], rest);
      NoLine(rest);
      assert [] + rest == rest && lines[..n] + [lines[n]] + [] == lines;
    }
  }

  /** The splitter over a list of chunks. */
  function FeedChunks(buf: seq<byte>, chunks: seq<seq<byte>>): (seq<seq<byte>>, seq<byte>)
    decreases chunks
  {
    if chunks == [] then ([], buf)
    else
      var (lines, rest) := Split(buf + chunks[0]);
      var (more, last) := FeedChunks(rest, chunks[1..]);
      (lines + more, last)
  }

  /** However the stream is cut, the lines are those of the whole stream. */
  lemma {:induction false} ChunkingIrrelevant(buf: seq<byte>, chunks: seq<seq<byte>>)
    requires NEWLINE !in buf
    ensures FeedChunks(buf, chunks) == Split(buf + Flatten(chunks))
    decreases chunks
  {
    if chunks == [] {
      assert buf + [] == buf;
      NoLine(buf);
    } else {
      var first, more := buf + chunks[0], Flatten(chunks[1..]);
      SplitMeaning(first);
      ChunkingIrrelevant(Split(first).1, chunks[1..]);
      SplitConcat(first, more);
      assert first + more == buf + (chunks[0] + more);
    }
  }
}
