/** Splitting template source into chunks, with line numbers. */
module TplTokenizer {
  import opened TplExpr
  import opened TplText
  import opened TplBlocks

  datatype Delim = Delim(open: string, close: string, kind: ChunkType)

  const DELIMS: seq<Delim> := [
    Delim("{#", "#}", CommentChunk),
    Delim("{{", "}}", ExpressionChunk),
    Delim("{%", "%}", TagChunk)]

  const NO_DELIM: nat := 3

  function NewLines(src: string, start: nat, end: nat): nat
    requires start <= end <= |src|
    decreases end - start
  {
    if start == end then 0 else NewLines(src, start, end - 1) + (if src[end - 1] == '\n' then 1 else 0)
  }

  lemma {:induction false} NewLinesAdd(src: string, a: nat, b: nat, c: nat)
    requires a <= b <= c <= |src|
    ensures NewLines(src, a, c) == NewLines(src, a, b) + NewLines(src, b, c)
    decreases c - b
  {
    if b < c { NewLinesAdd(src, a, b, c - 1); }
  }

  /** The line a position is on, counting from one. */
  function LineAt(src: string, pos: nat): nat
    requires pos <= |src|
  {
    1 + NewLines(src, 0, pos)
  }

  /** The earliest opening among the first n delimiters from `pos` on, and which it is. */
  function Nearest(src: string, pos: nat, n: nat): (r: (nat, nat))
    requires n <= |DELIMS|
    ensures r.0 <= |src| && (r.1 < n || r == (|src|, NO_DELIM))
    ensures r.1 < n ==> pos <= r.0 && Occurs(src, DELIMS[r.1].open, r.0)
    ensures forall i, k :: 0 <= i < n && pos <= k < r.0 ==> !Occurs(src, DELIMS[i].open, k)
  {
    if n == 0 then (|src|, NO_DELIM)
    else
      var best := Nearest(src, pos, n - 1);
      var idx := IndexOf(src, DELIMS[n - 1].open, pos);
      if 0 <= idx < best.0 then (idx, n - 1) else best
  }

  /** Where scanning goes on after a delimiter pair that ends at `end`. */
  function After(src: string, kind: ChunkType, end: nat): (next: nat)
    requires end <= |src|
    ensures end <= next <= |src|
  {
    if kind.TagChunk? && end < |src| && src[end] == '\n' then end + 1 else end
  }

  /** The chunks of the source from a position on. */
  function Tokens(src: string, pos: nat): seq<Chunk>
    requires pos <= |src|
    decreases |src| - pos, 1
  {
    if pos == |src| then []
    else
      var (at, d) := Nearest(src, pos, |DELIMS|);
      if d == NO_DELIM then [Chunk(TextChunk, src[pos..], LineAt(src, pos))]
      else TextBefore(src, pos, at) + DelimTokens(src, at, d)
  }

  /** The chunks from an opening delimiter on. */
  function DelimTokens(src: string, at: nat, d: nat): seq<Chunk>
    requires d < |DELIMS| && at + 2 <= |src|
    decreases |src| - at, 0
  {
    var close := IndexOf(src, DELIMS[d].close, at + 2);
    if close < 0 then [Chunk(TextChunk, src[at..], LineAt(src, at))]
    else Delimited(src, d, at, close) + Tokens(src, After(src, DELIMS[d].kind, close + 2))
  }

  function TextBefore(src: string, pos: nat, at: nat): seq<Chunk>
    requires pos <= at <= |src|
  {
    if pos < at then [Chunk(TextChunk, src[pos..at], LineAt(src, pos))] else []
  }

  /** What a closed delimiter pair contributes: nothing for a comment. */
  function Delimited(src: string, d: nat, at: nat, close: nat): seq<Chunk>
    requires d < |DELIMS| && at + 2 <= close && close + 2 <= |src|
  {
    if DELIMS[d].kind.CommentChunk? then []
    else [Chunk(DELIMS[d].kind, Trim(src[at + 2..close]), LineAt(src, close + 2))]
  }

  method CountLines(s: string, start: nat, end: nat) returns (n: nat)
    requires start <= end <= |s|
    ensures n == NewLines(s, start, end)
  {
    n := 0;
    for i := start to end
      invariant n == NewLines(s, start, i)
    {
      if s[i] == '\n' { n := n + 1; }
    }
  }

  /** The earliest opening delimiter from `pos` on. */
  method FindNearest(src: string, pos: nat) returns (nearestPos: nat, nearestDelim: nat)
    ensures (nearestPos, nearestDelim) == Nearest(src, pos, |DELIMS|)
  {
    nearestPos, nearestDelim := |src|, NO_DELIM;
    for i := 0 to |DELIMS|
      invariant (nearestPos, nearestDelim) == Nearest(src, pos, i)
    {
      var idx := IndexOf(src, DELIMS[i].open, pos);
      if idx >= 0 && idx < nearestPos {
        nearestPos, nearestDelim := idx, i;
      }
    }
  }

  /** Every position scanned is in range and moves right, and the line counter is always that of the position. */
  method Tokenize(src: string) returns (chunks: seq<Chunk>)
    ensures chunks == Tokens(src, 0)
  {
    hide LineAt, Nearest, IndexOf, Trim, NewLines, After, Delimited;
    chunks := [];
    var pos, line := 0, 1;
    LineMoves(src, 0, 0);
    assert chunks + Tokens(src, 0) == Tokens(src, 0);
    while pos < |src|
      invariant pos <= |src| && line == LineAt(src, pos)
      invariant Tokens(src, 0) == chunks + Tokens(src, pos)
      decreases |src| - pos
    {
      var nearestPos, d := FindNearest(src, pos);
      if d == NO_DELIM {
        chunks := chunks + [Chunk(TextChunk, src[pos..], line)];
        return;
      }
      ghost var was, text := chunks, TextBefore(src, pos, nearestPos);
      LineMoves(src, pos, nearestPos);
      if nearestPos > pos {
        chunks := chunks + [Chunk(TextChunk, src[pos..nearestPos], line)];
        var n := CountLines(src, pos, nearestPos);
        line := line + n;
      }
      assert chunks == was + text && line == LineAt(src, nearestPos);
      Regroup(was, text, DelimTokens(src, nearestPos, d));
      var closeIdx := IndexOf(src, DELIMS[d].close, nearestPos + 2);
      if closeIdx < 0 {
        chunks := chunks + [Chunk(TextChunk, src[nearestPos..], line)];
        return;
      }
      ghost var found := Delimited(src, d, nearestPos, closeIdx);
      Regroup(chunks, found, Tokens(src, After(src, DELIMS[d].kind, closeIdx + 2)));
      pos, line, chunks := Delimiter(src, d, nearestPos, closeIdx, line, chunks);
    }
    assert chunks + [] == chunks;
  }

  /** A delimiter pair: its chunk, and the position and line behind it. */
  method Delimiter(src: string, d: nat, at: nat, closeIdx: nat, startLine: nat, before: seq<Chunk>)
    returns (pos: nat, line: nat, chunks: seq<Chunk>)
    requires d < |DELIMS| && at + 2 <= closeIdx && closeIdx + 2 <= |src| && startLine == LineAt(src, at)
    ensures pos == After(src, DELIMS[d].kind, closeIdx + 2) && line == LineAt(src, pos)
    ensures chunks == before + Delimited(src, d, at, closeIdx)
  {
    hide LineAt, NewLines, Trim;
    var content := Trim(src[at + 2..closeIdx]);
    LineMoves(src, at, closeIdx + 2);
    var n := CountLines(src, at, closeIdx + 2);
    line := startLine + n;
    chunks := before;
    if !DELIMS[d].kind.CommentChunk? {
      chunks := chunks + [Chunk(DELIMS[d].kind, content, line)];
    }
    pos := closeIdx + 2;
    if DELIMS[d].kind.TagChunk? && pos < |src| && src[pos] == '\n' {
      LineMoves(src, pos, pos + 1);
      pos := pos + 1;
      line := line + 1;
    }
  }

  /** How the line number moves from one position to a later one. */
  lemma LineMoves(src: string, a: nat, b: nat)
    requires a <= b <= |src|
    ensures LineAt(src, b) == LineAt(src, a) + NewLines(src, a, b)
    ensures a == 0 ==> LineAt(src, a) == 1
    ensures b == a + 1 ==> NewLines(src, a, b) == if src[a] == '\n' then 1 else 0
  {
    NewLinesAdd(src, 0, a, b);
  }

  lemma Regroup(a: seq<Chunk>, b: seq<Chunk>, c: seq<Chunk>)
    ensures a + (b + c) == a + b + c
  {
  }
}
