/** Template source text written from a tree, and the proof that tokenizing and parsing give the tree back. */
module TplSource {
  import opened Ascii
  import opened TplAst
  import opened TplExpr
  import opened TplText
  import opened TplBlocks
  import opened TplTokenizer
  import opened TplFlatten

  /**
   * A piece as it is written: the white space within its delimiters, and
   * whether a tag takes the line break behind it with it.
   */
  datatype Part = Part(piece: Piece, left: string, right: string, breaks: bool)

  function Inner(w: Part): string { w.left + w.piece.content + w.right }

  function PartText(w: Part): string {
    match w.piece.kind
    case TextChunk => w.piece.content
    case ExpressionChunk => "{{" + Inner(w) + "}}"
    case TagChunk => "{%" + Inner(w) + "%}" + (if w.breaks then "\n" else "")
    case CommentChunk => "{#" + Inner(w) + "#}"
  }

  function SourceOf(ws: seq<Part>): string {
    if ws == [] then "" else PartText(ws[0]) + SourceOf(ws[1..])
  }

  /** No opening delimiter in it, nor half of one at its end. */
  predicate CleanText(t: string) {
    t != "" && forall k :: 0 <= k < |t| && t[k] == '{' ==> k + 1 < |t| && t[k + 1] !in {'{', '#', '%'}
  }

  predicate AllSpace(s: string) { forall i :: 0 <= i < |s| ==> IsSpace(s[i]) }

  predicate Trimmed(c: string) { c == "" || (!IsSpace(c[0]) && !IsSpace(c[|c| - 1])) }

  /** The closing delimiter behind the inner text is the first there is. */
  predicate ClosedBy(inner: string, close: string) {
    forall k :: 0 <= k < |inner| ==> !Occurs(inner + close, close, k)
  }

  predicate Padded(w: Part) { Trimmed(w.piece.content) && AllSpace(w.left) && AllSpace(w.right) }

  predicate CleanPart(w: Part) {
    match w.piece.kind
    case TextChunk => CleanText(w.piece.content)
    case ExpressionChunk => ClosedBy(Inner(w), "}}") && Padded(w)
    case TagChunk => ClosedBy(Inner(w), "%}") && Padded(w)
    case CommentChunk => ClosedBy(Inner(w), "#}")
  }

  /**
   * What the source text keeps apart: no text right after another, and no line
   * break at the start of a text behind a tag that is to leave it there.
   */
  predicate Apart(w: Part, next: Part) {
    next.piece.kind.TextChunk? && next.piece.content != "" ==>
      && !w.piece.kind.TextChunk?
      && (w.piece.kind.TagChunk? && !w.breaks ==> next.piece.content[0] != '\n')
  }

  predicate Clean(ws: seq<Part>) {
    ws == [] || (CleanPart(ws[0]) && (|ws| > 1 ==> Apart(ws[0], ws[1])) && Clean(ws[1..]))
  }

  /** The line the text behind this one is on. */
  function LineBehind(text: string): nat { 1 + |set k | 0 <= k < |text| && text[k] == '\n'| }

  /** The chunks of the parts, comments aside: a text on the line it starts on, the others on the line they end on. */
  function Shown(pre: string, ws: seq<Part>): seq<Chunk>
    decreases |ws|
  {
    if ws == [] then [] else ShownPart(pre, ws[0]) + Shown(pre + PartText(ws[0]), ws[1..])
  }

  function ShownPart(pre: string, w: Part): seq<Chunk> {
    match w.piece.kind
    case CommentChunk => []
    case TextChunk => [Chunk(TextChunk, w.piece.content, LineBehind(pre))]
    case _ => [Chunk(w.piece.kind, w.piece.content, LineBehind(pre + PartText(w.(breaks := false))))]
  }

  /** The end of a source that opens a delimiter and never closes it. */
  predicate Unclosed(t: string) {
    OpensAt(t, 0) && forall k :: 2 <= k < |t| ==> !Occurs(t, DELIMS[DelimAt(t, 0)].close, k)
  }

  // ------------------------------------------------------------------
  // Finding the delimiters again
  // ------------------------------------------------------------------

  predicate OpensAt(src: string, k: nat) {
    k + 1 < |src| && src[k] == '{' && src[k + 1] in {'{', '#', '%'}
  }

  lemma OpenOccurs(src: string, d: nat, k: nat)
    requires d < |DELIMS|
    ensures Occurs(src, DELIMS[d].open, k) <==>
            OpensAt(src, k) && src[k + 1] == (if d == 0 then '#' else if d == 1 then '{' else '%')
  {
    var t := DELIMS[d].open;
    assert t[0] == '{' && t[1] == (if d == 0 then '#' else if d == 1 then '{' else '%') && |t| == 2;
    if k + 2 <= |src| {
      assert src[k..k + 2][0] == src[k] && src[k..k + 2][1] == src[k + 1];
      assert src[k..k + 2] == [src[k], src[k + 1]] && t == [t[0], t[1]];
    }
  }

  lemma NearestIs(src: string, pos: nat, at: nat, d: nat)
    requires pos <= at && d < |DELIMS| && Occurs(src, DELIMS[d].open, at)
    requires forall k :: pos <= k < at ==> !OpensAt(src, k)
    ensures Nearest(src, pos, |DELIMS|) == (at, d)
  {
    hide Nearest, Occurs;
    var r := Nearest(src, pos, |DELIMS|);
    OpenOccurs(src, d, at);
    if r.1 < |DELIMS| { OpenOccurs(src, r.1, r.0); }
  }

  lemma NearestNone(src: string, pos: nat)
    requires forall k :: pos <= k < |src| ==> !OpensAt(src, k)
    ensures Nearest(src, pos, |DELIMS|) == (|src|, NO_DELIM)
  {
    hide Nearest, Occurs;
    var r := Nearest(src, pos, |DELIMS|);
    if r.1 < |DELIMS| { OpenOccurs(src, r.1, r.0); }
  }

  /** The delimiter that opens at a place. */
  function DelimAt(src: string, k: nat): (d: nat)
    requires OpensAt(src, k)
    ensures d < |DELIMS|
  {
    if src[k + 1] == '#' then 0 else if src[k + 1] == '{' then 1 else 2
  }

  /** Text up to the end or the nearest delimiter is one chunk; scanning might as well start again behind it. */
  lemma TextThen(src: string, pos: nat, at: nat)
    requires pos < at <= |src| && (forall k :: pos <= k < at ==> !OpensAt(src, k)) && (at < |src| ==> OpensAt(src, at))
    ensures Tokens(src, pos) == [Chunk(TextChunk, src[pos..at], LineAt(src, pos))] + Tokens(src, at)
  {
    hide Nearest, Tokens, Occurs, OpensAt, LineAt;
    if at == |src| {
      NearestNone(src, pos);
      OneChunk(src, pos);
      NoTokens(src);
      assert src[pos..at] == src[pos..];
    } else {
      var d := DelimAt(src, at);
      OpenOccurs(src, d, at);
      OpensBrace(src, at);
      NearestIs(src, pos, at, d);
      NearestIs(src, at, at, d);
      TextBeforeDelim(src, pos, at, d);
    }
  }

  lemma OneChunk(src: string, pos: nat)
    requires pos < |src| && Nearest(src, pos, |DELIMS|) == (|src|, NO_DELIM)
    ensures Tokens(src, pos) == [Chunk(TextChunk, src[pos..], LineAt(src, pos))]
  {
    hide Nearest, LineAt;
  }

  lemma TextBeforeDelim(src: string, pos: nat, at: nat, d: nat)
    requires pos < at && at + 2 <= |src| && d < |DELIMS|
    requires Nearest(src, pos, |DELIMS|) == (at, d) && Nearest(src, at, |DELIMS|) == (at, d)
    ensures Tokens(src, pos) == [Chunk(TextChunk, src[pos..at], LineAt(src, pos))] + Tokens(src, at)
  {
    hide Nearest, IndexOf, Trim, LineAt, DelimTokens;
    StartsWithDelim(src, at, d);
    var more := DelimTokens(src, at, d);
    assert Tokens(src, pos) == [Chunk(TextChunk, src[pos..at], LineAt(src, pos))] + more;
  }

  lemma OpensBrace(src: string, k: nat)
    requires OpensAt(src, k)
    ensures k + 2 <= |src| && src[k] == '{' && src[k + 1] in {'{', '#', '%'}
    ensures src[k + 1] == (if DelimAt(src, k) == 0 then '#' else if DelimAt(src, k) == 1 then '{' else '%')
  {
  }

  // ------------------------------------------------------------------
  // One piece at a time
  // ------------------------------------------------------------------

  /** At a place of the source: an opening delimiter, the text within, the closing one. */
  predicate DelimitedText(src: string, at: nat, open: string, inner: string, close: string) {
    && at + |open| + |inner| + |close| <= |src|
    && src[at..at + |open|] == open
    && src[at + |open|..at + |open| + |inner|] == inner
    && src[at + |open| + |inner|..at + |open| + |inner| + |close|] == close
  }

  lemma Slices(pre: string, a: string, m: string, b: string, post: string)
    ensures var s := pre + (a + m + b) + post;
            && DelimitedText(s, |pre|, a, m, b) && |s| == |pre| + |a| + |m| + |b| + |post|
            && s[|pre| + |a| + |m| + |b|..] == post
  {
  }

  lemma FirstClose(src: string, at: nat, open: string, inner: string, close: string)
    requires |open| == 2 && |close| == 2 && DelimitedText(src, at, open, inner, close) && ClosedBy(inner, close)
    ensures IndexOf(src, close, at + 2) == at + |inner| + 2
  {
    hide IndexOf, ClosedBy;
    forall j | at + 2 <= j < at + |inner| + 2 ensures !Occurs(src, close, j) {
      NoCloseInside(src, at + 2, inner, close, j);
    }
    FirstOccurrence(src, close, at + 2, at + |inner| + 2);
  }

  lemma NoCloseInside(src: string, start: nat, inner: string, close: string, j: nat)
    requires |close| == 2 && start + |inner| + 2 <= |src| && src[start..start + |inner|] == inner
    requires src[start + |inner|..start + |inner| + 2] == close
    requires start <= j < start + |inner| && ClosedBy(inner, close)
    ensures !Occurs(src, close, j)
  {
    var window, k := inner + close, j - start;
    assert !Occurs(window, close, k);
    assert src[j] == src[start..start + |inner|][k] == window[k];
    if k + 1 < |inner| {
      assert src[j + 1] == src[start..start + |inner|][k + 1] == window[k + 1];
    } else {
      assert src[j + 1] == src[start + |inner|..start + |inner| + 2][0] == window[k + 1];
    }
    assert src[j..j + 2] == [src[j], src[j + 1]] == window[k..k + 2];
  }

  lemma {:induction false} SkipAll(left: string, s: string)
    requires AllSpace(left)
    ensures SkipSpace(left + s) == SkipSpace(s)
    decreases |left|
  {
    if left == "" { assert left + s == s; }
    else {
      assert (left + s)[1..] == left[1..] + s;
      SkipAll(left[1..], s);
    }
  }

  lemma {:induction false} TrimAll(s: string, right: string)
    requires AllSpace(right)
    ensures TrimEnd(s + right) == TrimEnd(s)
    decreases |right|
  {
    if right == "" { assert s + right == s; }
    else {
      var r := right[..|right| - 1];
      assert (s + right)[..|s + right| - 1] == s + r;
      TrimAll(s, r);
    }
  }

  lemma TrimContent(left: string, c: string, right: string)
    requires AllSpace(left) && AllSpace(right) && Trimmed(c)
    ensures Trim(left + c + right) == c
  {
    assert left + c + right == left + (c + right);
    SkipAll(left, c + right);
    if c == "" {
      assert c + right == right && right + "" == right;
      SkipAll(right, "");
    } else {
      assert (c + right)[0] == c[0];
      TrimAll(c, right);
    }
  }

  function DelimOf(kind: ChunkType): nat {
    if kind.CommentChunk? then 0 else if kind.ExpressionChunk? then 1 else 2
  }

  lemma StartsWithDelim(src: string, pos: nat, d: nat)
    requires d < |DELIMS| && Nearest(src, pos, |DELIMS|) == (pos, d) && pos + 2 <= |src|
    ensures Tokens(src, pos) == DelimTokens(src, pos, d)
  {
    hide Nearest, LineAt, DelimTokens;
    assert TextBefore(src, pos, pos) == [] && [] + DelimTokens(src, pos, d) == DelimTokens(src, pos, d);
  }

  lemma ClosedDelim(src: string, at: nat, d: nat, close: nat)
    requires d < |DELIMS| && at + 2 <= |src| && close + 2 <= |src|
             && IndexOf(src, DELIMS[d].close, at + 2) == close
    ensures DelimTokens(src, at, d)
         == (if d == 0 then [] else [Chunk(DELIMS[d].kind, Trim(src[at + 2..close]), LineAt(src, close + 2))])
            + Tokens(src, After(src, DELIMS[d].kind, close + 2))
  {
    hide IndexOf, Trim, LineAt, Tokens, After;
  }

  lemma DelimitedAt(src: string, at: nat, d: nat, inner: string)
    requires d < |DELIMS| && ClosedBy(inner, DELIMS[d].close)
    requires DelimitedText(src, at, DELIMS[d].open, inner, DELIMS[d].close)
    ensures OpensAt(src, at) && at + |inner| + 4 <= |src|
    ensures Tokens(src, at)
         == (if d == 0 then [] else [Chunk(DELIMS[d].kind, Trim(inner), LineAt(src, at + |inner| + 4))])
            + Tokens(src, After(src, DELIMS[d].kind, at + |inner| + 4))
  {
    hide Nearest, IndexOf, Trim, DelimTokens, Tokens, After, LineAt, OpensAt, ClosedBy;
    FirstClose(src, at, DELIMS[d].open, inner, DELIMS[d].close);
    OpenOccurs(src, d, at);
    NearestIs(src, at, at, d);
    StartsWithDelim(src, at, d);
    ClosedDelim(src, at, d, at + |inner| + 2);
  }

  /** A part other than text, with what follows it. */
  lemma DelimitedPart(pre: string, w: Part, rest: string)
    requires CleanPart(w) && !w.piece.kind.TextChunk?
    requires w.piece.kind.TagChunk? && !w.breaks && rest != "" ==> rest[0] != '\n'
    ensures var src := pre + PartText(w) + rest;
            && OpensAt(src, |pre|) && |pre| + |PartText(w)| <= |src|
            && Tokens(src, |pre|) == ShownPart(pre, w) + Tokens(src, |pre| + |PartText(w)|)
  {
    hide Tokens, ClosedBy, LineAt, LineBehind, Trim, OpensAt, DelimitedText, PartText, Inner;
    var d, src, inner := DelimOf(w.piece.kind), pre + PartText(w) + rest, Inner(w);
    var more := (if w.piece.kind.TagChunk? && w.breaks then "\n" else "") + rest;
    InnerTrims(w);
    PartIs(pre, w, rest);
    Slices(pre, DELIMS[d].open, inner, DELIMS[d].close, more);
    DelimitedAt(src, |pre|, d, inner);
    AfterPart(w, src, |pre| + |inner| + 4, rest);
    UnbrokenPart(pre, w, rest);
    LineIs(pre + PartText(w.(breaks := false)), more);
  }

  lemma UnbrokenPart(pre: string, w: Part, rest: string)
    requires !w.piece.kind.TextChunk?
    ensures var u := w.(breaks := false);
            && pre + PartText(w) + rest
               == pre + PartText(u) + ((if w.piece.kind.TagChunk? && w.breaks then "\n" else "") + rest)
            && |pre + PartText(u)| == |pre| + |Inner(w)| + 4
  {
    var u, breaks := w.(breaks := false), w.piece.kind.TagChunk? && w.breaks;
    BrokenText(w);
    hide PartText, Inner;
    LastBreak(pre, PartText(u), if breaks then "\n" else "", rest);
  }

  lemma BrokenText(w: Part)
    requires !w.piece.kind.TextChunk?
    ensures var u := w.(breaks := false);
            PartText(w) == PartText(u) + (if w.piece.kind.TagChunk? && w.breaks then "\n" else "")
            && |PartText(u)| == |Inner(w)| + 4
  {
    var u := w.(breaks := false);
    assert Inner(u) == Inner(w);
    hide Inner;
    assert PartText(u) + "" == PartText(u);
  }

  lemma LastBreak(pre: string, text: string, last: string, rest: string)
    ensures pre + (text + last) + rest == pre + text + (last + rest) && |pre + text| == |pre| + |text|
  {
  }

  lemma LineIs(pre: string, rest: string)
    ensures LineAt(pre + rest, |pre|) == LineBehind(pre)
  {
    BreaksAre(pre + rest, |pre|);
    assert (set k | 0 <= k < |pre| && (pre + rest)[k] == '\n') == (set k | 0 <= k < |pre| && pre[k] == '\n');
  }

  lemma {:induction false} BreaksAre(src: string, n: nat)
    requires n <= |src|
    ensures NewLines(src, 0, n) == |set k | 0 <= k < n && src[k] == '\n'|
  {
    if n > 0 {
      BreaksAre(src, n - 1);
      var before := set k | 0 <= k < n - 1 && src[k] == '\n';
      assert (set k | 0 <= k < n && src[k] == '\n') == before + if src[n - 1] == '\n' then {n - 1} else {};
    }
  }

  lemma InnerTrims(w: Part)
    requires CleanPart(w) && !w.piece.kind.TextChunk?
    ensures ClosedBy(Inner(w), DELIMS[DelimOf(w.piece.kind)].close)
    ensures !w.piece.kind.CommentChunk? ==> Trim(Inner(w)) == w.piece.content
  {
    hide ClosedBy, Trim;
    if !w.piece.kind.CommentChunk? { TrimContent(w.left, w.piece.content, w.right); }
  }

  lemma PartIs(pre: string, w: Part, rest: string)
    requires !w.piece.kind.TextChunk?
    ensures var d := DELIMS[DelimOf(w.piece.kind)];
            var more := (if w.piece.kind.TagChunk? && w.breaks then "\n" else "") + rest;
            && pre + PartText(w) + rest == pre + (d.open + Inner(w) + d.close) + more
            && |PartText(w)| == |Inner(w)| + 4 + (if w.piece.kind.TagChunk? && w.breaks then 1 else 0)
  {
    hide Inner;
    var d, inner := DELIMS[DelimOf(w.piece.kind)], Inner(w);
    if w.piece.kind.TagChunk? && w.breaks {
      assert PartText(w) == (d.open + inner + d.close) + "\n";
    } else {
      assert PartText(w) == d.open + inner + d.close && "" + rest == rest;
    }
  }

  /** Scanning goes on behind the part. */
  lemma AfterPart(w: Part, src: string, end: nat, rest: string)
    requires !w.piece.kind.TextChunk?
    requires end <= |src| && src[end..] == (if w.piece.kind.TagChunk? && w.breaks then "\n" else "") + rest
    requires w.piece.kind.TagChunk? && !w.breaks && rest != "" ==> rest[0] != '\n'
    ensures After(src, DELIMS[DelimOf(w.piece.kind)].kind, end)
         == end + (if w.piece.kind.TagChunk? && w.breaks then 1 else 0)
  {
    var breaks := w.piece.kind.TagChunk? && w.breaks;
    assert "" + rest == rest;
    assert breaks ==> |src[end..]| > 0;
    if end < |src| {
      assert src[end] == src[end..][0] == if breaks then '\n' else rest[0];
    }
  }

  lemma CleanNeverOpens(pre: string, t: string, rest: string, k: nat)
    requires CleanText(t) && |pre| <= k < |pre| + |t|
    ensures !OpensAt(pre + t + rest, k)
  {
    var src := pre + t + rest;
    assert src[k] == t[k - |pre|];
    if k + 1 < |pre| + |t| { assert src[k + 1] == t[k + 1 - |pre|]; }
  }

  lemma TextPart(pre: string, t: string, rest: string)
    requires CleanText(t) && (rest == "" || OpensAt(rest, 0))
    ensures var src := pre + t + rest;
            Tokens(src, |pre|) == [Chunk(TextChunk, t, LineBehind(pre))] + Tokens(src, |pre| + |t|)
  {
    hide Tokens, CleanText, LineAt, LineBehind;
    assert pre + t + rest == pre + (t + rest);
    LineIs(pre, t + rest);
    var src, at := pre + t + rest, |pre| + |t|;
    TextNotEmpty(t);
    assert src[|pre|..at] == t;
    forall k | |pre| <= k < at ensures !OpensAt(src, k) { CleanNeverOpens(pre, t, rest, k); }
    if rest != "" { assert src[at] == rest[0] && src[at + 1] == rest[1]; }
    TextThen(src, |pre|, at);
  }

  lemma TextNotEmpty(t: string)
    requires CleanText(t)
    ensures t != ""
  {
  }

  /** A source that starts with a delimiter part opens there. */
  lemma PartOpens(w: Part, rest: string)
    requires CleanPart(w) && !w.piece.kind.TextChunk?
    ensures OpensAt(PartText(w) + rest, 0) && PartText(w) != ""
  {
    var s := PartText(w);
    assert s[0] == '{' && s[1] in {'{', '#', '%'};
    assert (s + rest)[0] == s[0] && (s + rest)[1] == s[1];
  }

  lemma UnclosedTokens(pre: string, t: string)
    requires Unclosed(t)
    ensures Tokens(pre + t, |pre|) == [Chunk(TextChunk, t, LineBehind(pre))]
  {
    hide Tokens, Occurs, DelimAt, LineAt, LineBehind;
    LineIs(pre, t);
    var src := pre + t;
    assert src[|pre|] == t[0] && src[|pre| + 1] == t[1] && src[|pre|..] == t;
    OpensBrace(t, 0);
    OpensBrace(src, |pre|);
    forall k | |pre| + 2 <= k < |src| ensures !Occurs(src, DELIMS[DelimAt(t, 0)].close, k) {
      OccursBehind(pre, t, DELIMS[DelimAt(t, 0)].close, k);
    }
    NeverClosed(src, |pre|);
  }

  lemma OccursBehind(pre: string, t: string, close: string, k: nat)
    requires |pre| <= k
    ensures Occurs(pre + t, close, k) ==> Occurs(t, close, k - |pre|)
  {
    if Occurs(pre + t, close, k) {
      assert (pre + t)[k..k + |close|] == t[k - |pre|..k - |pre| + |close|];
    }
  }

  lemma NeverClosed(src: string, at: nat)
    requires OpensAt(src, at) && forall k :: at + 2 <= k < |src| ==> !Occurs(src, DELIMS[DelimAt(src, at)].close, k)
    ensures Tokens(src, at) == [Chunk(TextChunk, src[at..], LineAt(src, at))]
  {
    hide Nearest, LineAt, IndexOf, Tokens, Occurs, DelimAt;
    var d := DelimAt(src, at);
    OpensBrace(src, at);
    OpenOccurs(src, d, at);
    NearestIs(src, at, at, d);
    StartsWithDelim(src, at, d);
    NotFound(src, DELIMS[d].close, at + 2);
    hide OpensAt;
    assert DelimTokens(src, at, d) == [Chunk(TextChunk, src[at..], LineAt(src, at))];
  }

  lemma NotFound(src: string, t: string, from: nat)
    requires t != "" && forall k :: from <= k < |src| ==> !Occurs(src, t, k)
    ensures IndexOf(src, t, from) == -1
  {
    hide IndexOf;
  }

  lemma NoTokens(src: string)
    ensures Tokens(src, |src|) == []
  {
  }

  /**
   * Tokenizing the text of clean parts finds their chunks again, each with its
   * line, whatever the white space within the delimiters and the line breaks
   * behind the tags; comments are gone, and what an unclosed delimiter opens is
   * text.
   */
  lemma {:induction false} TokensInvertSource(pre: string, ws: seq<Part>, open: string)
    requires Clean(ws) && (open == "" || Unclosed(open))
    ensures Tokens(pre + (SourceOf(ws) + open), |pre|)
         == Shown(pre, ws) + (if open == "" then [] else [Chunk(TextChunk, open, LineBehind(pre + SourceOf(ws)))])
    decreases ws
  {
    hide Tokens, PartText, CleanPart, Unclosed, OpensAt, Apart, LineBehind, Shown, ShownPart, SourceOf, CleanText;
    var src := pre + (SourceOf(ws) + open);
    if ws == [] {
      NothingShown(pre);
      assert src == pre + open && pre + "" == pre;
      if open == "" { NoTokens(src); } else { UnclosedTokens(pre, open); }
    } else {
      var w, rest := ws[0], SourceOf(ws[1..]) + open;
      SourceStep(pre, ws, open);
      TokensInvertSource(pre + PartText(w), ws[1..], open);
      RestStarts(w, ws[1..], open);
      ghost var more := if open == "" then [] else [Chunk(TextChunk, open, LineBehind(pre + SourceOf(ws)))];
      if w.piece.kind.TextChunk? {
        TextPartText(pre, w);
        TextPart(pre, w.piece.content, rest);
      } else {
        DelimitedPart(pre, w, rest);
      }
      TplTokenizer.Regroup(ShownPart(pre, w), Shown(pre + PartText(w), ws[1..]), more);
    }
  }

  lemma NothingShown(pre: string)
    ensures Shown(pre, []) == [] && SourceOf([]) == ""
  {
  }

  /** The first part, and the rest behind it. */
  lemma SourceStep(pre: string, ws: seq<Part>, open: string)
    requires ws != []
    ensures var p := pre + PartText(ws[0]);
            && Shown(pre, ws) == ShownPart(pre, ws[0]) + Shown(p, ws[1..])
            && pre + (SourceOf(ws) + open) == p + (SourceOf(ws[1..]) + open)
            && pre + SourceOf(ws) == p + SourceOf(ws[1..]) && |p| == |pre| + |PartText(ws[0])|
  {
    hide PartText, ShownPart;
  }

  lemma TextPartText(pre: string, w: Part)
    requires w.piece.kind.TextChunk? && CleanPart(w)
    ensures PartText(w) == w.piece.content && CleanText(w.piece.content)
    ensures ShownPart(pre, w) == [Chunk(TextChunk, w.piece.content, LineBehind(pre))]
  {
  }

  /** What follows a part: the end, an opening delimiter, or, not behind text, a text. */
  lemma RestStarts(w: Part, ws: seq<Part>, open: string)
    requires Clean(ws) && (ws != [] ==> Apart(w, ws[0])) && (open == "" || Unclosed(open))
    ensures var rest := SourceOf(ws) + open;
            && (w.piece.kind.TextChunk? ==> rest == "" || OpensAt(rest, 0))
            && (w.piece.kind.TagChunk? && !w.breaks && rest != "" ==> rest[0] != '\n')
  {
    hide OpensAt, Unclosed, PartText, CleanPart;
    var rest := SourceOf(ws) + open;
    if ws == [] {
      assert rest == open;
      if open != "" { UnclosedOpens(open); }
    } else {
      var more := SourceOf(ws[1..]) + open;
      assert rest == PartText(ws[0]) + more;
      if ws[0].piece.kind.TextChunk? {
        TextPartText("", ws[0]);
        TextNotEmpty(ws[0].piece.content);
      } else {
        PartOpens(ws[0], more);
        OpensBrace(rest, 0);
      }
    }
  }

  lemma UnclosedOpens(t: string)
    requires Unclosed(t)
    ensures OpensAt(t, 0) && t != "" && t[0] == '{'
  {
  }

  /** A tree written as source text, in any such way, and read again is the same tree, nothing left over. */
  lemma SourceRoundTrip(nodes: seq<Node>, ws: seq<Part>)
    requires WellNested(nodes) && Clean(ws) && Pieces(Shown("", ws)) == Flatten(nodes)
    ensures ParseBlock(Pieces(Tokens(SourceOf(ws), 0)), {}) == (nodes, [])
  {
    hide Flatten, ParseBlock, Tokens, Clean, WellNested;
    TokensInvertSource("", ws, "");
    assert "" + (SourceOf(ws) + "") == SourceOf(ws) && Shown("", ws) + [] == Shown("", ws);
    ParseInvertsFlatten(nodes, {}, []);
    assert Flatten(nodes) + [] == Flatten(nodes);
  }

  /** The whole of template construction: source text to tree. */
  method ParseTemplate(source: string) returns (nodes: seq<Node>, error: string)
    ensures nodes == ParseBlock(Pieces(Tokens(source, 0)), {}).0
    ensures error != "" <==> Faulty(nodes)
  {
    hide *;
    var chunks := Tokenize(source);
    var parser := new TplParser(chunks);
    nodes := parser.Parse();
    error := parser.error;
  }
}
