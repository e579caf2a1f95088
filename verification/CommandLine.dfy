/** The console's command tokenizer: quotes, escapes and white space. */
module CommandLine {
  import opened Ascii

  /** The quotes the scanner is between. */
  datatype Mode = Plain | Double | Single

  /** The tokens of what remains, given the token under way and whether the next character is escaped. */
  function Tokens(line: string, mode: Mode, escaped: bool, current: string): seq<string>
    decreases |line|
  {
    if line == "" then (if current == "" then [] else [current])
    else
      var ch, rest := line[0], line[1..];
      if escaped then Tokens(rest, mode, false, current + [ch])
      else if ch == '\\' && mode != Single then Tokens(rest, mode, true, current)
      else if ch == '"' && mode != Single then Tokens(rest, if mode == Double then Plain else Double, false, current)
      else if ch == '\'' && mode != Double then Tokens(rest, if mode == Single then Plain else Single, false, current)
      else if IsSpace(ch) && mode == Plain then
        (if current == "" then [] else [current]) + Tokens(rest, mode, false, "")
      else Tokens(rest, mode, false, current + [ch])
  }

  function ModeOf(inDouble: bool, inSingle: bool): Mode {
    if inDouble then Double else if inSingle then Single else Plain
  }

  /** One pass with three flags, of which the two quotes are never set together. */
  method Tokenize(line: string) returns (tokens: seq<string>)
    ensures tokens == Tokens(line, Plain, false, "")
    ensures forall i :: 0 <= i < |tokens| ==> tokens[i] != ""
  {
    tokens := [];
    var current := "";
    var inDouble, inSingle, escaped := false, false, false;
    ghost var whole := Tokens(line, Plain, false, "");
    assert line[0..] == line && [] + whole == whole;
    for i := 0 to |line|
      invariant !(inDouble && inSingle)
      invariant whole == tokens + Tokens(line[i..], ModeOf(inDouble, inSingle), escaped, current)
      invariant forall j :: 0 <= j < |tokens| ==> tokens[j] != ""
    {
      var ch := line[i];
      assert line[i..][0] == ch && line[i..][1..] == line[i + 1..];
      if escaped {
        current := current + [ch];
        escaped := false;
        continue;
      }
      if ch == '\\' && !inSingle {
        escaped := true;
        continue;
      }
      if ch == '"' && !inSingle {
        inDouble := !inDouble;
        continue;
      }
      if ch == '\'' && !inDouble {
        inSingle := !inSingle;
        continue;
      }
      if IsSpace(ch) && !inDouble && !inSingle {
        ghost var rest := Tokens(line[i + 1..], Plain, false, "");
        assert tokens + ([current] + rest) == tokens + [current] + rest && [] + rest == rest;
        if current != "" {
          tokens := tokens + [current];
          current := "";
        }
        continue;
      }
      current := current + [ch];
    }
    assert line[|line|..] == "" && tokens + [] == tokens;
    if current != "" {
      tokens := tokens + [current];
    }
  }

  // ------------------------------------------------------------------
  // Ways to write a token
  // ------------------------------------------------------------------

  /** As it is; every character escaped; in double quotes; in single quotes. */
  datatype Style = Bare | Escaped | DoubleQuoted | SingleQuoted

  /** A stretch of a word in one style. */
  datatype Part = Part(text: string, style: Style)

  /** A word, and the white space behind it. */
  datatype Word = Word(parts: seq<Part>, gap: string)

  const SPACES: set<char> := {' ', '\t', '\n', '\U{000B}', '\U{000C}', '\r'}
  const SPECIAL: set<char> := {'"', '\'', '\\'}

  predicate Blank(gap: string) { forall i :: 0 <= i < |gap| ==> gap[i] in SPACES }

  /** White space, quotes and backslashes are not written bare, nor single quotes in single quotes. */
  predicate Writable(p: Part) {
    match p.style
    case Bare => forall i :: 0 <= i < |p.text| ==> p.text[i] !in SPACES && p.text[i] !in SPECIAL
    case SingleQuoted => '\'' !in p.text
    case _ => true
  }

  predicate AllWritable(ps: seq<Part>) { forall i :: 0 <= i < |ps| ==> Writable(ps[i]) }

  function EscapeAll(t: string): string {
    if t == "" then "" else ['\\', t[0]] + EscapeAll(t[1..])
  }

  /** Backslashes before double quotes and backslashes. */
  function EscapeQuotes(t: string): string {
    if t == "" then ""
    else (if t[0] == '"' || t[0] == '\\' then ['\\', t[0]] else [t[0]]) + EscapeQuotes(t[1..])
  }

  function Written(p: Part): string {
    match p.style
    case Bare => p.text
    case Escaped => EscapeAll(p.text)
    case DoubleQuoted => "\"" + EscapeQuotes(p.text) + "\""
    case SingleQuoted => "'" + p.text + "'"
  }

  function WrittenAll(ps: seq<Part>): string {
    if ps == [] then "" else Written(ps[0]) + WrittenAll(ps[1..])
  }

  /** The text of a word, whatever its styles. */
  function TextOf(ps: seq<Part>): string {
    if ps == [] then "" else ps[0].text + TextOf(ps[1..])
  }

  function CommandOf(ws: seq<Word>): string {
    if ws == [] then "" else WrittenAll(ws[0].parts) + ws[0].gap + CommandOf(ws[1..])
  }

  /** White space, of any kind and length, between each two words, and perhaps behind the last. */
  predicate Spaced(ws: seq<Word>) {
    forall i :: 0 <= i < |ws| ==> AllWritable(ws[i].parts) && Blank(ws[i].gap) && (i + 1 < |ws| ==> ws[i].gap != "")
  }

  /** The words that have a text; quotes around nothing make no token. */
  function Texts(ws: seq<Word>): seq<string> {
    if ws == [] then []
    else (if TextOf(ws[0].parts) == "" then [] else [TextOf(ws[0].parts)]) + Texts(ws[1..])
  }

  function Finished(current: string): seq<string> { if current == "" then [] else [current] }

  // ------------------------------------------------------------------
  // Reading them back
  // ------------------------------------------------------------------

  lemma EscapeStep(c: char, rest: string, mode: Mode, current: string)
    requires mode != Single
    ensures Tokens(['\\', c] + rest, mode, false, current) == Tokens(rest, mode, false, current + [c])
  {
    var s := ['\\', c] + rest;
    assert s[1..] == [c] + rest && ([c] + rest)[1..] == rest;
  }

  lemma CharStep(c: char, rest: string, mode: Mode, current: string)
    requires match mode
             case Plain => c !in SPACES && c !in SPECIAL
             case Double => c != '"' && c != '\\'
             case Single => c != '\''
    ensures Tokens([c] + rest, mode, false, current) == Tokens(rest, mode, false, current + [c])
  {
    SpacesAre(c);
    assert ([c] + rest)[1..] == rest;
  }

  lemma SpacesAre(c: char)
    ensures IsSpace(c) <==> c in SPACES
  {
  }

  /** A quote opens or closes its mode. */
  lemma QuoteStep(rest: string, mode: Mode, current: string)
    requires mode != Plain
    ensures var q := if mode == Single then '\'' else '"';
            && Tokens([q] + rest, Plain, false, current) == Tokens(rest, mode, false, current)
            && Tokens([q] + rest, mode, false, current) == Tokens(rest, Plain, false, current)
  {
    var q := if mode == Single then '\'' else '"';
    assert ([q] + rest)[1..] == rest;
  }

  lemma Regroup(t: string, current: string)
    requires t != ""
    ensures current + [t[0]] + t[1..] == current + t
  {
  }

  lemma {:induction false} BareReads(t: string, rest: string, current: string)
    requires Writable(Part(t, Bare))
    ensures Tokens(t + rest, Plain, false, current) == Tokens(rest, Plain, false, current + t)
    decreases t
  {
    hide Tokens;
    if t == "" {
      assert t + rest == rest && current + t == current;
    } else {
      assert t + rest == [t[0]] + (t[1..] + rest);
      CharStep(t[0], t[1..] + rest, Plain, current);
      BareReads(t[1..], rest, current + [t[0]]);
      Regroup(t, current);
    }
  }

  lemma {:induction false} EscapedReads(t: string, rest: string, current: string)
    ensures Tokens(EscapeAll(t) + rest, Plain, false, current) == Tokens(rest, Plain, false, current + t)
    decreases t
  {
    hide Tokens;
    if t == "" {
      assert EscapeAll(t) + rest == rest && current + t == current;
    } else {
      var more := EscapeAll(t[1..]) + rest;
      assert EscapeAll(t) + rest == ['\\', t[0]] + more;
      EscapeStep(t[0], more, Plain, current);
      EscapedReads(t[1..], rest, current + [t[0]]);
      Regroup(t, current);
    }
  }

  lemma {:induction false} QuotedReads(t: string, rest: string, current: string)
    ensures Tokens(EscapeQuotes(t) + rest, Double, false, current) == Tokens(rest, Double, false, current + t)
    decreases t
  {
    hide Tokens;
    var s := EscapeQuotes(t) + rest;
    if t == "" {
      assert s == rest && current + t == current;
    } else {
      var more := EscapeQuotes(t[1..]) + rest;
      QuotedReads(t[1..], rest, current + [t[0]]);
      Regroup(t, current);
      if t[0] == '"' || t[0] == '\\' {
        assert s == ['\\', t[0]] + more;
        EscapeStep(t[0], more, Double, current);
      } else {
        assert s == [t[0]] + more;
        CharStep(t[0], more, Double, current);
      }
    }
  }

  lemma {:induction false} SingleReads(t: string, rest: string, current: string)
    requires '\'' !in t
    ensures Tokens(t + rest, Single, false, current) == Tokens(rest, Single, false, current + t)
    decreases t
  {
    hide Tokens;
    if t == "" {
      assert t + rest == rest && current + t == current;
    } else {
      assert t + rest == [t[0]] + (t[1..] + rest) && t[0] in t;
      CharStep(t[0], t[1..] + rest, Single, current);
      SingleReads(t[1..], rest, current + [t[0]]);
      Regroup(t, current);
    }
  }

  lemma WrittenReads(p: Part, rest: string, current: string)
    requires Writable(p)
    ensures Tokens(Written(p) + rest, Plain, false, current) == Tokens(rest, Plain, false, current + p.text)
  {
    hide Tokens, EscapeAll, EscapeQuotes;
    var t := p.text;
    match p.style
    case Bare => BareReads(t, rest, current);
    case Escaped => EscapedReads(t, rest, current);
    case DoubleQuoted =>
      QuotedText('"', EscapeQuotes(t), rest);
      QuoteStep(EscapeQuotes(t) + ("\"" + rest), Double, current);
      QuotedReads(t, "\"" + rest, current);
      QuoteStep(rest, Double, current + t);
    case SingleQuoted =>
      QuotedText('\'', t, rest);
      QuoteStep(t + ("'" + rest), Single, current);
      SingleReads(t, "'" + rest, current);
      QuoteStep(rest, Single, current + t);
  }

  lemma QuotedText(q: char, inner: string, rest: string)
    ensures [q] + inner + [q] + rest == [q] + (inner + ([q] + rest))
  {
  }

  lemma {:induction false} WordReads(ps: seq<Part>, rest: string, current: string)
    requires AllWritable(ps)
    ensures Tokens(WrittenAll(ps) + rest, Plain, false, current) == Tokens(rest, Plain, false, current + TextOf(ps))
    decreases |ps|
  {
    hide Tokens, Written, Writable;
    if ps == [] {
      assert "" + rest == rest && current + "" == current;
    } else {
      var more := WrittenAll(ps[1..]) + rest;
      assert WrittenAll(ps) + rest == Written(ps[0]) + more;
      WrittenReads(ps[0], more, current);
      WordReads(ps[1..], rest, current + ps[0].text);
      assert current + ps[0].text + TextOf(ps[1..]) == current + TextOf(ps);
    }
  }

  /** White space ends the token under way, once. */
  lemma {:induction false} GapReads(gap: string, rest: string, current: string)
    requires Blank(gap) && gap != ""
    ensures Tokens(gap + rest, Plain, false, current) == Finished(current) + Tokens(rest, Plain, false, "")
    decreases |gap|
  {
    assert gap + rest == [gap[0]] + (gap[1..] + rest);
    SpacesAre(gap[0]);
    SpaceStep(gap[0], gap[1..] + rest, current);
    if |gap| == 1 {
      assert gap[1..] + rest == rest;
    } else {
      hide Tokens;
      GapReads(gap[1..], rest, "");
      assert [] + Tokens(rest, Plain, false, "") == Tokens(rest, Plain, false, "");
    }
  }

  lemma SpaceStep(c: char, rest: string, current: string)
    requires c in SPACES
    ensures Tokens([c] + rest, Plain, false, current) == Finished(current) + Tokens(rest, Plain, false, "")
  {
    SpacesAre(c);
    assert ([c] + rest)[1..] == rest;
  }

  /**
   * Tokenizing inverts writing, whatever mix of styles the words are written
   * with and whatever white space stands before, between and behind them.
   */
  lemma {:induction false} TokensInvertCommand(lead: string, ws: seq<Word>)
    requires Blank(lead) && Spaced(ws)
    ensures Tokens(lead + CommandOf(ws), Plain, false, "") == Texts(ws)
    decreases |ws|
  {
    hide Tokens, WrittenAll, TextOf, AllWritable;
    NoTokens();
    if lead != "" {
      GapReads(lead, CommandOf(ws), "");
      assert [] + Tokens(CommandOf(ws), Plain, false, "") == Tokens(CommandOf(ws), Plain, false, "");
    } else {
      assert lead + CommandOf(ws) == CommandOf(ws);
    }
    if ws != [] {
      var w, rest := ws[0], CommandOf(ws[1..]);
      assert CommandOf(ws) == WrittenAll(w.parts) + (w.gap + rest);
      WordReads(w.parts, w.gap + rest, "");
      assert "" + TextOf(w.parts) == TextOf(w.parts);
      TokensInvertCommand("", ws[1..]);
      assert "" + rest == rest;
      if w.gap != "" {
        GapReads(w.gap, rest, TextOf(w.parts));
      } else {
        assert w.gap + rest == "";
        Ends(TextOf(w.parts));
        assert Texts(ws[1..]) == [] && Finished(TextOf(w.parts)) + [] == Finished(TextOf(w.parts));
      }
    }
  }

  /** A line may end within quotes, and a backslash at its end counts for nothing. */
  lemma UnfinishedReads(t: string, current: string)
    ensures Tokens("\"" + EscapeQuotes(t), Plain, false, current) == Finished(current + t)
    ensures '\'' !in t ==> Tokens("'" + t, Plain, false, current) == Finished(current + t)
    ensures Tokens("\\", Plain, false, current) == Finished(current)
  {
    Ends(current + t);
    Ends(current);
    assert "\\"[1..] == "";
    hide Tokens, EscapeQuotes;
    QuoteStep(EscapeQuotes(t), Double, current);
    QuotedReads(t, "", current);
    assert EscapeQuotes(t) + "" == EscapeQuotes(t) && t + "" == t;
    if '\'' !in t {
      QuoteStep(t, Single, current);
      SingleReads(t, "", current);
    }
  }

  lemma NoTokens()
    ensures Tokens("", Plain, false, "") == []
  {
  }

  lemma Ends(current: string)
    ensures forall mode, escaped :: Tokens("", mode, escaped, current) == Finished(current)
  {
  }
}
