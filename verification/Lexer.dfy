/** The lexical rules of the baseline scanner as a one-character-at-a-time automaton. These are the
    scanner's own rules, not the Rust grammar: a lifetime tick opens a character literal, for one. */
module Lexer {
  import opened Wrappers

  datatype Lex =
    | Code
    | AfterR(hashes: nat)                    // read r and so many #
    | Raw(hashes: nat)                       // inside r##"..."##
    | RawClose(hashes: nat, seen: nat)       // ... after a quote and so many #
    | Quoted(quote: char)                    // inside "..." or '...'
    | Escaped(quote: char)                   // ... after a backslash
    | Slash
    | LineComment
    | Block
    | BlockStar                              // inside a block comment, after a *

  function FromCode(c: char): Lex {
    if c == 'r' then AfterR(0)
    else if c == '"' || c == '\'' then Quoted(c)
    else if c == '/' then Slash
    else Code
  }

  function Next(st: Lex, c: char): Lex {
    match st
    case Code => FromCode(c)
    case AfterR(h) => if c == '#' then AfterR(h + 1) else if c == '"' then Raw(h) else FromCode(c)
    case Raw(h) => if c != '"' then Raw(h) else if h == 0 then Code else RawClose(h, 0)
    case RawClose(h, seen) =>
      if c == '#' then if seen + 1 >= h then Code else RawClose(h, seen + 1)
      else if c == '"' then RawClose(h, 0)
      else Raw(h)
    case Quoted(q) => if c == '\\' then Escaped(q) else if c == q then Code else Quoted(q)
    case Escaped(q) => Quoted(q)
    case Slash => if c == '/' then LineComment else if c == '*' then Block else FromCode(c)
    case LineComment => LineComment
    case Block => if c == '*' then BlockStar else Block
    case BlockStar => if c == '/' then Code else if c == '*' then BlockStar else Block
  }

  /** Only raw strings with hashes and block comments continue on the next line. */
  function EndOfLine(st: Lex): Lex {
    match st
    case Raw(h) => if h > 0 then Raw(h) else Code
    case RawClose(h, _) => if h > 0 then Raw(h) else Code
    case Block => Block
    case BlockStar => Block
    case _ => Code
  }

  /** Braces count only here. */
  predicate InCode(st: Lex) {
    st.Code? || st.AfterR? || st.Slash?
  }

  function Delta(st: Lex, c: char): int {
    if !InCode(st) then 0 else if c == '{' then 1 else if c == '}' then -1 else 0
  }

  /** What reading a line from `pos` leads to: the brace closes in it, or the line ends in a state. */
  datatype Outcome = Closed | Running(st: Lex, depth: int)

  function ScanLine(line: string, pos: nat, st: Lex, depth: int): Outcome
    decreases |line| - pos
  {
    if pos >= |line| then Running(EndOfLine(st), depth)
    else
      var depth' := depth + Delta(st, line[pos]);
      if depth' == 0 then Closed else ScanLine(line, pos + 1, Next(st, line[pos]), depth')
  }

  /** The line in which the depth first reaches 0, when line k leads to `o`. */
  function Continue(lines: seq<string>, k: nat, o: Outcome): Option<nat>
    requires k < |lines|
    decreases |lines| - k
  {
    match o
    case Closed => Some(k)
    case Running(st, depth) =>
      if k + 1 >= |lines| then None else Continue(lines, k + 1, ScanLine(lines[k + 1], 0, st, depth))
  }

  /** Index of the first c at or after pos, or |s|. */
  function IndexOf(s: string, c: char, pos: nat): (i: nat)
    requires pos <= |s|
    ensures pos <= i <= |s| && (i < |s| ==> s[i] == c) && c !in s[pos..i]
    decreases |s| - pos
  {
    if pos == |s| || s[pos] == c then pos
    else
      var i := IndexOf(s, c, pos + 1);
      assert s[pos..i] == [s[pos]] + s[pos + 1..i];
      i
  }

  /** The line that closes the first { of lines[start]. */
  function MatchingBrace(lines: seq<string>, start: nat): Option<nat>
    requires start < |lines|
  {
    var open := IndexOf(lines[start], '{', 0);
    if open == |lines[start]| then None else Continue(lines, start, ScanLine(lines[start], open + 1, Code, 1))
  }

  // ---- the same automaton over the text as one character stream ----

  /** One character of the stream; a newline ends the line. */
  function Feed(s: (Lex, int), c: char): (Lex, int) {
    if c == '\n' then (EndOfLine(s.0), s.1) else (Next(s.0, c), s.1 + Delta(s.0, c))
  }

  function FeedAll(s: (Lex, int), text: string): (Lex, int) {
    if text == "" then s else Feed(FeedAll(s, text[..|text| - 1]), text[|text| - 1])
  }

  lemma {:induction false} FeedSplit(s: (Lex, int), a: string, b: string)
    ensures FeedAll(s, a + b) == FeedAll(FeedAll(s, a), b)
    decreases |b|
  {
    if b == "" {
      assert a + b == a;
    } else {
      assert (a + b)[..|a + b| - 1] == a + b[..|b| - 1];
      FeedSplit(s, a, b[..|b| - 1]);
    }
  }

  predicate Plain(line: string) {
    '\n' !in line
  }

  /** The depth is zero after `text` and at least one everywhere before. */
  ghost predicate FirstZero(s: (Lex, int), text: string) {
    && FeedAll(s, text).1 == 0
    && forall i :: 0 <= i < |text| ==> FeedAll(s, text[..i]).1 >= 1
  }

  ghost predicate NeverZero(s: (Lex, int), text: string) {
    forall i :: 0 <= i <= |text| ==> FeedAll(s, text[..i]).1 >= 1
  }

  lemma FeedCons(s: (Lex, int), c: char, text: string)
    ensures FeedAll(s, [c] + text) == FeedAll(Feed(s, c), text)
  {
    FeedSplit(s, [c], text);
    assert [c][..0] == "";
    assert FeedAll(s, [c]) == Feed(s, c);
  }

  /** A line scan closes where the stream first reaches depth 0; otherwise it carries the stream's state on. */
  lemma {:induction false} ScanLineIsFeed(line: string, pos: nat, st: Lex, depth: int)
    requires Plain(line) && pos <= |line| && depth >= 1
    ensures var o := ScanLine(line, pos, st, depth);
      if o.Closed? then exists e :: pos < e <= |line| && FirstZero((st, depth), line[pos..e])
      else NeverZero((st, depth), line[pos..]) && FeedAll((st, depth), line[pos..] + "\n") == (o.st, o.depth)
    decreases |line| - pos
  {
    if pos == |line| {
      assert line[pos..] == "" && "" + "\n" == "\n" && "\n"[..0] == "";
    } else {
      var c := line[pos];
      var next := (Next(st, c), depth + Delta(st, c));
      assert c in line && Feed((st, depth), c) == next && next.1 >= 0;
      assert ScanLine(line, pos, st, depth) == if next.1 == 0 then Closed else ScanLine(line, pos + 1, next.0, next.1);
      hide ScanLine, FirstZero, NeverZero, FeedAll, Feed, Next, Delta;
      if next.1 == 0 {
        ClosesHere(line, pos, (st, depth));
      } else {
        ScanLineIsFeed(line, pos + 1, next.0, next.1);
        if ScanLine(line, pos, st, depth).Closed? {
          var e :| pos + 1 < e <= |line| && FirstZero(next, line[pos + 1..e]);
          ClosesLater(line, pos, (st, depth), e);
        } else {
          RunsOn(line, pos, (st, depth));
        }
      }
    }
  }

  lemma ClosesHere(line: string, pos: nat, s: (Lex, int))
    requires pos < |line| && s.1 >= 1 && Feed(s, line[pos]).1 == 0
    ensures FirstZero(s, line[pos..pos + 1])
  {
    assert line[pos..pos + 1] == [line[pos]] + "";
    FeedCons(s, line[pos], "");
  }

  lemma ClosesLater(line: string, pos: nat, s: (Lex, int), e: nat)
    requires pos + 1 < e <= |line| && s.1 >= 1 && FirstZero(Feed(s, line[pos]), line[pos + 1..e])
    ensures FirstZero(s, line[pos..e])
  {
    assert line[pos..e] == [line[pos]] + line[pos + 1..e];
    FirstZeroCons(s, line[pos], line[pos + 1..e]);
  }

  lemma RunsOn(line: string, pos: nat, s: (Lex, int))
    requires pos < |line| && s.1 >= 1 && NeverZero(Feed(s, line[pos]), line[pos + 1..])
    ensures NeverZero(s, line[pos..])
    ensures FeedAll(s, line[pos..] + "\n") == FeedAll(Feed(s, line[pos]), line[pos + 1..] + "\n")
  {
    hide Feed, FeedAll, NeverZero;
    assert line[pos..] == [line[pos]] + line[pos + 1..];
    NeverZeroCons(s, line[pos], line[pos + 1..]);
    assert line[pos..] + "\n" == [line[pos]] + (line[pos + 1..] + "\n");
    FeedCons(s, line[pos], line[pos + 1..] + "\n");
  }

  lemma FirstZeroCons(s: (Lex, int), c: char, text: string)
    requires s.1 >= 1 && FirstZero(Feed(s, c), text)
    ensures FirstZero(s, [c] + text)
  {
    FeedCons(s, c, text);
    forall i | 0 <= i < |[c] + text| ensures FeedAll(s, ([c] + text)[..i]).1 >= 1 {
      if i > 0 {
        assert ([c] + text)[..i] == [c] + text[..i - 1];
        FeedCons(s, c, text[..i - 1]);
      }
    }
  }

  lemma NeverZeroCons(s: (Lex, int), c: char, text: string)
    requires s.1 >= 1 && NeverZero(Feed(s, c), text)
    ensures NeverZero(s, [c] + text)
  {
    forall i | 0 <= i <= |[c] + text| ensures FeedAll(s, ([c] + text)[..i]).1 >= 1 {
      if i > 0 {
        assert ([c] + text)[..i] == [c] + text[..i - 1];
        FeedCons(s, c, text[..i - 1]);
      }
    }
  }

  lemma AppendPrefix(s: (Lex, int), a: string, b: string, i: nat)
    requires |a| <= i <= |a| + |b|
    ensures (a + b)[..i] == a + b[..i - |a|]
    ensures FeedAll(s, (a + b)[..i]) == FeedAll(FeedAll(s, a), b[..i - |a|])
  {
    FeedSplit(s, a, b[..i - |a|]);
    assert (a + b)[..i] == a + b[..i - |a|];
  }

  lemma FirstZeroAppend(s: (Lex, int), a: string, b: string)
    requires NeverZero(s, a) && FirstZero(FeedAll(s, a), b)
    ensures FirstZero(s, a + b)
  {
    FeedSplit(s, a, b);
    forall i | 0 <= i < |a + b| ensures FeedAll(s, (a + b)[..i]).1 >= 1 {
      if i >= |a| {
        AppendPrefix(s, a, b, i);
      } else {
        assert (a + b)[..i] == a[..i];
      }
    }
  }

  lemma NeverZeroAppend(s: (Lex, int), a: string, b: string)
    requires NeverZero(s, a) && NeverZero(FeedAll(s, a), b)
    ensures NeverZero(s, a + b)
  {
    forall i | 0 <= i <= |a + b| ensures FeedAll(s, (a + b)[..i]).1 >= 1 {
      if i >= |a| {
        AppendPrefix(s, a, b, i);
      } else {
        assert (a + b)[..i] == a[..i];
      }
    }
  }

  /** The text from (k, pos) up to, not including, (j, e), newlines between lines. */
  function Span(lines: seq<string>, k: nat, pos: nat, j: nat, e: nat): string
    requires k <= j < |lines| && pos <= |lines[k]| && e <= |lines[j]| && (k == j ==> pos <= e)
    decreases j - k
  {
    if k == j then lines[k][pos..e] else lines[k][pos..] + "\n" + Span(lines, k + 1, 0, j, e)
  }

  /** The text from (k, pos) to the end of the last line. */
  function Rest(lines: seq<string>, k: nat, pos: nat): string
    requires k < |lines| && pos <= |lines[k]|
    decreases |lines| - k
  {
    lines[k][pos..] + "\n" + if k + 1 < |lines| then Rest(lines, k + 1, 0) else ""
  }

  /** Reading from (k, pos), the depth is first zero just before (j, e). */
  ghost predicate ClosesAt(lines: seq<string>, s: (Lex, int), k: nat, pos: nat, j: nat, e: nat)
    requires k < |lines| && pos <= |lines[k]|
  {
    k <= j < |lines| && e <= |lines[j]| && (k == j ==> pos <= e) && FirstZero(s, Span(lines, k, pos, j, e))
  }

  ghost predicate ClosesIn(lines: seq<string>, s: (Lex, int), k: nat, pos: nat, j: nat)
    requires k < |lines| && pos <= |lines[k]|
  {
    exists e :: ClosesAt(lines, s, k, pos, j, e)
  }

  lemma NeverZeroLine(s: (Lex, int), line: string)
    requires NeverZero(s, line)
    ensures NeverZero(s, line + "\n")
  {
    assert line[..|line|] == line;
    forall i | 0 <= i <= |line + "\n"| ensures FeedAll(s, (line + "\n")[..i]).1 >= 1 {
      if i <= |line| {
        assert (line + "\n")[..i] == line[..i];
      } else {
        assert (line + "\n")[..i] == line + "\n";
        assert (line + "\n")[..|line|] == line;
      }
    }
  }

  /** The line returned is where the character stream first brings the depth to 0; None means it never does. */
  lemma {:induction false} ContinueIsFirstZero(lines: seq<string>, k: nat, pos: nat, st: Lex, depth: int)
    requires k < |lines| && pos <= |lines[k]| && depth >= 1 && forall line :: line in lines ==> Plain(line)
    ensures match Continue(lines, k, ScanLine(lines[k], pos, st, depth))
      case Some(j) => ClosesIn(lines, (st, depth), k, pos, j)
      case None => NeverZero((st, depth), Rest(lines, k, pos))
    decreases |lines| - k
  {
    var line, s, o := lines[k], (st, depth), ScanLine(lines[k], pos, st, depth);
    assert line in lines;
    ScanLineIsFeed(line, pos, st, depth);
    if o.Closed? {
      var e :| pos < e <= |line| && FirstZero(s, line[pos..e]);
      assert ClosesAt(lines, s, k, pos, k, e);
    } else {
      var first := line[pos..] + "\n";
      NeverZeroLine(s, line[pos..]);
      assert first[..|first|] == first;
      if k + 1 < |lines| {
        ContinueIsFirstZero(lines, k + 1, 0, o.st, o.depth);
        match Continue(lines, k + 1, ScanLine(lines[k + 1], 0, o.st, o.depth))
        case Some(j) =>
          var e :| ClosesAt(lines, (o.st, o.depth), k + 1, 0, j, e);
          FirstZeroAppend(s, first, Span(lines, k + 1, 0, j, e));
          assert ClosesAt(lines, s, k, pos, j, e);
        case None =>
          NeverZeroAppend(s, first, Rest(lines, k + 1, 0));
      } else {
        assert first + "" == first;
      }
    }
  }

  /** The scanner's answer for lines[start], stated on the text after its first opening brace. */
  lemma MatchingBraceIsFirstZero(lines: seq<string>, start: nat)
    requires start < |lines| && forall line :: line in lines ==> Plain(line)
    ensures var open := IndexOf(lines[start], '{', 0);
      if open == |lines[start]| then MatchingBrace(lines, start) == None
      else match MatchingBrace(lines, start)
        case Some(j) => ClosesIn(lines, (Code, 1), start, open + 1, j)
        case None => NeverZero((Code, 1), Rest(lines, start, open + 1))
  {
    var open := IndexOf(lines[start], '{', 0);
    if open < |lines[start]| {
      ContinueIsFirstZero(lines, start, open + 1, Code, 1);
    }
  }
}
