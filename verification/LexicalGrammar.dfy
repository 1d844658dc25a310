/** The scanner's lexical rules as rules about strings: what opens a literal, a raw string or a comment, where it
    ends, and which braces count. The automaton of module Lexer is proved to follow them on every text. */
module LexicalGrammar {
  import opened Lexer
  import opened Wrappers

  datatype Kind = Ordinary | Literal | RawString(hashes: nat) | Note | BlockNote

  /** Consecutive c from pos on. */
  function RunFrom(t: string, c: char, pos: nat): (n: nat)
    requires pos <= |t|
    ensures pos + n <= |t| && (forall i :: pos <= i < pos + n ==> t[i] == c) && (pos + n < |t| ==> t[pos + n] != c)
    decreases |t| - pos
  {
    if pos < |t| && t[pos] == c then 1 + RunFrom(t, c, pos + 1) else 0
  }

  /** Consecutive c directly before pos. */
  function RunBefore(t: string, c: char, pos: nat): (n: nat)
    requires pos <= |t|
    ensures n <= pos && (forall i :: pos - n <= i < pos ==> t[i] == c) && (n < pos ==> t[pos - n - 1] != c)
  {
    if pos > 0 && t[pos - 1] == c then 1 + RunBefore(t, c, pos - 1) else 0
  }

  /** What a text read as code begins with: a quote, an r with hashes and a quote, two slashes, a slash and a star, or
      none of these. */
  function Opening(t: string): Kind
    requires t != ""
  {
    if t[0] == '"' || t[0] == '\'' then Literal
    else if t[0] == 'r' then
      var h := RunFrom(t, '#', 1);
      if 1 + h < |t| && t[1 + h] == '"' then RawString(h) else Ordinary
    else if "//" <= t then Note
    else if "/*" <= t then BlockNote
    else Ordinary
  }

  /** Position i of a text that begins with such an opening is where the construct can end. A literal ends at its own
      quote behind an even number of backslashes, a raw string at a quote followed by as many hashes as it was opened
      with, a line comment at the end of its line, a block comment at a star and a slash. A literal and a raw string
      without hashes end with their line at the latest; the others may span lines. */
  predicate Ends(t: string, kind: Kind, i: nat)
    requires i < |t|
  {
    match kind
    case Ordinary => i == 0
    case Literal => i > 0 && (t[i] == '\n' || (t[i] == t[0] && RunBefore(t, '\\', i) % 2 == 0))
    case RawString(h) =>
      if h == 0 then i > 1 && (t[i] == '\n' || t[i] == '"')
      else i - h > h + 1 && t[i - h] == '"' && forall k :: i - h < k <= i ==> t[k] == '#'
    case Note => i > 1 && t[i] == '\n'
    case BlockNote => i > 2 && t[i - 1] == '*' && t[i] == '/'
  }

  /** The first end from pos on, or |t|. */
  function FirstEnd(t: string, kind: Kind, pos: nat): (i: nat)
    requires pos <= |t|
    ensures pos <= i <= |t| && (i < |t| ==> Ends(t, kind, i)) && forall k :: pos <= k < i ==> !Ends(t, kind, k)
    decreases |t| - pos
  {
    if pos == |t| || Ends(t, kind, pos) then pos else FirstEnd(t, kind, pos + 1)
  }

  /** The length of the first piece of a text read as code: one ordinary character, or a construct up to its first
      end, or all of the text when it does not end. */
  function Piece(t: string): (n: nat)
    requires t != ""
    ensures 0 < n <= |t|
  {
    var e := FirstEnd(t, Opening(t), 0);
    if e < |t| then e + 1 else |t|
  }

  /** Opening less closing braces of a text read as code: the ordinary ones count, those inside a construct do not. */
  function Braces(t: string): int
    decreases |t|
  {
    if t == "" then 0
    else
      (if Opening(t) != Ordinary then 0 else if t[0] == '{' then 1 else if t[0] == '}' then -1 else 0)
      + Braces(t[Piece(t)..])
  }

  // ---- the automaton inside a construct ----

  /** After the first m characters of t the automaton is in state st at the depth it began with. */
  ghost predicate Reads(s: (Lex, int), t: string, m: nat, st: Lex)
    requires m <= |t|
  {
    FeedAll(s, t[..m]) == (st, s.1)
  }

  lemma ReadsNext(s: (Lex, int), t: string, m: nat, st: Lex)
    requires m < |t| && Reads(s, t, m, st) && Delta(st, t[m]) == 0
    ensures Reads(s, t, m + 1, if t[m] == '\n' then EndOfLine(st) else Next(st, t[m]))
  {
    assert t[..m + 1][..m] == t[..m];
  }

  lemma ReadsNothing(s: (Lex, int), t: string)
    ensures Reads(s, t, 0, s.0)
  {
  }

  /** No end among the first m characters. */
  ghost predicate Inside(t: string, kind: Kind, m: nat)
    requires m <= |t|
  {
    forall i :: 0 <= i < m ==> !Ends(t, kind, i)
  }

  // A literal.

  ghost function LiteralState(t: string, m: nat): Lex
    requires 0 < m <= |t|
  {
    if RunBefore(t, '\\', m) % 2 == 0 then Quoted(t[0]) else Escaped(t[0])
  }

  /** One character of the body: a backslash changes whether the next one is escaped, any other ends the run. */
  lemma LiteralStep(t: string, m: nat)
    requires 0 < m < |t| && !Ends(t, Literal, m)
    ensures t[m] != '\n' && Next(LiteralState(t, m), t[m]) == LiteralState(t, m + 1)
    ensures Delta(LiteralState(t, m), t[m]) == 0
  {
  }

  lemma {:induction false} InLiteral(s: (Lex, int), t: string, m: nat)
    requires 0 < m <= |t| && InCode(s.0) && Opening(t) == Literal && Inside(t, Literal, m)
    requires s.0.AfterR? ==> t[0] != '"'
    ensures Reads(s, t, m, LiteralState(t, m))
  {
    if m == 1 {
      ReadsNothing(s, t);
      ReadsNext(s, t, 0, s.0);
    } else {
      InLiteral(s, t, m - 1);
      LiteralStep(t, m - 1);
      hide LiteralState, Reads, Next, EndOfLine;
      ReadsNext(s, t, m - 1, LiteralState(t, m - 1));
    }
  }

  // A line comment.

  lemma {:induction false} InNote(s: (Lex, int), t: string, m: nat)
    requires 2 <= m <= |t| && InCode(s.0) && Opening(t) == Note && Inside(t, Note, m)
    requires !s.0.Slash?
    ensures Reads(s, t, m, LineComment)
  {
    if m == 2 {
      ReadsNothing(s, t);
      ReadsNext(s, t, 0, s.0);
      ReadsNext(s, t, 1, Slash);
    } else {
      InNote(s, t, m - 1);
      ReadsNext(s, t, m - 1, LineComment);
      assert !Ends(t, Note, m - 1);
    }
  }

  // A block comment.

  ghost function BlockState(t: string, m: nat): Lex
    requires 0 < m <= |t|
  {
    if m > 2 && t[m - 1] == '*' then BlockStar else Block
  }

  lemma {:induction false} InBlockNote(s: (Lex, int), t: string, m: nat)
    requires 2 <= m <= |t| && InCode(s.0) && Opening(t) == BlockNote && Inside(t, BlockNote, m)
    requires !s.0.Slash?
    ensures Reads(s, t, m, BlockState(t, m))
  {
    if m == 2 {
      ReadsNothing(s, t);
      ReadsNext(s, t, 0, s.0);
      ReadsNext(s, t, 1, Slash);
    } else {
      InBlockNote(s, t, m - 1);
      ReadsNext(s, t, m - 1, BlockState(t, m - 1));
      assert !Ends(t, BlockNote, m - 1);
    }
  }

  // A raw string.

  /** A quote of the body and `seen` hashes stand directly before m. */
  ghost function RawState(t: string, h: nat, m: nat): Lex
    requires m <= |t|
  {
    var seen := RunBefore(t, '#', m);
    if h > 0 && m - seen > h + 2 && t[m - seen - 1] == '"' then RawClose(h, seen) else Raw(h)
  }

  lemma {:induction false} RawOpens(s: (Lex, int), t: string, h: nat, k: nat)
    requires InCode(s.0) && t != "" && Opening(t) == RawString(h) && k <= h
    ensures Reads(s, t, k + 1, AfterR(k))
  {
    if k == 0 {
      ReadsNothing(s, t);
      ReadsNext(s, t, 0, s.0);
    } else {
      RawOpens(s, t, h, k - 1);
      ReadsNext(s, t, k, AfterR(k - 1));
    }
  }

  /** Where the raw string has not ended, fewer hashes than it takes stand behind a quote of its body. */
  lemma NoLongRun(t: string, h: nat, m: nat)
    requires 0 < h && h + 2 <= m <= |t| && Inside(t, RawString(h), m)
    ensures var seen := RunBefore(t, '#', m); m - seen > h + 2 && t[m - seen - 1] == '"' ==> seen < h
  {
    var seen := RunBefore(t, '#', m);
    if m - seen > h + 2 && t[m - seen - 1] == '"' && seen >= h {
      assert Ends(t, RawString(h), m - seen - 1 + h);
    }
  }

  /** One character of the body. */
  lemma RawStep(t: string, h: nat, m: nat)
    requires h + 2 <= m < |t| && Inside(t, RawString(h), m + 1)
    ensures RawState(t, h, m + 1)
         == if t[m] == '\n' then EndOfLine(RawState(t, h, m)) else Next(RawState(t, h, m), t[m])
    ensures Delta(RawState(t, h, m), t[m]) == 0
  {
    if h > 0 {
      NoLongRun(t, h, m + 1);
    } else {
      assert !Ends(t, RawString(h), m);
    }
    hide Inside, Ends;
  }

  /** At the opening quote the body is empty. */
  lemma RawStarts(t: string, h: nat)
    requires t != "" && Opening(t) == RawString(h)
    ensures h + 1 < |t| && t[h + 1] == '"' && RawState(t, h, h + 2) == Raw(h)
  {
  }

  lemma RawOpened(s: (Lex, int), t: string, h: nat)
    requires InCode(s.0) && t != "" && Opening(t) == RawString(h)
    ensures h + 2 <= |t| && Reads(s, t, h + 2, RawState(t, h, h + 2))
  {
    RawOpens(s, t, h, h);
    RawStarts(t, h);
    hide Reads, RawState, Opening;
    ReadsNext(s, t, h + 1, AfterR(h));
  }

  lemma {:induction false} InRawString(s: (Lex, int), t: string, h: nat, m: nat)
    requires h + 2 <= m <= |t| && InCode(s.0) && Opening(t) == RawString(h) && Inside(t, RawString(h), m)
    ensures Reads(s, t, m, RawState(t, h, m))
  {
    hide RawState, Reads, Next, EndOfLine, Ends, Opening, Delta, InCode;
    if m == h + 2 {
      RawOpened(s, t, h);
    } else {
      InRawString(s, t, h, m - 1);
      RawStep(t, h, m - 1);
      ReadsNext(s, t, m - 1, RawState(t, h, m - 1));
    }
  }

  // ---- the automaton on a whole text ----

  /** A state the automaton reaches in code whose pending r or slash does not begin anything with the text ahead. */
  predicate Pending(st: Lex, t: string) {
    match st
    case Code => true
    case AfterR(_) => var h := RunFrom(t, '#', 0); h == |t| || t[h] != '"'
    case Slash => t == "" || (t[0] != '/' && t[0] != '*')
    case _ => false
  }

  /** An ordinary character counts if it is a brace, and begins nothing. */
  lemma OrdinaryIsRead(s: (Lex, int), t: string)
    requires t != "" && Opening(t) == Ordinary && Pending(s.0, t)
    ensures Piece(t) == 1 && Pending(Feed(s, t[0]).0, t[1..])
    ensures Feed(s, t[0]).1 == s.1 + if t[0] == '{' then 1 else if t[0] == '}' then -1 else 0
  {
    RunOfTail(t, 0);
    if s.0.AfterR? && t[0] == '#' {
      assert RunFrom(t, '#', 0) == 1 + RunFrom(t[1..], '#', 0);
    }
  }

  lemma {:induction false} RunOfTail(t: string, pos: nat)
    requires pos < |t|
    ensures RunFrom(t, '#', pos + 1) == RunFrom(t[1..], '#', pos)
    decreases |t| - pos
  {
    if pos + 1 < |t| && t[pos + 1] == '#' {
      RunOfTail(t, pos + 1);
    }
  }

  /** A construct is read up to its end without counting a brace, and code goes on behind it. */
  lemma ConstructIsRead(s: (Lex, int), t: string)
    requires t != "" && Opening(t) != Ordinary && Pending(s.0, t) && FirstEnd(t, Opening(t), 0) < |t|
    ensures FeedAll(s, t[..Piece(t)]) == (Code, s.1)
  {
    var e := FirstEnd(t, Opening(t), 0);
    match Opening(t) {
      case Literal => {
        InLiteral(s, t, e);
        ReadsNext(s, t, e, LiteralState(t, e));
      }
      case RawString(h) => {
        InRawString(s, t, h, e);
        RawEnds(t, h, e);
        hide RawState, Opening, Ends, FirstEnd, RunFrom;
        ReadsNext(s, t, e, RawState(t, h, e));
      }
      case Note => {
        InNote(s, t, e);
        ReadsNext(s, t, e, LineComment);
      }
      case BlockNote => {
        InBlockNote(s, t, e);
        ReadsNext(s, t, e, BlockState(t, e));
      }
    }
  }

  lemma RawEnds(t: string, h: nat, e: nat)
    requires h + 2 <= e < |t| && Ends(t, RawString(h), e)
    ensures Delta(RawState(t, h, e), t[e]) == 0
    ensures (if t[e] == '\n' then EndOfLine(RawState(t, h, e)) else Next(RawState(t, h, e), t[e])) == Code
  {
  }

  /** A construct that does not end counts no brace. */
  lemma OpenConstructIsRead(s: (Lex, int), t: string)
    requires t != "" && Opening(t) != Ordinary && Pending(s.0, t) && FirstEnd(t, Opening(t), 0) == |t|
    ensures FeedAll(s, t).1 == s.1
  {
    assert t[..|t|] == t;
    match Opening(t) {
      case Literal => InLiteral(s, t, |t|);
      case RawString(h) => InRawString(s, t, h, |t|);
      case Note => InNote(s, t, |t|);
      case BlockNote => InBlockNote(s, t, |t|);
    }
  }

  /** On every text the automaton's depth is the depth it began with plus the ordinary braces of the text. */
  lemma {:induction false} DepthIsBraces(s: (Lex, int), t: string)
    requires Pending(s.0, t)
    ensures FeedAll(s, t).1 == s.1 + Braces(t)
    decreases |t|
  {
    if t != "" {
      var n := Piece(t);
      assert t == t[..n] + t[n..];
      FeedSplit(s, t[..n], t[n..]);
      if Opening(t) == Ordinary {
        OrdinaryIsRead(s, t);
        assert t[..1] == [t[0]] && [t[0]][..0] == "";
        hide Opening, Feed, Pending;
        DepthIsBraces(Feed(s, t[0]), t[1..]);
      } else if FirstEnd(t, Opening(t), 0) < |t| {
        ConstructIsRead(s, t);
        hide Opening, FeedAll, FirstEnd, Ends;
        DepthIsBraces((Code, s.1), t[n..]);
      } else {
        OpenConstructIsRead(s, t);
        assert t[n..] == "";
      }
    }
  }

  // ---- the matching brace ----

  predicate PlainLines(lines: seq<string>) {
    forall line :: line in lines ==> Plain(line)
  }

  /** The text's braces first balance one brace opened before it with its last character. */
  predicate ClosesWith(t: string) {
    Braces(t) == -1 && forall i :: 0 <= i < |t| ==> Braces(t[..i]) >= 0
  }

  predicate StaysOpen(t: string) {
    forall i :: 0 <= i <= |t| ==> Braces(t[..i]) >= 0
  }

  /** The ordinary brace that closes the one before (start, pos) stands on line j, before position e. */
  ghost predicate ClosesBefore(lines: seq<string>, start: nat, pos: nat, j: nat, e: nat)
    requires start < |lines| && pos <= |lines[start]|
  {
    start <= j < |lines| && e <= |lines[j]| && (start == j ==> pos <= e) && ClosesWith(Span(lines, start, pos, j, e))
  }

  ghost predicate ClosesOn(lines: seq<string>, start: nat, pos: nat, j: nat)
    requires start < |lines| && pos <= |lines[start]|
  {
    exists e :: ClosesBefore(lines, start, pos, j, e)
  }

  /** What the scanner has to answer for the line `start`: the line of the ordinary brace that closes the line's first
      brace; None if the line has no brace, or the brace is never closed. */
  ghost predicate IsMatchingBrace(lines: seq<string>, start: nat, r: Option<nat>)
    requires start < |lines|
  {
    var open := IndexOf(lines[start], '{', 0);
    if open == |lines[start]| then r == None
    else match r
      case Some(j) => ClosesOn(lines, start, open + 1, j)
      case None => StaysOpen(Rest(lines, start, open + 1))
  }

  lemma FirstZeroCloses(t: string)
    requires FirstZero((Code, 1), t)
    ensures ClosesWith(t)
  {
    hide Braces, FeedAll;
    DepthIsBraces((Code, 1), t);
    forall i | 0 <= i < |t| ensures Braces(t[..i]) >= 0 {
      DepthIsBraces((Code, 1), t[..i]);
    }
  }

  lemma NeverZeroStaysOpen(t: string)
    requires NeverZero((Code, 1), t)
    ensures StaysOpen(t)
  {
    hide Braces, FeedAll;
    forall i | 0 <= i <= |t| ensures Braces(t[..i]) >= 0 {
      DepthIsBraces((Code, 1), t[..i]);
    }
  }

  /** The scanner's answer is the lexical one, for every file. */
  lemma MatchingBraceIsLexical(lines: seq<string>, start: nat)
    requires start < |lines| && PlainLines(lines)
    ensures IsMatchingBrace(lines, start, MatchingBrace(lines, start))
  {
    MatchingBraceIsFirstZero(lines, start);
    hide MatchingBrace, FirstZero, NeverZero, ClosesWith, StaysOpen, Span, Rest;
    var open := IndexOf(lines[start], '{', 0);
    if open < |lines[start]| {
      match MatchingBrace(lines, start)
      case Some(j) =>
        var e :| ClosesAt(lines, (Code, 1), start, open + 1, j, e);
        FirstZeroCloses(Span(lines, start, open + 1, j, e));
        assert ClosesBefore(lines, start, open + 1, j, e);
      case None =>
        NeverZeroStaysOpen(Rest(lines, start, open + 1));
    }
  }

  // ---- only one answer is right ----

  function Newlines(t: string): nat {
    if t == "" then 0 else Newlines(t[1..]) + if t[0] == '\n' then 1 else 0
  }

  lemma {:induction false} NewlinesAppend(a: string, b: string)
    ensures Newlines(a + b) == Newlines(a) + Newlines(b)
  {
    if a == "" {
      assert a + b == b;
    } else {
      assert (a + b)[1..] == a[1..] + b;
      NewlinesAppend(a[1..], b);
    }
  }

  lemma {:induction false} PlainHasNone(t: string)
    requires Plain(t)
    ensures Newlines(t) == 0
  {
    if t != "" {
      PlainHasNone(t[1..]);
    }
  }

  lemma LineLeft(line: string, pos: nat, span: string, rest: string)
    requires pos <= |line| && Plain(line) && span <= rest
    ensures line[pos..] + "\n" + span <= line[pos..] + "\n" + rest
    ensures Newlines(line[pos..] + "\n" + span) == 1 + Newlines(span)
  {
    PlainHasNone(line[pos..]);
    NewlinesAppend(line[pos..], "\n");
    NewlinesAppend(line[pos..] + "\n", span);
  }

  /** A span is the beginning of the rest, with one newline for every line it leaves. */
  lemma {:induction false} SpanBeginsRest(lines: seq<string>, k: nat, pos: nat, j: nat, e: nat)
    requires k <= j < |lines| && pos <= |lines[k]| && e <= |lines[j]| && (k == j ==> pos <= e)
    requires PlainLines(lines)
    ensures Span(lines, k, pos, j, e) <= Rest(lines, k, pos)
    ensures Newlines(Span(lines, k, pos, j, e)) == j - k
    decreases j - k
  {
    assert lines[k] in lines;
    hide Newlines, Plain;
    if k < j {
      SpanBeginsRest(lines, k + 1, 0, j, e);
      LineLeft(lines[k], pos, Span(lines, k + 1, 0, j, e), Rest(lines, k + 1, 0));
    } else {
      PartOfLine(lines[k], pos, e);
      hide Span;
      assert Span(lines, k, pos, j, e) == lines[k][pos..e] by {
        SpanOfLine(lines, k, pos, e);
      }
      assert lines[k][pos..e] <= lines[k][pos..];
    }
  }

  lemma SpanOfLine(lines: seq<string>, k: nat, pos: nat, e: nat)
    requires k < |lines| && pos <= e <= |lines[k]|
    ensures Span(lines, k, pos, k, e) == lines[k][pos..e]
  {
  }

  lemma PartOfLine(line: string, pos: nat, e: nat)
    requires Plain(line) && pos <= e <= |line|
    ensures Newlines(line[pos..e]) == 0
  {
    PlainHasNone(line[pos..e]);
  }

  /** A text that closes has no longer one that begins with it and closes too. */
  lemma ClosesOnce(t: string, t': string, rest: string)
    requires ClosesWith(t) && ClosesWith(t') && t <= rest && t' <= rest
    ensures |t'| <= |t|
  {
    hide Braces;
    if |t| < |t'| {
      PrefixOfPrefix(t, t', rest);
    }
  }

  lemma PrefixOfPrefix(t: string, t': string, rest: string)
    requires t <= rest && t' <= rest && |t| <= |t'|
    ensures t == t'[..|t|]
  {
  }

  lemma NotBothWays(t: string, rest: string)
    requires ClosesWith(t) && t <= rest
    ensures !StaysOpen(rest)
  {
    hide Braces;
    assert t == rest[..|t|];
  }

  /** The lexical answer is one only, so it is the scanner's. */
  lemma MatchingBraceUnique(lines: seq<string>, start: nat, r: Option<nat>)
    requires start < |lines| && PlainLines(lines)
    ensures IsMatchingBrace(lines, start, r) <==> r == MatchingBrace(lines, start)
  {
    MatchingBraceIsLexical(lines, start);
    if IsMatchingBrace(lines, start, r) {
      SameMatchingBrace(lines, start, r, MatchingBrace(lines, start));
    }
  }

  lemma SameMatchingBrace(lines: seq<string>, start: nat, r: Option<nat>, r': Option<nat>)
    requires start < |lines| && PlainLines(lines)
    requires IsMatchingBrace(lines, start, r) && IsMatchingBrace(lines, start, r')
    ensures r == r'
  {
    hide Span, Rest, ClosesWith, StaysOpen, ClosesOn, Newlines;
    var pos := IndexOf(lines[start], '{', 0) + 1;
    if pos <= |lines[start]| {
      if r.Some? {
        var t := ClosingText(lines, start, pos, r.value);
        NotBothWays(t, Rest(lines, start, pos));
        if r'.Some? {
          var t' := ClosingText(lines, start, pos, r'.value);
          ClosesOnce(t, t', Rest(lines, start, pos));
          ClosesOnce(t', t, Rest(lines, start, pos));
          PrefixOfPrefix(t, t', Rest(lines, start, pos));
          assert t == t';
        }
      } else if r'.Some? {
        var t' := ClosingText(lines, start, pos, r'.value);
        NotBothWays(t', Rest(lines, start, pos));
      }
    }
  }

  lemma ClosingText(lines: seq<string>, start: nat, pos: nat, j: nat) returns (t: string)
    requires start < |lines| && pos <= |lines[start]| && PlainLines(lines)
    requires ClosesOn(lines, start, pos, j)
    ensures ClosesWith(t) && t <= Rest(lines, start, pos) && Newlines(t) == j - start
  {
    hide ClosesWith, Rest, Span, Plain;
    var e :| ClosesBefore(lines, start, pos, j, e);
    SpanBeginsRest(lines, start, pos, j, e);
    t := Span(lines, start, pos, j, e);
  }
}
