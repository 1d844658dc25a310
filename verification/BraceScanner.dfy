/** The line-by-line brace scanner: same-line fast loops, with the raw-string and block-comment state
    carried across lines. Every loop is proved to follow the automaton of module Lexer. */
module BraceScanner {
  import opened Lexer
  import LexicalGrammar
  import opened Wrappers

  /** The automaton state that the carried variables stand for. */
  function Mode(inRawString: nat, inBlockComment: bool): Lex {
    if inRawString > 0 then Raw(inRawString) else if inBlockComment then Block else Code
  }

  function IsHashes(line: string, pos: nat, n: nat): bool {
    pos + n <= |line| && forall i :: pos <= i < pos + n ==> line[i] == '#'
  }

  lemma {:induction false} HashesClose(line: string, pos: nat, h: nat, seen: nat, depth: int)
    requires depth != 0 && seen < h && IsHashes(line, pos, h - seen)
    ensures ScanLine(line, pos, RawClose(h, seen), depth) == ScanLine(line, pos + h - seen, Code, depth)
    decreases h - seen
  {
    if seen + 1 < h {
      HashesClose(line, pos + 1, h, seen + 1, depth);
    }
  }

  lemma {:induction false} HashesFallShort(line: string, pos: nat, n: nat, h: nat, seen: nat, depth: int)
    requires depth != 0 && seen + n < h && IsHashes(line, pos, n)
    requires pos + n == |line| || line[pos + n] != '#'
    ensures ScanLine(line, pos, RawClose(h, seen), depth) == ScanLine(line, pos, Raw(h), depth)
    decreases n
  {
    if n > 0 {
      HashesFallShort(line, pos + 1, n - 1, h, seen + 1, depth);
    }
  }

  /** At a quote inside a raw string: does it close here, and where does reading go on? */
  method TryClose(line: string, pos: nat, hashes: nat, ghost depth: int) returns (closes: bool, q: nat)
    requires depth != 0 && pos < |line| && line[pos] == '"'
    ensures pos < q <= |line|
    ensures ScanLine(line, pos, Raw(hashes), depth)
         == if closes then ScanLine(line, q, Code, depth) else ScanLine(line, pos + 1, Raw(hashes), depth)
  {
    var endHashes := 0;
    q := pos + 1;
    while q < |line| && line[q] == '#' && endHashes < hashes
      invariant endHashes <= hashes && q == pos + 1 + endHashes && IsHashes(line, pos + 1, endHashes)
    {
      endHashes := endHashes + 1;
      q := q + 1;
    }
    closes := endHashes == hashes;
    if hashes > 0 {
      if closes {
        HashesClose(line, pos + 1, hashes, 0, depth);
      } else {
        HashesFallShort(line, pos + 1, endHashes, hashes, 0, depth);
      }
    }
  }

  /** After r or br: counts the hashes and, if a quote follows, tries to close the raw string on this line. */
  method RawString(line: string, start: nat, ghost depth: int) returns (pos: nat, inRawString: nat)
    requires depth != 0 && start <= |line|
    ensures start <= pos <= |line|
    ensures ScanLine(line, start, AfterR(0), depth) == ScanLine(line, pos, Mode(inRawString, false), depth)
  {
    pos := start;
    var hashes := 0;
    while pos < |line| && line[pos] == '#'
      invariant start <= pos <= |line|
      invariant ScanLine(line, start, AfterR(0), depth) == ScanLine(line, pos, AfterR(hashes), depth)
    {
      hashes := hashes + 1;
      pos := pos + 1;
    }
    if pos == |line| || line[pos] != '"' {
      return pos, 0;
    }
    pos := pos + 1;
    inRawString := hashes;
    while pos < |line|
      invariant start <= pos <= |line| && inRawString == hashes
      invariant ScanLine(line, start, AfterR(0), depth) == ScanLine(line, pos, Raw(hashes), depth)
      decreases |line| - pos
    {
      if line[pos] == '"' {
        var closes, q := TryClose(line, pos, hashes, depth);
        if closes {
          inRawString := 0;
          pos := q;
          break;
        }
      }
      pos := pos + 1;
    }
  }

  /** The rest of a string or character literal on this line; an escape may step past the line's end. */
  method Literal(line: string, start: nat, quote: char, ghost depth: int) returns (pos: nat)
    requires depth != 0 && start <= |line| && (quote == '"' || quote == '\'')
    ensures start <= pos <= |line| + 1
    ensures ScanLine(line, start, Quoted(quote), depth) == ScanLine(line, pos, Code, depth)
  {
    pos := start;
    while pos < |line|
      invariant start <= pos <= |line| + 1
      invariant ScanLine(line, start, Quoted(quote), depth) == ScanLine(line, pos, Quoted(quote), depth)
      decreases |line| - pos
    {
      if line[pos] == '\\' {
        pos := pos + 2;
        continue;
      }
      if line[pos] == quote {
        return pos + 1;
      }
      pos := pos + 1;
    }
  }

  /** The rest of a block comment on this line, up to its last character. */
  method BlockComment(line: string, start: nat, ghost depth: int) returns (pos: nat, inBlockComment: bool)
    requires depth != 0 && start <= |line|
    ensures start <= pos <= |line|
    ensures ScanLine(line, start, Block, depth) == ScanLine(line, pos, Mode(0, inBlockComment), depth)
  {
    pos, inBlockComment := start, true;
    while pos + 1 < |line|
      invariant start <= pos <= |line| && inBlockComment
      invariant ScanLine(line, start, Block, depth) == ScanLine(line, pos, Block, depth)
      decreases |line| - pos
    {
      if line[pos] == '*' && line[pos + 1] == '/' {
        BlockCloses(line, pos, depth);
        return pos + 2, false;
      }
      StarStays(line, pos, depth);
      pos := pos + 1;
    }
  }

  lemma BlockCloses(line: string, pos: nat, depth: int)
    requires depth != 0 && pos + 1 < |line| && line[pos] == '*' && line[pos + 1] == '/'
    ensures ScanLine(line, pos, Block, depth) == ScanLine(line, pos + 2, Code, depth)
  {
    assert ScanLine(line, pos, Block, depth) == ScanLine(line, pos + 1, BlockStar, depth);
  }

  /** A star that no slash follows leaves the comment open. */
  lemma StarStays(line: string, pos: nat, depth: int)
    requires depth != 0 && pos < |line| && (line[pos] != '*' || pos + 1 == |line| || line[pos + 1] != '/')
    ensures ScanLine(line, pos, Block, depth) == ScanLine(line, pos + 1, Block, depth)
  {
    if line[pos] == '*' {
      assert ScanLine(line, pos, Block, depth) == ScanLine(line, pos + 1, BlockStar, depth);
    }
  }

  lemma {:induction false} LineCommentEnds(line: string, pos: nat, depth: int)
    requires depth != 0
    ensures ScanLine(line, pos, LineComment, depth) == Running(Code, depth)
    decreases |line| - pos
  {
    if pos < |line| {
      LineCommentEnds(line, pos + 1, depth);
    }
  }

  lemma LineCommentStarts(line: string, pos: nat, depth: int)
    requires depth != 0 && pos + 1 < |line| && line[pos] == line[pos + 1] == '/'
    ensures ScanLine(line, pos, Code, depth) == Running(Code, depth)
  {
    assert ScanLine(line, pos, Code, depth) == ScanLine(line, pos + 1, Slash, depth);
    LineCommentEnds(line, pos + 2, depth);
  }

  lemma BlockStarts(line: string, pos: nat, depth: int)
    requires depth != 0 && pos + 1 < |line| && line[pos] == '/' && line[pos + 1] == '*'
    ensures ScanLine(line, pos, Code, depth) == ScanLine(line, pos + 2, Block, depth)
  {
    assert ScanLine(line, pos, Code, depth) == ScanLine(line, pos + 1, Slash, depth);
  }

  /** An r or a slash that starts nothing is an ordinary character. */
  lemma OrdinaryCharacter(line: string, pos: nat, depth: int)
    requires depth != 0 && pos < |line| && line[pos] != '"' && line[pos] != '\'' && line[pos] != '{' && line[pos] != '}'
    requires line[pos] == 'r' ==> pos + 1 == |line| || (line[pos + 1] != '"' && line[pos + 1] != '#')
    requires line[pos] == '/' ==> pos + 1 == |line| || (line[pos + 1] != '/' && line[pos + 1] != '*')
    ensures ScanLine(line, pos, Code, depth) == ScanLine(line, pos + 1, Code, depth)
  {
    assert ScanLine(line, pos, Code, depth) == ScanLine(line, pos + 1, FromCode(line[pos]), depth);
  }

  /** Characters that can start a string, comment or brace. */
  predicate Special(c: char) {
    c == 'r' || c == 'R' || c == 'b' || c == 'B' || c == '"' || c == '\'' || c == '/' || c == '{' || c == '}'
  }

  /** The byte-string branch: what follows the b is read as a raw or plain string, or is not one. */
  method ByteString(line: string, start: nat, ghost depth: int) returns (pos: nat, inRawString: nat)
    requires depth >= 1 && start + 1 < |line| && line[start] == 'b'
      && (line[start + 1] == '"' || line[start + 1] == 'r')
    ensures start < pos
    ensures ScanLine(line, start, Code, depth) == ScanLine(line, pos, Mode(inRawString, false), depth)
  {
    OrdinaryCharacter(line, start, depth);
    inRawString := 0;
    if line[start + 1] == 'r' {
      if start + 2 >= |line| || (line[start + 2] != '"' && line[start + 2] != '#') {
        return start + 1, 0;
      }
      pos, inRawString := RawString(line, start + 2, depth);
    } else {
      pos := Literal(line, start + 2, '"', depth);
    }
  }

  /** One turn of the scanner's main loop in code: where it goes on, in which carried state, at which
      depth, or that the brace closed. */
  method CodeStep(line: string, start: nat, depth0: int)
    returns (closed: bool, pos: nat, inRawString: nat, inBlockComment: bool, depth: int)
    requires start < |line| && depth0 >= 1
    ensures start < pos && (inRawString == 0 || !inBlockComment)
    ensures closed ==> ScanLine(line, start, Code, depth0) == Closed
    ensures !closed ==> depth >= 1
    ensures !closed ==>
      ScanLine(line, start, Code, depth0) == ScanLine(line, pos, Mode(inRawString, inBlockComment), depth)
  {
    closed, pos, inRawString, inBlockComment, depth := false, start, 0, false, depth0;
    var ch := line[pos];
    var next := if pos + 1 < |line| then line[pos + 1] else ' ';
    if !Special(ch) {
      OrdinaryCharacter(line, pos, depth);
      pos := pos + 1;
    } else if ch == 'r' && (next == '"' || next == '#') {
      pos, inRawString := RawString(line, pos + 1, depth);
    } else if ch == 'b' && (next == '"' || next == 'r') {
      pos, inRawString := ByteString(line, pos, depth);
    } else if ch == '"' {
      pos := Literal(line, pos + 1, '"', depth);
    } else if ch == '\'' {
      pos := Literal(line, pos + 1, '\'', depth);
    } else if ch == '/' && next == '/' {
      LineCommentStarts(line, pos, depth);
      pos := |line|;
    } else if ch == '/' && next == '*' {
      BlockStarts(line, pos, depth);
      pos, inBlockComment := BlockComment(line, pos + 2, depth);
    } else if ch == '{' {
      depth, pos := depth + 1, pos + 1;
    } else if ch == '}' {
      depth := depth - 1;
      closed := depth == 0;
      pos := pos + 1;
    } else {
      OrdinaryCharacter(line, pos, depth);
      pos := pos + 1;
    }
  }

  /** One turn of the main loop inside a raw string or block comment carried from an earlier line. */
  method CarriedStep(line: string, start: nat, raw: nat, block: bool, ghost depth: int)
    returns (pos: nat, inRawString: nat, inBlockComment: bool)
    requires start < |line| && depth >= 1 && (raw > 0 || block) && (raw == 0 || !block)
    ensures start < pos <= |line| && (inRawString == 0 || !inBlockComment)
    ensures ScanLine(line, start, Mode(raw, block), depth) ==
         ScanLine(line, pos, Mode(inRawString, inBlockComment), depth)
  {
    pos, inRawString, inBlockComment := start + 1, raw, block;
    if raw > 0 {
      if line[start] == '"' {
        var closes, q := TryClose(line, start, raw, depth);
        if closes {
          pos, inRawString := q, 0;
        }
      }
    } else if line[start] == '*' && start + 1 < |line| && line[start + 1] == '/' {
      BlockCloses(line, start, depth);
      pos, inBlockComment := start + 2, false;
    } else {
      StarStays(line, start, depth);
    }
  }

  /** The scan of lines[start..]: the line whose } closes the first { of lines[start]. */
  method FindMatchingBrace(lines: seq<string>, start: nat) returns (r: Option<nat>)
    requires start < |lines|
    ensures r == MatchingBrace(lines, start)
    ensures LexicalGrammar.PlainLines(lines) ==> LexicalGrammar.IsMatchingBrace(lines, start, r)
  {
    hide LexicalGrammar.PlainLines, LexicalGrammar.IsMatchingBrace;
    if LexicalGrammar.PlainLines(lines) {
      LexicalGrammar.MatchingBraceIsLexical(lines, start);
    }
    var bracePos := IndexOf(lines[start], '{', 0);
    if bracePos == |lines[start]| {
      return None;
    }
    var depth, inRawString, inBlockComment := 1, 0, false;
    var pos: nat := bracePos + 1;
    var k := start;
    while true
      invariant start <= k < |lines| && depth >= 1 && (inRawString == 0 || !inBlockComment)
      invariant MatchingBrace(lines, start)
             == Continue(lines, k, ScanLine(lines[k], pos, Mode(inRawString, inBlockComment), depth))
      decreases |lines| - k
    {
      var line := lines[k];
      while pos < |line|
        invariant depth >= 1 && (inRawString == 0 || !inBlockComment)
        invariant MatchingBrace(lines, start)
               == Continue(lines, k, ScanLine(line, pos, Mode(inRawString, inBlockComment), depth))
        decreases |line| - pos
      {
        if inRawString > 0 || inBlockComment {
          pos, inRawString, inBlockComment := CarriedStep(line, pos, inRawString, inBlockComment, depth);
        } else {
          var closed;
          closed, pos, inRawString, inBlockComment, depth := CodeStep(line, pos, depth);
          if closed {
            return Some(k);
          }
        }
      }
      if k + 1 == |lines| {
        return None;
      }
      k, pos := k + 1, 0;
    }
  }

  // ---- test-module ranges ----

  /** Python's str.isspace on one character, which is also what the pattern's spaces are. */
  predicate IsSpace(c: char) {
    c in "\t\n\U{0B}\U{0C}\r\U{1C}\U{1D}\U{1E}\U{1F} \U{85}\U{A0}\U{1680}\U{2028}\U{2029}\U{202F}\U{205F}\U{3000}"
    || '\U{2000}' <= c <= '\U{200A}'
  }

  function Strip(s: string): string {
    if s != "" && IsSpace(s[0]) then Strip(s[1..])
    else if s != "" && IsSpace(s[|s| - 1]) then Strip(s[..|s| - 1])
    else s
  }

  predicate IsAttribute(line: string) {
    Strip(line) == "#[cfg(test)]"
  }

  /** Blank lines, line comments and further attributes between the attribute and its module. */
  predicate IsSkipped(line: string) {
    var s := Strip(line);
    s == "" || "//" <= s || "#[" <= s
  }

  function DropWhile(s: string, p: char -> bool): string {
    if s != "" && p(s[0]) then DropWhile(s[1..], p) else s
  }

  predicate IsWord(c: char) {
    c == '_' || 'a' <= c <= 'z' || 'A' <= c <= 'Z' || '0' <= c <= '9'
  }

  /** The pattern: spaces, mod, at least one space, an identifier, spaces, an opening brace. */
  predicate IsModule(line: string) {
    var s := DropWhile(line, IsSpace);
    "mod" <= s && |s| > 3 && IsSpace(s[3]) &&
    var name := DropWhile(s[3..], IsSpace);
    name != "" && IsWord(name[0]) && !('0' <= name[0] <= '9') &&
    var rest := DropWhile(DropWhile(name, IsWord), IsSpace);
    rest != "" && rest[0] == '{'
  }

  /** Line j opens the test module announced by the attribute on line i. */
  predicate Announces(lines: seq<string>, i: nat, j: nat) {
    && i < j < |lines| && IsAttribute(lines[i]) && IsModule(lines[j]) && !IsSkipped(lines[j])
    && forall l :: i < l < j ==> IsSkipped(lines[l])
  }

  predicate Inside(ranges: seq<(nat, nat)>, l: nat) {
    exists r :: r in ranges && r.0 <= l <= r.1
  }

  /** The module announced on line i is reported, unless that line is inside a reported module. */
  ghost predicate Accounted(lines: seq<string>, ranges: seq<(nat, nat)>, i: nat) {
    Inside(ranges, i) || forall j: nat :: Announces(lines, i, j) ==> exists r :: r in ranges && r.0 == j
  }

  lemma MatchAfterStart(lines: seq<string>, k: nat, o: Outcome)
    requires k < |lines|
    ensures var m := Continue(lines, k, o); m.Some? ==> k <= m.value < |lines|
    decreases |lines| - k
  {
    if o.Running? && k + 1 < |lines| {
      MatchAfterStart(lines, k + 1, ScanLine(lines[k + 1], 0, o.st, o.depth));
    }
  }

  lemma AnnouncedOnce(lines: seq<string>, i: nat, l: nat, j: nat, j': nat)
    requires Announces(lines, i, j) && i <= l < j && Announces(lines, l, j')
    ensures j' == j
  {
  }

  /** Reporting module (j, end) accounts for every line up to its end. */
  lemma Reports(lines: seq<string>, ranges: seq<(nat, nat)>, i: nat, j: nat, end: nat, l: nat)
    requires Announces(lines, i, j) && i <= l <= end
    ensures Accounted(lines, ranges + [(j, end)], l)
  {
    assert (j, end) == (ranges + [(j, end)])[|ranges|];
    if l < j {
      forall j': nat | Announces(lines, l, j') ensures j' == j {
        AnnouncedOnce(lines, i, l, j, j');
      }
    }
  }

  lemma StaysAccounted(lines: seq<string>, ranges: seq<(nat, nat)>, r: (nat, nat), l: nat)
    requires Accounted(lines, ranges, l)
    ensures Accounted(lines, ranges + [r], l)
  {
    assert forall q :: q in ranges ==> q in ranges + [r];
  }

  /** The first line from j on that is not skipped. */
  method SkipTo(lines: seq<string>, from: nat) returns (j: nat)
    requires from <= |lines|
    ensures from <= j <= |lines| && (j < |lines| ==> !IsSkipped(lines[j]))
    ensures forall l :: from <= l < j ==> IsSkipped(lines[l])
  {
    j := from;
    while j < |lines| && IsSkipped(lines[j])
      invariant from <= j <= |lines| && forall l :: from <= l < j ==> IsSkipped(lines[l])
    {
      j := j + 1;
    }
  }

  /** An announced module up to its matching brace, announced outside the reported ranges. */
  ghost predicate IsRange(lines: seq<string>, ranges: seq<(nat, nat)>, r: (nat, nat)) {
    && r.0 <= r.1 < |lines| && MatchingBrace(lines, r.0) == Some(r.1)
    && exists a: nat :: Announces(lines, a, r.0) && !Inside(ranges, a)
  }

  /** What the ranges found among the lines before i promise: in file order and without overlap, each a range,
      none missed. */
  ghost predicate Found(lines: seq<string>, ranges: seq<(nat, nat)>, i: nat) {
    && i <= |lines|
    && (forall a, b :: 0 <= a < b < |ranges| ==> ranges[a].1 < ranges[b].0)
    && (forall r :: r in ranges ==> IsRange(lines, ranges, r) && r.1 < i)
    && (forall l :: 0 <= l < i ==> Accounted(lines, ranges, l))
  }

  /** The attribute on line i, outside the reported modules, announces a module that never closes. */
  ghost predicate Unbalanced(lines: seq<string>, ranges: seq<(nat, nat)>, i: nat) {
    !Inside(ranges, i) && exists j: nat :: Announces(lines, i, j) && MatchingBrace(lines, j) == None
  }

  /** The search ends behind the last line, or gives up at an unbalanced announcement. */
  ghost predicate StopsAt(lines: seq<string>, ranges: seq<(nat, nat)>, stop: nat) {
    Found(lines, ranges, stop) && (stop == |lines| || Unbalanced(lines, ranges, stop))
  }

  ghost predicate TestModules(lines: seq<string>, ranges: seq<(nat, nat)>) {
    exists stop :: StopsAt(lines, ranges, stop)
  }

  /** The search between two turns of its loop. */
  ghost predicate Searching(lines: seq<string>, ranges: seq<(nat, nat)>, i: nat) {
    if i <= |lines| then Found(lines, ranges, i) else TestModules(lines, ranges)
  }

  lemma FoundMore(lines: seq<string>, ranges: seq<(nat, nat)>, i: nat, j: nat, end: nat)
    requires Found(lines, ranges, i) && Announces(lines, i, j) && MatchingBrace(lines, j) == Some(end)
    requires j <= end < |lines|
    ensures Found(lines, ranges + [(j, end)], end + 1)
  {
    var more := ranges + [(j, end)];
    forall a, b | 0 <= a < b < |more| ensures more[a].1 < more[b].0 {
      assert more[a] == ranges[a] && ranges[a] in ranges;
    }
    forall r | r in more ensures IsRange(lines, more, r) && r.1 < end + 1 {
      RangeStays(lines, ranges, i, j, end, r);
    }
    forall l | 0 <= l < end + 1 ensures Accounted(lines, more, l) {
      if l >= i {
        Reports(lines, ranges, i, j, end, l);
      } else {
        StaysAccounted(lines, ranges, (j, end), l);
      }
    }
  }

  lemma RangeStays(lines: seq<string>, ranges: seq<(nat, nat)>, i: nat, j: nat, end: nat, r: (nat, nat))
    requires Found(lines, ranges, i) && Announces(lines, i, j) && MatchingBrace(lines, j) == Some(end)
    requires j <= end < |lines| && r in ranges + [(j, end)]
    ensures IsRange(lines, ranges + [(j, end)], r) && r.1 < end + 1
  {
    hide IsAttribute, IsModule, IsSkipped, MatchingBrace, Accounted;
    var more := ranges + [(j, end)];
    if r in ranges {
      var a: nat :| Announces(lines, a, r.0) && !Inside(ranges, a);
      forall q | q in more ensures !(q.0 <= a <= q.1) {
        assert q in ranges || q == (j, end);
      }
    } else {
      assert r == (j, end);
      forall q | q in more ensures !(q.0 <= i <= q.1) {
        assert q in ranges || q == (j, end);
      }
    }
  }

  lemma FoundNothing(lines: seq<string>, ranges: seq<(nat, nat)>, i: nat)
    requires Found(lines, ranges, i) && i < |lines| && Accounted(lines, ranges, i)
    ensures Found(lines, ranges, i + 1)
  {
    hide IsRange, Accounted;
  }

  lemma GivesUp(lines: seq<string>, ranges: seq<(nat, nat)>, i: nat, j: nat)
    requires Found(lines, ranges, i) && Announces(lines, i, j) && MatchingBrace(lines, j) == None
    ensures TestModules(lines, ranges)
  {
    hide IsRange, Accounted, MatchingBrace;
    assert Unbalanced(lines, ranges, i);
    assert StopsAt(lines, ranges, i);
  }

  lemma NotAnnounced(lines: seq<string>, ranges: seq<(nat, nat)>, i: nat, j: nat)
    requires Found(lines, ranges, i) && i < j <= |lines|
    requires forall l :: i < l < j ==> IsSkipped(lines[l])
    requires j < |lines| ==> !IsSkipped(lines[j]) && !IsModule(lines[j])
    ensures Found(lines, ranges, i + 1)
  {
    hide IsAttribute, IsModule, IsSkipped, Found, IsRange, MatchingBrace, Inside;
    forall j': nat | Announces(lines, i, j') ensures j' == j {
      assert !(j' < j) && !(j < j');
    }
    assert Accounted(lines, ranges, i);
    FoundNothing(lines, ranges, i);
  }

  lemma FoundAtStart(lines: seq<string>)
    ensures Found(lines, [], 0)
  {
  }

  lemma PlainLine(lines: seq<string>, ranges: seq<(nat, nat)>, i: nat)
    requires i < |lines| && Found(lines, ranges, i) && !IsAttribute(lines[i])
    ensures Found(lines, ranges, i + 1)
  {
    hide IsAttribute, IsModule, IsSkipped, MatchingBrace;
    FoundNothing(lines, ranges, i);
  }

  lemma FoundAll(lines: seq<string>, ranges: seq<(nat, nat)>)
    requires Found(lines, ranges, |lines|)
    ensures TestModules(lines, ranges)
  {
    assert StopsAt(lines, ranges, |lines|);
  }

  lemma ClosedModule(lines: seq<string>, ranges: seq<(nat, nat)>, i: nat, j: nat, end: nat)
    requires Found(lines, ranges, i) && Announces(lines, i, j) && MatchingBrace(lines, j) == Some(end)
    ensures i <= end < |lines| && Found(lines, ranges + [(j, end)], end + 1)
  {
    MatchAfterStart(lines, j, ScanLine(lines[j], IndexOf(lines[j], '{', 0) + 1, Code, 1));
    FoundMore(lines, ranges, i, j, end);
  }

  /** One turn of the search at an attribute line: the ranges and the line to go on from, behind the last line
      when it gives up. */
  method AtAttribute(lines: seq<string>, ranges: seq<(nat, nat)>, i: nat)
    returns (more: seq<(nat, nat)>, next: nat)
    requires i < |lines| && IsAttribute(lines[i]) && Found(lines, ranges, i)
    ensures i < next && Searching(lines, more, next)
  {
    more := ranges;
    var j := SkipTo(lines, i + 1);
    if j < |lines| && IsModule(lines[j]) {
      var end := FindMatchingBrace(lines, j);
      if end.Some? {
        ClosedModule(lines, ranges, i, j, end.value);
        more := ranges + [(j, end.value)];
        next := end.value + 1;
      } else {
        GivesUp(lines, ranges, i, j);
        next := |lines| + 1;
      }
    } else {
      NotAnnounced(lines, ranges, i, j);
      next := i + 1;
    }
  }

  method FindTestModuleRanges(lines: seq<string>) returns (ranges: seq<(nat, nat)>)
    ensures TestModules(lines, ranges)
  {
    hide Found, TestModules, IsSkipped, Strip, IsModule, Accounted, IsRange, IsAttribute, MatchingBrace;
    ranges := [];
    var i: nat := 0;
    FoundAtStart(lines);
    while i < |lines|
      invariant Searching(lines, ranges, i)
      decreases |lines| - i
    {
      if IsAttribute(lines[i]) {
        ranges, i := AtAttribute(lines, ranges, i);
      } else {
        PlainLine(lines, ranges, i);
        i := i + 1;
      }
    }
    if i == |lines| {
      FoundAll(lines, ranges);
    }
  }

  // ---- only one answer is right ----

  /** The attribute that announces a range stands behind every earlier range. */
  lemma AnnouncedBehind(lines: seq<string>, ranges: seq<(nat, nat)>, i: nat, k: nat) returns (a: nat)
    requires Found(lines, ranges, i) && k < |ranges|
    ensures Announces(lines, a, ranges[k].0) && !Inside(ranges, a) && a < ranges[k].0
    ensures forall q :: 0 <= q < k ==> ranges[q].1 < a
  {
    hide IsAttribute, IsModule, IsSkipped, MatchingBrace, Accounted;
    assert ranges[k] in ranges;
    assert IsRange(lines, ranges, ranges[k]);
    a :| Announces(lines, a, ranges[k].0) && !Inside(ranges, a);
    forall q | 0 <= q < k ensures ranges[q].1 < a {
      assert ranges[q] in ranges;
      var b: nat :| Announces(lines, b, ranges[q].0) && !Inside(ranges, b);
      assert !IsSkipped(lines[ranges[q].0]);
    }
  }

  /** Later ranges start later. */
  lemma StartsInOrder(lines: seq<string>, ranges: seq<(nat, nat)>, i: nat, a: nat, b: nat)
    requires Found(lines, ranges, i) && a <= b < |ranges|
    ensures ranges[a].0 <= ranges[b].0 && (a < b ==> ranges[a].1 < ranges[b].0 && ranges[a].0 < ranges[b].0)
    ensures ranges[b].1 < i && ranges[b].0 <= ranges[b].1
  {
    hide Announces, MatchingBrace, Accounted;
    assert ranges[a] in ranges && ranges[b] in ranges;
    assert IsRange(lines, ranges, ranges[a]) && IsRange(lines, ranges, ranges[b]);
  }

  /** A line before range k and behind the ranges before it lies in no range. */
  lemma Between(lines: seq<string>, ranges: seq<(nat, nat)>, i: nat, k: nat, l: nat)
    requires Found(lines, ranges, i) && k < |ranges| && l < ranges[k].0
    requires forall q :: 0 <= q < k ==> ranges[q].1 < l
    ensures !Inside(ranges, l)
  {
    hide IsRange, Accounted;
    forall r | r in ranges ensures !(r.0 <= l <= r.1) {
      var q :| 0 <= q < |ranges| && ranges[q] == r;
      if q >= k {
        StartsInOrder(lines, ranges, i, k, q);
      }
    }
  }

  /** Nothing announced on a line before range k and behind the ranges before it starts a range before k. */
  lemma StartOf(lines: seq<string>, ranges: seq<(nat, nat)>, i: nat, k: nat, l: nat, j: nat) returns (q: nat)
    requires Found(lines, ranges, i) && k < |ranges| && l < ranges[k].0 && Announces(lines, l, j)
    requires forall q :: 0 <= q < k ==> ranges[q].1 < l
    ensures k <= q < |ranges| && ranges[q].0 == j
  {
    StartsInOrder(lines, ranges, i, k, k);
    Between(lines, ranges, i, k, l);
    assert Accounted(lines, ranges, l);
    hide IsAttribute, IsModule, IsSkipped, MatchingBrace, Accounted, Inside;
    var r :| r in ranges && r.0 == j;
    q :| 0 <= q < |ranges| && ranges[q] == r;
    if q < k {
      StartsInOrder(lines, ranges, i, q, q);
      assert false;
    }
  }

  /** Two searches that agree on k ranges: the next range of the one is a later range of the other. */
  lemma NextIsFound(lines: seq<string>, r: seq<(nat, nat)>, stop: nat, r': seq<(nat, nat)>, stop': nat, k: nat)
    returns (m: nat)
    requires StopsAt(lines, r, stop) && StopsAt(lines, r', stop') && k < |r| && k <= |r'| && r[..k] == r'[..k]
    ensures k <= m < |r'| && r'[m] == r[k]
  {
    hide IsRange, Accounted, MatchingBrace, Inside, IsAttribute, IsModule, IsSkipped;
    var a := AnnouncedBehind(lines, r, stop, k);
    StartsInOrder(lines, r, stop, k, k);
    assert forall q :: 0 <= q < k ==> r[q] == r'[q];
    if stop' <= a {
      GaveUpTooEarly(lines, r, stop, r', stop', k, a);
      assert false;
    }
    if Inside(r', a) {
      InsideTooEarly(lines, r, stop, r', stop', k, a);
      assert false;
    }
    m := SameRange(lines, r, stop, r', stop', k, a);
  }

  lemma SameRange(lines: seq<string>, r: seq<(nat, nat)>, stop: nat, r': seq<(nat, nat)>, stop': nat, k: nat, a: nat)
    returns (m: nat)
    requires Found(lines, r, stop) && Found(lines, r', stop') && k < |r| && k <= |r'|
    requires forall q :: 0 <= q < k ==> r[q] == r'[q]
    requires Announces(lines, a, r[k].0) && a < stop' && !Inside(r', a)
    ensures k <= m < |r'| && r'[m] == r[k]
  {
    assert Accounted(lines, r', a);
    hide IsAttribute, IsModule, IsSkipped, MatchingBrace, Accounted, Inside;
    var x :| x in r' && x.0 == r[k].0;
    m :| 0 <= m < |r'| && r'[m] == x;
    assert r[k] in r && IsRange(lines, r, r[k]) && IsRange(lines, r', x);
    if m < k {
      StartsInOrder(lines, r, stop, m, k);
    }
  }

  /** The other search cannot have stopped where the one still found a range behind. */
  lemma GaveUpTooEarly(lines: seq<string>, r: seq<(nat, nat)>, stop: nat, r': seq<(nat, nat)>, stop': nat, k: nat,
                       a: nat)
    requires Found(lines, r, stop) && StopsAt(lines, r', stop') && k < |r| && k <= |r'|
    requires (forall q :: 0 <= q < k ==> r[q] == r'[q]) && a < r[k].0
    ensures stop' > a
  {
    StartsInOrder(lines, r, stop, k, k);
    if stop' <= a {
      assert Unbalanced(lines, r', stop');
      var j: nat :| Announces(lines, stop', j) && MatchingBrace(lines, j) == None;
      forall q | 0 <= q < k ensures r[q].1 < stop' {
        StartsInOrder(lines, r', stop', q, q);
      }
      forall q | 0 <= q < |r| ensures MatchingBrace(lines, r[q].0).Some? {
        assert r[q] in r;
      }
      hide IsAttribute, IsModule, IsSkipped, MatchingBrace, Accounted, Inside;
      var q := StartOf(lines, r, stop, k, stop', j);
    }
  }

  /** Nor can it have reported a range that covers the one's next announcement. */
  lemma InsideTooEarly(lines: seq<string>, r: seq<(nat, nat)>, stop: nat, r': seq<(nat, nat)>, stop': nat, k: nat,
                       a: nat)
    requires Found(lines, r, stop) && Found(lines, r', stop') && k < |r| && k <= |r'|
    requires (forall q :: 0 <= q < k ==> r[q] == r'[q]) && a < r[k].0 && !Inside(r, a)
    ensures !Inside(r', a)
  {
    if Inside(r', a) {
      var x :| x in r' && x.0 <= a <= x.1;
      var m :| 0 <= m < |r'| && r'[m] == x;
      assert forall q :: 0 <= q < |r| ==> r[q] in r;
      if m >= k {
        hide IsAttribute, IsModule, IsSkipped, MatchingBrace, Accounted, Inside;
        var b := AnnouncedBehind(lines, r', stop', m);
        var q := StartOf(lines, r, stop, k, b, x.0);
        StartsInOrder(lines, r, stop, k, q);
      }
    }
  }

  /** The contract fixes the answer: two range lists that meet it are equal. */
  lemma TestModulesUnique(lines: seq<string>, r: seq<(nat, nat)>, r': seq<(nat, nat)>)
    requires TestModules(lines, r) && TestModules(lines, r')
    ensures r == r'
  {
    var stop :| StopsAt(lines, r, stop);
    var stop' :| StopsAt(lines, r', stop');
    SameFrom(lines, r, stop, r', stop', 0);
  }

  lemma {:induction false} SameFrom(lines: seq<string>, r: seq<(nat, nat)>, stop: nat, r': seq<(nat, nat)>, stop': nat,
                                    k: nat)
    requires StopsAt(lines, r, stop) && StopsAt(lines, r', stop') && k <= |r| && k <= |r'| && r[..k] == r'[..k]
    ensures r == r'
    decreases |r| - k
  {
    hide Unbalanced, IsRange, Accounted;
    if k < |r| {
      var m := NextIsFound(lines, r, stop, r', stop', k);
      var m' := NextIsFound(lines, r', stop', r, stop, k);
      StartsInOrder(lines, r', stop', k, m);
      StartsInOrder(lines, r, stop, k, m');
      assert r[..k + 1] == r[..k] + [r[k]] && r'[..k + 1] == r'[..k] + [r'[k]];
      SameFrom(lines, r, stop, r', stop', k + 1);
    } else if k < |r'| {
      var m := NextIsFound(lines, r', stop', r, stop, k);
    }
  }
}
