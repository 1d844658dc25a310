/** The line patterns of the baseline scanner, stated on strings: what a line of each kind is made of. */
module LineForms {
  import opened BraceScanner

  predicate Spaces(s: string) {
    forall i :: 0 <= i < |s| ==> IsSpace(s[i])
  }

  // ---- stripping ----

  /** A text without a space at either end. */
  predicate Bare(s: string) {
    s != "" ==> !IsSpace(s[0]) && !IsSpace(s[|s| - 1])
  }

  /** One more space at the front. */
  lemma SpaceBefore(s: string, a: string, t: string, b: string)
    requires s != "" && IsSpace(s[0]) && s[1..] == a + t + b && Spaces(a)
    ensures s == [s[0]] + a + t + b && Spaces([s[0]] + a)
  {
    hide IsSpace;
  }

  /** One more space at the end. */
  lemma SpaceAfter(s: string, a: string, t: string, b: string)
    requires s != "" && IsSpace(s[|s| - 1]) && s[..|s| - 1] == a + t + b && Spaces(b)
    ensures s == a + t + (b + [s[|s| - 1]]) && Spaces(b + [s[|s| - 1]])
  {
    hide IsSpace;
  }

  /** Stripping takes spaces off both ends and leaves a text without any there. */
  lemma {:induction false} StripParts(s: string) returns (a: string, b: string)
    ensures s == a + Strip(s) + b && Spaces(a) && Spaces(b) && Bare(Strip(s))
    decreases |s|
  {
    hide IsSpace;
    if s != "" && IsSpace(s[0]) {
      a, b := StripParts(s[1..]);
      hide Bare, Spaces;
      SpaceBefore(s, a, Strip(s[1..]), b);
      a := [s[0]] + a;
    } else if s != "" && IsSpace(s[|s| - 1]) {
      a, b := StripParts(s[..|s| - 1]);
      hide Bare, Spaces;
      SpaceAfter(s, a, Strip(s[..|s| - 1]), b);
      b := b + [s[|s| - 1]];
    } else {
      a, b := "", "";
      assert s == "" + s + "";
    }
  }

  /** And it is the only way to write a line as a text between spaces. */
  lemma {:induction false} StripOf(a: string, t: string, b: string)
    requires Spaces(a) && Spaces(b) && t != "" && Bare(t)
    ensures Strip(a + t + b) == t
    decreases |a| + |b|
  {
    hide IsSpace;
    var s := a + t + b;
    if a != "" {
      assert s[0] == a[0] && s[1..] == a[1..] + t + b;
      StripOf(a[1..], t, b);
    } else if b != "" {
      assert s[0] == t[0] && s[|s| - 1] == b[|b| - 1] && s[..|s| - 1] == a + t + b[..|b| - 1];
      StripOf(a, t, b[..|b| - 1]);
    } else {
      assert s == t;
    }
  }

  lemma {:induction false} StripSpaces(s: string)
    ensures Strip(s) == "" <==> Spaces(s)
    decreases |s|
  {
    hide IsSpace;
    if s != "" && IsSpace(s[0]) {
      StripSpaces(s[1..]);
      assert s == [s[0]] + s[1..];
    } else if s != "" && IsSpace(s[|s| - 1]) {
      StripSpaces(s[..|s| - 1]);
      assert s == s[..|s| - 1] + [s[|s| - 1]];
    }
  }

  /** The line that announces a test module: the attribute between spaces. */
  lemma AttributeLine(line: string)
    ensures IsAttribute(line) <==> exists a, b :: Spaces(a) && Spaces(b) && line == a + "#[cfg(test)]" + b
  {
    NotSpaces();
    hide IsSpace;
    var a, b := StripParts(line);
    if IsAttribute(line) {
      assert Spaces(a) && Spaces(b) && line == a + "#[cfg(test)]" + b;
    }
    forall a', b' | Spaces(a') && Spaces(b') && line == a' + "#[cfg(test)]" + b' ensures IsAttribute(line) {
      StripOf(a', "#[cfg(test)]", b');
    }
  }

  /** A line whose text begins with these two characters. */
  ghost predicate BeginsWith(line: string, two: string) {
    exists a, rest :: Spaces(a) && line == a + two + rest
  }

  lemma {:induction false} StripBegins(a: string, two: string, rest: string)
    requires Spaces(a) && |two| == 2 && !IsSpace(two[0]) && !IsSpace(two[1])
    ensures two <= Strip(a + two + rest)
    decreases |a| + |rest|
  {
    hide IsSpace;
    var s := a + two + rest;
    if a != "" {
      assert s[0] == a[0] && s[1..] == a[1..] + two + rest;
      StripBegins(a[1..], two, rest);
    } else if rest != "" && IsSpace(rest[|rest| - 1]) {
      assert s[0] == two[0] && s[|s| - 1] == rest[|rest| - 1] && s[..|s| - 1] == a + two + rest[..|rest| - 1];
      StripBegins(a, two, rest[..|rest| - 1]);
    } else {
      assert s == two + rest;
    }
  }

  lemma BeginsIsPrefix(line: string, two: string)
    requires |two| == 2 && !IsSpace(two[0]) && !IsSpace(two[1])
    ensures two <= Strip(line) <==> BeginsWith(line, two)
  {
    hide IsSpace, Strip;
    var a, b := StripParts(line);
    if two <= Strip(line) {
      var rest := Strip(line)[2..] + b;
      assert line == a + two + rest;
    }
    if BeginsWith(line, two) {
      var a', rest :| Spaces(a') && line == a' + two + rest;
      StripBegins(a', two, rest);
    }
  }

  /** The lines passed over between attribute and module: only spaces, a line comment, a further attribute. */
  lemma SkippedLine(line: string)
    ensures IsSkipped(line) <==> Spaces(line) || BeginsWith(line, "//") || BeginsWith(line, "#[")
  {
    NotSpaces();
    hide IsSpace, Strip, Spaces, BeginsWith;
    StripSpaces(line);
    BeginsIsPrefix(line, "//");
    BeginsIsPrefix(line, "#[");
  }

  lemma Printable(c: char)
    requires '!' <= c <= '~'
    ensures !IsSpace(c)
  {
  }

  lemma NotSpaces()
    ensures !IsSpace('/') && !IsSpace('#') && !IsSpace('[') && !IsSpace(']')
  {
    hide IsSpace;
    Printable('/');
    Printable('#');
    Printable('[');
    Printable(']');
  }

  // ---- the module pattern ----

  predicate All(s: string, p: char -> bool) {
    forall i :: 0 <= i < |s| ==> p(s[i])
  }

  lemma {:induction false} DropParts(s: string, p: char -> bool) returns (front: string)
    ensures s == front + DropWhile(s, p) && All(front, p)
    ensures DropWhile(s, p) != "" ==> !p(DropWhile(s, p)[0])
  {
    if s != "" && p(s[0]) {
      front := DropParts(s[1..], p);
      front := [s[0]] + front;
    } else {
      front := "";
    }
  }

  lemma {:induction false} DropOf(front: string, rest: string, p: char -> bool)
    requires All(front, p) && (rest != "" ==> !p(rest[0]))
    ensures DropWhile(front + rest, p) == rest
  {
    if front == "" {
      assert front + rest == rest;
    } else {
      assert (front + rest)[0] == front[0] && (front + rest)[1..] == front[1..] + rest;
      DropOf(front[1..], rest, p);
    }
  }

  /** Letters and underscores, and digits behind the first of them. */
  predicate Identifier(name: string) {
    && name != ""
    && forall i :: 0 <= i < |name| ==>
      var c := name[i]; 'a' <= c <= 'z' || 'A' <= c <= 'Z' || c == '_' || (i > 0 && '0' <= c <= '9')
  }

  lemma IdentifierIsWord(name: string)
    ensures Identifier(name) <==> name != "" && All(name, IsWord) && !('0' <= name[0] <= '9')
  {
    if Identifier(name) {
      var c := name[0];
    }
  }

  /** Spaces, mod, at least one space, an identifier, spaces, an opening brace, anything. */
  predicate ModuleParts(line: string, a: string, b: string, name: string, c: string, rest: string) {
    && line == a + "mod" + b + name + c + "{" + rest
    && All(a, IsSpace) && All(b, IsSpace) && b != "" && Identifier(name) && All(c, IsSpace)
  }

  lemma WordIsNoSpace(c: char)
    ensures IsWord(c) ==> !IsSpace(c)
    ensures !IsWord('{') && !IsSpace('{') && !IsSpace('m')
    ensures IsSpace(c) ==> !IsWord(c)
  {
  }

  lemma ModuleHasParts(line: string) returns (a: string, b: string, name: string, c: string, rest: string)
    requires IsModule(line)
    ensures ModuleParts(line, a, b, name, c, rest)
  {
    hide IsSpace, IsWord, DropWhile;
    a := DropParts(line, IsSpace);
    var s := DropWhile(line, IsSpace);
    b := DropParts(s[3..], IsSpace);
    var named := DropWhile(s[3..], IsSpace);
    name := DropParts(named, IsWord);
    var spaced := DropWhile(named, IsWord);
    c := DropParts(spaced, IsSpace);
    var braced := DropWhile(spaced, IsSpace);
    rest := braced[1..];
    NonEmptyFront(s[3..], b, named, IsSpace);
    NonEmptyFront(named, name, spaced, IsWord);
    IdentifierIsWord(name);
    JoinParts(line, a, s, b, named, name, spaced, c, braced, rest);
  }

  lemma NonEmptyFront(s: string, front: string, rest: string, p: char -> bool)
    requires s == front + rest && s != "" && p(s[0]) && (rest != "" ==> !p(rest[0]))
    ensures front != "" && front[0] == s[0]
  {
    assert |front| == 0 ==> front + rest == rest;
  }

  lemma JoinParts(line: string, a: string, s: string, b: string, named: string, name: string, spaced: string,
                  c: string, braced: string, rest: string)
    requires line == a + s && "mod" <= s && s[3..] == b + named && named == name + spaced && spaced == c + braced
    requires braced != "" && braced[0] == '{' && rest == braced[1..]
    ensures line == a + "mod" + b + name + c + "{" + rest
  {
    assert braced == "{" + rest;
    assert s == "mod" + s[3..];
  }

  lemma PartsMakeModule(line: string, a: string, b: string, name: string, c: string, rest: string)
    requires ModuleParts(line, a, b, name, c, rest)
    ensures IsModule(line)
  {
    var braced := "{" + rest;
    var spaced := c + braced;
    var named := name + spaced;
    var s := "mod" + (b + named);
    IdentifierIsWord(name);
    WordIsNoSpace(name[0]);
    if c != "" {
      WordIsNoSpace(c[0]);
    }
    hide IsSpace, IsWord, DropWhile;
    Regrouped(a, b, name, c, rest);
    DropOf(a, s, IsSpace);
    DropOf(b, named, IsSpace);
    DropOf(name, spaced, IsWord);
    DropOf(c, braced, IsSpace);
    DroppedIsModule(line, s, b, name, named, spaced, braced);
  }

  lemma Regrouped(a: string, b: string, name: string, c: string, rest: string)
    ensures a + "mod" + b + name + c + "{" + rest == a + ("mod" + (b + (name + (c + ("{" + rest)))))
  {
  }

  lemma DroppedIsModule(line: string, s: string, b: string, name: string, named: string, spaced: string, braced: string)
    requires DropWhile(line, IsSpace) == s == "mod" + (b + named) && b != "" && IsSpace(b[0])
    requires DropWhile(b + named, IsSpace) == named && DropWhile(named, IsWord) == spaced
    requires DropWhile(spaced, IsSpace) == braced && braced != "" && braced[0] == '{'
    requires name != "" && named != "" && name[0] == named[0] && IsWord(name[0]) && !('0' <= name[0] <= '9')
    ensures IsModule(line)
  {
    hide IsSpace, IsWord, DropWhile;
    assert s[3..] == b + named && s[3] == b[0];
  }

  /** The line that opens a module is one the pattern can be laid over. */
  lemma ModuleLine(line: string)
    ensures IsModule(line) <==> exists a, b, name, c, rest :: ModuleParts(line, a, b, name, c, rest)
  {
    hide IsModule, ModuleParts;
    if IsModule(line) {
      var a, b, name, c, rest := ModuleHasParts(line);
    }
    forall a, b, name, c, rest | ModuleParts(line, a, b, name, c, rest) ensures IsModule(line) {
      PartsMakeModule(line, a, b, name, c, rest);
    }
  }
}
