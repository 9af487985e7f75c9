/** `cleanChangelogForNews`: turning a changelog section into the text of
    an ioBroker news entry. The input is trimmed, its line breaks are
    normalised to `\n`, every "* (Author) " at a line start becomes "* ", and
    when every line is empty or bulleted the bullets are dropped as well.

    The regular expressions involved are anchored at line starts (`^` with
    the `m` flag) and are modelled as matchers that return the length of the
    match at the start of a string. `Scan` is the global `replace` that
    tries them at every line start, left to right. */
module ChangelogClean {
  import opened Wrappers
  import opened Text
  import Seqs

  // ---------------------------------------------------------------------
  // The two patterns
  // ---------------------------------------------------------------------

  /** `[ \t]*` at the start of `s`. */
  function Blanks(s: string): (n: nat)
    ensures n <= |s|
  {
    Run(s, IsBlank)
  }

  predicate IsBulletChar(c: char) {
    c == '*' || c == '-'
  }

  /** `^[ \t]*[\*\-][ \t]*` at the start of `s`: the length of the match. */
  function BulletLength(s: string): (r: Option<nat>)
    ensures r.Some? ==> 1 <= r.value <= |s|
  {
    var a := Blanks(s);
    if a < |s| && IsBulletChar(s[a]) then Some(a + 1 + Blanks(s[a + 1..])) else None
  }

  /** `\(NAME+\)[ \t]*` at the start of `s`: the length of the match. */
  function TagLength(s: string, nameChar: char -> bool): (r: Option<nat>)
    ensures r.Some? ==> 1 <= r.value <= |s|
  {
    if s != [] && s[0] == '(' then
      var c := 1 + Run(s[1..], nameChar);
      if c >= 2 && c < |s| && s[c] == ')' then Some(c + 1 + Blanks(s[c + 1..])) else None
    else None
  }

  /** `^[ \t]*[\*\-][ \t]*\(NAME+\)[ \t]*` at the start of `s`, for a class
      of name characters: the length of the match. The bullet is matched
      first, so every author tag is also a bullet. */
  function AuthorLength(s: string, nameChar: char -> bool): (r: Option<nat>)
    ensures r.Some? ==> 1 <= r.value <= |s|
    ensures r.Some? ==> BulletLength(s).Some?
  {
    match BulletLength(s)
    case None => None
    case Some(b) =>
      match TagLength(s[b..], nameChar)
      case None => None
      case Some(n) => Some(b + n)
  }

  /** A matcher returns the length of the match at the start of a string;
      a match is never empty and never longer than the string. */
  type Matcher = m: string -> Option<nat> | forall s :: m(s).Some? ==> 1 <= m(s).value <= |s|
    witness (s: string) => None

  /** The bullet pattern. */
  function BulletMatcher(): Matcher {
    BulletLength
  }

  /** The author pattern for a class of name characters. */
  function AuthorMatcher(nameChar: char -> bool): Matcher {
    s => AuthorLength(s, nameChar)
  }

  /** A name class for which the greedy match above is the regular
      expression's match: it cannot run past the closing parenthesis or
      across a line break. */
  predicate NameClass(nameChar: char -> bool) {
    !nameChar(')') && !nameChar('\n') && !nameChar('\r') &&
    !nameChar('\U{2028}') && !nameChar('\U{2029}')
  }

  /** `s` holds no line terminator. */
  predicate OneLine(s: string) {
    forall k :: 0 <= k < |s| ==> !IsLineTerminator(s[k])
  }

  /** A matcher never looks past the end of the line it starts on. */
  ghost predicate LineLocal(m: Matcher) {
    forall x, w :: OneLine(x) && (w == [] || IsLineTerminator(w[0])) ==> m(x + w) == m(x)
  }

  // ---------------------------------------------------------------------
  // Global replacement at line starts
  // ---------------------------------------------------------------------

  /** How far one step of the replacement moves: past the match at a line
      start, or past one character. */
  function Skip(m: Matcher, s: string, atStart: bool): (n: nat)
    requires s != []
    ensures 1 <= n <= |s|
  {
    if atStart && m(s).Some? then m(s).value else 1
  }

  /** What one step of the replacement writes: the replacement for a match,
      or the character it moves past. */
  function Emit(m: Matcher, s: string, atStart: bool, rep: string): string
    requires s != []
  {
    if atStart && m(s).Some? then rep else [s[0]]
  }

  /** `s.replace(/^PATTERN/gm, rep)`, where `atStart` says whether the
      position before `s` is a line start. A match is replaced and the
      search goes on right after it; elsewhere one character is kept. */
  function Scan(m: Matcher, s: string, atStart: bool, rep: string): string
    decreases |s|
  {
    if s == [] then []
    else
      var n := Skip(m, s, atStart);
      Emit(m, s, atStart, rep) + Scan(m, s[n..], IsLineTerminator(s[n - 1]), rep)
  }

  /** `s.replace(/^PATTERN/gm, rep)`. */
  function ReplaceAtLineStarts(m: Matcher, s: string, rep: string): string {
    Scan(m, s, true, rep)
  }

  // ---------------------------------------------------------------------
  // cleanChangelogForNews
  // ---------------------------------------------------------------------

  /** Every line is empty or starts with a bullet (the test regular
      expression has no `m` flag, so it looks at the line's start only). */
  predicate AllBulleted(lines: seq<string>) {
    forall i :: 0 <= i < |lines| ==> lines[i] == [] || BulletLength(lines[i]).Some?
  }

  /** The text after the author tags are replaced. */
  function WithoutAuthors(changelog: string, nameChar: char -> bool): string {
    ReplaceAtLineStarts(AuthorMatcher(nameChar), NormalizeNewlines(Trim(changelog)), "* ")
  }

  /** `cleanChangelogForNews`, for a class of author-name characters. */
  function Clean(changelog: string, nameChar: char -> bool): (r: string)
    ensures '\r' !in r
  {
    var v := WithoutAuthors(changelog, nameChar);
    ScanKeepsOut(AuthorMatcher(nameChar), NormalizeNewlines(Trim(changelog)), true, "* ", '\r');
    if AllBulleted(Split(v, '\n')) then
      ScanKeepsOut(BulletMatcher(), v, true, "", '\r');
      ReplaceAtLineStarts(BulletMatcher(), v, "")
    else v
  }

  /** The name class of `src/tools.ts`: `[a-z0-9\-_]` under the `i` flag. */
  predicate AsciiNameChar(c: char) {
    ('a' <= c <= 'z') || ('A' <= c <= 'Z') || IsDigit(c) || c == '-' || c == '_'
  }

  /** `cleanChangelogForNews` of `src/tools.ts`. */
  function CleanForNews(changelog: string): (r: string)
    ensures '\r' !in r
  {
    Clean(changelog, AsciiNameChar)
  }

  // ---------------------------------------------------------------------
  // Properties
  // ---------------------------------------------------------------------

  /** The clean-up trims its input, not its output: an author tag that
      ends the last line, after a first line that is not bulleted, leaves
      the replacement's trailing space behind (`a\n* (x)` becomes
      `a\n* `). */
  lemma {:induction false} UntrimmedAfterAuthor(changelog: string, first: string, name: string, nameChar: char -> bool)
    requires NameClass(nameChar) && Taggable(name, [], nameChar)
    requires first != [] && OneLine(first) && !IsSpace(first[0]) && !IsBulletChar(first[0])
    requires changelog == first + "\n* (" + name + ")"
    ensures Clean(changelog, nameChar) == first + "\n* "
    ensures Trim(Clean(changelog, nameChar)) != Clean(changelog, nameChar)
  {
    var w := "\n* (" + name + ")";
    Regrouped(first, name);
    AuthorsBeforeEnd(changelog, first, w, name, nameChar);
    CleanTwoLines(changelog, first, nameChar);
  }

  /** The author pass on such a text: the first line stays and the tagged
      line becomes `"* "`. */
  lemma {:induction false} AuthorsBeforeEnd(changelog: string, first: string, w: string, name: string, nameChar: char -> bool)
    requires NameClass(nameChar) && Taggable(name, [], nameChar)
    requires first != [] && OneLine(first) && !IsSpace(first[0]) && !IsBulletChar(first[0])
    requires w == "\n* (" + name + ")" && changelog == first + w
    ensures WithoutAuthors(changelog, nameChar) == first + "\n* "
  {
    TagLineShape(w, name, nameChar);
    TagLineEdges(w, name, nameChar);
    TwoLinesWithoutAuthors(AuthorMatcher(nameChar), changelog, first, w, nameChar);
  }

  /** When the author pass leaves a first line that is not bulleted and a
      bare `"* "` line, the bullets stay and the result ends in a space,
      so it is not its own trim. */
  lemma {:induction false} CleanTwoLines(s: string, first: string, nameChar: char -> bool)
    requires first != [] && OneLine(first) && !IsSpace(first[0]) && !IsBulletChar(first[0])
    requires WithoutAuthors(s, nameChar) == first + "\n* "
    ensures Clean(s, nameChar) == first + "\n* "
    ensures Trim(Clean(s, nameChar)) != Clean(s, nameChar)
  {
    var v := first + "\n* ";
    NoBulletStart(v, nameChar);
    FirstLine(v);
    assert !AllBulleted(Split(v, '\n'));
    assert TrimmedFrom(v, Trim(v));
    assert IsSpace(v[|v| - 1]);
  }

  /** A first line that starts with something other than white space,
      followed by text that ends with something other than white space,
      with no carriage return anywhere, is left alone by the trimming and
      the newline normalisation. */
  lemma {:induction false} EdgesKept(s: string, first: string, w: string)
    requires s == first + w && first != [] && OneLine(first) && !IsSpace(first[0])
    requires w != [] && !IsSpace(w[|w| - 1]) && '\r' !in w
    ensures Trim(s) == s && '\r' !in s
  {
    assert s[0] == first[0] && s[|s| - 1] == w[|w| - 1];
    TrimmedAlready(s);
    forall k | 0 <= k < |s| ensures s[k] != '\r' {
      if k < |first| {
        assert s[k] == first[k];
      } else {
        assert s[k] == w[k - |first|];
      }
    }
  }

  /** The text is its first line followed by the tagged line. */
  lemma {:induction false} Regrouped(first: string, name: string)
    ensures first + "\n* (" + name + ")" == first + ("\n* (" + name + ")")
  {
    Seqs.Assoc(first, "\n* (", name);
    Seqs.Assoc(first, "\n* (" + name, ")");
  }

  /** Text made of a first line that is not bulleted and a second line that
      is one whole match, ending in something other than white space and
      without carriage returns: the author pass keeps the first line and
      turns the second into `"* "`. */
  lemma {:induction false} TwoLinesWithoutAuthors(m: Matcher, s: string, first: string, w: string, nameChar: char -> bool)
    requires NameClass(nameChar) && m == AuthorMatcher(nameChar)
    requires s == first + w
    requires first != [] && OneLine(first) && !IsSpace(first[0]) && !IsBulletChar(first[0])
    requires |w| >= 2 && w[0] == '\n' && m(w).None? && m(w[1..]) == Some(|w| - 1)
    requires !IsSpace(w[|w| - 1]) && '\r' !in w
    ensures WithoutAuthors(s, nameChar) == first + "\n* "
  {
    EdgesKept(s, first, w);
    AsGiven(s, nameChar);
    AuthorPassTwoLines(m, first, w, nameChar);
  }

  /** The author pass keeps a first line that is not bulleted and replaces
      a second line that is one whole match. */
  lemma {:induction false} AuthorPassTwoLines(m: Matcher, first: string, w: string, nameChar: char -> bool)
    requires NameClass(nameChar) && m == AuthorMatcher(nameChar)
    requires first != [] && OneLine(first) && !IsSpace(first[0]) && !IsBulletChar(first[0])
    requires |w| >= 2 && w[0] == '\n' && m(w).None? && m(w[1..]) == Some(|w| - 1)
    ensures Scan(m, first + w, true, "* ") == first + "\n* "
  {
    BreakThenMatch(m, w, "* ");
    UnmatchedLineKept(m, first, w, nameChar);
    assert [w[0]] + "* " == "\n* ";
  }

  /** A first line that starts with neither a blank nor a bullet passes the
      author pass unchanged, whatever follows its line break. */
  lemma {:induction false} UnmatchedLineKept(m: Matcher, first: string, w: string, nameChar: char -> bool)
    requires NameClass(nameChar) && m == AuthorMatcher(nameChar)
    requires first != [] && OneLine(first) && !IsBlank(first[0]) && !IsBulletChar(first[0])
    requires w != [] && IsLineTerminator(w[0])
    ensures Scan(m, first + w, true, "* ") == first + Scan(m, w, true, "* ")
  {
    AuthorLineLocal(nameChar);
    ScanLine(m, first, w, true, "* ");
    NoBulletStart(first, nameChar);
    ScanPlain(m, first, true, "* ");
    OneLineSuffix(first, 1);
    ScanInsideLine(m, first[1..], "* ");
    assert [first[0]] + first[1..] == first;
  }

  /** After a line break, a line holding only a bullet and an author tag is
      one whole match of the author pattern. */
  lemma {:induction false} TagLineShape(w: string, name: string, nameChar: char -> bool)
    requires NameClass(nameChar) && Taggable(name, [], nameChar)
    requires w == "\n* (" + name + ")"
    ensures |w| >= 2 && w[0] == '\n'
    ensures AuthorMatcher(nameChar)(w).None? && AuthorMatcher(nameChar)(w[1..]) == Some(|w| - 1)
  {
    var t := "* (" + name + ")";
    assert w[1..] == t;
    TagEndsLine(name, nameChar);
    NoBulletStart(w, nameChar);
  }

  /** A line break followed by one whole match. */
  lemma {:induction false} BreakThenMatch(m: Matcher, w: string, rep: string)
    requires |w| >= 2 && IsLineTerminator(w[0]) && m(w).None? && m(w[1..]) == Some(|w| - 1)
    ensures Scan(m, w, true, rep) == [w[0]] + rep
  {
    var t := w[1..];
    ScanAtBreak(m, w, true, rep);
    ScanMatch(m, t, |t|, rep);
    assert t[|t|..] == [];
  }

  /** A bullet and an author tag with nothing after them are one whole
      match. */
  lemma {:induction false} TagEndsLine(name: string, nameChar: char -> bool)
    requires NameClass(nameChar) && Taggable(name, [], nameChar)
    ensures AuthorLength("* (" + name + ")", nameChar) == Some(|name| + 4)
  {
    var t := "* (" + name + ")";
    var u := "(" + name + ")";
    assert t == "* " + u && t[2..] == u && t[1..] == " " + u;
    OneBlank(u);
    NoBlanks(t);
    assert u[1..] == name + ")";
    RunName(name, ")", nameChar);
    assert u[|name| + 2..] == [];
    assert TagLength(u, nameChar) == Some(|name| + 2);
  }

  /** The tagged line ends in `)` and holds no carriage return. */
  lemma {:induction false} TagLineEdges(w: string, name: string, nameChar: char -> bool)
    requires NameClass(nameChar) && Taggable(name, [], nameChar)
    requires w == "\n* (" + name + ")"
    ensures !IsSpace(w[|w| - 1]) && '\r' !in w
  {
    assert w[|w| - 1] == ')';
    forall k | 0 <= k < |w| ensures w[k] != '\r' {
      if 4 <= k < 4 + |name| {
        assert w[k] == name[k - 4];
        assert nameChar(name[k - 4]);
      }
    }
  }

  /** Trimmed text without carriage returns goes to the author replacement
      as it is. */
  lemma {:induction false} AsGiven(s: string, nameChar: char -> bool)
    requires Trim(s) == s && '\r' !in s
    ensures WithoutAuthors(s, nameChar) == Scan(AuthorMatcher(nameChar), s, true, "* ")
  {
    NormalizeNoCr(s);
  }

  /** Where nothing matches, one step of the replacement keeps the first
      character. */
  lemma {:induction false} ScanPlain(m: Matcher, s: string, atStart: bool, rep: string)
    requires s != [] && m(s).None?
    ensures Scan(m, s, atStart, rep) == [s[0]] + Scan(m, s[1..], IsLineTerminator(s[0]), rep)
  {
    assert Skip(m, s, atStart) == 1;
  }

  /** A text that starts with neither a blank nor a bullet has no bullet
      and no author tag at its start. */
  lemma {:induction false} NoBulletStart(s: string, nameChar: char -> bool)
    requires s != [] && !IsBlank(s[0]) && !IsBulletChar(s[0])
    ensures BulletLength(s) == None && AuthorMatcher(nameChar)(s) == None
  {
    assert Blanks(s) == 0;
  }

  /** A replacement adds no character that neither the text nor the
      replacement holds. */
  lemma {:induction false} ScanKeepsOut(m: Matcher, s: string, atStart: bool, rep: string, c: char)
    requires c !in s && c !in rep
    ensures c !in Scan(m, s, atStart, rep)
    decreases |s|
  {
    if s != [] {
      var n := Skip(m, s, atStart);
      assert c !in s[n..];
      ScanKeepsOut(m, s[n..], IsLineTerminator(s[n - 1]), rep, c);
    }
  }

  /** Locality of a greedy run: what follows a line is not looked at, as
      long as it begins with a character the run stops at. */
  lemma {:induction false} RunLocal(x: string, w: string, p: char -> bool)
    requires w == [] || !p(w[0])
    ensures Run(x + w, p) == Run(x, p)
    decreases |x|
  {
    if x != [] {
      assert (x + w)[1..] == x[1..] + w;
      RunLocal(x[1..], w, p);
    } else {
      assert x + w == w;
    }
  }

  /** Locality of the bullet matcher: a match never reaches past a line,
      so the text after the line's terminator does not change it. */
  lemma {:induction false} BulletLocal(x: string, w: string)
    requires OneLine(x) && (w == [] || IsLineTerminator(w[0]))
    ensures BulletLength(x + w) == BulletLength(x)
  {
    var s := x + w;
    RunLocal(x, w, IsBlank);
    var a := Blanks(x);
    if a < |x| {
      assert s[a] == x[a];
      if IsBulletChar(x[a]) {
        assert s[a + 1..] == x[a + 1..] + w;
        RunLocal(x[a + 1..], w, IsBlank);
      }
    } else if w != [] {
      assert s[a] == w[0];
    }
  }

  /** Locality of the author-tag matcher. */
  lemma {:induction false} TagLocal(x: string, w: string, nameChar: char -> bool)
    requires NameClass(nameChar) && OneLine(x) && (w == [] || IsLineTerminator(w[0]))
    ensures TagLength(x + w, nameChar) == TagLength(x, nameChar)
  {
    if x == [] {
      assert x + w == w;
    } else {
      TagRunLocal(x, w, nameChar);
      TagCloseLocal(x, w, 1 + Run(x[1..], nameChar));
    }
  }

  /** The name run of a tag stops at the end of its line. */
  lemma {:induction false} TagRunLocal(x: string, w: string, nameChar: char -> bool)
    requires NameClass(nameChar) && x != [] && (w == [] || IsLineTerminator(w[0]))
    ensures (x + w)[0] == x[0] && Run((x + w)[1..], nameChar) == Run(x[1..], nameChar)
  {
    SliceAppend(x, w, 1);
    RunLocal(x[1..], w, nameChar);
  }

  /** The closing parenthesis and the blanks after it lie on the line. */
  lemma {:induction false} TagCloseLocal(x: string, w: string, c: nat)
    requires c <= |x| && (w == [] || IsLineTerminator(w[0]))
    ensures (c < |x + w| && (x + w)[c] == ')') == (c < |x| && x[c] == ')')
    ensures c < |x| ==> Blanks((x + w)[c + 1..]) == Blanks(x[c + 1..])
  {
    if c < |x| {
      SliceAppend(x, w, c + 1);
      RunLocal(x[c + 1..], w, IsBlank);
    }
  }

  lemma {:induction false} OneLineSuffix(x: string, b: nat)
    requires OneLine(x) && b <= |x|
    ensures OneLine(x[b..])
  {
  }

  /** Locality of the author matcher. */
  lemma {:induction false} AuthorLocal(x: string, w: string, nameChar: char -> bool)
    requires NameClass(nameChar) && OneLine(x) && (w == [] || IsLineTerminator(w[0]))
    ensures AuthorLength(x + w, nameChar) == AuthorLength(x, nameChar)
  {
    BulletLocal(x, w);
    var bl := BulletLength(x);
    if bl.Some? {
      var b := bl.value;
      var s := x + w;
      var xb := x[b..];
      SliceAppend(x, w, b);
      OneLineSuffix(x, b);
      TagLocal(xb, w, nameChar);
      assert TagLength(s[b..], nameChar) == TagLength(xb, nameChar);
    }
  }

  /** Both patterns are line-local. */
  lemma {:induction false} BulletLineLocal()
    ensures LineLocal(BulletMatcher())
  {
    forall x, w | OneLine(x) && (w == [] || IsLineTerminator(w[0]))
      ensures BulletMatcher()(x + w) == BulletMatcher()(x)
    {
      BulletLocal(x, w);
    }
  }

  lemma {:induction false} AuthorLineLocal(nameChar: char -> bool)
    requires NameClass(nameChar)
    ensures LineLocal(AuthorMatcher(nameChar))
  {
    forall x, w | OneLine(x) && (w == [] || IsLineTerminator(w[0]))
      ensures AuthorMatcher(nameChar)(x + w) == AuthorMatcher(nameChar)(x)
    {
      AuthorLocal(x, w, nameChar);
    }
  }

  /** The replacement works line by line: a line and the text from its
      terminator on are replaced separately. */
  lemma {:induction false} ScanLine(m: Matcher, x: string, w: string, atStart: bool, rep: string)
    requires LineLocal(m) && OneLine(x) && w != [] && IsLineTerminator(w[0])
    ensures Scan(m, x + w, atStart, rep) == Scan(m, x, atStart, rep) + Scan(m, w, true, rep)
    decreases |x|
  {
    if x == [] {
      assert x + w == w;
      BreakNoMatch(m, w);
      ScanAtBreak(m, w, atStart, rep);
      ScanAtBreak(m, w, true, rep);
    } else {
      assert m(x + w) == m(x);
      var n := Skip(m, x, atStart);
      var b := IsLineTerminator(x[n - 1]);
      OneLineSuffix(x, n);
      ScanLine(m, x[n..], w, b, rep);
      ScanLineStep(m, x, w, atStart, rep);
      Seqs.Assoc(Emit(m, x, atStart, rep), Scan(m, x[n..], b, rep), Scan(m, w, true, rep));
    }
  }

  /** One step of the replacement sees the same match with or without the
      text after the line. */
  lemma {:induction false} ScanLineStep(m: Matcher, x: string, w: string, atStart: bool, rep: string)
    requires x != [] && m(x + w) == m(x)
    ensures var n := Skip(m, x, atStart);
      Scan(m, x + w, atStart, rep) == Emit(m, x, atStart, rep) + Scan(m, x[n..] + w, IsLineTerminator(x[n - 1]), rep)
  {
    SameStep(m, x, w, atStart, rep);
  }

  /** Where the matcher sees the same match, one step on `x + w` moves as
      far and writes the same as on `x`. */
  lemma {:induction false} SameStep(m: Matcher, x: string, w: string, atStart: bool, rep: string)
    requires x != [] && m(x + w) == m(x)
    ensures var n := Skip(m, x, atStart);
      Skip(m, x + w, atStart) == n && Emit(m, x + w, atStart, rep) == Emit(m, x, atStart, rep) &&
      (x + w)[n..] == x[n..] + w && (x + w)[n - 1] == x[n - 1]
  {
    var n := Skip(m, x, atStart);
    SliceAppend(x, w, n);
  }

  /** A line-local matcher finds nothing at a line terminator. */
  lemma {:induction false} BreakNoMatch(m: Matcher, w: string)
    requires LineLocal(m) && w != [] && IsLineTerminator(w[0])
    ensures m(w).None?
  {
    assert OneLine([]);
    assert [] + w == w;
    assert m([] + w) == m([]);
  }

  /** Where nothing matches at a line terminator, whether the position
      before it is a line start does not matter: the terminator is kept and
      a line start follows it. */
  lemma {:induction false} ScanAtBreak(m: Matcher, w: string, atStart: bool, rep: string)
    requires w != [] && IsLineTerminator(w[0]) && m(w).None?
    ensures Scan(m, w, atStart, rep) == [w[0]] + Scan(m, w[1..], true, rep)
  {
    assert Skip(m, w, atStart) == 1;
  }

  lemma {:induction false} SliceAppend<T>(a: seq<T>, b: seq<T>, n: nat)
    requires n <= |a|
    ensures (a + b)[n..] == a[n..] + b
  {
  }

  /** Inside a line, away from its start, nothing is replaced. */
  lemma {:induction false} ScanInsideLine(m: Matcher, x: string, rep: string)
    requires OneLine(x)
    ensures Scan(m, x, false, rep) == x
    decreases |x|
  {
    if x != [] {
      assert OneLine(x[1..]);
      ScanInsideLine(m, x[1..], rep);
      assert x == [x[0]] + x[1..];
    }
  }

  /** The replacement on each line of a list. */
  function ScanLines(m: Matcher, lines: seq<string>, rep: string): (r: seq<string>)
    ensures |r| == |lines| && forall i :: 0 <= i < |lines| ==> r[i] == Scan(m, lines[i], true, rep)
  {
    if lines == [] then [] else [Scan(m, lines[0], true, rep)] + ScanLines(m, lines[1..], rep)
  }

  predicate AllOneLine(lines: seq<string>) {
    forall i :: 0 <= i < |lines| ==> OneLine(lines[i])
  }

  /** Replacing in lines joined by `\n` is joining the replaced lines. */
  lemma {:induction false} ScanJoin(m: Matcher, lines: seq<string>, rep: string)
    requires LineLocal(m) && AllOneLine(lines)
    ensures Scan(m, Join(lines, "\n"), true, rep) == Join(ScanLines(m, lines, rep), "\n")
    decreases |lines|
  {
    if |lines| > 1 {
      var rest := lines[1..];
      AllOneLineTail(lines);
      var tail := "\n" + Join(rest, "\n");
      JoinCons(lines, "\n");
      ScanLine(m, lines[0], tail, true, rep);
      BreakNoMatch(m, tail);
      ScanAtBreak(m, tail, true, rep);
      assert tail[1..] == Join(rest, "\n");
      ScanJoin(m, rest, rep);
      var scanned := ScanLines(m, lines, rep);
      JoinCons(scanned, "\n");
      assert scanned[1..] == ScanLines(m, rest, rep);
    }
  }

  lemma {:induction false} AllOneLineTail(lines: seq<string>)
    requires AllOneLine(lines) && lines != []
    ensures OneLine(lines[0]) && AllOneLine(lines[1..])
  {
    var rest := lines[1..];
    forall i | 0 <= i < |rest| ensures OneLine(rest[i]) {
      assert rest[i] == lines[i + 1];
    }
  }

  lemma {:induction false} JoinCons(parts: seq<string>, sep: string)
    requires |parts| > 1
    ensures Join(parts, sep) == parts[0] + (sep + Join(parts[1..], sep))
  {
    Seqs.Assoc(parts[0], sep, Join(parts[1..], sep));
  }

  /** A line with an author tag, as `* (Name) text`. */
  function TaggedLine(name: string, text: string): string {
    "* " + TagText(name, text)
  }

  /** An author tag before a text, as `(Name) text`. */
  function TagText(name: string, text: string): string {
    "(" + name + ") " + text
  }

  /** What a tagged line may hold for the clean-up to leave exactly its
      text: a name of name characters, and a text on one line that does
      not begin with a blank. */
  predicate Taggable(name: string, text: string, nameChar: char -> bool) {
    |name| >= 1 && (forall k :: 0 <= k < |name| ==> nameChar(name[k])) &&
    OneLine(text) && (text == [] || !IsBlank(text[0]))
  }

  /** No blank at the start. */
  lemma {:induction false} NoBlanks(s: string)
    requires s == [] || !IsBlank(s[0])
    ensures Blanks(s) == 0
  {
  }

  /** One blank before a text that does not begin with a blank. */
  lemma {:induction false} OneBlank(text: string)
    requires text == [] || !IsBlank(text[0])
    ensures Blanks(" " + text) == 1
  {
    assert (" " + text)[1..] == text;
    NoBlanks(text);
  }

  /** The author pass turns a tagged line into a bullet before its text. */
  lemma {:induction false} AuthorOnTaggedLine(name: string, text: string, nameChar: char -> bool)
    requires NameClass(nameChar) && Taggable(name, text, nameChar)
    ensures AuthorLength(TaggedLine(name, text), nameChar) == Some(|name| + 5)
    ensures Scan(AuthorMatcher(nameChar), TaggedLine(name, text), true, "* ") == "* " + text
  {
    var s := TaggedLine(name, text);
    var k := |name| + 5;
    AuthorTag(name, text, nameChar);
    TaggedLineFacts(name, text, nameChar);
    ScanMatch(AuthorMatcher(nameChar), s, k, "* ");
    ScanInsideLine(AuthorMatcher(nameChar), text, "* ");
  }

  /** The author pattern matches a tagged line up to its text. */
  lemma {:induction false} AuthorTag(name: string, text: string, nameChar: char -> bool)
    requires NameClass(nameChar) && Taggable(name, text, nameChar)
    ensures AuthorLength(TaggedLine(name, text), nameChar) == Some(|name| + 5)
  {
    var tag := TagText(name, text);
    var s := "* " + tag;
    assert s[2..] == tag;
    assert tag[0] == '(';
    BulletOnLine(tag);
    TagOf(name, text, nameChar);
    assert AuthorLength(s, nameChar) == Some(2 + (|name| + 3));
  }

  /** The shape of a tagged line: a bullet, the tag, and the text, all on
      one line. */
  lemma {:induction false} TaggedLineFacts(name: string, text: string, nameChar: char -> bool)
    requires NameClass(nameChar) && Taggable(name, text, nameChar)
    ensures var s := TaggedLine(name, text);
      |s| == |name| + 5 + |text| && s[0] == '*' && s[2..] == TagText(name, text) &&
      s[|name| + 5..] == text && s[|name| + 4] == ' ' && OneLine(s) &&
      (text != [] ==> s[|s| - 1] == text[|text| - 1])
  {
    var s := TaggedLine(name, text);
    var tag := TagText(name, text);
    assert s[2..] == tag;
    forall k | 0 <= k < |s| ensures !IsLineTerminator(s[k]) {
      if 3 <= k < 3 + |name| {
        assert s[k] == name[k - 3];
        assert nameChar(name[k - 3]);
      } else if k >= 5 + |name| {
        assert s[k] == text[k - 5 - |name|];
      }
    }
    assert s[|name| + 5..] == text;
  }

  /** A match at a line start is replaced, and the search goes on after it. */
  lemma {:induction false} ScanMatch(m: Matcher, s: string, k: nat, rep: string)
    requires s != [] && m(s) == Some(k)
    ensures Scan(m, s, true, rep) == rep + Scan(m, s[k..], IsLineTerminator(s[k - 1]), rep)
  {
    assert Skip(m, s, true) == k;
  }

  /** The tag `(name) ` before a text. */
  lemma {:induction false} TagOf(name: string, text: string, nameChar: char -> bool)
    requires NameClass(nameChar) && Taggable(name, text, nameChar)
    ensures TagLength(TagText(name, text), nameChar) == Some(|name| + 3)
  {
    var u := TagText(name, text);
    assert u[1..] == name + (") " + text);
    RunName(name, ") " + text, nameChar);
    var c := 1 + |name|;
    assert u[c] == ')';
    assert u[c + 1..] == " " + text;
    OneBlank(text);
  }

  lemma {:induction false} RunName(name: string, w: string, nameChar: char -> bool)
    requires (forall k :: 0 <= k < |name| ==> nameChar(name[k])) && w != [] && !nameChar(w[0])
    ensures Run(name + w, nameChar) == |name|
    decreases |name|
  {
    if name != [] {
      assert (name + w)[1..] == name[1..] + w;
      RunName(name[1..], w, nameChar);
    } else {
      assert name + w == w;
    }
  }

  /** The bullet pass drops the bullet before a text. */
  lemma {:induction false} BulletOnLine(text: string)
    requires text == [] || !IsBlank(text[0])
    ensures BulletLength("* " + text) == Some(2)
    ensures OneLine(text) ==> Scan(BulletMatcher(), "* " + text, true, "") == text
  {
    var s := "* " + text;
    NoBlanks(s);
    assert s[1..] == " " + text;
    OneBlank(text);
    assert s[2..] == text;
    if OneLine(text) {
      ScanInsideLine(BulletMatcher(), text, "");
    }
  }

  /** Bulleted texts, `* text` each. */
  function Bulleted(texts: seq<string>): (r: seq<string>)
    ensures |r| == |texts| && forall i :: 0 <= i < |texts| ==> r[i] == "* " + texts[i]
  {
    if texts == [] then [] else ["* " + texts[0]] + Bulleted(texts[1..])
  }

  /** Tagged lines, `* (name) text` each. */
  function Tagged(names: seq<string>, texts: seq<string>): (r: seq<string>)
    requires |names| == |texts|
    ensures |r| == |texts| && forall i :: 0 <= i < |texts| ==> r[i] == TaggedLine(names[i], texts[i])
  {
    if texts == [] then [] else [TaggedLine(names[0], texts[0])] + Tagged(names[1..], texts[1..])
  }

  /** A changelog whose every line is `* (Author) text` becomes the texts
      alone, one per line: author tags and bullets are both removed. */
  lemma {:induction false} CleanTaggedLines(names: seq<string>, texts: seq<string>, nameChar: char -> bool)
    requires NameClass(nameChar) && |names| == |texts| >= 1
    requires forall i :: 0 <= i < |texts| ==> Taggable(names[i], texts[i], nameChar)
    requires texts[|texts| - 1] != [] && !IsSpace(texts[|texts| - 1][|texts[|texts| - 1]| - 1])
    ensures Clean(Join(Tagged(names, texts), "\n"), nameChar) == Join(texts, "\n")
  {
    AuthorsPass(names, texts, nameChar);
    BulletsPass(texts);
  }

  /** The author pass on tagged lines leaves the bulleted texts. */
  lemma {:induction false} AuthorsPass(names: seq<string>, texts: seq<string>, nameChar: char -> bool)
    requires NameClass(nameChar) && |names| == |texts| >= 1
    requires forall i :: 0 <= i < |texts| ==> Taggable(names[i], texts[i], nameChar)
    requires texts[|texts| - 1] != [] && !IsSpace(texts[|texts| - 1][|texts[|texts| - 1]| - 1])
    ensures WithoutAuthors(Join(Tagged(names, texts), "\n"), nameChar) == Join(Bulleted(texts), "\n")
  {
    var s := Join(Tagged(names, texts), "\n");
    TaggedNeedNoTrim(names, texts, nameChar);
    TaggedScan(names, texts, nameChar);
    assert NormalizeNewlines(Trim(s)) == s;
  }

  /** Tagged lines that end in something other than white space are left
      alone by trimming and newline normalisation. */
  lemma {:induction false} TaggedNeedNoTrim(names: seq<string>, texts: seq<string>, nameChar: char -> bool)
    requires NameClass(nameChar) && |names| == |texts| >= 1
    requires forall i :: 0 <= i < |texts| ==> Taggable(names[i], texts[i], nameChar)
    requires texts[|texts| - 1] != [] && !IsSpace(texts[|texts| - 1][|texts[|texts| - 1]| - 1])
    ensures NormalizeNewlines(Trim(Join(Tagged(names, texts), "\n"))) == Join(Tagged(names, texts), "\n")
  {
    var lines := Tagged(names, texts);
    TaggedShape(names, texts, nameChar);
    JoinedIsClean(lines, lines[|lines| - 1]);
    NormalizeNoCr(Join(lines, "\n"));
  }

  /** Tagged lines are one line each, start with a bullet, and the last
      ends where its text ends. */
  lemma {:induction false} TaggedShape(names: seq<string>, texts: seq<string>, nameChar: char -> bool)
    requires NameClass(nameChar) && |names| == |texts| >= 1
    requires forall i :: 0 <= i < |texts| ==> Taggable(names[i], texts[i], nameChar)
    requires texts[|texts| - 1] != [] && !IsSpace(texts[|texts| - 1][|texts[|texts| - 1]| - 1])
    ensures var lines := Tagged(names, texts); var last := lines[|lines| - 1];
      AllOneLine(lines) && (forall i :: 0 <= i < |lines| ==> |lines[i]| >= 1 && lines[i][0] == '*') &&
      !IsSpace(last[|last| - 1])
  {
    var lines := Tagged(names, texts);
    AllTaggedOneLine(names, texts, nameChar);
    forall i | 0 <= i < |lines| ensures |lines[i]| >= 1 && lines[i][0] == '*' {
      assert lines[i] == "* " + TagText(names[i], texts[i]);
    }
    TaggedLast(names[|names| - 1], texts[|texts| - 1]);
  }

  lemma {:induction false} TaggedLast(name: string, text: string)
    requires text != []
    ensures var s := TaggedLine(name, text); s[|s| - 1] == text[|text| - 1]
  {
    var s := TaggedLine(name, text);
    assert s == ("* (" + name + ") ") + text;
  }

  /** The author replacement on tagged lines leaves the bulleted texts. */
  lemma {:induction false} TaggedScan(names: seq<string>, texts: seq<string>, nameChar: char -> bool)
    requires NameClass(nameChar) && |names| == |texts|
    requires forall i :: 0 <= i < |texts| ==> Taggable(names[i], texts[i], nameChar)
    ensures Scan(AuthorMatcher(nameChar), Join(Tagged(names, texts), "\n"), true, "* ") == Join(Bulleted(texts), "\n")
  {
    var lines := Tagged(names, texts);
    var author := AuthorMatcher(nameChar);
    AllTaggedOneLine(names, texts, nameChar);
    AuthorLineLocal(nameChar);
    ScanJoin(author, lines, "* ");
    TaggedLinesScanned(names, texts, nameChar);
  }

  /** Each tagged line on its own becomes its bulleted text. */
  lemma {:induction false} TaggedLinesScanned(names: seq<string>, texts: seq<string>, nameChar: char -> bool)
    requires NameClass(nameChar) && |names| == |texts|
    requires forall i :: 0 <= i < |texts| ==> Taggable(names[i], texts[i], nameChar)
    ensures ScanLines(AuthorMatcher(nameChar), Tagged(names, texts), "* ") == Bulleted(texts)
  {
    var lines := Tagged(names, texts);
    var scanned := ScanLines(AuthorMatcher(nameChar), lines, "* ");
    forall i | 0 <= i < |lines| ensures scanned[i] == Bulleted(texts)[i] {
      AuthorOnTaggedLine(names[i], texts[i], nameChar);
    }
  }

  /** On bulleted one-line texts every line is bulleted, and the bullet pass
      leaves the texts. */
  lemma {:induction false} BulletsPass(texts: seq<string>)
    requires forall i :: 0 <= i < |texts| ==> OneLine(texts[i]) && (texts[i] == [] || !IsBlank(texts[i][0]))
    requires |texts| >= 1
    ensures AllBulleted(Split(Join(Bulleted(texts), "\n"), '\n'))
    ensures ReplaceAtLineStarts(BulletMatcher(), Join(Bulleted(texts), "\n"), "") == Join(texts, "\n")
  {
    BulletsTested(texts);
    BulletsDropped(texts);
  }

  /** Every line of bulleted texts passes the all-bulleted test. */
  lemma {:induction false} BulletsTested(texts: seq<string>)
    requires forall i :: 0 <= i < |texts| ==> OneLine(texts[i]) && (texts[i] == [] || !IsBlank(texts[i][0]))
    requires |texts| >= 1
    ensures AllBulleted(Split(Join(Bulleted(texts), "\n"), '\n'))
  {
    var b := Bulleted(texts);
    forall i | 0 <= i < |texts| ensures '\n' !in b[i] && BulletLength(b[i]).Some? {
      BulletedLine(texts[i]);
      BulletOnLine(texts[i]);
    }
    SplitJoin(b, '\n');
  }

  /** The bullet pass leaves the texts of bulleted texts. */
  lemma {:induction false} BulletsDropped(texts: seq<string>)
    requires forall i :: 0 <= i < |texts| ==> OneLine(texts[i]) && (texts[i] == [] || !IsBlank(texts[i][0]))
    ensures ReplaceAtLineStarts(BulletMatcher(), Join(Bulleted(texts), "\n"), "") == Join(texts, "\n")
  {
    var b := Bulleted(texts);
    forall i | 0 <= i < |texts| ensures OneLine(b[i]) && Scan(BulletMatcher(), b[i], true, "") == texts[i] {
      BulletedLine(texts[i]);
      BulletOnLine(texts[i]);
    }
    BulletLineLocal();
    ScanJoin(BulletMatcher(), b, "");
    assert ScanLines(BulletMatcher(), b, "") == texts;
  }

  /** A bullet before a one-line text is one line. */
  lemma {:induction false} BulletedLine(text: string)
    requires OneLine(text)
    ensures OneLine("* " + text) && '\n' !in "* " + text
  {
    var l := "* " + text;
    forall k | 2 <= k < |l| ensures l[k] == text[k - 2] {
    }
  }

  lemma {:induction false} AllTaggedOneLine(names: seq<string>, texts: seq<string>, nameChar: char -> bool)
    requires NameClass(nameChar) && |names| == |texts|
    requires forall i :: 0 <= i < |texts| ==> Taggable(names[i], texts[i], nameChar)
    ensures AllOneLine(Tagged(names, texts))
    ensures forall i :: 0 <= i < |texts| ==> '\r' !in Tagged(names, texts)[i]
  {
    forall i | 0 <= i < |texts| ensures OneLine(Tagged(names, texts)[i]) {
      TaggedLineFacts(names[i], texts[i], nameChar);
    }
  }

  /** Lines without carriage returns, starting with `*` and ending with
      something other than white space, need no trimming or normalising. */
  lemma {:induction false} JoinedIsClean(lines: seq<string>, last: string)
    requires |lines| >= 1 && AllOneLine(lines)
    requires forall i :: 0 <= i < |lines| ==> |lines[i]| >= 1 && lines[i][0] == '*'
    requires last == lines[|lines| - 1] && !IsSpace(last[|last| - 1])
    ensures Trim(Join(lines, "\n")) == Join(lines, "\n") && '\r' !in Join(lines, "\n")
  {
    var s := Join(lines, "\n");
    JoinShape(lines);
    assert s[0..|s|] == s && s[..0] == [] && s[|s|..] == [];
    TrimUnique(s, s);
  }

  lemma {:induction false} JoinShape(lines: seq<string>)
    requires |lines| >= 1 && AllOneLine(lines)
    requires forall i :: 0 <= i < |lines| ==> |lines[i]| >= 1 && lines[i][0] == '*'
    ensures var s := Join(lines, "\n");
      |s| >= 1 && s[0] == '*' && s[|s| - 1] == lines[|lines| - 1][|lines[|lines| - 1]| - 1] && '\r' !in s
    decreases |lines|
  {
    assert OneLine(lines[0]);
    if |lines| > 1 {
      var rest := lines[1..];
      assert AllOneLine(rest) by {
        forall i | 0 <= i < |rest| ensures OneLine(rest[i]) {
          assert rest[i] == lines[i + 1];
        }
      }
      JoinShape(rest);
      assert Join(lines, "\n") == lines[0] + "\n" + Join(rest, "\n");
    }
  }

  /** Text that is already trimmed, has no carriage return and no bullet at
      any line start passes through unchanged. */
  lemma {:induction false} CleanPlainText(s: string, nameChar: char -> bool)
    requires NameClass(nameChar) && Trim(s) == s && '\r' !in s
    requires forall i :: 0 <= i < |s| && LineStart(s, i) ==> BulletLength(s[i..]).None?
    ensures Clean(s, nameChar) == s
  {
    NormalizeNoCr(s);
    forall i | 0 <= i < |s| && LineStart(s, i) ensures AuthorMatcher(nameChar)(s[i..]).None? {
      assert BulletLength(s[i..]).None?;
    }
    NoMatchesKeep(AuthorMatcher(nameChar), s, "* ");
    assert WithoutAuthors(s, nameChar) == s;
    if s != [] {
      NotAllBulleted(s);
    } else {
      NoMatchesKeep(BulletMatcher(), s, "");
    }
  }

  /** A text that starts with neither white space nor a bullet has a first
      line that is neither empty nor bulleted. */
  lemma {:induction false} NotAllBulleted(s: string)
    requires s != [] && Trim(s) == s && BulletLength(s).None?
    ensures !AllBulleted(Split(s, '\n'))
  {
    assert TrimmedFrom(s, s);
    assert !IsSpace(s[0]);
    FirstLine(s);
  }

  /** The first line of a text that starts with something other than
      white space is non-empty and sees the same bullet match as the text. */
  lemma {:induction false} FirstLine(s: string)
    requires s != [] && !IsSpace(s[0])
    ensures var l := Split(s, '\n')[0]; l != [] && BulletLength(l) == BulletLength(s)
  {
    var l := Split(s, '\n')[0];
    if '\n' in s {
      var k := IndexOfChar(s, '\n');
      assert l == s[..k];
      assert s == s[..k] + s[k..];
      assert k > 0;
      LineBeforeBreak(s, k);
    } else {
      assert l == s;
    }
  }

  lemma {:induction false} LineBeforeBreak(s: string, k: nat)
    requires k < |s| && s[k] == '\n' && k > 0
    ensures BulletLength(s[..k]) == BulletLength(s)
  {
    var x := s[..k];
    var e := LineEnd(x, 0);
    var line := x[..e];
    var rest := x[e..];
    assert OneLine(line);
    assert x == line + rest;
    assert s == line + (rest + s[k..]);
    assert rest + s[k..] != [] && IsLineTerminator((rest + s[k..])[0]);
    BulletLocal(line, rest + s[k..]);
    BulletLocal(line, rest);
  }

  /** Where the pattern matches at no line start, nothing is replaced. */
  lemma {:induction false} NoMatchesKeep(m: Matcher, s: string, rep: string)
    requires forall i :: 0 <= i < |s| && LineStart(s, i) ==> m(s[i..]).None?
    ensures Scan(m, s, true, rep) == s
  {
    NoMatchesFrom(m, s, 0, rep);
    assert s[0..] == s;
  }

  lemma {:induction false} NoMatchesFrom(m: Matcher, s: string, i: nat, rep: string)
    requires i <= |s|
    requires forall j :: 0 <= j < |s| && LineStart(s, j) ==> m(s[j..]).None?
    ensures Scan(m, s[i..], LineStart(s, i), rep) == s[i..]
    decreases |s| - i
  {
    if i < |s| {
      var t := s[i..];
      assert t[1..] == s[i + 1..];
      assert t[0] == s[i];
      NoMatchesFrom(m, s, i + 1, rep);
      assert t == [t[0]] + t[1..];
    }
  }
}
