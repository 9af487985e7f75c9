/** The JavaScript string operations the release tooling relies on:
    `trim`, `indexOf`, `split` and `join`, the line starts that `^` finds
    under the regular-expression `m` flag, the `\r\n` clean-up, and the
    decimal form of counts. Strings are sequences of UTF-16 code units,
    written here as `char`. */
module Text {
  import opened Wrappers

  // ---------------------------------------------------------------------
  // Character classes
  // ---------------------------------------------------------------------

  /** ECMAScript LineTerminator: where `^` and `$` match under the `m` flag,
      and what `.` does not match. */
  predicate IsLineTerminator(c: char) {
    c == '\n' || c == '\r' || c == '\U{2028}' || c == '\U{2029}'
  }

  /** ECMAScript WhiteSpace or LineTerminator: what `trim` removes. */
  predicate IsSpace(c: char) {
    IsLineTerminator(c) || c == '\t' || c == '\U{B}' || c == '\U{C}' || c == ' ' ||
    c == '\U{A0}' || c == '\U{1680}' || ('\U{2000}' <= c <= '\U{200A}') ||
    c == '\U{202F}' || c == '\U{205F}' || c == '\U{3000}' || c == '\U{FEFF}'
  }

  /** `[ \t]` in a regular expression. */
  predicate IsBlank(c: char) {
    c == ' ' || c == '\t'
  }

  /** `\d`. */
  predicate IsDigit(c: char) {
    '0' <= c <= '9'
  }

  predicate AllSpace(s: string) {
    forall k :: 0 <= k < |s| ==> IsSpace(s[k])
  }

  predicate AllDigits(s: string) {
    forall k :: 0 <= k < |s| ==> IsDigit(s[k])
  }

  /** How many characters at the start of `s` satisfy `p`: a greedy `[...]*`. */
  function Run(s: string, p: char -> bool): (n: nat)
    ensures n <= |s|
  {
    if s != [] && p(s[0]) then 1 + Run(s[1..], p) else 0
  }

  // ---------------------------------------------------------------------
  // trim
  // ---------------------------------------------------------------------

  /** `trimStart`: the longest suffix that does not begin with white space. */
  function TrimStart(s: string): (r: string)
    ensures |r| <= |s| && r == s[|s| - |r|..]
    ensures AllSpace(s[..|s| - |r|])
    ensures r == [] || !IsSpace(r[0])
  {
    if s != [] && IsSpace(s[0]) then
      var r := TrimStart(s[1..]);
      assert s[..|s| - |r|] == [s[0]] + s[1..][..|s| - 1 - |r|];
      r
    else s
  }

  /** `trimEnd`: the longest prefix that does not end with white space. */
  function TrimEnd(s: string): (r: string)
    ensures |r| <= |s| && r == s[..|r|]
    ensures AllSpace(s[|r|..])
    ensures r == [] || !IsSpace(r[|r| - 1])
  {
    if s != [] && IsSpace(s[|s| - 1]) then
      var p := s[..|s| - 1];
      var r := TrimEnd(p);
      assert s[..|r|] == p[..|r|];
      var tail := s[|r|..];
      assert tail == p[|r|..] + [s[|s| - 1]];
      assert AllSpace(tail) by {
        forall k | 0 <= k < |tail| ensures IsSpace(tail[k]) {
          if k < |p| - |r| { assert tail[k] == p[|r|..][k]; }
        }
      }
      r
    else s
  }

  /** `s` is `r` with white space, and only white space, around it, and
      `r` neither begins nor ends with white space. */
  predicate TrimmedFrom(s: string, r: string) {
    (r == [] || (!IsSpace(r[0]) && !IsSpace(r[|r| - 1]))) &&
    exists i :: 0 <= i <= |s| - |r| && s[i..i + |r|] == r &&
      AllSpace(s[..i]) && AllSpace(s[i + |r|..])
  }

  /** `String.prototype.trim`. */
  function Trim(s: string): (r: string)
    ensures TrimmedFrom(s, r)
  {
    TrimBoth(s);
    TrimEnd(TrimStart(s))
  }

  /** Trimming the start and then the end removes white space only, from
      the two ends. */
  lemma {:induction false} TrimBoth(s: string)
    ensures TrimmedFrom(s, TrimEnd(TrimStart(s)))
  {
    var a := TrimStart(s);
    var r := TrimEnd(a);
    var i := |s| - |a|;
    TrimPieces(s, a, r, i);
    assert 0 <= i <= |s| - |r| && s[i..i + |r|] == r && AllSpace(s[..i]) && AllSpace(s[i + |r|..]);
  }

  lemma {:induction false} TrimPieces(s: string, a: string, r: string, i: nat)
    requires i <= |s| && a == s[i..] && |r| <= |a| && r == a[..|r|] && AllSpace(a[|r|..]) && AllSpace(s[..i])
    requires r == [] || !IsSpace(r[|r| - 1])
    requires a == [] || !IsSpace(a[0])
    ensures TrimmedFrom(s, r)
  {
    assert s[i..i + |r|] == r;
    assert s[i + |r|..] == a[|r|..];
    assert r != [] ==> r[0] == a[0];
    assert 0 <= i <= |s| - |r| && s[i..i + |r|] == r && AllSpace(s[..i]) && AllSpace(s[i + |r|..]);
  }

  /** The trimmed text is unique: any split of `s` into white space, a core
      without white space at its ends, and white space, has `Trim(s)` as its
      core. */
  lemma {:induction false} TrimUnique(s: string, r: string)
    requires TrimmedFrom(s, r)
    ensures Trim(s) == r
  {
    var i :| 0 <= i <= |s| - |r| && s[i..i + |r|] == r && AllSpace(s[..i]) && AllSpace(s[i + |r|..]);
    TrimAt(s, i, r);
  }

  lemma {:induction false} TrimAt(s: string, i: nat, r: string)
    requires r == [] || (!IsSpace(r[0]) && !IsSpace(r[|r| - 1]))
    requires i + |r| <= |s| && s[i..i + |r|] == r && AllSpace(s[..i]) && AllSpace(s[i + |r|..])
    ensures Trim(s) == r
  {
    if r == [] {
      assert AllSpace(s) by {
        forall k | 0 <= k < |s| ensures IsSpace(s[k]) {
          if k < i {
            assert s[..i][k] == s[k];
          } else {
            assert s[i..][k - i] == s[k];
          }
        }
      }
      assert s[..|s|] == s;
      TrimStartOf(s, |s|);
    } else {
      assert s[i] == r[0];
      TrimStartOf(s, i);
      var a := s[i..];
      assert a[|r|..] == s[i + |r|..];
      assert a[|r| - 1] == r[|r| - 1];
      assert a[..|r|] == r;
      TrimEndOf(a, |r|);
    }
  }

  /** `trimStart` stops at the first character that is not white space. */
  lemma {:induction false} TrimStartOf(s: string, i: nat)
    requires i <= |s| && AllSpace(s[..i]) && (i == |s| || !IsSpace(s[i]))
    ensures TrimStart(s) == s[i..]
  {
    if i > 0 {
      assert s[..i][0] == s[0];
      assert s[1..][..i - 1] == s[1..i];
      var t := s[1..][..i - 1];
      forall k | 0 <= k < |t| ensures IsSpace(t[k]) {
        assert t[k] == s[..i][k + 1];
      }
      TrimStartOf(s[1..], i - 1);
    }
  }

  /** `trimEnd` stops at the last character that is not white space. */
  lemma {:induction false} TrimEndOf(s: string, j: nat)
    requires j <= |s| && AllSpace(s[j..]) && (j == 0 || !IsSpace(s[j - 1]))
    ensures TrimEnd(s) == s[..j]
    decreases |s|
  {
    if j < |s| {
      assert s[j..][|s| - 1 - j] == s[|s| - 1];
      var t := s[..|s| - 1];
      assert t[..j] == s[..j];
      assert AllSpace(t[j..]) by {
        forall k | 0 <= k < |t| - j ensures IsSpace(t[j..][k]) {
          assert t[j..][k] == s[j..][k];
        }
      }
      TrimEndOf(t, j);
    }
  }

  /** Trimming twice changes nothing more. */
  lemma {:induction false} TrimIdempotent(s: string)
    ensures Trim(Trim(s)) == Trim(s)
  {
    var r := Trim(s);
    assert r[0..|r|] == r && r[..0] == [] && r[|r|..] == [];
    TrimUnique(r, r);
  }

  /** Text that neither begins nor ends with white space is its own trim. */
  lemma {:induction false} TrimmedAlready(s: string)
    requires s == [] || (!IsSpace(s[0]) && !IsSpace(s[|s| - 1]))
    ensures Trim(s) == s
  {
    assert s[0..|s|] == s && s[..0] == [] && s[|s|..] == [];
    TrimUnique(s, s);
  }

  // ---------------------------------------------------------------------
  // indexOf
  // ---------------------------------------------------------------------

  /** `pat` occurs in `s` starting at position `k`. */
  predicate OccursAt(s: string, pat: string, k: nat) {
    k + |pat| <= |s| && s[k..k + |pat|] == pat
  }

  /** `s.indexOf(pat, from)`, with `None` for `-1`. */
  function IndexFrom(s: string, pat: string, from: nat): (r: Option<nat>)
    requires from <= |s|
    ensures r.Some? ==> from <= r.value && OccursAt(s, pat, r.value)
    ensures r.Some? ==> forall k :: from <= k < r.value ==> !OccursAt(s, pat, k)
    ensures r.None? ==> forall k :: from <= k <= |s| ==> !OccursAt(s, pat, k)
    decreases |s| - from
  {
    if OccursAt(s, pat, from) then Some(from)
    else if from == |s| then None
    else IndexFrom(s, pat, from + 1)
  }

  /** An occurrence inside a slice is an occurrence in the whole string. */
  lemma {:induction false} OccursInSlice(s: string, pat: string, a: nat, b: nat, k: nat)
    requires a <= b <= |s| && OccursAt(s[a..b], pat, k)
    ensures OccursAt(s, pat, a + k) && a + k + |pat| <= b
  {
    var x := s[a..b][k..k + |pat|];
    var y := s[a + k..a + k + |pat|];
    forall t | 0 <= t < |pat| ensures x[t] == y[t] {
    }
    assert x == y;
  }

  // ---------------------------------------------------------------------
  // Lines
  // ---------------------------------------------------------------------

  /** `^` matches at `i` under the `m` flag. */
  predicate LineStart(s: string, i: nat)
    requires i <= |s|
  {
    i == 0 || IsLineTerminator(s[i - 1])
  }

  /** The position of the first line terminator at or after `i`, or the end
      of `s`: where `$` first matches under the `m` flag. */
  function LineEnd(s: string, i: nat): (e: nat)
    requires i <= |s|
    ensures i <= e <= |s|
    ensures forall k :: i <= k < e ==> !IsLineTerminator(s[k])
    ensures e < |s| ==> IsLineTerminator(s[e])
    decreases |s| - i
  {
    if i == |s| || IsLineTerminator(s[i]) then i else LineEnd(s, i + 1)
  }

  // ---------------------------------------------------------------------
  // split and join
  // ---------------------------------------------------------------------

  /** `parts.join(sep)`. */
  function Join(parts: seq<string>, sep: string): string {
    if parts == [] then []
    else if |parts| == 1 then parts[0]
    else parts[0] + sep + Join(parts[1..], sep)
  }

  /** `s.split(c)` for a one-character separator. */
  function Split(s: string, c: char): (r: seq<string>)
    ensures |r| >= 1
    ensures forall i :: 0 <= i < |r| ==> c !in r[i]
    decreases |s|
  {
    if c !in s then [s]
    else
      var k := IndexOfChar(s, c);
      [s[..k]] + Split(s[k + 1..], c)
  }

  function IndexOfChar(s: string, c: char): (k: nat)
    requires c in s
    ensures k < |s| && s[k] == c && c !in s[..k]
  {
    if s[0] == c then 0 else
      assert s[1..][..IndexOfChar(s[1..], c)] == s[1..1 + IndexOfChar(s[1..], c)];
      1 + IndexOfChar(s[1..], c)
  }

  /** Joining the pieces of a split with the separator gives back the
      string. */
  lemma {:induction false} JoinSplit(s: string, c: char)
    ensures Join(Split(s, c), [c]) == s
    decreases |s|
  {
    if c in s {
      var k := IndexOfChar(s, c);
      var rest := Split(s[k + 1..], c);
      JoinSplit(s[k + 1..], c);
      assert Split(s, c) == [s[..k]] + rest;
      assert ([s[..k]] + rest)[1..] == rest;
      assert s == s[..k] + [c] + s[k + 1..];
    }
  }

  /** Splitting a join of separator-free pieces gives back the pieces. */
  lemma {:induction false} SplitJoin(parts: seq<string>, c: char)
    requires |parts| >= 1 && forall i :: 0 <= i < |parts| ==> c !in parts[i]
    ensures Split(Join(parts, [c]), c) == parts
    decreases |parts|
  {
    if |parts| > 1 {
      var s := Join(parts, [c]);
      var tail := Join(parts[1..], [c]);
      assert s == parts[0] + [c] + tail;
      assert s[|parts[0]|] == c;
      assert s[..|parts[0]|] == parts[0];
      var k := IndexOfChar(s, c);
      assert k == |parts[0]|;
      assert s[k + 1..] == tail;
      SplitJoin(parts[1..], c);
    }
  }

  // ---------------------------------------------------------------------
  // Line-break normalisation
  // ---------------------------------------------------------------------

  /** `s.replace(/\r\n/g, "\n")`: pairs are taken left to right. */
  function ReplaceCrLf(s: string): (r: string)
    ensures |r| <= |s|
    decreases |s|
  {
    if |s| >= 2 && s[0] == '\r' && s[1] == '\n' then "\n" + ReplaceCrLf(s[2..])
    else if s == [] then []
    else [s[0]] + ReplaceCrLf(s[1..])
  }

  /** `s.replace(/\r/g, "\n")`. */
  function ReplaceCr(s: string): (r: string)
    ensures |r| == |s|
    ensures forall k :: 0 <= k < |s| ==> r[k] == if s[k] == '\r' then '\n' else s[k]
  {
    if s == [] then [] else [if s[0] == '\r' then '\n' else s[0]] + ReplaceCr(s[1..])
  }

  /** Both replacements in turn, as the changelog clean-up applies them. */
  function NormalizeNewlines(s: string): (r: string)
    ensures '\r' !in r
  {
    ReplaceCr(ReplaceCrLf(s))
  }

  /** Without carriage returns there is nothing to normalise. */
  lemma {:induction false} NormalizeNoCr(s: string)
    requires '\r' !in s
    ensures NormalizeNewlines(s) == s
  {
    NoCrLf(s);
  }

  lemma {:induction false} NoCrLf(s: string)
    requires '\r' !in s
    ensures ReplaceCrLf(s) == s
    decreases |s|
  {
    if s != [] {
      assert '\r' !in s[1..];
      NoCrLf(s[1..]);
      assert s == [s[0]] + s[1..];
    }
  }

  /** The clean-up neither adds nor removes anything but carriage returns:
      dropping every line break and carriage return on both sides leaves
      the same text. */
  lemma {:induction false} ReplaceCrLfKeepsText(s: string)
    ensures Unbroken(ReplaceCrLf(s)) == Unbroken(s)
    decreases |s|
  {
    if |s| >= 2 && s[0] == '\r' && s[1] == '\n' {
      ReplaceCrLfKeepsText(s[2..]);
      UnbrokenAppend("\n", ReplaceCrLf(s[2..]));
      assert s == "\r\n" + s[2..];
      UnbrokenAppend("\r\n", s[2..]);
    } else if s != [] {
      ReplaceCrLfKeepsText(s[1..]);
      UnbrokenAppend([s[0]], ReplaceCrLf(s[1..]));
      assert s == [s[0]] + s[1..];
      UnbrokenAppend([s[0]], s[1..]);
    }
  }

  /** `s` without `\r` and `\n`. */
  function Unbroken(s: string): string {
    if s == [] then []
    else (if s[0] == '\r' || s[0] == '\n' then [] else [s[0]]) + Unbroken(s[1..])
  }

  lemma {:induction false} UnbrokenAppend(a: string, b: string)
    ensures Unbroken(a + b) == Unbroken(a) + Unbroken(b)
    decreases |a|
  {
    if a != [] {
      assert (a + b)[0] == a[0];
      assert (a + b)[1..] == a[1..] + b;
      UnbrokenAppend(a[1..], b);
      var h := if a[0] == '\r' || a[0] == '\n' then [] else [a[0]];
      assert Unbroken(a + b) == h + Unbroken(a[1..] + b);
      assert Unbroken(a) == h + Unbroken(a[1..]);
    } else {
      assert a + b == b;
    }
  }

  // ---------------------------------------------------------------------
  // Decimal numbers
  // ---------------------------------------------------------------------

  function DigitChar(d: nat): char
    requires d < 10
  {
    ['0', '1', '2', '3', '4', '5', '6', '7', '8', '9'][d]
  }

  function DigitValue(c: char): nat
    requires IsDigit(c)
  {
    (c as int - '0' as int) as nat
  }

  /** The value of a run of decimal digits. */
  function DigitsValue(s: string): nat
    requires AllDigits(s)
  {
    if s == [] then 0 else DigitsValue(s[..|s| - 1]) * 10 + DigitValue(s[|s| - 1])
  }

  /** `String(n)` for a non-negative integer. */
  function Decimal(n: nat): (r: string)
    ensures |r| >= 1 && AllDigits(r)
    ensures r[0] == '0' ==> n == 0 && r == "0"
  {
    if n < 10 then [DigitChar(n)] else Decimal(n / 10) + [DigitChar(n % 10)]
  }

  /** Reading back the decimal form gives the number. */
  lemma {:induction false} DecimalValue(n: nat)
    ensures DigitsValue(Decimal(n)) == n
  {
    if n >= 10 {
      var r := Decimal(n);
      assert r[..|r| - 1] == Decimal(n / 10);
      DecimalValue(n / 10);
    }
  }

  /** Digits without a leading zero are the decimal form of their value. */
  lemma {:induction false} DecimalOfDigits(s: string)
    requires |s| >= 1 && AllDigits(s) && (s[0] == '0' ==> |s| == 1)
    ensures Decimal(DigitsValue(s)) == s
    decreases |s|
  {
    if |s| == 1 {
      DigitRoundTrip(s[0]);
      assert s == [s[0]];
    } else {
      var init := s[..|s| - 1];
      var c := s[|s| - 1];
      assert init[0] == s[0];
      DecimalOfDigits(init);
      PositiveDigits(init);
      var k := DigitsValue(init);
      var d := DigitValue(c);
      assert DigitsValue(s) == k * 10 + d;
      DivMod10(k, d);
      DigitRoundTrip(c);
      assert Decimal(k * 10 + d) == Decimal(k) + [DigitChar(d)];
      assert s == init + [c];
    }
  }

  lemma {:induction false} DigitRoundTrip(c: char)
    requires IsDigit(c)
    ensures DigitChar(DigitValue(c)) == c
  {
  }

  lemma {:induction false} DivMod10(x: nat, d: nat)
    requires d < 10
    ensures (x * 10 + d) / 10 == x && (x * 10 + d) % 10 == d
  {
  }

  lemma {:induction false} PositiveDigits(s: string)
    requires |s| >= 1 && AllDigits(s) && s[0] != '0'
    ensures DigitsValue(s) >= 1
    decreases |s|
  {
    if |s| > 1 {
      var init := s[..|s| - 1];
      assert init[0] == s[0];
      PositiveDigits(init);
    }
  }
}
