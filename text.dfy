/**
 * Character and string primitives shared by the playlist converter model.
 *
 * Python's `str.lower()`, `str.upper()`, `str.strip()`, `\s` and `\d` are
 * Unicode-aware. This model restricts them to what the playlists actually
 * carry: case mapping covers ASCII letters and the Latin-1 letters
 * U+00C0..U+00DE / U+00E0..U+00FE (except U+00D7 and U+00F7), whitespace is
 * the six ASCII whitespace characters, and digits are ASCII digits.
 */
module Text {

  type String = seq<char>

  predicate IsSpace(c: char) {
    c == ' ' || c == '\t' || c == '\n' || c == '\r' || c == '\U{B}' || c == '\U{C}'
  }

  predicate IsDigit(c: char) {
    '0' <= c <= '9'
  }

  /** The characters `[a-z0-9]`. */
  predicate IsLowerAlnum(c: char) {
    'a' <= c <= 'z' || IsDigit(c)
  }

  predicate IsUpperLetter(c: char) {
    'A' <= c <= 'Z' || ('\U{C0}' <= c <= '\U{DE}' && c != '\U{D7}')
  }

  predicate IsLowerLetter(c: char) {
    'a' <= c <= 'z' || ('\U{E0}' <= c <= '\U{FE}' && c != '\U{F7}')
  }

  /** `c.lower()` on the modelled alphabet. */
  function Lower(c: char): (r: char)
    ensures IsUpperLetter(c) ==> IsLowerLetter(r) && Upper(r) == c
    ensures !IsUpperLetter(c) ==> r == c
  {
    if IsUpperLetter(c) then (c as int + 32) as char else c
  }

  /** `c.upper()` on the modelled alphabet. */
  function Upper(c: char): (r: char)
    ensures IsLowerLetter(c) ==> IsUpperLetter(r)
    ensures !IsLowerLetter(c) ==> r == c
  {
    if IsLowerLetter(c) then (c as int - 32) as char else c
  }

  /** Characters that IGNORECASE matching treats as the same letter. */
  predicate SameLetter(a: char, b: char) {
    Lower(a) == Lower(b)
  }

  function LowerStr(s: String): (r: String)
    ensures |r| == |s| && forall i :: 0 <= i < |s| ==> r[i] == Lower(s[i])
  {
    seq(|s|, i requires 0 <= i < |s| => Lower(s[i]))
  }

  function UpperStr(s: String): (r: String)
    ensures |r| == |s| && forall i :: 0 <= i < |s| ==> r[i] == Upper(s[i])
  {
    seq(|s|, i requires 0 <= i < |s| => Upper(s[i]))
  }

  predicate AllSpace(s: String) {
    forall i :: 0 <= i < |s| ==> IsSpace(s[i])
  }

  predicate AllDigits(s: String) {
    forall i :: 0 <= i < |s| ==> IsDigit(s[i])
  }

  /** No leading and no trailing whitespace. */
  predicate Trimmed(s: String) {
    |s| > 0 ==> !IsSpace(s[0]) && !IsSpace(s[|s| - 1])
  }

  predicate StartsWith(s: String, p: String) {
    |p| <= |s| && s[..|p|] == p
  }

  predicate EndsWith(s: String, p: String) {
    |p| <= |s| && s[|s| - |p|..] == p
  }

  /** `p` occurs in `s` starting at index `i`. */
  predicate OccursAt(s: String, p: String, i: nat) {
    i + |p| <= |s| && s[i..i + |p|] == p
  }

  /** Python's `p in s`. */
  predicate Contains(s: String, p: String)
    decreases |s|
  {
    StartsWith(s, p) || (|s| > 0 && Contains(s[1..], p))
  }

  lemma {:induction false} ContainsIffOccurs(s: String, p: String)
    ensures Contains(s, p) <==> exists i: nat :: OccursAt(s, p, i)
    decreases |s|
  {
    if StartsWith(s, p) {
      assert OccursAt(s, p, 0);
    } else if |s| > 0 {
      ContainsIffOccurs(s[1..], p);
      if Contains(s[1..], p) {
        var i: nat :| OccursAt(s[1..], p, i);
        assert s[1..][i..i + |p|] == s[i + 1..i + 1 + |p|];
        assert OccursAt(s, p, i + 1);
      }
      forall i: nat | OccursAt(s, p, i) ensures Contains(s[1..], p) {
        if i > 0 {
          assert s[1..][i - 1..i - 1 + |p|] == s[i..i + |p|];
          assert OccursAt(s[1..], p, i - 1);
        }
      }
    }
  }

  lemma CharOfOccurrence(s: String, p: String, i: nat, k: nat)
    requires OccursAt(s, p, i) && i <= k < i + |p|
    ensures p[k - i] == s[k]
  {
    assert s[i..i + |p|][k - i] == s[k];
  }

  lemma ContainsAt(s: String, p: String, i: nat)
    requires OccursAt(s, p, i)
    ensures Contains(s, p)
  {
    ContainsIffOccurs(s, p);
  }

  /** A word with a character that `s` lacks does not occur in `s`. */
  lemma MissingCharNotContained(s: String, p: String, k: nat)
    requires k < |p| && p[k] !in s
    ensures !Contains(s, p)
  {
    ContainsIffOccurs(s, p);
  }

  lemma ContainsPrefixOf(s: String, t: String, p: String)
    requires Contains(s, p)
    ensures Contains(s + t, p)
  {
    ContainsIffOccurs(s, p);
    var i: nat :| OccursAt(s, p, i);
    assert (s + t)[i..i + |p|] == s[i..i + |p|];
    ContainsAt(s + t, p, i);
  }

  /** Length of the longest run of whitespace in `s` starting at `i`. */
  function SpaceRun(s: String, i: nat): (n: nat)
    requires i <= |s|
    ensures i + n <= |s|
    ensures forall k :: i <= k < i + n ==> IsSpace(s[k])
    ensures i + n == |s| || !IsSpace(s[i + n])
    decreases |s| - i
  {
    if i < |s| && IsSpace(s[i]) then 1 + SpaceRun(s, i + 1) else 0
  }

  /** Length of the longest run of digits in `s` starting at `i`. */
  function DigitRun(s: String, i: nat): (n: nat)
    requires i <= |s|
    ensures i + n <= |s|
    ensures forall k :: i <= k < i + n ==> IsDigit(s[k])
    ensures i + n == |s| || !IsDigit(s[i + n])
    decreases |s| - i
  {
    if i < |s| && IsDigit(s[i]) then 1 + DigitRun(s, i + 1) else 0
  }

  /** The index after the whitespace run at `i` (the regex `\s*`, which is greedy). */
  function SkipSpaces(s: String, i: nat): (j: nat)
    requires i <= |s|
    ensures i <= j <= |s|
  {
    i + SpaceRun(s, i)
  }

  /** `str.lstrip()`: drops the leading whitespace. */
  function TrimStart(s: String): (r: String)
    ensures |r| <= |s|
    ensures |r| > 0 ==> !IsSpace(r[0])
    decreases |s|
  {
    if |s| > 0 && IsSpace(s[0]) then TrimStart(s[1..]) else s
  }

  /** What `lstrip` removes is whitespace, and what it keeps is a suffix. */
  lemma {:induction false} TrimStartSpec(s: String)
    ensures var r := TrimStart(s); r == s[|s| - |r|..] && AllSpace(s[..|s| - |r|])
    decreases |s|
  {
    if |s| > 0 && IsSpace(s[0]) {
      TrimStartSpec(s[1..]);
      var r := TrimStart(s);
      assert s[1..][|s| - 1 - |r|..] == s[|s| - |r|..];
      assert s[..|s| - |r|] == [s[0]] + s[1..][..|s| - 1 - |r|];
    }
  }

  /** `str.rstrip()`: drops the trailing whitespace. */
  function TrimEnd(s: String): (r: String)
    ensures |r| <= |s| && r == s[..|r|]
    ensures |r| > 0 ==> !IsSpace(r[|r| - 1])
    decreases |s|
  {
    if |s| > 0 && IsSpace(s[|s| - 1]) then TrimEnd(s[..|s| - 1]) else s
  }

  /** What `rstrip` removes is whitespace. */
  lemma {:induction false} TrimEndSpec(s: String)
    ensures AllSpace(s[|TrimEnd(s)|..])
    decreases |s|
  {
    if |s| > 0 && IsSpace(s[|s| - 1]) {
      TrimEndSpec(s[..|s| - 1]);
      var r := TrimEnd(s);
      assert s[|r|..] == s[..|s| - 1][|r|..] + [s[|s| - 1]];
    }
  }

  /** `str.strip()`: drops the surrounding whitespace. */
  function Strip(s: String): (r: String)
    ensures Trimmed(r)
  {
    var t := TrimStart(s);
    var r := TrimEnd(t);
    assert |r| > 0 ==> r[0] == t[0];
    r
  }

  /** What `Strip` removes is whitespace, and what it keeps is a contiguous part of `s`. */
  lemma StripSpec(s: String)
    ensures var i := |s| - |TrimStart(s)|;
            var r := Strip(s);
            i + |r| <= |s| && r == s[i..i + |r|] && AllSpace(s[..i]) && AllSpace(s[i + |r|..])
  {
    var t := TrimStart(s);
    var r := TrimEnd(t);
    assert Strip(s) == r;
    var i := |s| - |t|;
    TrimStartSpec(s);
    TrimEndSpec(t);
    SuffixParts(s, i, |r|);
  }

  lemma SuffixParts(s: String, i: nat, k: nat)
    requires i + k <= |s|
    ensures s[i..][..k] == s[i..i + k] && s[i..][k..] == s[i + k..]
  {
  }

  /**
   * `s.replace(p, '')` for a non-empty `p`: every occurrence found by a
   * left-to-right scan is deleted, and scanning resumes after it.
   */
  function RemoveAll(s: String, p: String): (r: String)
    requires |p| > 0
    ensures |r| <= |s|
    decreases |s|
  {
    if |s| == 0 then []
    else if StartsWith(s, p) then RemoveAll(s[|p|..], p)
    else [s[0]] + RemoveAll(s[1..], p)
  }

  lemma {:induction false} RemoveAllAbsent(s: String, p: String)
    requires |p| > 0 && !Contains(s, p)
    ensures RemoveAll(s, p) == s
    decreases |s|
  {
    if |s| > 0 {
      RemoveAllAbsent(s[1..], p);
      assert s == [s[0]] + s[1..];
    }
  }

  /**
   * Where a lower-cased occurrence of `q` at `i` and an occurrence of `p` at
   * `j` share position `k`, that position carries both characters.
   */
  lemma SharedPosition(s: String, p: String, q: String, i: nat, j: nat, k: nat)
    requires OccursAt(LowerStr(s), q, i)
    ensures OccursAt(s, p, j) && i <= k < i + |q| && j <= k < j + |p| ==>
              q[k - i] == Lower(p[k - j]) == LowerStr(p)[k - j]
  {
    if OccursAt(s, p, j) && i <= k < i + |q| && j <= k < j + |p| {
      CharOfOccurrence(LowerStr(s), q, i, k);
      CharOfOccurrence(s, p, j, k);
    }
  }

  /**
   * `p` and a lower-cased occurrence of `q` cannot overlap when neither end
   * of `p` is a character of `q` and one character of `q` is no character
   * of `p`, up to case.
   */
  predicate Disjoint(p: String, q: String, t: nat) {
    |p| > 0 && t < |q| &&
    Lower(p[0]) !in q && Lower(p[|p| - 1]) !in q && q[t] !in LowerStr(p)
  }

  lemma NoOverlap(s: String, p: String, q: String, t: nat, i: nat, j: nat)
    requires Disjoint(p, q, t)
    requires OccursAt(LowerStr(s), q, i)
    ensures OccursAt(s, p, j) ==> j + |p| <= i || i + |q| <= j
  {
    SharedPosition(s, p, q, i, j, j);
    SharedPosition(s, p, q, i, j, j + |p| - 1);
    SharedPosition(s, p, q, i, j, i + t);
  }

  /** A lower-cased occurrence of `q` inside `s[a..b]` is one of that slice. */
  lemma OccursWithin(s: String, q: String, i: nat, a: nat, b: nat)
    requires OccursAt(LowerStr(s), q, i) && a <= i && i + |q| <= b <= |s|
    ensures OccursAt(LowerStr(s[a..b]), q, i - a)
  {
    forall k | 0 <= k < |q|
      ensures LowerStr(s[a..b])[i - a + k] == q[k]
    {
      CharOfOccurrence(LowerStr(s), q, i, i + k);
    }
    assert LowerStr(s[a..b])[i - a..i - a + |q|] == q;
  }

  /** With no occurrence of `p` starting before `n`, `RemoveAll` keeps the first `n` characters. */
  lemma {:induction false} RemoveAllKeepsPrefix(s: String, p: String, n: nat)
    requires |p| > 0 && n <= |s|
    requires forall j: nat :: j < n ==> !OccursAt(s, p, j)
    ensures n <= |RemoveAll(s, p)| && RemoveAll(s, p)[..n] == s[..n]
    decreases n
  {
    if n > 0 {
      assert !OccursAt(s, p, 0);
      var rest := RemoveAll(s[1..], p);
      assert RemoveAll(s, p) == [s[0]] + rest;
      forall j: nat | j < n - 1
        ensures !OccursAt(s[1..], p, j)
      {
        assert !OccursAt(s, p, j + 1);
        if j + |p| <= |s| - 1 {
          assert s[1..][j..j + |p|] == s[j + 1..j + 1 + |p|];
        }
      }
      RemoveAllKeepsPrefix(s[1..], p, n - 1);
      assert s[..n] == [s[0]] + s[1..][..n - 1];
    }
  }

  /** A lower-cased occurrence of `q` in the tail is one in the whole string. */
  lemma ContainsCons(c: char, r: String, q: String)
    requires Contains(LowerStr(r), q)
    ensures Contains(LowerStr([c] + r), q)
  {
    assert LowerStr([c] + r)[1..] == LowerStr(r);
  }

  /**
   * `s.replace(p, '')` keeps every lower-cased occurrence of `q` that no
   * occurrence of `p` can overlap.
   */
  lemma {:induction false} RemoveAllKeeps(s: String, p: String, q: String, t: nat, i: nat)
    requires Disjoint(p, q, t)
    requires OccursAt(LowerStr(s), q, i)
    ensures Contains(LowerStr(RemoveAll(s, p)), q)
    decreases |s|
  {
    if StartsWith(s, p) {
      NoOverlap(s, p, q, t, i, 0);
      OccursWithin(s, q, i, |p|, |s|);
      RemoveAllKeeps(s[|p|..], p, q, t, i - |p|);
    } else if i == 0 {
      forall j: nat | j < |q|
        ensures !OccursAt(s, p, j)
      {
        NoOverlap(s, p, q, t, 0, j);
      }
      RemoveAllKeepsPrefix(s, p, |q|);
      var r := RemoveAll(s, p);
      assert LowerStr(r)[..|q|] == LowerStr(s)[..|q|];
      assert StartsWith(LowerStr(r), q);
    } else {
      OccursWithin(s, q, i, 1, |s|);
      RemoveAllKeeps(s[1..], p, q, t, i - 1);
      assert RemoveAll(s, p) == [s[0]] + RemoveAll(s[1..], p);
      ContainsCons(s[0], RemoveAll(s[1..], p), q);
    }
  }

  /** Lower-casing keeps whitespace in the leading part `s[..a]`. */
  lemma LowerSpaceBefore(s: String, a: nat, k: nat)
    requires a <= |s| && AllSpace(s[..a])
    ensures k < a ==> IsSpace(LowerStr(s)[k])
  {
    if k < a {
      assert s[..a][k] == s[k];
    }
  }

  /** Lower-casing keeps whitespace in the trailing part `s[b..]`. */
  lemma LowerSpaceAfter(s: String, b: nat, k: nat)
    requires b <= |s| && AllSpace(s[b..])
    ensures b <= k < |s| ==> IsSpace(LowerStr(s)[k])
  {
    if b <= k < |s| {
      assert s[b..][k - b] == s[k];
    }
  }

  /** `strip()` keeps a lower-cased occurrence of `q` when `q` has no space at either end. */
  lemma StripKeeps(s: String, q: String)
    requires |q| > 0 && !IsSpace(q[0]) && !IsSpace(q[|q| - 1])
    requires Contains(LowerStr(s), q)
    ensures Contains(LowerStr(Strip(s)), q)
  {
    ContainsIffOccurs(LowerStr(s), q);
    var i: nat :| OccursAt(LowerStr(s), q, i);
    StripSpec(s);
    var a := |s| - |TrimStart(s)|;
    var r := Strip(s);
    var b := a + |r|;
    CharOfOccurrence(LowerStr(s), q, i, i);
    CharOfOccurrence(LowerStr(s), q, i, i + |q| - 1);
    LowerSpaceBefore(s, a, i);
    LowerSpaceAfter(s, b, i + |q| - 1);
    OccursWithin(s, q, i, a, b);
    ContainsAt(LowerStr(r), q, i - a);
  }

  function DigitValue(c: char): (d: nat)
    requires IsDigit(c)
    ensures d < 10
  {
    c as int - '0' as int
  }

  function DigitChar(d: nat): (c: char)
    requires d < 10
    ensures IsDigit(c) && DigitValue(c) == d
  {
    ('0' as int + d) as char
  }

  /** `int(ds)` for a string of decimal digits. */
  function DecimalValue(ds: String): nat
    requires AllDigits(ds)
  {
    if ds == [] then 0
    else 10 * DecimalValue(ds[..|ds| - 1]) + DigitValue(ds[|ds| - 1])
  }

  /** `str(n)` for a natural number: the canonical decimal numeral. */
  function NatToDecimal(n: nat): (r: String)
    ensures |r| > 0 && AllDigits(r)
    ensures DecimalValue(r) == n
    ensures |r| > 1 ==> r[0] != '0'
  {
    if n < 10 then [DigitChar(n)]
    else
      var r := NatToDecimal(n / 10) + [DigitChar(n % 10)];
      assert r[..|r| - 1] == NatToDecimal(n / 10);
      r
  }

  /** `s[i..]` starts with `word` up to letter case (IGNORECASE matching of a literal). */
  predicate LettersAt(s: String, i: nat, word: String) {
    i + |word| <= |s| && forall k :: 0 <= k < |word| ==> SameLetter(s[i + k], word[k])
  }

  lemma SameLetterKeepsSpace(a: char, b: char)
    requires SameLetter(a, b)
    ensures IsSpace(a) <==> IsSpace(b)
  {
  }

  /** `s[i..j]` is all whitespace. */
  predicate SpacesBetween(s: String, i: nat, j: nat) {
    i <= j <= |s| && forall k :: i <= k < j ==> IsSpace(s[k])
  }

  /** `s[i..j]` is all digits. */
  predicate DigitsBetween(s: String, i: nat, j: nat) {
    i <= j <= |s| && forall k :: i <= k < j ==> IsDigit(s[k])
  }

  /** A run of whitespace that ends at a non-space (or at the end) is the whole run. */
  lemma {:induction false} SpaceRunExact(s: String, i: nat, n: nat)
    requires SpacesBetween(s, i, i + n) && (i + n == |s| || !IsSpace(s[i + n]))
    ensures SpaceRun(s, i) == n
    decreases n
  {
    if n > 0 {
      SpaceRunExact(s, i + 1, n - 1);
    }
  }

  /** A run of digits that ends at a non-digit (or at the end) is the whole run. */
  lemma {:induction false} DigitRunExact(s: String, i: nat, n: nat)
    requires DigitsBetween(s, i, i + n) && (i + n == |s| || !IsDigit(s[i + n]))
    ensures DigitRun(s, i) == n
    decreases n
  {
    if n > 0 {
      DigitRunExact(s, i + 1, n - 1);
    }
  }

  /** `rstrip` removes exactly a whitespace tail that follows a non-space. */
  lemma {:induction false} TrimEndExact(y: String, z: String)
    requires AllSpace(z) && (y == [] || !IsSpace(y[|y| - 1]))
    ensures TrimEnd(y + z) == y
    decreases |z|
  {
    if z == [] {
      assert y + z == y;
    } else {
      assert (y + z)[..|y + z| - 1] == y + z[..|z| - 1];
      TrimEndExact(y, z[..|z| - 1]);
    }
  }

  /** Length of the longest prefix of `s` whose characters satisfy `p`. */
  function RunLen(s: String, p: char -> bool): (n: nat)
    ensures n <= |s|
    ensures forall k :: 0 <= k < n ==> p(s[k])
    ensures n == |s| || !p(s[n])
  {
    if s != [] && p(s[0]) then 1 + RunLen(s[1..], p) else 0
  }

  /** `sep` occurs in `s` only where the class `inRun` holds. */
  predicate SepOnlyInRuns(s: String, inRun: char -> bool, sep: char) {
    forall k :: 0 <= k < |s| && !inRun(s[k]) ==> s[k] != sep
  }

  /**
   * `re.sub(r'<class>+', sep, s)`: every maximal run of characters in the
   * class `inRun` becomes one `sep`; other characters are kept.
   */
  function CollapseRuns(s: String, inRun: char -> bool, sep: char): (r: String)
    requires SepOnlyInRuns(s, inRun, sep)
    ensures |r| == 0 <==> |s| == 0
    ensures |s| > 0 ==> (r[0] == sep <==> inRun(s[0]))
    ensures |s| > 0 ==> (r[|r| - 1] == sep <==> inRun(s[|s| - 1]))
    decreases |s|
  {
    if s == [] then []
    else if inRun(s[0]) then
      var n := RunLen(s, inRun);
      var rest := CollapseRuns(s[n..], inRun, sep);
      assert rest == [] ==> s[|s| - 1] == s[n - 1];
      [sep] + rest
    else
      [s[0]] + CollapseRuns(s[1..], inRun, sep)
  }

  /** `t[k]` and `t[k + 1]` are both `c`. */
  predicate DoubledAt(t: String, c: char, k: nat) {
    k + 1 < |t| && t[k] == c && t[k + 1] == c
  }

  /** No two `c` in a row anywhere in `t`. */
  predicate NoDoubled(t: String, c: char) {
    forall k :: 0 <= k < |t| ==> !DoubledAt(t, c, k)
  }

  /** Characters of `a-z`, `0-9` and `sep`, with no two `sep` in a row. */
  predicate SepRuns(t: String, sep: char) {
    (forall k :: 0 <= k < |t| ==> IsLowerAlnum(t[k]) || t[k] == sep) &&
    NoDoubled(t, sep)
  }

  /**
   * Words of `a-z` and `0-9` joined by single `sep` characters, with no
   * `sep` at either end: the shape of a slug or a file name stem.
   */
  predicate SeparatedWords(t: String, sep: char) {
    SepRuns(t, sep) && (|t| > 0 ==> t[0] != sep && t[|t| - 1] != sep)
  }

  /**
   * The characters of a collapsed string: separators, and characters of
   * the input outside the class; never two separators in a row.
   */
  predicate Collapsed(r: String, s: String, inRun: char -> bool, sep: char) {
    (forall k :: 0 <= k < |r| ==> r[k] == sep || (!inRun(r[k]) && r[k] in s)) &&
    NoDoubled(r, sep)
  }

  lemma {:induction false} CollapseRunsShape(s: String, inRun: char -> bool, sep: char)
    requires SepOnlyInRuns(s, inRun, sep)
    ensures Collapsed(CollapseRuns(s, inRun, sep), s, inRun, sep)
    decreases |s|
  {
    if s != [] {
      var n := if inRun(s[0]) then RunLen(s, inRun) else 1;
      var tail := s[n..];
      CollapseRunsShape(tail, inRun, sep);
      var rest := CollapseRuns(tail, inRun, sep);
      var head := if inRun(s[0]) then sep else s[0];
      var r := [head] + rest;
      assert CollapseRuns(s, inRun, sep) == r;
      assert forall x :: x in tail ==> x in s;
      assert rest != [] && inRun(s[0]) ==> rest[0] != sep;
      forall k: nat
        ensures !DoubledAt(r, sep, k)
      {
        if k > 0 {
          assert !DoubledAt(rest, sep, k - 1);
        }
      }
    }
  }

  /**
   * On a string that already has the shape `CollapseRuns` produces, with a
   * separator that belongs to the class, collapsing changes nothing.
   */
  lemma {:induction false} CollapseRunsFixedPoint(t: String, inRun: char -> bool, sep: char)
    requires inRun(sep)
    requires forall k :: 0 <= k < |t| ==> t[k] == sep || !inRun(t[k])
    requires NoDoubled(t, sep)
    ensures CollapseRuns(t, inRun, sep) == t
    decreases |t|
  {
    if t != [] {
      if inRun(t[0]) {
        assert RunLen(t, inRun) == 1 by {
          assert !DoubledAt(t, sep, 0);
        }
      }
      forall k: nat
        ensures !DoubledAt(t[1..], sep, k)
      {
        assert !DoubledAt(t, sep, k + 1);
      }
      CollapseRunsFixedPoint(t[1..], inRun, sep);
      assert t == [t[0]] + t[1..];
    }
  }

  /** Drops every leading `c` (the regex `^c+`). */
  function DropLeading(s: String, c: char): (r: String)
    ensures |r| > 0 ==> r[0] != c
    decreases |s|
  {
    if s != [] && s[0] == c then DropLeading(s[1..], c) else s
  }

  /** What `DropLeading` removes is a run of `c`, and what it keeps is a suffix. */
  lemma {:induction false} DropLeadingSpec(s: String, c: char)
    ensures var r := DropLeading(s, c);
            |r| <= |s| && r == s[|s| - |r|..] && forall k :: 0 <= k < |s| - |r| ==> s[k] == c
    decreases |s|
  {
    if s != [] && s[0] == c {
      DropLeadingSpec(s[1..], c);
      var r := DropLeading(s, c);
      assert s[1..][|s| - 1 - |r|..] == s[|s| - |r|..];
      assert forall k :: 1 <= k < |s| - |r| ==> s[k] == s[1..][k - 1];
    }
  }

  /** Drops every trailing `c` (the regex `c+$`). */
  function DropTrailing(s: String, c: char): (r: String)
    ensures |r| > 0 ==> r[|r| - 1] != c
    decreases |s|
  {
    if s != [] && s[|s| - 1] == c then DropTrailing(s[..|s| - 1], c) else s
  }

  /** What `DropTrailing` removes is a run of `c`, and what it keeps is a prefix. */
  lemma {:induction false} DropTrailingSpec(s: String, c: char)
    ensures var r := DropTrailing(s, c);
            |r| <= |s| && r == s[..|r|] && forall k :: |r| <= k < |s| ==> s[k] == c
    decreases |s|
  {
    if s != [] && s[|s| - 1] == c {
      DropTrailingSpec(s[..|s| - 1], c);
    }
  }

  /** Length of the longest prefix of `s` whose characters lie outside `inRun`. */
  function WordLen(s: String, inRun: char -> bool): (n: nat)
    ensures n <= |s|
    ensures forall k :: 0 <= k < n ==> !inRun(s[k])
    ensures n == |s| || inRun(s[n])
  {
    if s != [] && !inRun(s[0]) then 1 + WordLen(s[1..], inRun) else 0
  }

  /**
   * The maximal runs of characters outside the class `inRun`, in order
   * (`re.findall(r'[^<class>]+', s)`).
   */
  function Words(s: String, inRun: char -> bool): seq<String>
    decreases |s|
  {
    if s == [] then []
    else if inRun(s[0]) then Words(s[1..], inRun)
    else
      var m := WordLen(s, inRun);
      [s[..m]] + Words(s[m..], inRun)
  }

  /** The strings of `ws` with one `sep` between neighbours (`sep.join(ws)`). */
  function Join(ws: seq<String>, sep: char): String
    decreases |ws|
  {
    if ws == [] then []
    else if |ws| == 1 then ws[0]
    else ws[0] + [sep] + Join(ws[1..], sep)
  }

  /** A leading run of the class holds no word. */
  lemma {:induction false} WordsSkipRun(s: String, inRun: char -> bool)
    ensures Words(s, inRun) == Words(s[RunLen(s, inRun)..], inRun)
    decreases |s|
  {
    if s != [] && inRun(s[0]) {
      WordsSkipRun(s[1..], inRun);
      assert s[1..][RunLen(s[1..], inRun)..] == s[RunLen(s, inRun)..];
    }
  }

  lemma SepOnlyInRunsSuffix(s: String, inRun: char -> bool, sep: char, k: nat)
    requires SepOnlyInRuns(s, inRun, sep) && k <= |s|
    ensures SepOnlyInRuns(s[k..], inRun, sep)
  {
    forall i | 0 <= i < |s| - k && !inRun(s[k..][i])
      ensures s[k..][i] != sep
    {
      assert s[k..][i] == s[k + i];
    }
  }

  /** Trailing separators after a non-separator are all `DropTrailing` removes. */
  lemma {:induction false} DropTrailingAppend(x: String, y: String, c: char)
    requires y != [] && y[0] != c
    ensures DropTrailing(x + y, c) == x + DropTrailing(y, c)
    decreases |y|
  {
    if y[|y| - 1] == c {
      assert (x + y)[..|x + y| - 1] == x + y[..|y| - 1];
      DropTrailingAppend(x, y[..|y| - 1], c);
    }
  }

  /** A word character followed by a word character extends the first word. */
  lemma WordsCons(s: String, inRun: char -> bool)
    requires |s| >= 2 && !inRun(s[0]) && !inRun(s[1])
    ensures Words(s[1..], inRun) != []
    ensures Words(s, inRun) ==
            [[s[0]] + Words(s[1..], inRun)[0]] + Words(s[1..], inRun)[1..]
  {
    var t := s[1..];
    var m := WordLen(t, inRun);
    assert WordLen(s, inRun) == m + 1;
    var ws := Words(t, inRun);
    assert ws == [t[..m]] + Words(t[m..], inRun);
    assert ws[0] == t[..m] && ws[1..] == Words(t[m..], inRun);
    assert t[m..] == s[m + 1..];
    assert s[..m + 1] == [s[0]] + t[..m];
    assert Words(s, inRun) == [s[..m + 1]] + Words(s[m + 1..], inRun);
  }

  /** A word character followed by the end or a run is a word of its own. */
  lemma WordsSingle(s: String, inRun: char -> bool)
    requires |s| >= 1 && !inRun(s[0]) && (|s| == 1 || inRun(s[1]))
    ensures Words(s, inRun) == [[s[0]]] + Words(s[1..], inRun)
  {
    assert WordLen(s, inRun) == 1;
    assert s[..1] == [s[0]];
  }

  /** Extending the first word extends the joined string. */
  lemma JoinCons(c: char, ws: seq<String>, sep: char)
    requires ws != []
    ensures Join([[c] + ws[0]] + ws[1..], sep) == [c] + Join(ws, sep)
  {
    var vs := [[c] + ws[0]] + ws[1..];
    assert vs[1..] == ws[1..];
  }

  /**
   * Starting at a word, collapsing the runs and dropping the trailing
   * separator leaves the words joined by single separators.
   */
  lemma {:induction false} CollapseRunsJoin(s: String, inRun: char -> bool, sep: char)
    requires inRun(sep) && SepOnlyInRuns(s, inRun, sep)
    requires s == [] || !inRun(s[0])
    ensures DropTrailing(CollapseRuns(s, inRun, sep), sep) == Join(Words(s, inRun), sep)
    decreases |s|, 1
  {
    if s != [] {
      if |s| == 1 {
        WordsSingle(s, inRun);
        assert CollapseRuns(s, inRun, sep) == [s[0]];
      } else if !inRun(s[1]) {
        JoinWord(s, inRun, sep);
      } else {
        JoinGap(s, inRun, sep);
      }
    }
  }

  /** `CollapseRunsJoin` when the first word goes on. */
  lemma {:induction false} JoinWord(s: String, inRun: char -> bool, sep: char)
    requires inRun(sep) && SepOnlyInRuns(s, inRun, sep)
    requires |s| >= 2 && !inRun(s[0]) && !inRun(s[1])
    ensures DropTrailing(CollapseRuns(s, inRun, sep), sep) == Join(Words(s, inRun), sep)
    decreases |s|, 0
  {
    var t := s[1..];
    SepOnlyInRunsSuffix(s, inRun, sep, 1);
    CollapseRunsJoin(t, inRun, sep);
    var ct := CollapseRuns(t, inRun, sep);
    assert CollapseRuns(s, inRun, sep) == [s[0]] + ct;
    DropTrailingAppend([s[0]], ct, sep);
    WordsCons(s, inRun);
    JoinCons(s[0], Words(t, inRun), sep);
  }

  /** What follows a one-character word and the run after it. */
  function AfterGap(s: String, inRun: char -> bool): (t: String)
    requires |s| >= 1
    ensures |t| < |s|
  {
    s[1..][RunLen(s[1..], inRun)..]
  }

  /** A one-character word and the run after it collapse to the word and one separator. */
  lemma CollapseRunsGap(s: String, inRun: char -> bool, sep: char)
    requires SepOnlyInRuns(s, inRun, sep)
    requires |s| >= 2 && !inRun(s[0]) && inRun(s[1])
    ensures SepOnlyInRuns(AfterGap(s, inRun), inRun, sep)
    ensures CollapseRuns(s, inRun, sep) == [s[0], sep] + CollapseRuns(AfterGap(s, inRun), inRun, sep)
    ensures Words(s, inRun) == [[s[0]]] + Words(AfterGap(s, inRun), inRun)
  {
    var u := s[1..];
    var n := RunLen(u, inRun);
    SepOnlyInRunsSuffix(s, inRun, sep, 1);
    SepOnlyInRunsSuffix(u, inRun, sep, n);
    WordsSingle(s, inRun);
    WordsSkipRun(u, inRun);
    assert CollapseRuns(u, inRun, sep) == [sep] + CollapseRuns(u[n..], inRun, sep);
  }

  /** `CollapseRunsJoin` when a run follows the first character. */
  lemma {:induction false} JoinGap(s: String, inRun: char -> bool, sep: char)
    requires inRun(sep) && SepOnlyInRuns(s, inRun, sep)
    requires |s| >= 2 && !inRun(s[0]) && inRun(s[1])
    ensures DropTrailing(CollapseRuns(s, inRun, sep), sep) == Join(Words(s, inRun), sep)
    decreases |s|, 0
  {
    var t := AfterGap(s, inRun);
    CollapseRunsGap(s, inRun, sep);
    var ct := CollapseRuns(t, inRun, sep);
    if t == [] {
      assert [s[0], sep] + ct == [s[0]] + [sep];
    } else {
      CollapseRunsJoin(t, inRun, sep);
      DropTrailingAppend([s[0], sep], ct, sep);
      assert ([[s[0]]] + Words(t, inRun))[1..] == Words(t, inRun);
    }
  }

  /**
   * `re.sub(r'<class>+', sep, s).strip(sep)` is `sep.join` of the words of
   * `s`: each maximal run outside the class is kept whole, and one `sep`
   * stands exactly between two neighbouring words.
   */
  lemma {:induction false} CollapseRunsWords(s: String, inRun: char -> bool, sep: char)
    requires inRun(sep) && SepOnlyInRuns(s, inRun, sep)
    ensures DropTrailing(DropLeading(CollapseRuns(s, inRun, sep), sep), sep) ==
            Join(Words(s, inRun), sep)
  {
    if s != [] && inRun(s[0]) {
      var t := s[RunLen(s, inRun)..];
      SepOnlyInRunsSuffix(s, inRun, sep, RunLen(s, inRun));
      WordsSkipRun(s, inRun);
      var ct := CollapseRuns(t, inRun, sep);
      assert CollapseRuns(s, inRun, sep) == [sep] + ct;
      assert ([sep] + ct)[1..] == ct;
      assert DropLeading(ct, sep) == ct;
      CollapseRunsJoin(t, inRun, sep);
    } else {
      assert DropLeading(CollapseRuns(s, inRun, sep), sep) == CollapseRuns(s, inRun, sep);
      CollapseRunsJoin(s, inRun, sep);
    }
  }

  lemma SepRunsTail(t: String, sep: char)
    requires SepRuns(t, sep) && t != []
    ensures SepRuns(t[1..], sep)
  {
    forall k | 0 <= k < |t| - 1
      ensures !DoubledAt(t[1..], sep, k)
    {
      assert !DoubledAt(t, sep, k + 1);
    }
  }

  lemma SepRunsInit(t: String, sep: char)
    requires SepRuns(t, sep) && t != []
    ensures SepRuns(t[..|t| - 1], sep)
  {
    var v := t[..|t| - 1];
    forall k | 0 <= k < |v|
      ensures !DoubledAt(v, sep, k)
    {
      assert !DoubledAt(t, sep, k);
    }
  }

  /** Dropping leading separators keeps the shape. */
  lemma {:induction false} DropLeadingRuns(t: String, sep: char)
    requires SepRuns(t, sep)
    ensures SepRuns(DropLeading(t, sep), sep)
    decreases |t|
  {
    if t != [] && t[0] == sep {
      SepRunsTail(t, sep);
      DropLeadingRuns(t[1..], sep);
    }
  }

  /** Dropping trailing separators keeps the shape. */
  lemma {:induction false} DropTrailingRuns(t: String, sep: char)
    requires SepRuns(t, sep)
    ensures SepRuns(DropTrailing(t, sep), sep)
    decreases |t|
  {
    if t != [] && t[|t| - 1] == sep {
      SepRunsInit(t, sep);
      DropTrailingRuns(t[..|t| - 1], sep);
    }
  }

  /** Dropping the outer separators of such a string leaves separated words. */
  lemma DropOuterSeparators(t: String, sep: char)
    requires SepRuns(t, sep)
    ensures SeparatedWords(DropTrailing(DropLeading(t, sep), sep), sep)
  {
    var u := DropLeading(t, sep);
    DropLeadingRuns(t, sep);
    DropTrailingRuns(u, sep);
    DropTrailingSpec(u, sep);
  }

  /**
   * Index of the first `c` in `s`, or `|s|` when there is none. With `c`
   * a newline, it is how far the regex `.` can reach from the start.
   */
  function IndexOfChar(s: String, c: char): (n: nat)
    ensures n <= |s|
    ensures forall k :: 0 <= k < n ==> s[k] != c
    ensures n < |s| ==> s[n] == c
  {
    if s == [] || s[0] == c then 0
    else
      var n := 1 + IndexOfChar(s[1..], c);
      assert forall k :: 1 <= k < n ==> s[k] == s[1..][k - 1];
      n
  }

  /** Python's `abs` on an int. */
  function Abs(x: int): (r: nat)
    ensures r == x || r == -x
  {
    if x < 0 then -x else x
  }
}
