/**
 * Display names and identifiers of catalog entries: the name cleaner
 * (`clean_name`) and the identifier builder (`generate_id`).
 */
module Names {
  import opened Text
  import opened Seqs

  // ---------------------------------------------------------------------
  // clean_name

  /** The dash of an ordinal prefix: a hyphen or an en dash. */
  predicate IsDash(c: char) {
    c == '-' || c == '\U{2013}'
  }

  /**
   * `re.sub(r'^\d+\s*[-–]\s*', '', s)`: drops a leading list number such
   * as "12 - " together with the spaces around its dash.
   */
  function StripOrdinal(s: String): (r: String)
    ensures |r| <= |s| && r == s[|s| - |r|..]
  {
    var d := DigitRun(s, 0);
    var j := SkipSpaces(s, d);
    if d > 0 && j < |s| && IsDash(s[j]) then s[SkipSpaces(s, j + 1)..] else s
  }

  /**
   * `s[..e]` is an ordinal prefix: digits `s[..d]`, whitespace `s[d..j]`,
   * the dash `s[j]`, and the whole whitespace run `s[j + 1..e]` after it.
   */
  predicate OrdinalPrefix(s: String, d: nat, j: nat, e: nat) {
    0 < d <= j < e <= |s| && DigitsBetween(s, 0, d) && SpacesBetween(s, d, j) && IsDash(s[j]) &&
    SpacesBetween(s, j + 1, e) && (e == |s| || !IsSpace(s[e]))
  }

  /** The three scans of `StripOrdinal` stop exactly at the parts of an ordinal prefix. */
  lemma OrdinalPrefixScans(s: String, d: nat, j: nat, e: nat)
    requires OrdinalPrefix(s, d, j, e)
    ensures DigitRun(s, 0) == d && SkipSpaces(s, d) == j && SkipSpaces(s, j + 1) == e
  {
    if d < j {
      assert IsSpace(s[d]);
    }
    DigitRunExact(s, 0, d);
    SpaceRunExact(s, d, j - d);
    SpaceRunExact(s, j + 1, e - j - 1);
  }

  /** A numbered title loses exactly its number, dash and the spaces around the dash. */
  lemma OrdinalPrefixRemoved(s: String, d: nat, j: nat, e: nat)
    requires OrdinalPrefix(s, d, j, e)
    ensures StripOrdinal(s) == s[e..]
  {
    OrdinalPrefixScans(s, d, j, e);
  }

  /** Conversely, anything `StripOrdinal` removes is such a prefix. */
  lemma StripOrdinalCases(s: String)
    ensures StripOrdinal(s) == s ||
            exists d: nat, j: nat, e: nat :: OrdinalPrefix(s, d, j, e) && StripOrdinal(s) == s[e..]
  {
    var d := DigitRun(s, 0);
    var j := SkipSpaces(s, d);
    if d > 0 && j < |s| && IsDash(s[j]) {
      var e := SkipSpaces(s, j + 1);
      assert OrdinalPrefix(s, d, j, e);
    }
  }

  /** The text ends with the live tag `[L]` (any letter case). */
  predicate EndsWithLiveTag(s: String) {
    |s| >= 3 && s[|s| - 3] == '[' && SameLetter(s[|s| - 2], 'L') && s[|s| - 1] == ']'
  }

  /**
   * `re.sub(r'\s*\[L\]\s*$', '', s, flags=re.IGNORECASE)`: drops a final
   * `[L]` together with the whitespace on both sides of it.
   */
  function StripLiveTag(s: String): (r: String)
    ensures |r| <= |s| && r == s[..|r|]
  {
    var t := TrimEnd(s);
    if EndsWithLiveTag(t) then TrimEnd(t[..|t| - 3]) else s
  }

  /** A title followed by `[L]` and whitespace loses exactly that tail. */
  lemma LiveTagRemoved(a: String, ws1: String, tag: String, ws2: String)
    requires a == [] || !IsSpace(a[|a| - 1])
    requires AllSpace(ws1) && AllSpace(ws2)
    requires |tag| == 3 && tag[0] == '[' && SameLetter(tag[1], 'L') && tag[2] == ']'
    ensures StripLiveTag(a + ws1 + tag + ws2) == a
  {
    var s := a + ws1 + tag + ws2;
    assert s == (a + ws1 + tag) + ws2;
    TrimEndExact(a + ws1 + tag, ws2);
    var t := a + ws1 + tag;
    assert t[..|t| - 3] == a + ws1;
    TrimEndExact(a, ws1);
  }

  /** The language markers removed from names, in the order they are removed. */
  const DubMarker: String := "(DUB)"
  const LegMarker: String := "(LEG)"

  /**
   * A marker the scan below removes cleanly: it does not start or contain
   * whitespace, and its first character does not reappear inside it.
   */
  predicate WellFormedMarker(m: String) {
    |m| > 0 && !IsSpace(m[0]) &&
    forall k :: 1 <= k < |m| ==> !IsSpace(m[k]) && !SameLetter(m[k], m[0])
  }

  lemma MarkersWellFormed()
    ensures WellFormedMarker(DubMarker) && WellFormedMarker(LegMarker)
  {
  }

  /** Length of a match of `\s*<m>\s*` (case-insensitive) at the start of `s`. */
  function MarkerMatch(s: String, m: String): (n: Option<nat>)
    requires |m| > 0
    ensures n.Some? ==> |m| <= n.value <= |s|
  {
    var w := SpaceRun(s, 0);
    if LettersAt(s, w, m) then Some(w + |m| + SpaceRun(s, w + |m|)) else None
  }

  /**
   * `re.sub(r'\s*<m>\s*', '', s, flags=re.IGNORECASE)`: a left-to-right
   * scan that deletes every match and resumes after it.
   */
  function RemoveMarker(s: String, m: String): (r: String)
    requires |m| > 0
    ensures |r| <= |s|
    decreases |s|
  {
    if s == [] then []
    else match MarkerMatch(s, m)
      case Some(n) => RemoveMarker(s[n..], m)
      case None => [s[0]] + RemoveMarker(s[1..], m)
  }

  /** No occurrence of `m`, in any letter case, anywhere in `s`. */
  predicate MarkerFree(s: String, m: String) {
    forall i :: 0 <= i <= |s| ==> !LettersAt(s, i, m)
  }

  lemma MarkerFreeTail(s: String, m: String)
    requires s != [] && MarkerFree(s, m)
    ensures MarkerFree(s[1..], m)
  {
    forall i | 0 <= i <= |s| - 1
      ensures !LettersAt(s[1..], i, m)
    {
      assert !LettersAt(s, i + 1, m);
    }
  }

  /** Text without the marker passes through the removal unchanged. */
  lemma {:induction false} MarkerFreeUnchanged(s: String, m: String)
    requires |m| > 0 && MarkerFree(s, m)
    ensures RemoveMarker(s, m) == s
    decreases |s|
  {
    if s != [] {
      assert !LettersAt(s, SpaceRun(s, 0), m);
      MarkerFreeTail(s, m);
      MarkerFreeUnchanged(s[1..], m);
      assert s == [s[0]] + s[1..];
    }
  }

  /**
   * `s` is `s[..p]`, whitespace `s[p..q]`, the marker in some letter case
   * at `q`, and the whole whitespace run `s[q + |m|..e]` after it.
   */
  predicate MarkerSplit(s: String, m: String, p: nat, q: nat, e: nat) {
    p <= q && q + |m| <= e <= |s| && SpacesBetween(s, p, q) && LettersAt(s, q, m) &&
    SpacesBetween(s, q + |m|, e) && (e == |s| || !IsSpace(s[e]))
  }

  /** With nothing before it, the match at the front is the whole split. */
  lemma MarkerAtFront(s: String, m: String, q: nat, e: nat)
    requires WellFormedMarker(m) && MarkerSplit(s, m, 0, q, e)
    ensures MarkerMatch(s, m) == Some(e)
  {
    SameLetterKeepsSpace(s[q], m[0]);
    SpaceRunExact(s, 0, q);
    SpaceRunExact(s, q + |m|, e - q - |m|);
  }

  lemma SpaceNotSameLetter(a: char, b: char)
    requires IsSpace(a) && !IsSpace(b)
    ensures !SameLetter(a, b)
  {
  }

  /**
   * Before the split there is no match: from any position `i` before `p`,
   * the marker would have to lie inside the marker-free prefix or straddle
   * its end.
   */
  lemma NoMarkerBeforeSplit(s: String, m: String, p: nat, q: nat, e: nat, i: nat)
    requires WellFormedMarker(m) && MarkerSplit(s, m, p, q, e)
    requires i < p && MarkerFree(s[..p], m) && !IsSpace(s[p - 1])
    ensures MarkerMatch(s[i..], m) == None
  {
    var u := s[i..];
    var w := SpaceRun(u, 0);
    assert u[p - 1 - i] == s[p - 1];
    assert w < p - i;
    if i + w + |m| <= p {
      assert !LettersAt(s[..p], i + w, m);
    } else {
      var o := p - i - w;
      if p < q {
        SpaceNotSameLetter(s[p], m[o]);
      } else {
        assert SameLetter(s[q], m[0]);
      }
      assert !SameLetter(u[w + o], m[o]);
    }
  }

  /** The split seen from its own start. */
  lemma MarkerSplitFromStart(s: String, m: String, p: nat, q: nat, e: nat)
    requires MarkerSplit(s, m, p, q, e)
    ensures MarkerSplit(s[p..], m, 0, q - p, e - p)
  {
    var u := s[p..];
    assert forall k :: 0 <= k < |u| ==> u[k] == s[p + k];
  }

  /** Where no match starts, the scan copies one character. */
  lemma RemoveMarkerCopy(s: String, m: String)
    requires |m| > 0 && s != [] && MarkerMatch(s, m) == None
    ensures RemoveMarker(s, m) == [s[0]] + RemoveMarker(s[1..], m)
  {
  }

  /** Where a match starts, the scan drops it and continues after it. */
  lemma RemoveMarkerSkip(s: String, m: String)
    requires |m| > 0 && s != [] && MarkerMatch(s, m).Some?
    ensures RemoveMarker(s, m) == RemoveMarker(s[MarkerMatch(s, m).value..], m)
  {
  }

  /** A scan that finds no match before `p` copies `s[..p]` and continues from `p`. */
  predicate NoMatchBefore(s: String, m: String, p: nat)
    requires |m| > 0 && p <= |s|
  {
    forall i :: 0 <= i < p ==> MarkerMatch(s[i..], m) == None
  }

  lemma {:induction false} ScanKeepsPrefix(s: String, m: String, p: nat)
    requires |m| > 0 && p <= |s| && NoMatchBefore(s, m, p)
    ensures RemoveMarker(s, m) == s[..p] + RemoveMarker(s[p..], m)
    decreases p
  {
    if p == 0 {
      assert s[..0] == [] && s[0..] == s;
    } else {
      var u := s[p - 1..];
      assert MarkerMatch(u, m) == None;
      assert NoMatchBefore(s, m, p - 1);
      ScanKeepsPrefix(s, m, p - 1);
      RemoveMarkerCopy(u, m);
      assert u[1..] == s[p..];
      var rest := RemoveMarker(s[p..], m);
      assert RemoveMarker(u, m) == [s[p - 1]] + rest;
      PrefixSnoc(s, p, rest);
    }
  }

  /** The scan copies the marker-free text before the split. */
  lemma PrefixBeforeSplitKept(s: String, m: String, p: nat, q: nat, e: nat)
    requires WellFormedMarker(m) && MarkerSplit(s, m, p, q, e)
    requires MarkerFree(s[..p], m) && (p == 0 || !IsSpace(s[p - 1]))
    ensures RemoveMarker(s, m) == s[..p] + RemoveMarker(s[p..], m)
  {
    forall i | 0 <= i < p
      ensures MarkerMatch(s[i..], m) == None
    {
      NoMarkerBeforeSplit(s, m, p, q, e, i);
    }
    assert NoMatchBefore(s, m, p);
    ScanKeepsPrefix(s, m, p);
  }

  /** At the split, the scan drops the marker and the whitespace around it. */
  lemma SplitMarkerDropped(s: String, m: String, p: nat, q: nat, e: nat)
    requires WellFormedMarker(m) && MarkerSplit(s, m, p, q, e)
    ensures RemoveMarker(s[p..], m) == RemoveMarker(s[e..], m)
  {
    var u := s[p..];
    MarkerSplitFromStart(s, m, p, q, e);
    MarkerAtFront(u, m, q - p, e - p);
    RemoveMarkerSkip(u, m);
    assert u[e - p..] == s[e..];
  }

  /**
   * One occurrence of the marker, written in any letter case, is deleted
   * together with the whitespace on both sides, and the scan carries on
   * after it: the marker-free text before it is kept and the text after it
   * is scanned.
   */
  lemma MarkerSpliced(s: String, m: String, p: nat, q: nat, e: nat)
    requires WellFormedMarker(m) && MarkerSplit(s, m, p, q, e)
    requires MarkerFree(s[..p], m) && (p == 0 || !IsSpace(s[p - 1]))
    ensures RemoveMarker(s, m) == s[..p] + RemoveMarker(s[e..], m)
  {
    PrefixBeforeSplitKept(s, m, p, q, e);
    SplitMarkerDropped(s, m, p, q, e);
  }

  /** `clean_name`: the display name of an entry. */
  function CleanName(name: String): (r: String)
    ensures Trimmed(r) && |r| <= |name|
  {
    var s := StripLiveTag(StripOrdinal(name));
    Strip(RemoveMarker(RemoveMarker(s, DubMarker), LegMarker))
  }

  /** A title with none of the decorations is its own display name. */
  lemma PlainTitleUnchanged(name: String)
    requires Trimmed(name) && (name == [] || !IsDigit(name[0])) && !EndsWithLiveTag(name)
    requires MarkerFree(name, DubMarker) && MarkerFree(name, LegMarker)
    ensures CleanName(name) == name
  {
    assert StripOrdinal(name) == name;
    TrimEndExact(name, []);
    assert name + [] == name;
    assert StripLiveTag(name) == name;
    MarkerFreeUnchanged(name, DubMarker);
    MarkerFreeUnchanged(name, LegMarker);
    assert TrimStart(name) == name;
  }

  // ---------------------------------------------------------------------
  // generate_id

  /** `re.sub(r'[^a-z0-9\s]', '', s)`: keeps lower-case letters, digits and whitespace. */
  function KeepIdChars(s: String): (r: String)
    ensures forall k :: 0 <= k < |r| ==> IsLowerAlnum(r[k]) || IsSpace(r[k])
    ensures forall c :: IsLowerAlnum(c) || IsSpace(c) ==> multiset(r)[c] == multiset(s)[c]
    ensures forall c :: !(IsLowerAlnum(c) || IsSpace(c)) ==> multiset(r)[c] == 0
    decreases |s|
  {
    if s == [] then []
    else
      assert s == [s[0]] + s[1..];
      if IsLowerAlnum(s[0]) || IsSpace(s[0]) then [s[0]] + KeepIdChars(s[1..])
      else KeepIdChars(s[1..])
  }

  lemma StripKeepsIdChars(s: String)
    requires forall k :: 0 <= k < |s| ==> IsLowerAlnum(s[k]) || IsSpace(s[k])
    ensures forall k :: 0 <= k < |Strip(s)| ==> IsLowerAlnum(Strip(s)[k]) || IsSpace(Strip(s)[k])
  {
    StripSpec(s);
    var r := Strip(s);
    var i := |s| - |TrimStart(s)|;
    assert forall k :: 0 <= k < |r| ==> r[k] == s[i + k];
  }

  /** A well-formed slug: `a-z`, `0-9` and single inner dashes. */
  predicate IsSlug(t: String) {
    SeparatedWords(t, '-')
  }

  /** The name part of an identifier. */
  function IdSlug(name: String): (r: String)
    ensures IsSlug(r)
  {
    var u := Strip(KeepIdChars(LowerStr(name)));
    StripKeepsIdChars(KeepIdChars(LowerStr(name)));
    CollapseRunsShape(u, IsSpace, '-');
    CollapseRuns(u, IsSpace, '-')
  }

  /** `str(abs(h))` cut to its first six digits. */
  function HashPart(h: int): (r: String)
    ensures 1 <= |r| <= 6 && AllDigits(r)
    ensures StartsWith(NatToDecimal(Abs(h)), r)
    ensures |NatToDecimal(Abs(h))| <= 6 ==> DecimalValue(r) == Abs(h)
  {
    var digits := NatToDecimal(Abs(h));
    if |digits| > 6 then digits[..6] else digits
  }

  /**
   * `generate_id`. Python's salted string hash is not reproducible, so it
   * is a parameter.
   */
  function GenerateId(name: String, url: String, hash: String -> int): String {
    IdSlug(name) + "-" + HashPart(hash(url))
  }

  /**
   * Shape of an identifier: a slug, one dash, then one to six digits that
   * begin the decimal form of the URL's hash. The last dash separates the
   * two parts, so both can be read back.
   */
  lemma GenerateIdShape(name: String, url: String, hash: String -> int)
    ensures var r := GenerateId(name, url, hash);
            var n := |IdSlug(name)|;
            n < |r| && r[..n] == IdSlug(name) && IsSlug(r[..n]) && r[n] == '-' &&
            1 <= |r| - (n + 1) <= 6 && AllDigits(r[n + 1..]) &&
            StartsWith(NatToDecimal(Abs(hash(url))), r[n + 1..]) &&
            forall k :: n < k < |r| ==> r[k] != '-'
  {
    var r := GenerateId(name, url, hash);
    var n := |IdSlug(name)|;
    assert r[..n] == IdSlug(name);
    assert r[n + 1..] == HashPart(hash(url));
  }
}
