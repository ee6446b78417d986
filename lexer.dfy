/**
 * The playlist scanner `parse_m3u8_file` of scripts/convert_m3u8_to_json.py.
 *
 * The file is read by the caller; the scanner takes its text. Each line is
 * stripped; an `#EXTINF:` line sets the pending name, category and logo,
 * and the next `http` line that finds a pending name turns them into one
 * catalog item (or drops them, for a live `.ts` stream or an ignored
 * category). Either way the pending metadata is cleared.
 */
module Lexer {
  import opened Text
  import opened Seqs
  import opened Classify
  import opened Names
  import opened Categories

  // ---------------------------------------------------------------------
  // content.split('\n')

  predicate NoNewline(t: String) {
    forall k :: 0 <= k < |t| ==> t[k] != '\n'
  }

  /** `s.split('\n')`: the pieces between newlines, at least one. */
  function SplitLines(s: String): (r: seq<String>)
    ensures |r| >= 1
    decreases |s|
  {
    var n := IndexOfChar(s, '\n');
    if n == |s| then [s] else [s[..n]] + SplitLines(s[n + 1..])
  }

  /** `'\n'.join(lines)`. */
  function JoinLines(lines: seq<String>): String
    requires |lines| >= 1
    decreases |lines|
  {
    if |lines| == 1 then lines[0] else lines[0] + "\n" + JoinLines(lines[1..])
  }

  /** No piece of a split holds a newline. */
  lemma {:induction false} SplitLinesNoNewline(s: String)
    ensures forall k :: 0 <= k < |SplitLines(s)| ==> NoNewline(SplitLines(s)[k])
    decreases |s|
  {
    var n := IndexOfChar(s, '\n');
    if n < |s| {
      SplitLinesNoNewline(s[n + 1..]);
      var rest := SplitLines(s[n + 1..]);
      assert SplitLines(s) == [s[..n]] + rest;
      assert forall k :: 1 <= k < |SplitLines(s)| ==> SplitLines(s)[k] == rest[k - 1];
    }
  }

  /** Joining the pieces with newlines gives back the text. */
  lemma {:induction false} JoinSplitLines(s: String)
    ensures JoinLines(SplitLines(s)) == s
    decreases |s|
  {
    var n := IndexOfChar(s, '\n');
    if n < |s| {
      JoinSplitLines(s[n + 1..]);
      var r := SplitLines(s);
      assert r[1..] == SplitLines(s[n + 1..]);
      assert s == s[..n] + "\n" + s[n + 1..];
    }
  }

  /** Splitting newline-joined lines without newlines gives back the lines. */
  lemma {:induction false} SplitJoinLines(lines: seq<String>)
    requires |lines| >= 1 && forall k :: 0 <= k < |lines| ==> NoNewline(lines[k])
    ensures SplitLines(JoinLines(lines)) == lines
    decreases |lines|
  {
    var head := lines[0];
    assert NoNewline(head);
    if |lines| == 1 {
      assert IndexOfChar(head, '\n') == |head|;
    } else {
      var tail := lines[1..];
      assert forall k :: 0 <= k < |tail| ==> NoNewline(tail[k]) by {
        assert forall k :: 0 <= k < |tail| ==> tail[k] == lines[k + 1];
      }
      SplitJoinLines(tail);
      var s := head + "\n" + JoinLines(tail);
      assert s[|head|] == '\n';
      assert forall k :: 0 <= k < |head| ==> s[k] == head[k];
      assert IndexOfChar(s, '\n') == |head|;
      assert s[..|head|] == head;
      assert s[|head| + 1..] == JoinLines(tail);
      assert lines == [head] + tail;
    }
  }

  // ---------------------------------------------------------------------
  // The three regular expressions of an #EXTINF line

  const GroupTitleKey: String := "group-title=\""
  const LogoKey: String := "tvg-logo=\""

  /** `key([^"]*)"` matches at `i`: the key, then a closing quote somewhere after it. */
  predicate AttrAt(line: String, key: String, i: nat) {
    OccursAt(line, key, i) && IndexOfChar(line[i + |key|..], '"') < |line| - (i + |key|)
  }

  /** `i` is where `re.search` finds the attribute: it matches there and nowhere before. */
  predicate LeftmostAttr(line: String, key: String, i: nat) {
    i <= |line| && AttrAt(line, key, i) && forall j :: 0 <= j < i ==> !AttrAt(line, key, j)
  }

  /** The position of the leftmost match of `key([^"]*)"`, if any. */
  function AttrStart(line: String, key: String): (r: Option<nat>)
    ensures r.Some? ==> LeftmostAttr(line, key, r.value)
    ensures r.None? ==> forall i :: 0 <= i <= |line| ==> !AttrAt(line, key, i)
  {
    var at := (i: nat) => AttrAt(line, key, i);
    assert forall i: nat :: at(i) == AttrAt(line, key, i);
    FirstFrom(0, |line|, at)
  }

  /** No double quote in `v`. */
  predicate NoQuote(v: String) {
    forall k :: 0 <= k < |v| ==> v[k] != '"'
  }

  /** `v` sits right after the key at `i`, holds no quote, and a quote closes it. */
  predicate QuotedAt(line: String, key: String, i: nat, v: String) {
    var b := i + |key|;
    b + |v| < |line| && line[b..b + |v|] == v && line[b + |v|] == '"' && NoQuote(v)
  }

  /**
   * `re.search(key + '([^"]*)"', line)`: the text between the leftmost key
   * that has a closing quote after it and the first quote that follows.
   */
  function AttrValue(line: String, key: String): (r: Option<String>)
    ensures r.None? <==> forall i :: 0 <= i <= |line| ==> !AttrAt(line, key, i)
  {
    match AttrStart(line, key)
    case None => None
    case Some(i) =>
      var rest := line[i + |key|..];
      Some(rest[..IndexOfChar(rest, '"')])
  }

  /** The value is the quoted text after the leftmost match of the key. */
  lemma AttrValueSpec(line: String, key: String)
    requires AttrValue(line, key).Some?
    ensures exists i :: LeftmostAttr(line, key, i) && QuotedAt(line, key, i, AttrValue(line, key).value)
  {
    var i := AttrStart(line, key).value;
    var b := i + |key|;
    var rest := line[b..];
    var n := IndexOfChar(rest, '"');
    var v := rest[..n];
    assert AttrValue(line, key).value == v;
    assert line[b..b + n] == v;
    assert line[b + n] == rest[n];
    assert QuotedAt(line, key, i, v);
  }

  /** A line that opens with the attribute yields exactly its quoted value. */
  lemma AttrValueAtStart(key: String, v: String, post: String)
    requires NoQuote(v)
    ensures AttrValue(key + v + "\"" + post, key) == Some(v)
  {
    var line := key + v + "\"" + post;
    var rest := line[|key|..];
    assert rest == v + "\"" + post;
    assert rest[|v|] == '"';
    assert forall k :: 0 <= k < |v| ==> rest[k] == v[k];
    assert IndexOfChar(rest, '"') == |v|;
    assert rest[..|v|] == v;
    assert line[..|key|] == key;
    assert AttrAt(line, key, 0);
    assert AttrStart(line, key) == Some(0);
  }

  /** `,(.+)$` matches at `i`: a comma, then one or more characters up to the end of the line. */
  predicate NameAt(line: String, i: nat) {
    i < |line| && line[i] == ',' &&
    var n := IndexOfChar(line[i + 1..], '\n');
    1 <= n && |line| - (i + 1) <= n + 1
  }

  /** The position of the leftmost match of `,(.+)$`, if any. */
  function NameStart(line: String): (r: Option<nat>)
    ensures r.Some? ==> NameAt(line, r.value) && forall j :: 0 <= j < r.value ==> !NameAt(line, j)
    ensures r.None? ==> forall i :: 0 <= i <= |line| ==> !NameAt(line, i)
  {
    var at := (i: nat) => NameAt(line, i);
    assert forall i: nat :: at(i) == NameAt(line, i);
    FirstFrom(0, |line|, at)
  }

  /**
   * `re.search(r',(.+)$', line)`, group 1: what follows the leftmost comma
   * that has text after it, up to the end of the line (or a final newline).
   */
  function NameAfterComma(line: String): (r: Option<String>)
    ensures r.None? <==> forall i :: 0 <= i <= |line| ==> !NameAt(line, i)
  {
    match NameStart(line)
    case None => None
    case Some(i) =>
      var rest := line[i + 1..];
      Some(rest[..IndexOfChar(rest, '\n')])
  }

  /**
   * On a line of the playlist the name is everything after the FIRST comma,
   * further commas included, when something follows that comma.
   */
  lemma NameAfterFirstComma(pre: String, post: String)
    requires NoNewline(pre) && NoNewline(post) && post != []
    requires forall k :: 0 <= k < |pre| ==> pre[k] != ','
    ensures NameAfterComma(pre + "," + post) == Some(post)
  {
    var line := pre + "," + post;
    var i := |pre|;
    var rest := line[i + 1..];
    assert rest == post;
    assert IndexOfChar(post, '\n') == |post|;
    assert NameAt(line, i);
    forall j | 0 <= j < i
      ensures !NameAt(line, j)
    {
      assert line[j] == pre[j];
    }
    assert NameStart(line) == Some(i);
    assert post[..|post|] == post;
  }

  /** A line without a comma that has text after it carries no name. */
  lemma NoNameWithoutComma(line: String)
    requires NoNewline(line)
    ensures NameAfterComma(line).None? <==> forall i :: 0 <= i < |line| - 1 ==> line[i] != ','
  {
    forall i | 0 <= i < |line| - 1 && line[i] == ','
      ensures NameAt(line, i)
    {
      var rest := line[i + 1..];
      assert forall k :: 0 <= k < |rest| ==> rest[k] == line[i + 1 + k];
      assert IndexOfChar(rest, '\n') == |rest|;
    }
  }

  // ---------------------------------------------------------------------
  // Catalog items

  datatype Kind = Movie | Series

  /**
   * One entry of a category file. `logo`, `isAdult` and `series` stand for
   * the optional keys `logo`, `isAdult` and `seriesName`/`season`/`episode`.
   */
  datatype Entry = Entry(
    id: String,
    name: String,
    url: String,
    kind: Kind,
    logo: Option<String>,
    isAdult: Option<bool>,
    series: Option<SeriesInfo>)

  /** A scanned item: the entry and its normalised `_category`, which grouping removes. */
  datatype CatalogItem = CatalogItem(entry: Entry, category: String)

  /** Python truthiness of an optional string: present and not empty. */
  predicate Truthy(o: Option<String>) {
    o.Some? && o.value != []
  }

  /** `current_category or 'Outros'`. */
  function CategoryOrOutros(o: Option<String>): (r: String)
    ensures Truthy(o) ==> r == o.value
    ensures !Truthy(o) ==> r == "Outros"
  {
    if Truthy(o) then o.value else "Outros"
  }

  /** `url.lower().endswith('.ts')`: a live stream. */
  predicate IsLiveStream(url: String) {
    EndsWith(LowerStr(url), ".ts")
  }

  /**
   * What an accepted `http` line hands to the item builder: the pending
   * name, the category after `or 'Outros'`, the pending logo and the URL.
   */
  datatype Draft = Draft(name: String, category: String, logo: Option<String>, url: String)

  /** The item the loop body builds from a draft. */
  function MakeItem(d: Draft, hash: String -> int): CatalogItem {
    var cleaned := CleanName(d.name);
    var isSeries := IsSeriesByCategory(d.category) || IsSeriesByName(d.name);
    var info := ParseSeriesInfo(d.name);
    CatalogItem(
      Entry(
        GenerateId(cleaned, d.url, hash),
        cleaned,
        d.url,
        if isSeries || info.Some? then Series else Movie,
        if Truthy(d.logo) then d.logo else None,
        if IsAdultContent(d.name, d.category) then Some(true) else None,
        info),
      NormalizeCategory(d.category))
  }

  /**
   * The optional keys are only ever set when they say something: `isAdult`
   * only as true, the series tuple only when one was parsed, the logo only
   * when not empty; and the type is `series` exactly when the category or an
   * episode marker says so, because a parsed tuple always comes with a
   * marker.
   */
  lemma MakeItemSpec(d: Draft, hash: String -> int)
    ensures var e := MakeItem(d, hash).entry;
            && (e.isAdult.Some? <==> IsAdultContent(d.name, d.category))
            && e.isAdult != Some(false)
            && e.series == ParseSeriesInfo(d.name)
            && (e.series.Some? ==> e.kind == Series)
            && (e.kind == Series <==> IsSeriesByCategory(d.category) || IsSeriesByName(d.name))
            && (e.logo.Some? ==> e.logo == d.logo && e.logo.value != [])
            && (Truthy(d.logo) ==> e.logo == d.logo)
            && e.name == CleanName(d.name) && Trimmed(e.name)
            && e.url == d.url
  {
    if ParseSeriesInfo(d.name).Some? {
      ParsedImpliesEpisodeMarker(d.name);
    }
  }

  /** The items built from a sequence of drafts, in order. */
  function MakeItems(drafts: seq<Draft>, hash: String -> int): (r: seq<CatalogItem>)
    ensures |r| == |drafts|
  {
    Map(drafts, (d: Draft) => MakeItem(d, hash))
  }

  /** Appending a draft appends its item. */
  lemma MakeItemsSnoc(drafts: seq<Draft>, d: Draft, hash: String -> int)
    ensures MakeItems(drafts + [d], hash) == MakeItems(drafts, hash) + [MakeItem(d, hash)]
  {
    MapSnoc(drafts, d, (d: Draft) => MakeItem(d, hash));
  }

  /** The items of one more draft of `drafts`. */
  lemma MakeItemsPrefix(drafts: seq<Draft>, k: nat, hash: String -> int)
    requires k < |drafts|
    ensures MakeItems(drafts[..k + 1], hash) == MakeItems(drafts[..k], hash) + [MakeItem(drafts[k], hash)]
  {
    assert drafts[..k + 1] == drafts[..k] + [drafts[k]];
    MakeItemsSnoc(drafts[..k], drafts[k], hash);
  }

  // ---------------------------------------------------------------------
  // The scanner

  /** `current_name`, `current_category` and `current_logo`. */
  datatype Pending = Pending(name: Option<String>, category: Option<String>, logo: Option<String>)

  const Idle: Pending := Pending(None, None, None)

  /** The pending metadata an `#EXTINF:` line sets, whatever was pending before. */
  function ExtinfPending(line: String): (p: Pending)
    ensures p.category.Some?
  {
    var group := AttrValue(line, GroupTitleKey);
    var name := NameAfterComma(line);
    Pending(
      if name.Some? then Some(Strip(name.value)) else None,
      if group.Some? then group else Some("Outros"),
      AttrValue(line, LogoKey))
  }

  /** What one line does: the pending metadata after it, and the draft it emits, if any. */
  datatype Transition = Transition(next: Pending, emitted: Option<Draft>)

  /** One line of the loop. */
  function Step(p: Pending, raw: String): Transition {
    var line := Strip(raw);
    if StartsWith(line, "#EXTINF:") then Transition(ExtinfPending(line), None)
    else if StartsWith(line, "http") && Truthy(p.name) then
      var category := CategoryOrOutros(p.category);
      if IsLiveStream(line) || ShouldIgnoreCategory(category) then Transition(Idle, None)
      else Transition(Idle, Some(Draft(p.name.value, category, p.logo, line)))
    else Transition(p, None)
  }

  /** The draft a transition emits, as a sequence of zero or one drafts. */
  function Emitted(t: Transition): (r: seq<Draft>)
    ensures |r| <= 1
  {
    if t.emitted.Some? then [t.emitted.value] else []
  }

  /** The loop's state after the first `n` lines: the pending metadata and the drafts emitted so far. */
  datatype ScanState = ScanState(pending: Pending, drafts: seq<Draft>)

  /** The loop after `n` lines, starting with nothing pending. */
  function Scan(lines: seq<String>, n: nat): ScanState
    requires n <= |lines|
    decreases n
  {
    if n == 0 then ScanState(Idle, [])
    else
      var s := Scan(lines, n - 1);
      var t := Step(s.pending, lines[n - 1]);
      ScanState(t.next, s.drafts + Emitted(t))
  }

  /** What `parse_m3u8_file` returns for the text of a playlist. */
  function ParsePlaylist(content: String, hash: String -> int): seq<CatalogItem> {
    var lines := SplitLines(content);
    MakeItems(Scan(lines, |lines|).drafts, hash)
  }

  /**
   * The body of the loop of `parse_m3u8_file` for one raw line: an
   * `#EXTINF:` line replaces all three pending fields; a URL line with a
   * pending name emits a draft unless it is a live stream or its category
   * is ignored, and clears the pending fields either way.
   */
  method ReadLine(p: Pending, raw: String) returns (t: Transition)
    ensures t == Step(p, raw)
  {
    var line := Strip(raw);
    t := Transition(p, None);
    if StartsWith(line, "#EXTINF:") {
      var groupMatch := AttrValue(line, GroupTitleKey);
      var category := if groupMatch.Some? then groupMatch else Some("Outros");
      var logo := AttrValue(line, LogoKey);
      var nameMatch := NameAfterComma(line);
      var name := if nameMatch.Some? then Some(Strip(nameMatch.value)) else None;
      t := Transition(Pending(name, category, logo), None);
    } else if StartsWith(line, "http") && Truthy(p.name) {
      var url := line;
      var category := CategoryOrOutros(p.category);
      if !IsLiveStream(url) && !ShouldIgnoreCategory(category) {
        t := Transition(Idle, Some(Draft(p.name.value, category, p.logo, url)));
      } else {
        t := Transition(Idle, None);
      }
    }
  }

  /** `items.append(item)` for the item built from draft `d`. */
  method AppendItem(items: seq<CatalogItem>, ghost drafts: seq<Draft>, d: Draft, hash: String -> int)
    returns (r: seq<CatalogItem>)
    requires items == MakeItems(drafts, hash)
    ensures r == MakeItems(drafts + [d], hash)
  {
    MakeItemsSnoc(drafts, d, hash);
    r := items + [MakeItem(d, hash)];
  }

  /**
   * One pass of the loop of `parse_m3u8_file` over line `i`, with the
   * pending fields and the items so far: the items gain the item of the
   * draft the line emits, if any, and the pending fields become those of the
   * scan after the line.
   */
  method ProcessLine(lines: seq<String>, i: nat, items: seq<CatalogItem>,
                     name: Option<String>, category: Option<String>, logo: Option<String>,
                     hash: String -> int)
    returns (items': seq<CatalogItem>, name': Option<String>, category': Option<String>, logo': Option<String>)
    requires i < |lines|
    requires Scan(lines, i).pending == Pending(name, category, logo)
    requires items == MakeItems(Scan(lines, i).drafts, hash)
    ensures Scan(lines, i + 1).pending == Pending(name', category', logo')
    ensures items' == MakeItems(Scan(lines, i + 1).drafts, hash)
  {
    var t := ReadLine(Pending(name, category, logo), lines[i]);
    ScanStep(lines, i);
    items' := items;
    if t.emitted.Some? {
      items' := AppendItem(items, Scan(lines, i).drafts, t.emitted.value, hash);
    }
    name', category', logo' := t.next.name, t.next.category, t.next.logo;
  }

  /**
   * The loop of `parse_m3u8_file` over the lines of a playlist. It keeps
   * `current_name`, `current_category` and `current_logo` between lines and
   * appends one item per draft the scan emits, in line order.
   */
  method ParseLines(lines: seq<String>, hash: String -> int) returns (items: seq<CatalogItem>)
    ensures items == MakeItems(Scan(lines, |lines|).drafts, hash)
  {
    items := [];
    var currentName: Option<String> := None;
    var currentCategory: Option<String> := None;
    var currentLogo: Option<String> := None;
    var i := 0;
    while i < |lines|
      invariant i <= |lines|
      invariant Scan(lines, i).pending == Pending(currentName, currentCategory, currentLogo)
      invariant items == MakeItems(Scan(lines, i).drafts, hash)
    {
      items, currentName, currentCategory, currentLogo :=
        ProcessLine(lines, i, items, currentName, currentCategory, currentLogo, hash);
      i := i + 1;
    }
  }

  /** `parse_m3u8_file` on the text of a playlist: split it into lines and scan them. */
  method ParseM3u8(content: String, hash: String -> int) returns (items: seq<CatalogItem>)
    ensures items == ParsePlaylist(content, hash)
  {
    var lines := SplitLines(content);
    items := ParseLines(lines, hash);
  }

  /** One more line of the scan. */
  lemma ScanStep(lines: seq<String>, i: nat)
    requires i < |lines|
    ensures var s := Scan(lines, i);
            var t := Step(s.pending, lines[i]);
            Scan(lines, i + 1) ==
            ScanState(t.next, if t.emitted.Some? then s.drafts + [t.emitted.value] else s.drafts)
  {
    var s := Scan(lines, i);
    assert s.drafts + [] == s.drafts;
  }

  // ---------------------------------------------------------------------
  // Properties of one step

  predicate IsHttpLine(raw: String) {
    StartsWith(Strip(raw), "http")
  }

  /** An `http` line is not an `#EXTINF:` line. */
  lemma HttpIsNotExtinf(raw: String)
    requires IsHttpLine(raw)
    ensures !StartsWith(Strip(raw), "#EXTINF:")
  {
    assert Strip(raw)[0] != '#';
  }

  /**
   * A step emits a draft exactly for an `http` line with a pending name, a
   * URL that is not a live stream and a category that is not ignored; the
   * draft carries the pending metadata and that line as its URL.
   */
  lemma StepEmits(p: Pending, raw: String)
    ensures Step(p, raw).emitted.Some? <==>
            (IsHttpLine(raw) && Truthy(p.name) && !IsLiveStream(Strip(raw)) &&
             !ShouldIgnoreCategory(CategoryOrOutros(p.category)))
    ensures Step(p, raw).emitted.Some? ==>
            Step(p, raw).next == Idle &&
            Step(p, raw).emitted.value == Draft(p.name.value, CategoryOrOutros(p.category), p.logo, Strip(raw))
  {
    if IsHttpLine(raw) {
      HttpIsNotExtinf(raw);
    }
  }

  /** An `http` line that finds a pending name always clears it, whether or not it emits. */
  lemma HttpLineClears(p: Pending, raw: String)
    requires IsHttpLine(raw) && Truthy(p.name)
    ensures Step(p, raw).next == Idle
    ensures IsLiveStream(Strip(raw)) || ShouldIgnoreCategory(CategoryOrOutros(p.category)) ==>
            Step(p, raw).emitted == None
  {
    HttpIsNotExtinf(raw);
  }

  /** An `http` line with no pending name is skipped and changes nothing. */
  lemma HttpLineWithoutName(p: Pending, raw: String)
    requires IsHttpLine(raw) && !Truthy(p.name)
    ensures Step(p, raw) == Transition(p, None)
  {
    HttpIsNotExtinf(raw);
  }

  /** Lines that are neither `#EXTINF:` nor `http` lines change nothing. */
  lemma OtherLineKeeps(p: Pending, raw: String)
    requires !IsHttpLine(raw) && !StartsWith(Strip(raw), "#EXTINF:")
    ensures Step(p, raw) == Transition(p, None)
  {
  }

  /** An `#EXTINF:` line replaces whatever was pending and emits nothing. */
  lemma ExtinfReplaces(p: Pending, q: Pending, raw: String)
    requires StartsWith(Strip(raw), "#EXTINF:")
    ensures Step(p, raw).next == Step(q, raw).next == ExtinfPending(Strip(raw))
    ensures Step(p, raw).emitted == None
  {
  }

  /** A missing or empty `group-title` makes the category an item is built with, before normalisation, `Outros`. */
  lemma EmptyGroupTitleIsOutros(line: String)
    ensures var g := AttrValue(line, GroupTitleKey);
            CategoryOrOutros(ExtinfPending(line).category) ==
            (if g.Some? && g.value != [] then g.value else "Outros")
  {
  }

  // ---------------------------------------------------------------------
  // Properties of the whole scan

  /** The number of `http` lines among the first `n` lines. */
  function HttpLines(lines: seq<String>, n: nat): nat
    requires n <= |lines|
    decreases n
  {
    if n == 0 then 0 else HttpLines(lines, n - 1) + (if IsHttpLine(lines[n - 1]) then 1 else 0)
  }

  /** At most one draft per `http` line. */
  lemma {:induction false} AtMostOneDraftPerHttpLine(lines: seq<String>, n: nat)
    requires n <= |lines|
    ensures |Scan(lines, n).drafts| <= HttpLines(lines, n)
    decreases n
  {
    if n > 0 {
      AtMostOneDraftPerHttpLine(lines, n - 1);
      StepEmits(Scan(lines, n - 1).pending, lines[n - 1]);
    }
  }

  /** What every draft looks like: its URL is a stripped `http` line that is not a live stream. */
  predicate WellFormedDraft(d: Draft) {
    StartsWith(d.url, "http") && Trimmed(d.url) && !IsLiveStream(d.url)
  }

  predicate AllWellFormedDrafts(ds: seq<Draft>) {
    forall k :: 0 <= k < |ds| ==> WellFormedDraft(ds[k])
  }

  lemma WellFormedDraftsAppend(ds: seq<Draft>, more: seq<Draft>)
    requires AllWellFormedDrafts(ds) && AllWellFormedDrafts(more)
    ensures AllWellFormedDrafts(ds + more)
  {
    var all := ds + more;
    forall k | 0 <= k < |all|
      ensures WellFormedDraft(all[k])
    {
      if k >= |ds| {
        assert all[k] == more[k - |ds|];
      }
    }
  }

  /** The draft one step emits, if any, is well formed. */
  lemma StepDraftWellFormed(p: Pending, raw: String)
    ensures AllWellFormedDrafts(Emitted(Step(p, raw)))
  {
    StepEmits(p, raw);
  }

  /** A step keeps the drafts so far well formed. */
  lemma StepKeepsDraftsWellFormed(s: ScanState, raw: String)
    requires AllWellFormedDrafts(s.drafts)
    ensures AllWellFormedDrafts(s.drafts + Emitted(Step(s.pending, raw)))
  {
    StepDraftWellFormed(s.pending, raw);
    WellFormedDraftsAppend(s.drafts, Emitted(Step(s.pending, raw)));
  }

  /** Every draft of the scan is well formed. */
  lemma {:induction false} ScannedDraftsWellFormed(lines: seq<String>, n: nat)
    requires n <= |lines|
    ensures AllWellFormedDrafts(Scan(lines, n).drafts)
    decreases n
  {
    if n > 0 {
      ScannedDraftsWellFormed(lines, n - 1);
      StepKeepsDraftsWellFormed(Scan(lines, n - 1), lines[n - 1]);
    }
  }

  /** What every item looks like, whatever the playlist. */
  predicate WellFormedItem(it: CatalogItem) {
    var e := it.entry;
    StartsWith(e.url, "http") && Trimmed(e.url) && !IsLiveStream(e.url) &&
    Trimmed(e.name) && e.isAdult != Some(false) && (e.series.Some? ==> e.kind == Series) &&
    (e.logo.Some? ==> e.logo.value != [])
  }

  /**
   * Every parsed item has an `http` URL that is not a live stream, a trimmed
   * name, `isAdult` only as true and a series tuple only on a series; and
   * there are no more items than `http` lines.
   */
  lemma ParsedItemsWellFormed(content: String, hash: String -> int)
    ensures var items := ParsePlaylist(content, hash);
            var lines := SplitLines(content);
            |items| <= HttpLines(lines, |lines|) &&
            forall k :: 0 <= k < |items| ==> WellFormedItem(items[k])
  {
    var lines := SplitLines(content);
    var drafts := Scan(lines, |lines|).drafts;
    AtMostOneDraftPerHttpLine(lines, |lines|);
    ScannedDraftsWellFormed(lines, |lines|);
    var items := ParsePlaylist(content, hash);
    forall k | 0 <= k < |items|
      ensures WellFormedItem(items[k])
    {
      MakeItemSpec(drafts[k], hash);
      assert WellFormedDraft(drafts[k]);
    }
  }
}
