/**
 * The entry classifier of scripts/convert_m3u8_to_json.py: the ignore list,
 * the adult flag, the two series tests and the `(seriesName, season,
 * episode)` parser. The source's regular expressions are written out as
 * matchers over positions of the name; for each of them the greedy `\d+`
 * and `\s*` never need to give characters back, because the character that
 * follows a shorter run is a digit or a space and cannot start what comes
 * next in the pattern, so one maximal run decides each match.
 */
module Classify {
  import opened Text
  import opened Seqs

  /** Category labels of live TV, sport and other non-VOD bundles. */
  function IgnoredCategories(): seq<String> {
    [
      "\U{23FA}\U{FE0F} ABERTO", "\U{23FA}\U{FE0F} BAND", "\U{23FA}\U{FE0F} SBT",
      "\U{23FA}\U{FE0F} GLOBO", "\U{23FA}\U{FE0F} RECORD", "\U{23FA}\U{FE0F} HBO",
      "\U{23FA}\U{FE0F} TELECINE", "\U{23FA}\U{FE0F} DISCOVERY", "\U{23FA}\U{FE0F} CINE SKY",
      "\U{23FA}\U{FE0F} FILMES E SERIES", "\U{23FA}\U{FE0F} NOTICIA", "\U{23FA}\U{FE0F} NBA",
      "\U{23FA}\U{FE0F} RUNTIME", "\U{23FA}\U{FE0F} 4K",
      "GLOBO (CENTRO-OESTE)", "GLOBO (NORDESTE)", "GLOBO (NORTE)",
      "GLOBO (SUDESTE)", "GLOBO (SUL)",
      "\U{26BD}APPLETV", "\U{26BD}DAZN", "\U{26BD}DISNEY", "\U{26BD}ESPORTE", "\U{26BD}HBO",
      "\U{26BD}PARAMOUNT", "\U{26BD}PREMIERE", "\U{26BD}PRIME", "\U{26BD} COPINHA",
      "A FAZENDA", "BBB 20", "BBB 2026", "ESTRELA DA CASA",
      "\U{C1}rea do cliente", "JOGOS DE HOJE", "R\U{C1}DIOS FM", "CANAIS:"
    ]
  }

  /** Case-sensitive markers of adult content. */
  function AdultKeywords(): seq<String> {
    ["ADULTOS", "[HOT]", "XXX", "[Adulto]", "ADULTO", "\U{274C}\U{2764}\U{FE0F}"]
  }

  /** Lower-case words that mark a category as holding series. */
  function SeriesCategoryKeywords(): seq<String> {
    ["series", "s\U{E9}rie", "novelas", "doramas", "programas", "stand up", "24h"]
  }

  // ---------------------------------------------------------------------
  // should_ignore_category

  /** The loop of `should_ignore_category` over `ignored`, with its three tests per entry. */
  predicate MatchesIgnored(category: String, ignored: seq<String>)
    decreases |ignored|
  {
    if ignored == [] then false
    else
      var upper := UpperStr(category);
      var upperIgnored := UpperStr(ignored[0]);
      if StartsWith(upper, upperIgnored) || upper == upperIgnored || category == ignored[0] then true
      else MatchesIgnored(category, ignored[1..])
  }

  predicate ShouldIgnoreCategory(category: String) {
    MatchesIgnored(category, IgnoredCategories())
  }

  /** The equality tests add nothing: the loop is a case-insensitive prefix test. */
  lemma {:induction false} MatchesIgnoredIsPrefixTest(category: String, ignored: seq<String>)
    ensures MatchesIgnored(category, ignored) <==>
            exists k :: 0 <= k < |ignored| && StartsWith(UpperStr(category), UpperStr(ignored[k]))
    decreases |ignored|
  {
    if ignored != [] {
      MatchesIgnoredIsPrefixTest(category, ignored[1..]);
      if category == ignored[0] {
        assert StartsWith(UpperStr(category), UpperStr(ignored[0]));
      }
      assert forall k :: 1 <= k < |ignored| ==> ignored[k] == ignored[1..][k - 1];
    }
  }

  lemma ShouldIgnoreIsPrefixTest(category: String)
    ensures ShouldIgnoreCategory(category) <==>
            exists k :: 0 <= k < |IgnoredCategories()| && StartsWith(UpperStr(category), UpperStr(IgnoredCategories()[k]))
  {
    MatchesIgnoredIsPrefixTest(category, IgnoredCategories());
  }

  // ---------------------------------------------------------------------
  // keyword tests: is_series_by_category, is_adult_content

  /** `any(keyword in s for keyword in keywords)`. */
  predicate AnyContains(s: String, keywords: seq<String>)
    decreases |keywords|
  {
    keywords != [] && (Contains(s, keywords[0]) || AnyContains(s, keywords[1..]))
  }

  lemma {:induction false} AnyContainsIff(s: String, keywords: seq<String>)
    ensures AnyContains(s, keywords) <==> exists k :: 0 <= k < |keywords| && Contains(s, keywords[k])
    decreases |keywords|
  {
    if keywords != [] {
      AnyContainsIff(s, keywords[1..]);
      assert forall k :: 1 <= k < |keywords| ==> keywords[k] == keywords[1..][k - 1];
    }
  }

  predicate IsSeriesByCategory(category: String) {
    AnyContains(LowerStr(category), SeriesCategoryKeywords())
  }

  /** The name and the category are joined by one space before the keyword search. */
  predicate IsAdultContent(name: String, category: String) {
    AnyContains(name + " " + category, AdultKeywords())
  }

  /** A word without `sep` that occurs in `a + [sep] + b` occurs in `a` or in `b`. */
  lemma ContainsAcrossSeparator(a: String, sep: char, b: String, p: String)
    requires sep !in p && Contains(a + [sep] + b, p)
    ensures Contains(a, p) || Contains(b, p)
  {
    var s := a + [sep] + b;
    ContainsIffOccurs(s, p);
    var i: nat :| OccursAt(s, p, i);
    if i + |p| <= |a| {
      assert s[i..i + |p|] == a[i..i + |p|];
      ContainsAt(a, p, i);
    } else if i > |a| {
      assert s[|a| + 1..] == b;
      assert s[i..i + |p|] == b[i - |a| - 1..i - |a| - 1 + |p|];
      ContainsAt(b, p, i - |a| - 1);
    } else {
      CharOfOccurrence(s, p, i, |a|);
      assert false;
    }
  }

  lemma ContainsInLeftPart(a: String, sep: char, b: String, p: String)
    requires Contains(a, p)
    ensures Contains(a + [sep] + b, p)
  {
    ContainsPrefixOf(a, [sep] + b, p);
    assert a + [sep] + b == a + ([sep] + b);
  }

  lemma ContainsInRightPart(a: String, sep: char, b: String, p: String)
    requires Contains(b, p)
    ensures Contains(a + [sep] + b, p)
  {
    var s := a + [sep] + b;
    ContainsIffOccurs(b, p);
    var i: nat :| OccursAt(b, p, i);
    assert s[|a| + 1..] == b;
    assert s[i + |a| + 1..i + |a| + 1 + |p|] == b[i..i + |p|];
    ContainsAt(s, p, i + |a| + 1);
  }

  /**
   * No adult keyword contains a space, so a keyword never straddles the
   * joint: the flag is set exactly when the name or the category carries one.
   */
  lemma AdultIffNameOrCategory(name: String, category: String)
    ensures IsAdultContent(name, category) <==>
            exists k :: 0 <= k < |AdultKeywords()| && (Contains(name, AdultKeywords()[k]) || Contains(category, AdultKeywords()[k]))
  {
    AnyContainsIff(name + " " + category, AdultKeywords());
    forall k | 0 <= k < |AdultKeywords()|
      ensures Contains(name + " " + category, AdultKeywords()[k]) <==>
              Contains(name, AdultKeywords()[k]) || Contains(category, AdultKeywords()[k])
    {
      var kw := AdultKeywords()[k];
      assert name + " " + category == name + [' '] + category;
      if Contains(name + " " + category, kw) {
        ContainsAcrossSeparator(name, ' ', category, kw);
      }
      if Contains(name, kw) {
        ContainsInLeftPart(name, ' ', category, kw);
      }
      if Contains(category, kw) {
        ContainsInRightPart(name, ' ', category, kw);
      }
    }
  }

  // ---------------------------------------------------------------------
  // Building blocks shared by the episode markers and the series parser

  /**
   * `<letter>(\d+)\s*E(\d+)` starting exactly at `j`, case-insensitive:
   * the two numbers when it matches.
   */
  function LetterPairAt(s: String, j: nat, letter: char): Option<(nat, nat)>
    requires j <= |s|
  {
    if j < |s| && SameLetter(s[j], letter) then
      var d1 := DigitRun(s, j + 1);
      var k := SkipSpaces(s, j + 1 + d1);
      if d1 > 0 && k < |s| && SameLetter(s[k], 'E') then
        var d2 := DigitRun(s, k + 1);
        if d2 > 0 then Some((DecimalValue(s[j + 1..j + 1 + d1]), DecimalValue(s[k + 1..k + 1 + d2])))
        else None
      else None
    else None
  }

  /** `(\d+)\s*x\s*(\d+)` starting exactly at `j`, case-insensitive. */
  function CrossPairAt(s: String, j: nat): Option<(nat, nat)>
    requires j <= |s|
  {
    var d1 := DigitRun(s, j);
    var k := SkipSpaces(s, j + d1);
    if d1 > 0 && k < |s| && SameLetter(s[k], 'x') then
      var m := SkipSpaces(s, k + 1);
      var d2 := DigitRun(s, m);
      if d2 > 0 then Some((DecimalValue(s[j..j + d1]), DecimalValue(s[m..m + d2])))
      else None
    else None
  }

  // ---------------------------------------------------------------------
  // is_series_by_name

  /** The six episode-marker patterns, in source order. */
  datatype EpisodeMarker =
    | SeasonEpisode     // S\d+\s*E\d+
    | TemporadaEpisode  // T\d+\s*E\d+
    | Cross             // \d+\s*x\s*\d+
    | Temporada         // Temporada\s*\d+
    | Temp              // Temp\.?\s*\d+
    | Season            // Season\s*\d+

  function EpisodeMarkers(): seq<EpisodeMarker> {
    [SeasonEpisode, TemporadaEpisode, Cross, Temporada, Temp, Season]
  }

  /** Whether the marker pattern matches starting at index `i` of `s`. */
  predicate MarkerAt(m: EpisodeMarker, s: String, i: nat)
    requires i <= |s|
  {
    match m
    case SeasonEpisode => LetterPairAt(s, i, 'S').Some?
    case TemporadaEpisode => LetterPairAt(s, i, 'T').Some?
    case Cross => CrossPairAt(s, i).Some?
    case Temporada => LettersAt(s, i, "temporada") && DigitRun(s, SkipSpaces(s, i + 9)) > 0
    case Temp =>
      LettersAt(s, i, "temp") &&
      var j := if i + 4 < |s| && s[i + 4] == '.' then i + 5 else i + 4;
      DigitRun(s, SkipSpaces(s, j)) > 0
    case Season => LettersAt(s, i, "season") && DigitRun(s, SkipSpaces(s, i + 6)) > 0
  }

  /** `pattern.search(s)`: the leftmost index at which the marker matches. */
  function SearchMarker(m: EpisodeMarker, s: String): (r: Option<nat>)
    ensures r.Some? ==> r.value <= |s| && MarkerAt(m, s, r.value) &&
                        forall j :: 0 <= j < r.value ==> !MarkerAt(m, s, j)
    ensures r.None? ==> forall j :: 0 <= j <= |s| ==> !MarkerAt(m, s, j)
  {
    var p := (j: nat) => j <= |s| && MarkerAt(m, s, j);
    assert forall j: nat :: p(j) == (j <= |s| && MarkerAt(m, s, j));
    FirstFrom(0, |s|, p)
  }

  /** `is_series_by_name`: some episode marker occurs in the name. */
  predicate IsSeriesByName(name: String) {
    exists k :: 0 <= k < |EpisodeMarkers()| && SearchMarker(EpisodeMarkers()[k], name).Some?
  }

  // ---------------------------------------------------------------------
  // parse_series_info

  datatype SeriesInfo = SeriesInfo(seriesName: String, season: nat, episode: nat)

  /** The three capture patterns, in source order; each starts with a lazy title `^(.+?)`. */
  datatype InfoPattern =
    | SeasonEpisodeInfo     // ^(.+?)\s*S(\d+)\s*E(\d+)
    | TemporadaEpisodeInfo  // ^(.+?)\s*T(\d+)\s*E(\d+)
    | CrossInfo             // ^(.+?)\s*(\d+)\s*x\s*(\d+)

  function InfoPatterns(): seq<InfoPattern> {
    [SeasonEpisodeInfo, TemporadaEpisodeInfo, CrossInfo]
  }

  /** What follows the title group when the title is `s[..len]`. */
  function AfterTitle(p: InfoPattern, s: String, len: nat): Option<(nat, nat)>
    requires len <= |s|
  {
    var j := SkipSpaces(s, len);
    match p
    case SeasonEpisodeInfo => LetterPairAt(s, j, 'S')
    case TemporadaEpisodeInfo => LetterPairAt(s, j, 'T')
    case CrossInfo => CrossPairAt(s, j)
  }

  /** `.+` can take `s[..len]`: at least one character, none of them a newline. */
  predicate TitleFits(s: String, len: nat) {
    1 <= len <= IndexOfChar(s, '\n')
  }

  predicate MatchesWithTitle(p: InfoPattern, s: String, len: nat) {
    TitleFits(s, len) && AfterTitle(p, s, len).Some?
  }

  /** The lazy title group: the shortest title that lets the rest of the pattern match. */
  function ShortestTitle(p: InfoPattern, s: String): Option<nat> {
    FirstFrom(1, IndexOfChar(s, '\n'), (len: nat) => MatchesWithTitle(p, s, len))
  }

  /** The tuple one pattern yields when its title is `s[..len]`. */
  function InfoWithTitle(p: InfoPattern, s: String, len: nat): SeriesInfo
    requires MatchesWithTitle(p, s, len)
  {
    var (season, episode) := AfterTitle(p, s, len).value;
    SeriesInfo(Strip(s[..len]), season, episode)
  }

  /** `pattern.match(name)` for one pattern. */
  function MatchInfo(p: InfoPattern, s: String): Option<SeriesInfo> {
    match ShortestTitle(p, s)
    case None => None
    case Some(len) => Some(InfoWithTitle(p, s, len))
  }

  /** One pattern finds no tuple exactly when no title length lets it match. */
  lemma MatchInfoNone(p: InfoPattern, s: String)
    ensures MatchInfo(p, s).None? <==> forall len :: !MatchesWithTitle(p, s, len)
  {
    var f := (len: nat) => MatchesWithTitle(p, s, len);
    if ShortestTitle(p, s).None? {
      forall len: nat ensures !MatchesWithTitle(p, s, len) {
        if 1 <= len <= IndexOfChar(s, '\n') {
          assert !f(len);
        }
      }
    } else {
      assert f(ShortestTitle(p, s).value);
    }
  }

  /** A found tuple: the title is the shortest one that lets the pattern match, trimmed. */
  lemma MatchInfoSome(p: InfoPattern, s: String)
    requires MatchInfo(p, s).Some?
    ensures ShortestTitle(p, s).Some?
    ensures var len := ShortestTitle(p, s).value;
            MatchesWithTitle(p, s, len) && MatchInfo(p, s).value == InfoWithTitle(p, s, len) &&
            forall l: nat :: l < len ==> !MatchesWithTitle(p, s, l)
  {
    var f := (len: nat) => MatchesWithTitle(p, s, len);
    var len := ShortestTitle(p, s).value;
    assert f(len);
    forall l | l < len ensures !MatchesWithTitle(p, s, l) {
      if 1 <= l {
        assert !f(l);
      }
    }
  }

  /** `parse_series_info`: the loop over the patterns returns the first tuple found. */
  function ParseSeriesInfo(name: String): Option<SeriesInfo> {
    FirstSome(InfoPatterns(), p => MatchInfo(p, name))
  }

  /** The parser finds nothing exactly when no pattern matches with any title. */
  lemma ParseSeriesInfoNone(name: String)
    ensures ParseSeriesInfo(name).None? <==>
            forall k, len :: 0 <= k < |InfoPatterns()| ==> !MatchesWithTitle(InfoPatterns()[k], name, len)
  {
    var f := p => MatchInfo(p, name);
    FirstSomeSpec(InfoPatterns(), f);
    forall k | 0 <= k < |InfoPatterns()|
      ensures f(InfoPatterns()[k]).None? <==> forall len :: !MatchesWithTitle(InfoPatterns()[k], name, len)
    {
      MatchInfoNone(InfoPatterns()[k], name);
    }
  }

  /**
   * A found tuple comes from the first pattern in source order that matches
   * at all, taken with the shortest title that lets it match.
   */
  lemma ParseSeriesInfoFirst(name: String)
    requires ParseSeriesInfo(name).Some?
    ensures exists k, len ::
        && 0 <= k < |InfoPatterns()|
        && MatchesWithTitle(InfoPatterns()[k], name, len)
        && ParseSeriesInfo(name).value == InfoWithTitle(InfoPatterns()[k], name, len)
        && (forall l :: l < len ==> !MatchesWithTitle(InfoPatterns()[k], name, l))
        && (forall j, l :: 0 <= j < k ==> !MatchesWithTitle(InfoPatterns()[j], name, l))
  {
    var f := p => MatchInfo(p, name);
    FirstSomeSpec(InfoPatterns(), f);
    var first := FirstIndex(InfoPatterns(), (p: InfoPattern) => f(p).Some?, 0);
    assert first.Some?;
    var k := first.value;
    assert ParseSeriesInfo(name) == f(InfoPatterns()[k]);
    forall j | 0 <= j < k
      ensures forall l :: !MatchesWithTitle(InfoPatterns()[j], name, l)
    {
      MatchInfoNone(InfoPatterns()[j], name);
    }
    MatchInfoSome(InfoPatterns()[k], name);
    var len := ShortestTitle(InfoPatterns()[k], name).value;
    assert MatchesWithTitle(InfoPatterns()[k], name, len);
  }

  /**
   * Every tuple the parser finds also satisfies an episode-marker search, so
   * the parsed tuple never decides the type on its own.
   */
  lemma ParsedImpliesEpisodeMarker(name: String)
    requires ParseSeriesInfo(name).Some?
    ensures IsSeriesByName(name)
  {
    var f := p => MatchInfo(p, name);
    FirstSomeSpec(InfoPatterns(), f);
    var k :| 0 <= k < |InfoPatterns()| && f(InfoPatterns()[k]).Some?;
    var len := ShortestTitle(InfoPatterns()[k], name).value;
    MarkerFromTitle(k, name, len);
  }

  lemma MarkerFromTitle(k: nat, name: String, len: nat)
    requires k < |InfoPatterns()| && MatchesWithTitle(InfoPatterns()[k], name, len)
    ensures IsSeriesByName(name)
  {
    var j := SkipSpaces(name, len);
    assert MarkerAt(EpisodeMarkers()[k], name, j);
    assert SearchMarker(EpisodeMarkers()[k], name).Some?;
  }
}
