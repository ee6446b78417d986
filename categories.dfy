/**
 * Canonical categories (`normalize_category`) and the file names derived
 * from them (`category_to_filename`).
 *
 * The normaliser first strips one of three known playlist prefixes and then
 * walks a table of rules in source order; the first rule whose test holds
 * on the lower-cased category decides the canonical name.
 */
module Categories {
  import opened Text
  import opened Seqs

  // ---------------------------------------------------------------------
  // Prefix stripping

  const OndPrefix: String := "OND /"
  const SeriesPrefix: String := "Series |"
  const CollectionPrefix: String := "COLET\U{C2}NEA:"

  /** The name of a movie category whose `OND /` label is empty. */
  const MoviesDefault: String := "Filmes"
  /** The name of a series category whose `Series |` label is empty. */
  const SeriesDefault: String := "S\U{E9}ries"

  /** The `OND /` label: the label with a trailing " -" removed, trimmed again. */
  function OndLabel(category: String): (r: String)
    ensures Trimmed(r)
  {
    var n := Strip(RemoveAll(category, OndPrefix));
    if EndsWith(n, " -") then Strip(n[..|n| - 2]) else n
  }

  /**
   * The prefix handling at the head of `normalize_category`: an `OND /`
   * label has its first character upper-cased and defaults to `Filmes`, a
   * `Series |` label defaults to `Séries`, a `COLETÂNEA:` label is only
   * trimmed, and any other category is kept as it is.
   */
  function StripKnownPrefix(category: String): (r: String)
    ensures StartsWith(category, OndPrefix) ==>
              (var n := OndLabel(category);
               r != [] && Trimmed(r) &&
               (n == [] ==> r == MoviesDefault) &&
               (n != [] ==>
                  LowerStr(r) == LowerStr(n) && !IsLowerLetter(r[0]) &&
                  r[1..] == n[1..]))
    ensures !StartsWith(category, OndPrefix) && StartsWith(category, SeriesPrefix) ==>
              r != [] && Trimmed(r) &&
              (Strip(RemoveAll(category, SeriesPrefix)) == [] ==> r == SeriesDefault)
    ensures !StartsWith(category, OndPrefix) && !StartsWith(category, SeriesPrefix) &&
            StartsWith(category, CollectionPrefix) ==>
              Trimmed(r)
    ensures !StartsWith(category, OndPrefix) && !StartsWith(category, SeriesPrefix) &&
            !StartsWith(category, CollectionPrefix) ==>
              r == category
  {
    if StartsWith(category, OndPrefix) then
      var n := OndLabel(category);
      if n != [] then
        UpperKeepsLetter(n[0]);
        [Upper(n[0])] + n[1..]
      else MoviesDefault
    else if StartsWith(category, SeriesPrefix) then
      var n := Strip(RemoveAll(category, SeriesPrefix));
      if n != [] then n else SeriesDefault
    else if StartsWith(category, CollectionPrefix) then
      Strip(RemoveAll(category, CollectionPrefix))
    else category
  }

  /** Upper-casing a character keeps it the same letter, and keeps a non-space non-space. */
  lemma UpperKeepsLetter(c: char)
    ensures Lower(Upper(c)) == Lower(c)
    ensures !IsLowerLetter(Upper(c))
    ensures !IsSpace(c) ==> !IsSpace(Upper(c))
  {
    if IsLowerLetter(c) {
      assert Upper(c) as int + 32 == c as int;
    }
  }

  /** When the prefix occurs only at the start, `replace` removes just that prefix. */
  lemma RemoveLonePrefix(category: String, p: String)
    requires |p| > 0 && StartsWith(category, p) && !Contains(category[|p|..], p)
    ensures RemoveAll(category, p) == category[|p|..]
  {
    RemoveAllAbsent(category[|p|..], p);
  }

  /**
   * For a category whose prefix occurs nowhere but at its start, the label
   * is the trimmed text after the prefix: an `OND /` label also loses a
   * trailing " -", and an empty `Series |` label becomes `Séries`.
   */
  lemma StripKnownPrefixLone(category: String)
    ensures StartsWith(category, OndPrefix) && !Contains(category[|OndPrefix|..], OndPrefix) ==>
              (var n := Strip(category[|OndPrefix|..]);
               OndLabel(category) == if EndsWith(n, " -") then Strip(n[..|n| - 2]) else n)
    ensures !StartsWith(category, OndPrefix) && StartsWith(category, SeriesPrefix) &&
            !Contains(category[|SeriesPrefix|..], SeriesPrefix) ==>
              (var n := Strip(category[|SeriesPrefix|..]);
               StripKnownPrefix(category) == if n == [] then SeriesDefault else n)
    ensures !StartsWith(category, OndPrefix) && !StartsWith(category, SeriesPrefix) &&
            StartsWith(category, CollectionPrefix) &&
            !Contains(category[|CollectionPrefix|..], CollectionPrefix) ==>
              StripKnownPrefix(category) == Strip(category[|CollectionPrefix|..])
  {
    if StartsWith(category, OndPrefix) && !Contains(category[|OndPrefix|..], OndPrefix) {
      RemoveLonePrefix(category, OndPrefix);
    }
    if StartsWith(category, SeriesPrefix) && !Contains(category[|SeriesPrefix|..], SeriesPrefix) {
      RemoveLonePrefix(category, SeriesPrefix);
    }
    if StartsWith(category, CollectionPrefix) &&
       !Contains(category[|CollectionPrefix|..], CollectionPrefix) {
      RemoveLonePrefix(category, CollectionPrefix);
    }
  }

  // ---------------------------------------------------------------------
  // The rule table

  /** The tests the rules make on the lower-cased category. */
  datatype Cond =
    | Has(word: String)        // `word in lower`
    | Is(word: String)         // `word == lower`
    | Begins(word: String)     // `lower.startswith(word)`
    | Not(c: Cond)
    | Both(l: Cond, r: Cond)
    | Either(l: Cond, r: Cond)

  predicate Holds(c: Cond, lower: String)
    decreases c
  {
    match c
    case Has(w) => Contains(lower, w)
    case Is(w) => lower == w
    case Begins(w) => StartsWith(lower, w)
    case Not(d) => !Holds(d, lower)
    case Both(l, r) => Holds(l, lower) && Holds(r, lower)
    case Either(l, r) => Holds(l, lower) || Holds(r, lower)
  }

  /** What a rule returns: a fixed name, or the release name with its year. */
  datatype Outcome = Named(name: String) | Release

  datatype Rule = Rule(cond: Cond, outcome: Outcome)

  const ReleaseTitle: String := "Lan\U{E7}amentos"

  /** `20\d{2}` occurs at `i`. */
  predicate YearAt(s: String, i: nat) {
    i + 4 <= |s| && s[i] == '2' && s[i + 1] == '0' && IsDigit(s[i + 2]) && IsDigit(s[i + 3])
  }

  /** `re.search(r'20\d{2}', s)`: the leftmost year. */
  function FirstYear(s: String): (r: Option<nat>)
    ensures r.Some? ==> YearAt(s, r.value) && forall j :: 0 <= j < r.value ==> !YearAt(s, j)
    ensures r.None? ==> forall j :: 0 <= j <= |s| ==> !YearAt(s, j)
  {
    var p := (i: nat) => YearAt(s, i);
    assert forall j: nat :: p(j) == YearAt(s, j);
    FirstFrom(0, |s|, p)
  }

  /** The name for a release category, read from the category in its original case. */
  function ReleaseName(category: String): (r: String)
    ensures StartsWith(r, ReleaseTitle)
    ensures FirstYear(category).None? <==> r == ReleaseTitle
    ensures FirstYear(category).Some? ==>
              var i := FirstYear(category).value; r == ReleaseTitle + " " + category[i..i + 4]
  {
    match FirstYear(category)
    case Some(i) => ReleaseTitle + " " + category[i..i + 4]
    case None => ReleaseTitle
  }

  function OutcomeName(o: Outcome, category: String): String {
    match o
    case Named(name) => name
    case Release => ReleaseName(category)
  }

  // The rule chain is kept in source order, cut into groups of at most a
  // dozen rules so that each group stays small enough to reason about
  // rule by rule.

  /** Streaming platforms, first part. */
  function StreamingRules(): seq<Rule> {
    [
      Rule(Has("netflix"), Named("Netflix")),
      Rule(Either(Has("prime video"), Has("amazon prime")), Named("Prime Video")),
      Rule(Has("disney"), Named("Disney+")),
      Rule(Both(Has("max"), Not(Has("mad max"))), Named("Max")),
      Rule(Has("hbo"), Named("Max")),
      Rule(Has("globoplay"), Named("Globoplay")),
      Rule(Has("paramount"), Named("Paramount+")),
      Rule(Has("apple"), Named("Apple TV+")),
      Rule(Both(Has("star"), Has("star plus")), Named("Star+")),
      Rule(Has("discovery"), Named("Discovery+")),
      Rule(Has("crunchyroll"), Named("Crunchyroll"))
    ]
  }

  /** Streaming platforms, second part, and TV channels. */
  function ChannelRules(): seq<Rule> {
    [
      Rule(Has("funimation"), Named("Funimation")),
      Rule(Has("directv"), Named("DirecTV")),
      Rule(Has("claro video"), Named("Claro Video")),
      Rule(Has("lionsgate"), Named("Lionsgate")),
      Rule(Has("plutotv"), Named("PlutoTV")),
      Rule(Has("play plus"), Named("Play Plus")),
      Rule(Has("amc"), Named("AMC+")),
      Rule(Has("brasil paralelo"), Named("Brasil Paralelo")),
      Rule(Has("sbt"), Named("SBT")),
      Rule(Has("univer"), Named("Univer"))
    ]
  }

  const CaoWords: Cond := Either(Has("\U{E7}\U{E3}o"), Has("cao"))

  /** Genres, first part. */
  function GenreRules1(): seq<Rule> {
    [
      Rule(Has("novela"), Named("Novelas")),
      Rule(Has("dorama"), Named("Doramas")),
      Rule(Has("anime"), Named("Animes")),
      Rule(Has("turca"), Named("Turcas")),
      Rule(Either(Has("programas de tv"), Is("programas")), Named("Programas de TV")),
      Rule(Either(Has("stand up"), Has("stand-up")), Named("Stand Up")),
      Rule(Has("legendad"), Named("Legendados")),
      Rule(Either(Has("document"), Is("docu")), Named("Document\U{E1}rio")),
      Rule(Both(Has("com"), Either(Has("dia"), Either(Has("edia"), Has("\U{E9}dia")))), Named("Com\U{E9}dia")),
      Rule(Has("drama"), Named("Drama")),
      Rule(Has("terror"), Named("Terror")),
      Rule(Both(Begins("a"), CaoWords), Named("A\U{E7}\U{E3}o"))
    ]
  }

  /** Genres, second part. */
  function GenreRules2(): seq<Rule> {
    [
      Rule(Has("suspense"), Named("Suspense")),
      Rule(Has("romance"), Named("Romance")),
      Rule(Both(Has("anima"), CaoWords), Named("Anima\U{E7}\U{E3}o")),
      Rule(Either(Has("fantasia"), Both(Has("fic"), Has("o"))), Named("Fantasia")),
      Rule(Has("faroeste"), Named("Faroeste")),
      Rule(Has("guerra"), Named("Guerra")),
      Rule(Has("aventura"), Named("Aventura")),
      Rule(Has("religio"), Named("Religiosos")),
      Rule(Has("nacion"), Named("Nacionais")),
      Rule(Has("crime"), Named("Crime")),
      Rule(Both(Has("fam"), Has("lia")), Named("Fam\U{ED}lia")),
      Rule(Either(Has("marvel"), Has("ucm")), Named("Marvel"))
    ]
  }

  /** Genres, third part, with releases and unofficial dubs. */
  function GenreRules3(): seq<Rule> {
    [
      Rule(Either(Has("4k"), Has("uhd")), Named("UHD 4K")),
      Rule(Has("infantil"), Named("Infantil")),
      Rule(Has("esporte"), Named("Esportes")),
      Rule(Has("show"), Named("Shows")),
      Rule(Has("cinema"), Named("Cinema")),
      Rule(Has("oscar"), Named("Oscar")),
      Rule(Either(Has("hot"), Has("adult")), Named("Adultos")),
      Rule(Either(Has("sugest"), Has("semana")), Named("Sugest\U{E3}o da Semana")),
      Rule(Both(Has("outra"), Has("produtora")), Named("Outras Produtoras")),
      Rule(Either(Has("lan\U{E7}amento"), Has("lancamento")), Release),
      Rule(Both(Has("dublagem"), Has("oficial")), Named("Dublagem N\U{E3}o Oficial"))
    ]
  }

  /** Collections, first part. */
  function CollectionRules1(): seq<Rule> {
    [
      Rule(Is("alien"), Named("Colet\U{E2}nea: Alien")),
      Rule(Has("american pie"), Named("Colet\U{E2}nea: American Pie")),
      Rule(Either(Has("john wick"), Has("jhon wick")), Named("Colet\U{E2}nea: John Wick")),
      Rule(Has("denzel"), Named("Colet\U{E2}nea: Denzel Washington")),
      Rule(Has("mad max"), Named("Colet\U{E2}nea: Mad Max")),
      Rule(Either(Has("homem aranha"), Has("aranha")), Named("Colet\U{E2}nea: Homem Aranha")),
      Rule(Has("jogos mortais"), Named("Colet\U{E2}nea: Jogos Mortais")),
      Rule(Has("jogos vorazes"), Named("Colet\U{E2}nea: Jogos Vorazes"))
    ]
  }

  /** Collections, second part. */
  function CollectionRules2(): seq<Rule> {
    [
      Rule(Either(Has("mib"), Has("homens de preto")), Named("Colet\U{E2}nea: MIB")),
      Rule(Has("exterminador"), Named("Colet\U{E2}nea: Exterminador")),
      Rule(Has("shrek"), Named("Colet\U{E2}nea: Shrek")),
      Rule(Both(Has("p"), Both(Has("nico"), Has("todo"))), Named("Colet\U{E2}nea: Todo Mundo em P\U{E2}nico")),
      Rule(Has("toy story"), Named("Colet\U{E2}nea: Toy Story")),
      Rule(Has("harry potter"), Named("Colet\U{E2}nea: Harry Potter")),
      Rule(Both(Has("senhor dos"), Has("an")), Named("Colet\U{E2}nea: Senhor dos An\U{E9}is")),
      Rule(Both(Has("crep"), Has("sculo")), Named("Colet\U{E2}nea: Crep\U{FA}sculo"))
    ]
  }

  /** The whole chain, in source order. */
  function Rules(): seq<Rule> {
    StreamingRules() + ChannelRules() + GenreRules1() + GenreRules2() + GenreRules3() +
    CollectionRules1() + CollectionRules2()
  }

  /** The answer of one rule for an already prefix-stripped category. */
  function Fire(rule: Rule, category: String): Option<String> {
    if Holds(rule.cond, LowerStr(category)) then Some(OutcomeName(rule.outcome, category)) else None
  }

  /** The answer of the first rule of `rules` that holds on `c`, if any. */
  function FirstMatch(rules: seq<Rule>, c: String): Option<String> {
    FirstSome(rules, (rule: Rule) => Fire(rule, c))
  }

  /** `normalize_category`. */
  function NormalizeCategory(category: String): String {
    var c := StripKnownPrefix(category);
    match FirstMatch(Rules(), c)
    case Some(name) => name
    case None => c
  }

  /**
   * First-match semantics of a rule chain: there is no answer exactly when
   * no rule holds on the lower-cased category, and otherwise the answer is
   * the outcome of the first rule that holds.
   */
  lemma FirstMatchSpec(rules: seq<Rule>, c: String)
    ensures var lower := LowerStr(c);
            (FirstMatch(rules, c).None? <==>
               forall k :: 0 <= k < |rules| ==> !Holds(rules[k].cond, lower)) &&
            (forall k :: 0 <= k < |rules| && Holds(rules[k].cond, lower) &&
                         (forall j :: 0 <= j < k ==> !Holds(rules[j].cond, lower)) ==>
               FirstMatch(rules, c) == Some(OutcomeName(rules[k].outcome, c)))
  {
    var lower := LowerStr(c);
    var f := (rule: Rule) => Fire(rule, c);
    FirstSomeSpec(rules, f);
    assert forall k :: 0 <= k < |rules| ==> (f(rules[k]).None? <==> !Holds(rules[k].cond, lower));
  }

  /** A name that no holding rule gives is never the answer of the chain. */
  lemma FirstMatchAvoids(rules: seq<Rule>, c: String, name: String)
    requires forall k :: 0 <= k < |rules| && Holds(rules[k].cond, LowerStr(c)) ==>
               OutcomeName(rules[k].outcome, c) != name
    ensures FirstMatch(rules, c) != Some(name)
  {
    var lower := LowerStr(c);
    FirstMatchSpec(rules, c);
    var first := FirstIndex(rules, (rule: Rule) => Holds(rule.cond, lower), 0);
    if first.Some? {
      assert Holds(rules[first.value].cond, lower);
    }
  }

  /**
   * `normalize_category` in terms of the rule chain: the first rule that
   * holds on the lower-cased, prefix-stripped category decides the name;
   * when no rule holds, the prefix-stripped category is returned as it is.
   */
  lemma NormalizeCategorySpec(category: String)
    ensures var c := StripKnownPrefix(category);
            var lower := LowerStr(c);
            ((forall k :: 0 <= k < |Rules()| ==> !Holds(Rules()[k].cond, lower)) ==>
               NormalizeCategory(category) == c) &&
            (forall k :: 0 <= k < |Rules()| && Holds(Rules()[k].cond, lower) &&
                         (forall j :: 0 <= j < k ==> !Holds(Rules()[j].cond, lower)) ==>
               NormalizeCategory(category) == OutcomeName(Rules()[k].outcome, c))
  {
    FirstMatchSpec(Rules(), StripKnownPrefix(category));
  }

  /** A category whose prefix-stripped form mentions Netflix is always `Netflix`. */
  lemma NetflixWins(category: String)
    requires Contains(LowerStr(StripKnownPrefix(category)), "netflix")
    ensures NormalizeCategory(category) == "Netflix"
  {
    var c := StripKnownPrefix(category);
    assert Rules()[0] == Rule(Has("netflix"), Named("Netflix"));
    FirstMatchSpec(Rules(), c);
  }

  /** The only rules that name the category `Max` are the `max` and `hbo` rules. */
  lemma OnlyMaxRules()
    ensures forall k :: 0 <= k < |Rules()| && Rules()[k].outcome == Named("Max") ==> k == 3 || k == 4
  {
    forall k | 0 <= k < |StreamingRules()| && k != 3 && k != 4 ensures StreamingRules()[k].outcome != Named("Max") {}
    forall k | 0 <= k < |ChannelRules()| ensures ChannelRules()[k].outcome != Named("Max") {}
    forall k | 0 <= k < |GenreRules1()| ensures GenreRules1()[k].outcome != Named("Max") {}
    forall k | 0 <= k < |GenreRules2()| ensures GenreRules2()[k].outcome != Named("Max") {}
    forall k | 0 <= k < |GenreRules3()| ensures GenreRules3()[k].outcome != Named("Max") {}
    forall k | 0 <= k < |CollectionRules1()| ensures CollectionRules1()[k].outcome != Named("Max") {}
    forall k | 0 <= k < |CollectionRules2()| ensures CollectionRules2()[k].outcome != Named("Max") {}
  }

  /**
   * "mad max" in the prefix-stripped category does not make it `Max`: the
   * `max` rule excludes it, and only the `hbo` rule can still give `Max`.
   */
  lemma MadMaxIsNotMax(category: String)
    requires var lower := LowerStr(StripKnownPrefix(category));
             Contains(lower, "mad max") && !Contains(lower, "hbo")
    ensures NormalizeCategory(category) != "Max"
  {
    var c := StripKnownPrefix(category);
    MadMaxNotMatched(c, LowerStr(c));
    ContainsIffOccurs(LowerStr(c), "mad max");
  }

  /** The rule-chain half of `MadMaxIsNotMax`. */
  lemma MadMaxNotMatched(c: String, lower: String)
    requires lower == LowerStr(c)
    requires Contains(lower, "mad max") && !Contains(lower, "hbo")
    ensures FirstMatch(Rules(), c) != Some("Max")
  {
    assert !Holds(Rules()[3].cond, lower) && !Holds(Rules()[4].cond, lower);
    OnlyMaxRules();
    assert ReleaseName(c)[0] == 'L';
    FirstMatchAvoids(Rules(), c, "Max");
  }

  // ---------------------------------------------------------------------
  // Words that survive prefix stripping

  /** Dropping the trailing " -" of an `OND /` label keeps a word that ends in neither character. */
  lemma DropDashKeeps(n: String, q: String)
    requires EndsWith(n, " -") && |q| > 0 && q[|q| - 1] != ' ' && q[|q| - 1] != '-'
    requires Contains(LowerStr(n), q)
    ensures Contains(LowerStr(n[..|n| - 2]), q)
  {
    ContainsIffOccurs(LowerStr(n), q);
    var i: nat :| OccursAt(LowerStr(n), q, i);
    CharOfOccurrence(LowerStr(n), q, i, i + |q| - 1);
    assert n[|n| - 2] == ' ' && n[|n| - 1] == '-' by {
      assert n[|n| - 2..][0] == n[|n| - 2] && n[|n| - 2..][1] == n[|n| - 1];
    }
    OccursWithin(n, q, i, 0, |n| - 2);
    ContainsAt(LowerStr(n[..|n| - 2]), q, i);
  }

  /** A word that survives `strip()` is still found in the `OND /` label. */
  lemma OndLabelKeeps(category: String, q: String)
    requires |q| > 0 && !IsSpace(q[0]) && !IsSpace(q[|q| - 1]) && q[|q| - 1] != '-'
    requires Contains(LowerStr(Strip(RemoveAll(category, OndPrefix))), q)
    ensures Contains(LowerStr(OndLabel(category)), q)
  {
    var n := Strip(RemoveAll(category, OndPrefix));
    if EndsWith(n, " -") {
      DropDashKeeps(n, q);
      StripKeeps(n[..|n| - 2], q);
    }
  }

  /** A lower-cased word occurs only in a string at least as long. */
  lemma ContainsLength(s: String, q: String)
    requires Contains(s, q)
    ensures |q| <= |s|
  {
    ContainsIffOccurs(s, q);
  }

  /**
   * A word that no known prefix can overlap, whose ends are not whitespace
   * and which does not end in '-', is still in the category, up to case,
   * once the prefix is stripped.
   */
  lemma StripKnownPrefixKeeps(category: String, q: String, t: nat)
    requires Disjoint(OndPrefix, q, t) && Disjoint(SeriesPrefix, q, t) && Disjoint(CollectionPrefix, q, t)
    requires !IsSpace(q[0]) && !IsSpace(q[|q| - 1]) && q[|q| - 1] != '-'
    requires Contains(LowerStr(category), q)
    ensures Contains(LowerStr(StripKnownPrefix(category)), q)
  {
    ContainsIffOccurs(LowerStr(category), q);
    var i: nat :| OccursAt(LowerStr(category), q, i);
    if StartsWith(category, OndPrefix) {
      RemoveAllKeeps(category, OndPrefix, q, t, i);
      StripKeeps(RemoveAll(category, OndPrefix), q);
      OndLabelKeeps(category, q);
      ContainsLength(LowerStr(OndLabel(category)), q);
    } else if StartsWith(category, SeriesPrefix) {
      RemoveAllKeeps(category, SeriesPrefix, q, t, i);
      StripKeeps(RemoveAll(category, SeriesPrefix), q);
      ContainsLength(LowerStr(Strip(RemoveAll(category, SeriesPrefix))), q);
    } else if StartsWith(category, CollectionPrefix) {
      RemoveAllKeeps(category, CollectionPrefix, q, t, i);
      StripKeeps(RemoveAll(category, CollectionPrefix), q);
    }
  }

  /** Neither "netflix" nor "mad max" can overlap `OND /`. */
  lemma OndPrefixDisjoint()
    ensures Disjoint(OndPrefix, "netflix", 6) && Disjoint(OndPrefix, "mad max", 0)
  {
  }

  /** Neither "netflix" nor "mad max" can overlap `Series |`. */
  lemma SeriesPrefixDisjoint()
    ensures Disjoint(SeriesPrefix, "netflix", 6) && Disjoint(SeriesPrefix, "mad max", 0)
  {
  }

  /** Neither "netflix" nor "mad max" can overlap `COLETÂNEA:`. */
  lemma CollectionPrefixDisjoint()
    ensures Disjoint(CollectionPrefix, "netflix", 6) && Disjoint(CollectionPrefix, "mad max", 0)
  {
  }

  /** A category that mentions Netflix anywhere, prefix included, is always `Netflix`. */
  lemma MentionsNetflix(category: String)
    requires Contains(LowerStr(category), "netflix")
    ensures NormalizeCategory(category) == "Netflix"
  {
    OndPrefixDisjoint();
    SeriesPrefixDisjoint();
    CollectionPrefixDisjoint();
    StripKnownPrefixKeeps(category, "netflix", 6);
    NetflixWins(category);
  }

  /**
   * A category that mentions "mad max" anywhere never satisfies the `max`
   * rule: the words survive prefix stripping, and the rule excludes them.
   */
  lemma MentionsMadMax(category: String)
    requires Contains(LowerStr(category), "mad max")
    ensures !Holds(Rules()[3].cond, LowerStr(StripKnownPrefix(category)))
  {
    OndPrefixDisjoint();
    SeriesPrefixDisjoint();
    CollectionPrefixDisjoint();
    StripKnownPrefixKeeps(category, "mad max", 0);
    assert Rules()[3] == Rule(Both(Has("max"), Not(Has("mad max"))), Named("Max"));
  }

  // ---------------------------------------------------------------------
  // Categories no rule applies to

  /** Some character of `w` from index `i` on lies outside `alphabet`. */
  predicate LeavesAlphabet(w: String, alphabet: set<char>, i: nat)
    decreases |w| - i
  {
    i < |w| && (w[i] !in alphabet || LeavesAlphabet(w, alphabet, i + 1))
  }

  lemma {:induction false} LeavesAlphabetWitness(w: String, alphabet: set<char>, i: nat)
    requires LeavesAlphabet(w, alphabet, i)
    ensures exists j :: i <= j < |w| && w[j] !in alphabet
    decreases |w| - i
  {
    if w[i] in alphabet {
      LeavesAlphabetWitness(w, alphabet, i + 1);
    }
  }

  /**
   * A sufficient condition for `c` to fail on every string whose characters
   * all lie in `alphabet`: each word it needs has a character outside.
   */
  predicate Excludes(c: Cond, alphabet: set<char>) {
    match c
    case Has(w) => LeavesAlphabet(w, alphabet, 0)
    case Is(w) => LeavesAlphabet(w, alphabet, 0)
    case Begins(w) => LeavesAlphabet(w, alphabet, 0)
    case Not(_) => false
    case Both(l, r) => Excludes(l, alphabet) || Excludes(r, alphabet)
    case Either(l, r) => Excludes(l, alphabet) && Excludes(r, alphabet)
  }

  lemma {:induction false} ExcludedNeverHolds(c: Cond, alphabet: set<char>, lower: String)
    requires Excludes(c, alphabet)
    requires forall k :: 0 <= k < |lower| ==> lower[k] in alphabet
    ensures !Holds(c, lower)
    decreases c
  {
    match c
    case Has(w) =>
      LeavesAlphabetWitness(w, alphabet, 0);
      var j :| 0 <= j < |w| && w[j] !in alphabet;
      MissingCharNotContained(lower, w, j);
    case Is(w) =>
      LeavesAlphabetWitness(w, alphabet, 0);
    case Begins(w) =>
      LeavesAlphabetWitness(w, alphabet, 0);
      var j :| 0 <= j < |w| && w[j] !in alphabet;
      assert |w| > |lower| || lower[j] != w[j];
    case Both(l, r) =>
      if Excludes(l, alphabet) {
        ExcludedNeverHolds(l, alphabet, lower);
      } else {
        ExcludedNeverHolds(r, alphabet, lower);
      }
    case Either(l, r) =>
      ExcludedNeverHolds(l, alphabet, lower);
      ExcludedNeverHolds(r, alphabet, lower);
  }

  /** The letters of the default names `filmes` and `séries`. */
  const DefaultLetters: set<char> := {'f', 'i', 'l', 'm', 'e', 's', 'r', '\U{E9}'}

  /** Every rule of `rules` is excluded by the default letters. */
  predicate GroupExcluded(rules: seq<Rule>) {
    forall k :: 0 <= k < |rules| ==> Excludes(rules[k].cond, DefaultLetters)
  }

  /** Rules `lo` to `hi - 1` of `rules` are excluded by the default letters. */
  predicate ExcludedBetween(rules: seq<Rule>, lo: nat, hi: nat)
    requires lo <= hi <= |rules|
  {
    forall k :: lo <= k < hi ==> Excludes(rules[k].cond, DefaultLetters)
  }

  // Each rule group is excluded by the default letters. Every group is
  // checked in two halves, rule by rule, so that each proof stays small;
  // `DefaultsUnmatched` puts the groups together.

  lemma StreamingRulesExcluded()
    ensures GroupExcluded(StreamingRules())
  {
    StreamingRulesHeadExcluded();
    StreamingRulesTailExcluded();
  }

  lemma StreamingRulesHeadExcluded()
    ensures ExcludedBetween(StreamingRules(), 0, |StreamingRules()| / 2)
  {
    forall k | 0 <= k < |StreamingRules()| / 2 ensures Excludes(StreamingRules()[k].cond, {'f', 'i', 'l', 'm', 'e', 's', 'r', '\U{E9}'}) {}
  }

  lemma StreamingRulesTailExcluded()
    ensures ExcludedBetween(StreamingRules(), |StreamingRules()| / 2, |StreamingRules()|)
  {
    forall k | |StreamingRules()| / 2 <= k < |StreamingRules()| ensures Excludes(StreamingRules()[k].cond, {'f', 'i', 'l', 'm', 'e', 's', 'r', '\U{E9}'}) {}
  }

  lemma ChannelRulesExcluded()
    ensures GroupExcluded(ChannelRules())
  {
    ChannelRulesHeadExcluded();
    ChannelRulesTailExcluded();
  }

  lemma ChannelRulesHeadExcluded()
    ensures ExcludedBetween(ChannelRules(), 0, |ChannelRules()| / 2)
  {
    forall k | 0 <= k < |ChannelRules()| / 2 ensures Excludes(ChannelRules()[k].cond, {'f', 'i', 'l', 'm', 'e', 's', 'r', '\U{E9}'}) {}
  }

  lemma ChannelRulesTailExcluded()
    ensures ExcludedBetween(ChannelRules(), |ChannelRules()| / 2, |ChannelRules()|)
  {
    forall k | |ChannelRules()| / 2 <= k < |ChannelRules()| ensures Excludes(ChannelRules()[k].cond, {'f', 'i', 'l', 'm', 'e', 's', 'r', '\U{E9}'}) {}
  }

  lemma GenreRules1Excluded()
    ensures GroupExcluded(GenreRules1())
  {
    GenreRules1HeadExcluded();
    GenreRules1TailExcluded();
  }

  lemma GenreRules1HeadExcluded()
    ensures ExcludedBetween(GenreRules1(), 0, |GenreRules1()| / 2)
  {
    forall k | 0 <= k < |GenreRules1()| / 2 ensures Excludes(GenreRules1()[k].cond, {'f', 'i', 'l', 'm', 'e', 's', 'r', '\U{E9}'}) {}
  }

  lemma GenreRules1TailExcluded()
    ensures ExcludedBetween(GenreRules1(), |GenreRules1()| / 2, |GenreRules1()|)
  {
    forall k | |GenreRules1()| / 2 <= k < |GenreRules1()| ensures Excludes(GenreRules1()[k].cond, {'f', 'i', 'l', 'm', 'e', 's', 'r', '\U{E9}'}) {}
  }

  lemma GenreRules2Excluded()
    ensures GroupExcluded(GenreRules2())
  {
    GenreRules2HeadExcluded();
    GenreRules2TailExcluded();
  }

  lemma GenreRules2HeadExcluded()
    ensures ExcludedBetween(GenreRules2(), 0, |GenreRules2()| / 2)
  {
    forall k | 0 <= k < |GenreRules2()| / 2 ensures Excludes(GenreRules2()[k].cond, {'f', 'i', 'l', 'm', 'e', 's', 'r', '\U{E9}'}) {}
  }

  lemma GenreRules2TailExcluded()
    ensures ExcludedBetween(GenreRules2(), |GenreRules2()| / 2, |GenreRules2()|)
  {
    forall k | |GenreRules2()| / 2 <= k < |GenreRules2()| ensures Excludes(GenreRules2()[k].cond, {'f', 'i', 'l', 'm', 'e', 's', 'r', '\U{E9}'}) {}
  }

  lemma GenreRules3Excluded()
    ensures GroupExcluded(GenreRules3())
  {
    GenreRules3HeadExcluded();
    GenreRules3TailExcluded();
  }

  lemma GenreRules3HeadExcluded()
    ensures ExcludedBetween(GenreRules3(), 0, |GenreRules3()| / 2)
  {
    forall k | 0 <= k < |GenreRules3()| / 2 ensures Excludes(GenreRules3()[k].cond, {'f', 'i', 'l', 'm', 'e', 's', 'r', '\U{E9}'}) {}
  }

  lemma GenreRules3TailExcluded()
    ensures ExcludedBetween(GenreRules3(), |GenreRules3()| / 2, |GenreRules3()|)
  {
    forall k | |GenreRules3()| / 2 <= k < |GenreRules3()| ensures Excludes(GenreRules3()[k].cond, {'f', 'i', 'l', 'm', 'e', 's', 'r', '\U{E9}'}) {}
  }

  lemma CollectionRules1Excluded()
    ensures GroupExcluded(CollectionRules1())
  {
    CollectionRules1HeadExcluded();
    CollectionRules1TailExcluded();
  }

  lemma CollectionRules1HeadExcluded()
    ensures ExcludedBetween(CollectionRules1(), 0, |CollectionRules1()| / 2)
  {
    forall k | 0 <= k < |CollectionRules1()| / 2 ensures Excludes(CollectionRules1()[k].cond, {'f', 'i', 'l', 'm', 'e', 's', 'r', '\U{E9}'}) {}
  }

  lemma CollectionRules1TailExcluded()
    ensures ExcludedBetween(CollectionRules1(), |CollectionRules1()| / 2, |CollectionRules1()|)
  {
    forall k | |CollectionRules1()| / 2 <= k < |CollectionRules1()| ensures Excludes(CollectionRules1()[k].cond, {'f', 'i', 'l', 'm', 'e', 's', 'r', '\U{E9}'}) {}
  }

  lemma CollectionRules2Excluded()
    ensures GroupExcluded(CollectionRules2())
  {
    CollectionRules2HeadExcluded();
    CollectionRules2TailExcluded();
  }

  lemma CollectionRules2HeadExcluded()
    ensures ExcludedBetween(CollectionRules2(), 0, |CollectionRules2()| / 2)
  {
    forall k | 0 <= k < 2 ensures Excludes(CollectionRules2()[k].cond, {'f', 'i', 'l', 'm', 'e', 's', 'r', '\U{E9}'}) {}
    forall k | 2 <= k < |CollectionRules2()| / 2 ensures Excludes(CollectionRules2()[k].cond, {'f', 'i', 'l', 'm', 'e', 's', 'r', '\U{E9}'}) {}
  }

  lemma CollectionRules2TailExcluded()
    ensures ExcludedBetween(CollectionRules2(), |CollectionRules2()| / 2, |CollectionRules2()|)
  {
    forall k | |CollectionRules2()| / 2 <= k < |CollectionRules2()| ensures Excludes(CollectionRules2()[k].cond, {'f', 'i', 'l', 'm', 'e', 's', 'r', '\U{E9}'}) {}
  }

  /** Every rule of the chain is excluded by the default letters. */
  lemma RulesExcluded()
    ensures GroupExcluded(Rules())
  {
    StreamingRulesExcluded();
    ChannelRulesExcluded();
    GenreRules1Excluded();
    GenreRules2Excluded();
    GenreRules3Excluded();
    CollectionRules1Excluded();
    CollectionRules2Excluded();
  }

  /** `lower` is spelled with the default letters only. */
  predicate DefaultSpelling(lower: String) {
    forall k :: 0 <= k < |lower| ==> lower[k] in DefaultLetters
  }

  /** No rule of `rules` holds on `lower`. */
  predicate NoRuleHolds(rules: seq<Rule>, lower: String) {
    forall k :: 0 <= k < |rules| ==> !Holds(rules[k].cond, lower)
  }

  /** No excluded rule holds on a string spelled with the default letters. */
  lemma {:induction false} ExcludedRulesFail(rules: seq<Rule>, lower: String)
    requires GroupExcluded(rules) && DefaultSpelling(lower)
    ensures NoRuleHolds(rules, lower)
  {
    forall k | 0 <= k < |rules|
      ensures !Holds(rules[k].cond, lower)
    {
      ExcludedNeverHolds(rules[k].cond, DefaultLetters, lower);
    }
  }

  /** No rule applies to a category spelled with the default letters only. */
  lemma NoRuleForDefaultLetters(lower: String)
    requires DefaultSpelling(lower)
    ensures NoRuleHolds(Rules(), lower)
  {
    RulesExcluded();
    ExcludedRulesFail(Rules(), lower);
  }

  /** Neither default name is changed by the rule chain. */
  lemma DefaultsUnmatched()
    ensures FirstMatch(Rules(), MoviesDefault) == None
    ensures FirstMatch(Rules(), SeriesDefault) == None
  {
    NoRuleForDefaultLetters(LowerStr(MoviesDefault));
    FirstMatchSpec(Rules(), MoviesDefault);
    NoRuleForDefaultLetters(LowerStr(SeriesDefault));
    FirstMatchSpec(Rules(), SeriesDefault);
  }

  /** An `OND /` category with an empty label is `Filmes`. */
  lemma EmptyMovieLabel(category: String)
    requires StartsWith(category, OndPrefix) && OndLabel(category) == []
    ensures NormalizeCategory(category) == MoviesDefault
  {
    DefaultsUnmatched();
  }

  /** A `Series |` category with an empty label is `Séries`. */
  lemma EmptySeriesLabel(category: String)
    requires StartsWith(category, SeriesPrefix) && Strip(RemoveAll(category, SeriesPrefix)) == []
    ensures NormalizeCategory(category) == SeriesDefault
  {
    assert category[0] != OndPrefix[0];
    DefaultsUnmatched();
  }

  // ---------------------------------------------------------------------
  // category_to_filename

  predicate NotFileChar(c: char) {
    !IsLowerAlnum(c)
  }

  /** A file name stem: `a-z`, `0-9` and single inner underscores. */
  predicate IsFileStem(t: String) {
    SeparatedWords(t, '_')
  }

  /** `category_to_filename`. */
  function CategoryToFilename(category: String): (r: String)
    ensures IsFileStem(r)
  {
    var collapsed := CollapseRuns(LowerStr(category), NotFileChar, '_');
    CollapseRunsShape(LowerStr(category), NotFileChar, '_');
    DropOuterSeparators(collapsed, '_');
    DropTrailing(DropLeading(collapsed, '_'), '_')
  }

  /**
   * The stem is the lower-cased category's maximal runs of `a-z` and
   * `0-9`, in order, joined by single underscores: every other character
   * is dropped, and one `_` stands exactly where a run of them separated
   * two such words.
   */
  lemma CategoryToFilenameWords(category: String)
    ensures CategoryToFilename(category) ==
            Join(Words(LowerStr(category), NotFileChar), '_')
  {
    CollapseRunsWords(LowerStr(category), NotFileChar, '_');
  }

  /**
   * The mapping is not injective: categories that differ only in letter
   * case share one file name.
   */
  lemma CategoryToFilenameCollides()
    ensures "FILMES" != "Filmes"
    ensures CategoryToFilename("FILMES") == CategoryToFilename("Filmes")
  {
    assert "FILMES"[1] != "Filmes"[1];
    assert LowerStr("FILMES") == LowerStr("Filmes");
  }

  lemma FileStemIsLower(t: String)
    requires IsFileStem(t)
    ensures LowerStr(t) == t
  {
    assert forall k :: 0 <= k < |t| ==> !IsUpperLetter(t[k]);
  }

  lemma FileStemHasNoOuterUnderscores(t: String)
    requires IsFileStem(t)
    ensures DropTrailing(DropLeading(t, '_'), '_') == t
  {
  }

  /** Applying it to its own output changes nothing. */
  lemma CategoryToFilenameIdempotent(category: String)
    ensures CategoryToFilename(CategoryToFilename(category)) == CategoryToFilename(category)
  {
    var t := CategoryToFilename(category);
    FileStemIsLower(t);
    CollapseRunsFixedPoint(t, NotFileChar, '_');
    FileStemHasNoOuterUnderscores(t);
  }

}
