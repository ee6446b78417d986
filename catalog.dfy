/**
 * The batch stages of `main` in scripts/convert_m3u8_to_json.py: gather the
 * items of every playlist, drop repeated URLs, group by category, split each
 * group into movies, series and adult entries, page large categories, and
 * build the sorted index.
 *
 * Files are not read or written: a playlist is its text (or nothing, when
 * the file does not exist) and every JSON file becomes a `Document` record.
 */
module Catalog {
  import opened Text
  import opened Seqs
  import opened Lexer
  import opened Categories

  /** `MAX_ITEMS_PER_FILE`. */
  const MaxItemsPerFile: nat := 5000

  /** Python's `max` of two counts. */
  function Max(a: int, b: int): (r: int)
    ensures r >= a && r >= b && (r == a || r == b)
  {
    if a >= b then a else b
  }

  // ---------------------------------------------------------------------
  // Gathering the playlists

  /** The items of every playlist that exists, one playlist after the other. */
  function AllItems(playlists: seq<Option<String>>, hash: String -> int): seq<CatalogItem>
    decreases |playlists|
  {
    if playlists == [] then []
    else
      var last := playlists[|playlists| - 1];
      AllItems(playlists[..|playlists| - 1], hash) +
      (if last.Some? then ParsePlaylist(last.value, hash) else [])
  }

  /** The loop over `m3u8_files`: parse each file that exists and extend `all_items`. */
  method CollectItems(playlists: seq<Option<String>>, hash: String -> int) returns (all: seq<CatalogItem>)
    ensures all == AllItems(playlists, hash)
  {
    all := [];
    var i := 0;
    while i < |playlists|
      invariant i <= |playlists|
      invariant all == AllItems(playlists[..i], hash)
    {
      assert playlists[..i + 1][..i] == playlists[..i];
      if playlists[i].Some? {
        var items := ParseM3u8(playlists[i].value, hash);
        all := all + items;
      }
      i := i + 1;
    }
    assert playlists[..i] == playlists;
  }

  // ---------------------------------------------------------------------
  // Dropping repeated URLs

  function Url(it: CatalogItem): String {
    it.entry.url
  }

  /**
   * The `seen_urls` loop: keep an item when its URL is new and count the
   * others as duplicates.
   */
  method Dedup(items: seq<CatalogItem>) returns (unique: seq<CatalogItem>, duplicates: nat)
    ensures unique == FirstsBy(items, Url)
    ensures duplicates == |items| - |unique|
  {
    var seen: set<String> := {};
    unique := [];
    duplicates := 0;
    var i := 0;
    while i < |items|
      invariant i <= |items|
      invariant seen == KeysOf(items[..i], Url)
      invariant unique == FirstsBy(items[..i], Url)
      invariant |unique| <= i && duplicates == i - |unique|
    {
      var item := items[i];
      assert items[..i + 1] == items[..i] + [item];
      FirstsBySnoc(items[..i], item, Url);
      KeysOfSnoc(items[..i], item, Url);
      if item.entry.url !in seen {
        seen := seen + {item.entry.url};
        unique := unique + [item];
      } else {
        duplicates := duplicates + 1;
      }
      i := i + 1;
    }
    assert items[..i] == items;
  }

  /**
   * What deduplication keeps: every URL of the input, each once, and for
   * each URL its first item, in input order.
   */
  lemma DedupSpec(items: seq<CatalogItem>)
    ensures var unique := FirstsBy(items, Url);
            KeysOf(unique, Url) == KeysOf(items, Url) &&
            (forall i, j :: 0 <= i < j < |unique| ==> unique[i].entry.url != unique[j].entry.url)
    ensures var unique, pos := FirstsBy(items, Url), FirstPositions(items, Url);
            |pos| == |unique| &&
            (forall k :: 0 <= k < |unique| ==>
               pos[k] < |items| && unique[k] == items[pos[k]] && FirstOfKey(items, Url, pos[k])) &&
            (forall k, l :: 0 <= k < l < |pos| ==> pos[k] < pos[l])
  {
    FirstsByKeys(items, Url);
    FirstsByPositions(items, Url);
  }

  // ---------------------------------------------------------------------
  // Grouping by category

  function Category(it: CatalogItem): String {
    it.category
  }

  function EntryOf(it: CatalogItem): Entry {
    it.entry
  }

  /** The entries of category `c`, in order, with `_category` popped off. */
  function Group(items: seq<CatalogItem>, c: String): (r: seq<Entry>)
    ensures |r| == |WithKey(items, Category, c)|
  {
    Map(WithKey(items, Category, c), EntryOf)
  }

  lemma GroupSnoc(items: seq<CatalogItem>, it: CatalogItem, c: String)
    ensures Group(items + [it], c) == Group(items, c) + (if it.category == c then [it.entry] else [])
  {
    WithKeySnoc(items, it, Category, c);
    if it.category == c {
      MapSnoc(WithKey(items, Category, c), it, EntryOf);
    }
  }

  /** `groups` maps each category of `items`, and only those, to its group. */
  predicate IsGrouping(groups: map<String, seq<Entry>>, items: seq<CatalogItem>) {
    groups.Keys == KeysOf(items, Category) &&
    forall c :: c in groups ==> groups[c] == Group(items, c)
  }

  /** One `setdefault(...).append(...)` keeps the dictionary the grouping of the items seen. */
  lemma GroupingSnoc(groups: map<String, seq<Entry>>, items: seq<CatalogItem>, it: CatalogItem)
    requires IsGrouping(groups, items)
    ensures it.category !in groups ==> IsGrouping(groups[it.category := [it.entry]], items + [it])
    ensures it.category in groups ==> IsGrouping(groups[it.category := groups[it.category] + [it.entry]], items + [it])
  {
    KeysOfSnoc(items, it, Category);
    forall c
      ensures Group(items + [it], c) == Group(items, c) + (if it.category == c then [it.entry] else [])
    {
      GroupSnoc(items, it, c);
    }
    if it.category !in groups {
      WithKeyAbsent(items, Category, it.category);
    }
  }

  /**
   * `by_category.setdefault(category, []).append(item)`: the dictionary
   * as its keys in insertion order and the map from key to list.
   */
  method GroupByCategory(items: seq<CatalogItem>) returns (keys: seq<String>, groups: map<String, seq<Entry>>)
    ensures keys == KeyOrder(items, Category)
    ensures groups.Keys == KeysOf(items, Category)
    ensures forall c :: c in groups ==> groups[c] == Group(items, c)
  {
    keys := [];
    groups := map[];
    var i := 0;
    while i < |items|
      invariant i <= |items|
      invariant keys == KeyOrder(items[..i], Category)
      invariant IsGrouping(groups, items[..i])
    {
      var item := items[i];
      var category := item.category;
      assert items[..i + 1] == items[..i] + [item];
      KeyOrderSnoc(items[..i], item, Category);
      GroupingSnoc(groups, items[..i], item);
      if category !in groups {
        keys := keys + [category];
        groups := groups[category := [item.entry]];
      } else {
        groups := groups[category := groups[category] + [item.entry]];
      }
      i := i + 1;
    }
    assert items[..i] == items;
  }

  /**
   * The keys are the categories in order of first appearance, each once, and
   * every item lies in exactly one group: the group sizes add up to the
   * number of items.
   */
  lemma GroupsPartition(items: seq<CatalogItem>)
    ensures var keys := KeyOrder(items, Category);
            (forall c :: c in keys <==> c in KeysOf(items, Category)) &&
            (forall i, j :: 0 <= i < j < |keys| ==> keys[i] != keys[j]) &&
            SizeSum(keys, items, Category) == |items|
  {
    KeyOrderSpec(items, Category);
    GroupSizesSum(items, Category);
  }

  // ---------------------------------------------------------------------
  // Movies, series and adult entries

  /** `m.get('isAdult')` is truthy. */
  predicate IsAdultEntry(e: Entry) {
    e.isAdult == Some(true)
  }

  predicate IsMovieEntry(e: Entry) {
    e.kind == Movie && !IsAdultEntry(e)
  }

  predicate IsSeriesEntry(e: Entry) {
    e.kind == Series && !IsAdultEntry(e)
  }

  function Movies(es: seq<Entry>): seq<Entry> {
    Filter(es, IsMovieEntry)
  }

  function SeriesEntries(es: seq<Entry>): seq<Entry> {
    Filter(es, IsSeriesEntry)
  }

  function AdultEntries(es: seq<Entry>): seq<Entry> {
    Filter(es, IsAdultEntry)
  }

  /**
   * The three lists split the group: no entry is in two of them, and
   * together they hold every entry as often as the group does, so
   * `total_items` is the size of the group.
   */
  lemma SplitPartition(es: seq<Entry>)
    ensures multiset(Movies(es)) + multiset(SeriesEntries(es)) + multiset(AdultEntries(es)) == multiset(es)
    ensures |Movies(es)| + |SeriesEntries(es)| + |AdultEntries(es)| == |es|
  {
    FilterMultiset(es, IsMovieEntry);
    FilterMultiset(es, IsSeriesEntry);
    FilterMultiset(es, IsAdultEntry);
    var all := multiset(Movies(es)) + multiset(SeriesEntries(es)) + multiset(AdultEntries(es));
    forall e
      ensures all[e] == multiset(es)[e]
    {
      if IsAdultEntry(e) {
      } else if e.kind == Movie {
      } else {
      }
    }
    assert all == multiset(es);
  }

  /** Each list holds only entries of its own kind. */
  lemma SplitKinds(es: seq<Entry>)
    ensures forall e :: e in Movies(es) ==> IsMovieEntry(e)
    ensures forall e :: e in SeriesEntries(es) ==> IsSeriesEntry(e)
    ensures forall e :: e in AdultEntries(es) ==> IsAdultEntry(e)
  {
    FilterMultiset(es, IsMovieEntry);
    FilterMultiset(es, IsSeriesEntry);
    FilterMultiset(es, IsAdultEntry);
  }

  /** No entry is more than one of movie, series and adult. */
  lemma KindsDisjoint(e: Entry)
    ensures !(IsMovieEntry(e) && IsSeriesEntry(e))
    ensures !(IsMovieEntry(e) && IsAdultEntry(e))
    ensures !(IsSeriesEntry(e) && IsAdultEntry(e))
    ensures IsMovieEntry(e) || IsSeriesEntry(e) || IsAdultEntry(e)
  {
  }

  // ---------------------------------------------------------------------
  // Files and index entries of one category

  /** `page` and `totalPages` of a page of series. */
  datatype PageInfo = PageInfo(page: nat, totalPages: nat)

  /**
   * One JSON file: a category listing (a page of series, the remaining
   * movies, or the whole of a small category) or the adult file.
   */
  datatype Document =
    | Listing(file: String, category: String, paging: Option<PageInfo>, movies: seq<Entry>, series: seq<Entry>)
    | AdultListing(file: String, category: String, items: seq<Entry>)

  /** `pages` and `hasMovies`, which only paged categories carry. */
  datatype Paging = Paging(pages: nat, hasMovies: bool)

  datatype IndexEntry = IndexEntry(
    id: String,
    name: String,
    movieCount: nat,
    seriesCount: nat,
    adultCount: nat,
    totalCount: nat,
    paging: Option<Paging>)

  /** The file of series page `k` (from 0), which the loop numbers `k + 1`. */
  function PageDocument(category: String, base: String, pages: seq<seq<Entry>>, totalPages: nat, k: nat): Document
    requires k < |pages|
  {
    Listing(base + "_p" + NatToDecimal(k + 1) + ".json", category, Some(PageInfo(k + 1, totalPages)), [], pages[k])
  }

  /** One file per series page, in page order. */
  function PageDocuments(category: String, base: String, pages: seq<seq<Entry>>, totalPages: nat): (r: seq<Document>)
    ensures |r| == |pages|
  {
    seq(|pages|, k requires 0 <= k < |pages| => PageDocument(category, base, pages, totalPages, k))
  }

  function AdultDocuments(category: String, base: String, adult: seq<Entry>): seq<Document> {
    if adult != [] then [AdultListing(base + "_adult.json", category, adult)] else []
  }

  /** The files of a category larger than a file: the series pages, then the movies. */
  function PagedDocuments(category: String, base: String, movies: seq<Entry>, series: seq<Entry>): seq<Document> {
    var seriesPages := Chunks(series, MaxItemsPerFile);
    var moviesPages := Chunks(movies, MaxItemsPerFile);
    PageDocuments(category, base, seriesPages, Max(|seriesPages|, |moviesPages|)) +
    (if movies != [] then [Listing(base + "_movies.json", category, None, movies, [])] else [])
  }

  /** The files `main` writes for one category. */
  function CategoryDocuments(category: String, es: seq<Entry>): seq<Document> {
    var base := CategoryToFilename(category);
    var movies, series, adult := Movies(es), SeriesEntries(es), AdultEntries(es);
    var total := |movies| + |series| + |adult|;
    (if total > MaxItemsPerFile then PagedDocuments(category, base, movies, series)
     else [Listing(base + ".json", category, None, movies, series)]) +
    AdultDocuments(category, base, adult)
  }

  /** The index entry `main` appends for one category. */
  function CategoryIndexEntry(category: String, es: seq<Entry>): IndexEntry {
    var movies, series, adult := Movies(es), SeriesEntries(es), AdultEntries(es);
    var total := |movies| + |series| + |adult|;
    IndexEntry(
      CategoryToFilename(category), category, |movies|, |series|, |adult|, total,
      if total > MaxItemsPerFile
      then Some(Paging(Max(|Chunks(series, MaxItemsPerFile)|, 1), |movies| > 0))
      else None)
  }

  /** The `page_idx` loop: one file per series page, numbered from 1. */
  method WritePages(category: String, base: String, pages: seq<seq<Entry>>, totalPages: nat)
    returns (docs: seq<Document>)
    ensures docs == PageDocuments(category, base, pages, totalPages)
  {
    docs := [];
    var pageIdx := 1;
    while pageIdx <= |pages|
      invariant 1 <= pageIdx <= |pages| + 1
      invariant |docs| == pageIdx - 1
      invariant forall k :: 0 <= k < pageIdx - 1 ==> docs[k] == PageDocument(category, base, pages, totalPages, k)
    {
      var pageSeries := pages[pageIdx - 1];
      var filename := base + "_p" + NatToDecimal(pageIdx);
      docs := docs + [Listing(filename + ".json", category, Some(PageInfo(pageIdx, totalPages)), [], pageSeries)];
      pageIdx := pageIdx + 1;
    }
  }

  /** The branch of a category larger than a file: the series pages, then the movies file. */
  method WritePaged(category: String, base: String, movies: seq<Entry>, series: seq<Entry>)
    returns (docs: seq<Document>, pages: nat)
    ensures docs == PagedDocuments(category, base, movies, series)
    ensures pages == |Chunks(series, MaxItemsPerFile)|
  {
    var seriesPages := Chunks(series, MaxItemsPerFile);
    var moviesPages := Chunks(movies, MaxItemsPerFile);
    docs := WritePages(category, base, seriesPages, Max(|seriesPages|, |moviesPages|));
    if movies != [] {
      docs := docs + [Listing(base + "_movies.json", category, None, movies, [])];
    }
    pages := |seriesPages|;
  }

  /** The body of the loop over `by_category.items()` for one category. */
  method WriteCategory(category: String, es: seq<Entry>) returns (docs: seq<Document>, entry: IndexEntry)
    ensures docs == CategoryDocuments(category, es)
    ensures entry == CategoryIndexEntry(category, es)
  {
    var base := CategoryToFilename(category);
    var movies := Movies(es);
    var series := SeriesEntries(es);
    var adult := AdultEntries(es);
    var total := |movies| + |series| + |adult|;
    if total > MaxItemsPerFile {
      var pages;
      docs, pages := WritePaged(category, base, movies, series);
      entry := IndexEntry(base, category, |movies|, |series|, |adult|, total,
                          Some(Paging(Max(pages, 1), |movies| > 0)));
    } else {
      entry := IndexEntry(base, category, |movies|, |series|, |adult|, total, None);
      docs := [Listing(base + ".json", category, None, movies, series)];
    }
    if adult != [] {
      docs := docs + [AdultListing(base + "_adult.json", category, adult)];
    }
  }

  /** The counts of an index entry: its lists, which add up to the group. */
  lemma IndexEntryCounts(category: String, es: seq<Entry>)
    ensures var e := CategoryIndexEntry(category, es);
            e.id == CategoryToFilename(category) && e.name == category &&
            e.movieCount == |Movies(es)| && e.seriesCount == |SeriesEntries(es)| &&
            e.adultCount == |AdultEntries(es)| && e.totalCount == |es| &&
            (e.paging.Some? <==> |es| > MaxItemsPerFile)
  {
    SplitPartition(es);
  }

  /** `(n + MAX_ITEMS_PER_FILE - 1) // MAX_ITEMS_PER_FILE` pages hold `n` items. */
  lemma {:induction false} PageCount(n: nat)
    ensures CeilDiv(n, MaxItemsPerFile) == (n + MaxItemsPerFile - 1) / MaxItemsPerFile
    decreases n
  {
    if n > MaxItemsPerFile {
      PageCount(n - MaxItemsPerFile);
    }
  }

  /**
   * A paged category: series page `k` is file `<id>_p<k+1>.json`, holds
   * series `5000 * k` up to `5000 * (k + 1)`, and no page is empty; the
   * pages hold the series in order; there are `ceil(|series| / 5000)` of
   * them, and each says so in `totalPages` unless the movies need more.
   */
  lemma PagedCategory(category: String, es: seq<Entry>)
    requires |es| > MaxItemsPerFile
    ensures var series, movies := SeriesEntries(es), Movies(es);
            var pages := Chunks(series, MaxItemsPerFile);
            var docs := CategoryDocuments(category, es);
            var totalPages := Max(|pages|, (|movies| + MaxItemsPerFile - 1) / MaxItemsPerFile);
            |pages| == (|series| + MaxItemsPerFile - 1) / MaxItemsPerFile &&
            Flatten(pages) == series &&
            |docs| >= |pages| &&
            (forall k :: 0 <= k < |pages| ==>
               docs[k] == Listing(CategoryToFilename(category) + "_p" + NatToDecimal(k + 1) + ".json", category,
                                  Some(PageInfo(k + 1, totalPages)), [], pages[k]) &&
               0 < |pages[k]| <= MaxItemsPerFile &&
               PageAt(series, MaxItemsPerFile, k * MaxItemsPerFile, pages[k])) &&
            CategoryIndexEntry(category, es).paging == Some(Paging(Max(|pages|, 1), |movies| > 0))
  {
    SplitPartition(es);
    var series, movies := SeriesEntries(es), Movies(es);
    var pages := Chunks(series, MaxItemsPerFile);
    ChunksSpec(series, MaxItemsPerFile);
    ChunksSpec(movies, MaxItemsPerFile);
    PageCount(|series|);
    PageCount(|movies|);
    forall k | 0 <= k < |pages|
      ensures PageAt(series, MaxItemsPerFile, k * MaxItemsPerFile, pages[k])
    {
      ChunkAt(series, MaxItemsPerFile, k);
    }
  }

  /**
   * A paged category without series writes no page file, yet its index
   * entry still announces one page; its movies go to one file whatever
   * their number.
   */
  lemma PagedWithoutSeries(category: String, es: seq<Entry>)
    requires |es| > MaxItemsPerFile && SeriesEntries(es) == []
    ensures CategoryIndexEntry(category, es).paging == Some(Paging(1, |Movies(es)| > 0))
    ensures forall d :: d in CategoryDocuments(category, es) && d.Listing? ==> d.paging.None? && d.movies == Movies(es)
  {
    SplitPartition(es);
  }

  /** The entries a file lists. */
  function DocumentEntries(d: Document): seq<Entry> {
    match d
    case Listing(_, _, _, movies, series) => movies + series
    case AdultListing(_, _, items) => items
  }

  /** The entries of all the files, one file after the other. */
  function Listed(docs: seq<Document>): seq<Entry>
    decreases |docs|
  {
    if docs == [] then [] else DocumentEntries(docs[0]) + Listed(docs[1..])
  }

  lemma {:induction false} ListedConcat(a: seq<Document>, b: seq<Document>)
    ensures Listed(a + b) == Listed(a) + Listed(b)
    decreases |a|
  {
    if a != [] {
      ListedConcat(a[1..], b);
      assert (a + b)[0] == a[0];
      assert (a + b)[1..] == a[1..] + b;
    } else {
      assert a + b == b;
    }
  }

  /** Files that list the pages one by one list the pages read in order. */
  lemma {:induction false} ListedPages(docs: seq<Document>, pages: seq<seq<Entry>>)
    requires |docs| == |pages|
    requires forall k :: 0 <= k < |docs| ==> DocumentEntries(docs[k]) == pages[k]
    ensures Listed(docs) == Flatten(pages)
    decreases |docs|
  {
    if docs != [] {
      ListedPages(docs[1..], pages[1..]);
    }
  }

  lemma ListedAdult(category: String, base: String, adult: seq<Entry>)
    ensures Listed(AdultDocuments(category, base, adult)) == adult
  {
    if adult != [] {
      assert Listed(AdultDocuments(category, base, adult)) == adult + Listed([]);
    }
  }

  /** The files of a paged category list its series page by page, then its movies. */
  lemma ListedPaged(category: String, base: String, movies: seq<Entry>, series: seq<Entry>)
    ensures Listed(PagedDocuments(category, base, movies, series)) == series + movies
  {
    var pages := Chunks(series, MaxItemsPerFile);
    var pageDocs := PageDocuments(category, base, pages, Max(|pages|, |Chunks(movies, MaxItemsPerFile)|));
    var movieDocs: seq<Document> := if movies != [] then [Listing(base + "_movies.json", category, None, movies, [])] else [];
    ChunksSpec(series, MaxItemsPerFile);
    ListedPages(pageDocs, pages);
    assert Listed(movieDocs) == movies by {
      if movies != [] {
        assert Listed(movieDocs) == movies + [] + Listed([]);
      }
    }
    ListedConcat(pageDocs, movieDocs);
  }

  /**
   * Every entry of the group is written to exactly one file of its
   * category: together the files list the group, each entry as often as
   * it occurs.
   */
  lemma CategoryDocumentsCover(category: String, es: seq<Entry>)
    ensures multiset(Listed(CategoryDocuments(category, es))) == multiset(es)
  {
    SplitPartition(es);
    var base := CategoryToFilename(category);
    var movies, series, adult := Movies(es), SeriesEntries(es), AdultEntries(es);
    var main: seq<Document> :=
      if |es| > MaxItemsPerFile then PagedDocuments(category, base, movies, series)
      else [Listing(base + ".json", category, None, movies, series)];
    assert multiset(Listed(main)) == multiset(movies) + multiset(series) by {
      if |es| > MaxItemsPerFile {
        ListedPaged(category, base, movies, series);
      } else {
        assert Listed(main) == movies + series + Listed([]);
      }
    }
    ListedAdult(category, base, adult);
    ListedConcat(main, AdultDocuments(category, base, adult));
    assert CategoryDocuments(category, es) == main + AdultDocuments(category, base, adult);
  }

  // ---------------------------------------------------------------------
  // The whole catalog

  function TotalCount(e: IndexEntry): int {
    e.totalCount
  }

  function MovieCount(e: IndexEntry): int {
    e.movieCount
  }

  function SeriesCount(e: IndexEntry): int {
    e.seriesCount
  }

  function AdultCount(e: IndexEntry): int {
    e.adultCount
  }

  /** `index.json` without `generatedAt`. */
  datatype Index = Index(
    version: nat,
    totalMovies: int,
    totalSeries: int,
    totalAdult: int,
    maxItemsPerPage: nat,
    categories: seq<IndexEntry>)

  /** The index over the entries in append order: sorted, then summed. */
  function MakeIndex(entries: seq<IndexEntry>): Index {
    var sorted := SortDesc(entries, TotalCount);
    Index(2, SumBy(sorted, MovieCount), SumBy(sorted, SeriesCount), SumBy(sorted, AdultCount),
          MaxItemsPerFile, sorted)
  }

  /** The files of the categories `keys`, category after category. */
  function CatalogDocuments(keys: seq<String>, groups: map<String, seq<Entry>>): seq<Document>
    requires forall c :: c in keys ==> c in groups
    decreases |keys|
  {
    if keys == [] then []
    else
      var c := keys[|keys| - 1];
      CatalogDocuments(keys[..|keys| - 1], groups) + CategoryDocuments(c, groups[c])
  }

  /** The index entries of the categories `keys`, in the same order. */
  function CatalogEntries(keys: seq<String>, groups: map<String, seq<Entry>>): (r: seq<IndexEntry>)
    requires forall c :: c in keys ==> c in groups
    ensures |r| == |keys|
    decreases |keys|
  {
    if keys == [] then []
    else
      var c := keys[|keys| - 1];
      CatalogEntries(keys[..|keys| - 1], groups) + [CategoryIndexEntry(c, groups[c])]
  }

  /**
   * The loop over `by_category.items()`: the files and index entries of
   * every category in turn, and `total_saved`, the number of entries
   * written.
   */
  method WriteCatalog(keys: seq<String>, groups: map<String, seq<Entry>>)
    returns (docs: seq<Document>, entries: seq<IndexEntry>, totalSaved: int)
    requires forall c :: c in keys ==> c in groups
    ensures docs == CatalogDocuments(keys, groups)
    ensures entries == CatalogEntries(keys, groups)
    ensures totalSaved == SumBy(entries, TotalCount)
  {
    docs, entries, totalSaved := [], [], 0;
    var i := 0;
    while i < |keys|
      invariant i <= |keys|
      invariant docs == CatalogDocuments(keys[..i], groups)
      invariant entries == CatalogEntries(keys[..i], groups)
      invariant totalSaved == SumBy(entries, TotalCount)
    {
      var category := keys[i];
      assert keys[..i + 1][..i] == keys[..i];
      var categoryDocs, entry := WriteCategory(category, groups[category]);
      SumByConcat(entries, [entry], TotalCount);
      docs := docs + categoryDocs;
      entries := entries + [entry];
      totalSaved := totalSaved + entry.totalCount;
      i := i + 1;
    }
    assert keys[..i] == keys;
  }

  /** The index entries of the grouped items count every item once. */
  lemma {:induction false} EntriesCountGroups(items: seq<CatalogItem>, keys: seq<String>, groups: map<String, seq<Entry>>)
    requires forall c :: c in keys ==> c in groups && groups[c] == Group(items, c)
    ensures SumBy(CatalogEntries(keys, groups), TotalCount) == SizeSum(keys, items, Category)
    decreases |keys|
  {
    if keys != [] {
      var init, c := keys[..|keys| - 1], keys[|keys| - 1];
      EntriesCountGroups(items, init, groups);
      IndexEntryCounts(c, groups[c]);
      SumByConcat(CatalogEntries(init, groups), [CategoryIndexEntry(c, groups[c])], TotalCount);
    }
  }

  /**
   * The categories of the unique items, in order of first appearance,
   * count every item once: `total_saved` is the number of unique items.
   */
  lemma CatalogTotal(items: seq<CatalogItem>)
    ensures KeyOrderCovered(items)
    ensures SumBy(CatalogEntries(KeyOrder(items, Category), GroupMap(items)), TotalCount) == |items|
  {
    var keys := KeyOrder(items, Category);
    KeyOrderSpec(items, Category);
    EntriesCountGroups(items, keys, GroupMap(items));
    GroupsPartition(items);
  }

  /**
   * The files of the categories `keys` list the entries of the items of
   * those categories, group by group, each as often as it occurs.
   */
  lemma {:induction false} CatalogDocumentsCover(keys: seq<String>, items: seq<CatalogItem>)
    requires forall c :: c in keys ==> c in GroupMap(items)
    ensures multiset(Listed(CatalogDocuments(keys, GroupMap(items)))) ==
            multiset(Map(Grouped(keys, items, Category), EntryOf))
    decreases |keys|
  {
    if keys != [] {
      var init, c := keys[..|keys| - 1], keys[|keys| - 1];
      var groups := GroupMap(items);
      assert forall k :: k in init ==> k in keys;
      CatalogDocumentsCover(init, items);
      ListedConcat(CatalogDocuments(init, groups), CategoryDocuments(c, groups[c]));
      CategoryDocumentsCover(c, groups[c]);
      MapConcat(Grouped(init, items, Category), WithKey(items, Category, c), EntryOf);
    }
  }

  /**
   * Together the files of the catalog list the entry of every unique item
   * exactly once: the categories' files are a permutation of the items.
   */
  lemma CatalogCover(items: seq<CatalogItem>)
    ensures KeyOrderCovered(items)
    ensures multiset(Listed(CatalogDocuments(KeyOrder(items, Category), GroupMap(items)))) ==
            multiset(Map(items, EntryOf))
  {
    CatalogTotal(items);
    CatalogDocumentsCover(KeyOrder(items, Category), items);
    GroupedKeyOrder(items, Category);
    MapPermutation(Grouped(KeyOrder(items, Category), items, Category), items, EntryOf);
  }

  /** Every category of the key order has a group. */
  predicate KeyOrderCovered(items: seq<CatalogItem>) {
    forall c :: c in KeyOrder(items, Category) ==> c in GroupMap(items)
  }

  /** `totalCount` is the sum of the three counts. */
  predicate CountsAddUp(e: IndexEntry) {
    e.totalCount == e.movieCount + e.seriesCount + e.adultCount
  }

  lemma {:induction false} SumOfCounts(es: seq<IndexEntry>)
    requires forall e :: e in es ==> CountsAddUp(e)
    ensures SumBy(es, MovieCount) + SumBy(es, SeriesCount) + SumBy(es, AdultCount) == SumBy(es, TotalCount)
    decreases |es|
  {
    if es != [] {
      assert CountsAddUp(es[0]);
      SumOfCounts(es[1..]);
    }
  }

  lemma {:induction false} CatalogEntriesAddUp(keys: seq<String>, groups: map<String, seq<Entry>>)
    requires forall c :: c in keys ==> c in groups
    ensures forall e :: e in CatalogEntries(keys, groups) ==> CountsAddUp(e)
    decreases |keys|
  {
    if keys != [] {
      var c := keys[|keys| - 1];
      CatalogEntriesAddUp(keys[..|keys| - 1], groups);
      SplitPartition(groups[c]);
    }
  }

  /**
   * `totalMovies`, `totalSeries` and `totalAdult` of the index add up to
   * the number of unique items.
   */
  lemma IndexTotals(items: seq<CatalogItem>)
    ensures KeyOrderCovered(items)
    ensures var index := MakeIndex(CatalogEntries(KeyOrder(items, Category), GroupMap(items)));
            index.totalMovies + index.totalSeries + index.totalAdult == |items|
  {
    CatalogTotal(items);
    var entries := CatalogEntries(KeyOrder(items, Category), GroupMap(items));
    var sorted := SortDesc(entries, TotalCount);
    SortDescSpec(entries, TotalCount);
    CatalogEntriesAddUp(KeyOrder(items, Category), GroupMap(items));
    forall e | e in sorted
      ensures CountsAddUp(e)
    {
      assert e in multiset(sorted);
    }
    SumOfCounts(sorted);
  }

  /** What `main` produces: the files, the index and the number of duplicates dropped. */
  datatype Output = Output(documents: seq<Document>, index: Index, duplicates: nat, totalSaved: int)

  /**
   * From `by_category` to `index.json` for the unique items: the file
   * writes list every unique item's entry exactly once, `total_saved` and
   * the index's `totalCount`s add up to the number of unique items, and
   * the index lists the categories by decreasing size.
   */
  method Publish(unique: seq<CatalogItem>, duplicates: nat) returns (out: Output)
    ensures KeyOrderCovered(unique)
    ensures out.duplicates == duplicates
    ensures out.documents == CatalogDocuments(KeyOrder(unique, Category), GroupMap(unique))
    ensures out.index == MakeIndex(CatalogEntries(KeyOrder(unique, Category), GroupMap(unique)))
    ensures out.totalSaved == |unique|
    ensures SortedDesc(out.index.categories, TotalCount)
    ensures SumBy(out.index.categories, TotalCount) == |unique|
    ensures multiset(Listed(out.documents)) == multiset(Map(unique, EntryOf))
  {
    var keys, groups := GroupByCategory(unique);
    CatalogTotal(unique);
    CatalogCover(unique);
    assert groups == GroupMap(unique);
    var docs, entries, totalSaved := WriteCatalog(keys, groups);
    var index := MakeIndex(entries);
    SortDescSpec(entries, TotalCount);
    out := Output(docs, index, duplicates, totalSaved);
  }

  /**
   * `main` on the contents of its playlists (`None` for a missing file):
   * the unique items, first by URL, are published, and the duplicates
   * counted.
   */
  method Convert(playlists: seq<Option<String>>, hash: String -> int) returns (out: Output)
    ensures var all := AllItems(playlists, hash);
            var unique := FirstsBy(all, Url);
            KeyOrderCovered(unique) &&
            out.duplicates == |all| - |unique| &&
            out.documents == CatalogDocuments(KeyOrder(unique, Category), GroupMap(unique)) &&
            out.index == MakeIndex(CatalogEntries(KeyOrder(unique, Category), GroupMap(unique))) &&
            out.totalSaved == |unique| &&
            SortedDesc(out.index.categories, TotalCount) &&
            SumBy(out.index.categories, TotalCount) == |unique| &&
            multiset(Listed(out.documents)) == multiset(Map(unique, EntryOf))
  {
    var all := CollectItems(playlists, hash);
    var unique, duplicates := Dedup(all);
    out := Publish(unique, duplicates);
  }

  /** The grouping dictionary as a value. */
  function GroupMap(items: seq<CatalogItem>): (m: map<String, seq<Entry>>)
    ensures m.Keys == KeysOf(items, Category)
    ensures forall c :: c in m ==> m[c] == Group(items, c)
  {
    map c | c in KeysOf(items, Category) :: Group(items, c)
  }
}
