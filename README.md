# Playlist-to-catalog conversion, modelled in Dafny

This project models `scripts/convert_m3u8_to_json.py`. The script reads
extended-M3U playlists of movies and series and writes a JSON catalog:
one file per category, split into pages when a category is large, plus
an `index.json` listing the categories.

It is modelled in seven modules:

- `Text` (`text.dfy`): the string operations the script relies on. These
  are ASCII and Latin-1 case mapping, whitespace, `strip`, substring
  search, `replace(p, '')` and decimal digits.
- `Seqs` (`seqs.dfy`): generic sequence operations with their laws. These
  are a first-match search, `map`, `filter`, first-occurrence
  deduplication, grouping in first-appearance order, fixed-size chunking,
  sums, and a stable sort in decreasing order.
- `Classify` (`classify.dfy`): the tests applied to each entry. These are
  the ignored categories, series by category keyword, series by episode
  marker, adult content, and the `(title, season, episode)` tuple.
  Each regular expression is written as an explicit matcher.
- `Names` (`names.dfy`): `clean_name` and `generate_id`.
- `Categories` (`categories.dfy`): `normalize_category`, written as a
  table of rules taken in source order, and `category_to_filename`.
- `Lexer` (`lexer.dfy`): the line scanner `parse_m3u8_file`. A step
  function on the pending `#EXTINF` metadata specifies a method that loops
  over the lines and updates the pending name, category and logo.
- `Catalog` (`catalog.dfy`): the stages of `main`:
  1. gather the items of every playlist;
  2. drop repeated URLs;
  3. group by category;
  4. split each group into movies, series and adult entries;
  5. page large categories;
  6. build the sorted index.

  Every JSON file becomes a `Document` value.

Each loop of the script is a method. Its `ensures` ties the result to a
function, and lemmas state what that function promises.

## Model

| member | source | states |
|---|---|---|
| Classify.MatchesIgnoredIsPrefixTest | scripts/convert_m3u8_to_json.py:55-61 | the loop over the ignore list holds exactly when the upper-cased category starts with some upper-cased entry; the two equality tests add nothing |
| Classify.ShouldIgnoreIsPrefixTest | scripts/convert_m3u8_to_json.py:19-29 | `should_ignore_category` over the fixed ignore list is that prefix test, in both directions |
| Classify.AnyContainsIff | scripts/convert_m3u8_to_json.py:64-66 | `any(keyword in s ...)` holds iff some keyword of the list occurs in the string |
| Classify.AdultIffNameOrCategory | scripts/convert_m3u8_to_json.py:73-75 | joining name and category with a space neither creates nor hides a keyword: adult iff a keyword occurs in the name or in the category |
| Classify.ContainsAcrossSeparator | scripts/convert_m3u8_to_json.py:74 | a keyword without the separator found in `a + sep + b` lies in `a` or in `b` |
| Classify.SearchMarker | scripts/convert_m3u8_to_json.py:38-45 | `pattern.search` for one episode pattern: the result is the leftmost position where the pattern matches, and None means no position matches |
| Classify.MatchInfoNone | scripts/convert_m3u8_to_json.py:48-51 | a tuple pattern fails iff no title length lets the rest of the pattern match |
| Classify.MatchInfoSome | scripts/convert_m3u8_to_json.py:48-51 | a tuple pattern's match uses the shortest non-empty title that lets the rest match (the lazy `(.+?)`), and the tuple is that title stripped with the two digit groups |
| Classify.ParseSeriesInfoNone | scripts/convert_m3u8_to_json.py:78-83 | `parse_series_info` returns None iff none of the three patterns matches at any title length |
| Classify.ParseSeriesInfoFirst | scripts/convert_m3u8_to_json.py:78-83 | a parsed tuple comes from the first pattern that matches, with its shortest title |
| Classify.ParsedImpliesEpisodeMarker | scripts/convert_m3u8_to_json.py:336-338 | a name that yields a tuple also has an episode marker, so `series_info` never changes the type |
| Classify.MarkerFromTitle | scripts/convert_m3u8_to_json.py:38-51 | a name that some tuple pattern matches has an episode marker |
| Names.StripOrdinal | scripts/convert_m3u8_to_json.py:87 | removing a `<digits> - ` prefix leaves a suffix of the name |
| Names.OrdinalPrefixRemoved | scripts/convert_m3u8_to_json.py:87 | a name that begins with digits, spaces, a hyphen or en dash and spaces loses exactly that prefix |
| Names.StripOrdinalCases | scripts/convert_m3u8_to_json.py:87 | the name is unchanged, or exactly an ordinal prefix was removed |
| Names.LiveTagRemoved | scripts/convert_m3u8_to_json.py:88 | a trailing `[L]` (any case), with the whitespace around it, is removed and nothing else is |
| Names.MarkerFreeUnchanged | scripts/convert_m3u8_to_json.py:89-90 | a name without `(DUB)`/`(LEG)` is unchanged by the removal |
| Names.MarkerSpliced | scripts/convert_m3u8_to_json.py:89-90 | the first marker, with the whitespace on both sides, is cut out and the text before it is kept |
| Names.CleanName | scripts/convert_m3u8_to_json.py:86-91 | the cleaned name is stripped and no longer than the original |
| Names.PlainTitleUnchanged | scripts/convert_m3u8_to_json.py:86-91 | a trimmed title with no ordinal prefix, no `[L]` and no markers is returned unchanged |
| Names.KeepIdChars | scripts/convert_m3u8_to_json.py:95 | `re.sub(r'[^a-z0-9\s]', '', s)` keeps every `a-z`, `0-9` and space character as often as it occurs, and nothing else |
| Names.IdSlug | scripts/convert_m3u8_to_json.py:95-96 | the name part of an identifier is a slug: `a-z0-9` words joined by single dashes |
| Names.HashPart | scripts/convert_m3u8_to_json.py:97-98 | the hash part is 1 to 6 digits that begin `str(abs(hash))`, and all of it when that has at most 6 digits |
| Names.GenerateIdShape | scripts/convert_m3u8_to_json.py:94-99 | an identifier is the slug, one dash, then the hash digits; the last dash splits it back into the two parts |
| Categories.StripKnownPrefix | scripts/convert_m3u8_to_json.py:104-115 | an `OND /` category gives a non-empty trimmed name: `Filmes` for an empty label, else the label with the same letters up to case, its first character not a lower-case letter and the rest unchanged; a `Series \|` category gives a non-empty trimmed name, `Séries` for an empty label; a `COLETÂNEA:` category gives a trimmed name; any other category is unchanged |
| Categories.StripKnownPrefixLone | scripts/convert_m3u8_to_json.py:104-115 | when the prefix occurs nowhere but at the start, the `OND /` label is the trimmed text after it minus a trailing ` -`, the `Series \|` result is the trimmed text after it or `Séries`, and the `COLETÂNEA:` result is the trimmed text after it |
| Text.RemoveAllKeeps | scripts/convert_m3u8_to_json.py:105 | `s.replace(p, '')` keeps every case-insensitive occurrence of a word that no occurrence of `p` can overlap: neither end character of `p` is in the word and one character of the word is in no position of `p`, up to case |
| Text.StripKeeps | scripts/convert_m3u8_to_json.py:105 | `strip()` keeps every case-insensitive occurrence of a word whose first and last characters are not whitespace |
| Categories.StripKnownPrefixKeeps | scripts/convert_m3u8_to_json.py:104-115 | a word that cannot overlap any of the three prefixes, does not begin or end with whitespace and does not end in `-` is still in the category, in any case, after prefix stripping |
| Categories.OndLabel | scripts/convert_m3u8_to_json.py:105-107 | the label of an `OND /` category is trimmed |
| Categories.ReleaseName | scripts/convert_m3u8_to_json.py:231-237 | the release category is `Lançamentos`, followed by a space and the leftmost `20dd` year when there is one |
| Categories.FirstYear | scripts/convert_m3u8_to_json.py:234 | `re.search(r'20\d{2}', ...)`: the leftmost year position, or None when no position has one |
| Categories.FirstMatchSpec | scripts/convert_m3u8_to_json.py:120-273 | the chain answers with the outcome of the first rule whose test holds, and with nothing iff no rule holds |
| Categories.NormalizeCategorySpec | scripts/convert_m3u8_to_json.py:102-275 | `normalize_category` returns the first holding rule's outcome for the prefix-stripped category, and that category itself when no rule holds |
| Categories.NetflixWins | scripts/convert_m3u8_to_json.py:118-122 | a category whose prefix-stripped form contains "netflix", in any case, always becomes `Netflix` |
| Categories.MentionsNetflix | scripts/convert_m3u8_to_json.py:102-122 | a category containing "netflix" anywhere, in any case and before its prefix is stripped, always becomes `Netflix` |
| Categories.OnlyMaxRules | scripts/convert_m3u8_to_json.py:127-130 | only the `max` and `hbo` rules produce `Max` |
| Categories.MadMaxIsNotMax | scripts/convert_m3u8_to_json.py:118-130 | a category whose prefix-stripped form contains "mad max" and not "hbo", in any case, never becomes `Max` |
| Categories.MentionsMadMax | scripts/convert_m3u8_to_json.py:102-128 | a category containing "mad max" anywhere, in any case and before its prefix is stripped, never satisfies the `max` rule (the `hbo` rule can still apply, since removing a prefix can join the letters of "hbo") |
| Categories.RulesExcluded | scripts/convert_m3u8_to_json.py:120-273 | every rule's test needs a letter outside those of `filmes`/`séries` |
| Categories.DefaultsUnmatched | scripts/convert_m3u8_to_json.py:110-113 | no rule fires on the defaults `Filmes` and `Séries` |
| Categories.EmptyMovieLabel | scripts/convert_m3u8_to_json.py:104-110 | an `OND /` category with an empty label normalises to `Filmes` |
| Categories.EmptySeriesLabel | scripts/convert_m3u8_to_json.py:111-113 | a `Series \|` category with an empty rest normalises to `Séries` |
| Categories.CategoryToFilename | scripts/convert_m3u8_to_json.py:278-281 | the file name holds only `a-z`, `0-9` and `_`, never two `_` in a row, and no `_` at either end |
| Categories.CategoryToFilenameWords | scripts/convert_m3u8_to_json.py:278-281 | the file name is the maximal runs of `a-z` and `0-9` of the lower-cased category, in order, joined by single `_`: one `_` stands exactly where other characters separated two runs |
| Categories.CategoryToFilenameCollides | scripts/convert_m3u8_to_json.py:278-281 | two different categories, `FILMES` and `Filmes`, get the same file name |
| Text.CollapseRunsWords | scripts/convert_m3u8_to_json.py:279-280 | replacing each maximal run of a class by one separator and stripping the separators at either end joins the maximal runs outside the class by single separators |
| Categories.CategoryToFilenameIdempotent | scripts/convert_m3u8_to_json.py:278-281 | applying `category_to_filename` to its own output changes nothing |
| Lexer.JoinSplitLines | scripts/convert_m3u8_to_json.py:293 | joining the pieces of `content.split('\n')` with newlines gives back the content |
| Lexer.SplitJoinLines | scripts/convert_m3u8_to_json.py:293 | splitting newline-free lines joined by newlines gives back the lines |
| Lexer.SplitLinesNoNewline | scripts/convert_m3u8_to_json.py:293 | no piece contains a newline |
| Lexer.AttrValue | scripts/convert_m3u8_to_json.py:304-309 | `re.search(r'key="([^"]*)"')` fails iff no position holds the key followed by a closing quote |
| Lexer.AttrValueSpec | scripts/convert_m3u8_to_json.py:304-309 | a found value is the quote-free text after the leftmost occurrence of the key |
| Lexer.AttrValueAtStart | scripts/convert_m3u8_to_json.py:304-309 | a line that starts with the key and a quote-free value yields that value |
| Lexer.NameAfterComma | scripts/convert_m3u8_to_json.py:312-313 | `re.search(r',(.+)$')` fails iff no comma has a character after it |
| Lexer.NameAfterFirstComma | scripts/convert_m3u8_to_json.py:312-313 | the name is everything after the first comma that has text after it (not the last comma) |
| Lexer.NoNameWithoutComma | scripts/convert_m3u8_to_json.py:312-313 | there is no name iff no comma stands before the last character |
| Lexer.CategoryOrOutros | scripts/convert_m3u8_to_json.py:325 | `current_category or 'Outros'`: a missing or empty category becomes `Outros` |
| Lexer.EmptyGroupTitleIsOutros | scripts/convert_m3u8_to_json.py:304-305 | the category an item is built with, before normalisation, is the `group-title` value, or `Outros` when it is missing or empty |
| Lexer.MakeItemSpec | scripts/convert_m3u8_to_json.py:334-360 | an item carries `isAdult` only when it is true and exactly when the adult test holds; it carries the tuple exactly when one was parsed; its type is series iff the category keyword or episode-marker test holds; it carries the `tvg-logo` value exactly when that value is present and non-empty; its name is the cleaned name |
| Lexer.StepEmits | scripts/convert_m3u8_to_json.py:299-364 | a line yields an item iff it is an `http` line with a pending name, a URL not ending in `.ts` and a category not ignored; the item is built from the pending data and the state resets |
| Lexer.HttpLineClears | scripts/convert_m3u8_to_json.py:315-332 | an `http` line with a pending name always resets the state, and yields nothing for a `.ts` URL or an ignored category |
| Lexer.HttpLineWithoutName | scripts/convert_m3u8_to_json.py:315 | an `http` line with no pending name changes nothing |
| Lexer.OtherLineKeeps | scripts/convert_m3u8_to_json.py:299-315 | any other line changes nothing |
| Lexer.ExtinfReplaces | scripts/convert_m3u8_to_json.py:302-313 | an `#EXTINF:` line replaces all pending data, whatever it was, and yields nothing |
| Lexer.ScanStep | scripts/convert_m3u8_to_json.py:299-364 | one more line advances the scan by exactly one step |
| Lexer.AtMostOneDraftPerHttpLine | scripts/convert_m3u8_to_json.py:299-364 | the scan yields at most one item per `http` line |
| Lexer.ScannedDraftsWellFormed | scripts/convert_m3u8_to_json.py:299-364 | every URL handed on is a stripped `http` line not ending in `.ts` |
| Lexer.ParsedItemsWellFormed | scripts/convert_m3u8_to_json.py:284-366 | a parsed playlist has at most one item per `http` line, and every item has an `http` URL that does not end in `.ts`, a trimmed name, no `isAdult: false`, a tuple only on series, and no empty logo |
| Lexer.ReadLine | scripts/convert_m3u8_to_json.py:300-364 | the loop body's decision is the step function |
| Lexer.ProcessLine | scripts/convert_m3u8_to_json.py:299-364 | one loop iteration moves the pending fields and the item list from the scan of `i` lines to the scan of `i + 1` lines |
| Lexer.ParseLines | scripts/convert_m3u8_to_json.py:299-366 | the loop returns the items built from every draft of the whole scan |
| Lexer.ParseM3u8 | scripts/convert_m3u8_to_json.py:284-366 | `parse_m3u8_file` on the file's content returns the parsed playlist |
| Catalog.CollectItems | scripts/convert_m3u8_to_json.py:392-399 | the items of every existing playlist, in playlist order |
| Catalog.Dedup | scripts/convert_m3u8_to_json.py:401-411 | the kept items are the first item for each URL, in input order, and `duplicates` is the input length minus the output length |
| Catalog.DedupSpec | scripts/convert_m3u8_to_json.py:401-411 | the kept URLs are pairwise distinct and include every input URL; each kept item is the first input item with its URL, and the kept items keep their input order |
| Seqs.FirstsByKeys | scripts/convert_m3u8_to_json.py:401-411 | first-occurrence deduplication keeps exactly the keys of the input, each once |
| Seqs.FirstsByPositions | scripts/convert_m3u8_to_json.py:401-411 | the kept elements sit at increasing input positions, each the first of its key |
| Catalog.GroupingSnoc | scripts/convert_m3u8_to_json.py:419-421 | one `setdefault(...).append(...)` keeps the dictionary equal to the grouping of the items seen so far |
| Catalog.GroupByCategory | scripts/convert_m3u8_to_json.py:417-421 | the keys are the categories in order of first appearance; each maps to its items, in order, without `_category` |
| Catalog.GroupsPartition | scripts/convert_m3u8_to_json.py:417-421 | every category appears among the keys exactly once, and the group sizes add up to the number of items |
| Seqs.GroupSizesSum | scripts/convert_m3u8_to_json.py:417-421 | the sizes of the groups of the distinct keys add up to the length of the input |
| Seqs.GroupedMultiset | scripts/convert_m3u8_to_json.py:417-421 | over distinct keys, the groups together hold each element whose key is among them, as often as it occurs, and nothing else |
| Seqs.GroupedKeyOrder | scripts/convert_m3u8_to_json.py:417-421 | the groups of `by_category`, taken in insertion order, are a permutation of the items |
| Seqs.MapPermutation | scripts/convert_m3u8_to_json.py:419-421 | popping `_category` from a permutation of the items gives a permutation of their entries |
| Catalog.SplitPartition | scripts/convert_m3u8_to_json.py:433-437 | movies, series and adult together hold every entry of the group as often as it occurs, so `total_items` is the group size |
| Catalog.SplitKinds | scripts/convert_m3u8_to_json.py:433-435 | each list holds only entries of its kind: non-adult movies, non-adult series, adult entries |
| Seqs.FilterMultiset | scripts/convert_m3u8_to_json.py:433-435 | a comprehension keeps every element that passes, as often as it occurs, and no other |
| Catalog.WritePages | scripts/convert_m3u8_to_json.py:451-465 | page `k` (from 0) goes to `<id>_p<k+1>.json` with `page = k + 1` and the series of that page |
| Catalog.WritePaged | scripts/convert_m3u8_to_json.py:441-478 | a large category writes the series pages, then one movies file when there are movies |
| Catalog.WriteCategory | scripts/convert_m3u8_to_json.py:429-525 | one category's files and index entry are those the specification functions give |
| Catalog.IndexEntryCounts | scripts/convert_m3u8_to_json.py:481-500 | the index entry has the file name as `id`, the category as `name`, the three list sizes, `totalCount` equal to the group size, and pagination info iff the group has more than 5000 entries |
| Catalog.PageCount | scripts/convert_m3u8_to_json.py:443 | the number of 5000-item chunks of `n` items is `(n + 4999) // 5000` |
| Seqs.ChunksSpec | scripts/convert_m3u8_to_json.py:447-448 | every chunk is non-empty and at most the chunk size, there are ⌈n/size⌉ of them, and they concatenate back to the list |
| Seqs.ChunkAt | scripts/convert_m3u8_to_json.py:447 | chunk `k` holds the elements from `k * size` on |
| Catalog.PagedCategory | scripts/convert_m3u8_to_json.py:441-490 | in a category over 5000 entries: there are ⌈\|series\|/5000⌉ pages; each page has 1 to 5000 series taken in order from position `5000 * k`, and its file is `<id>_p<k+1>.json`; `totalPages` is the larger of the series and movie page counts; the index entry has `pages = max(#pages, 1)` and `hasMovies` |
| Catalog.PagedWithoutSeries | scripts/convert_m3u8_to_json.py:441-490 | a large category without series writes no page file, yet its index entry announces one page, and all its movies go to a single file |
| Catalog.CategoryDocumentsCover | scripts/convert_m3u8_to_json.py:429-525 | together the writes of a category list each entry of its group exactly as often as it occurs |
| Catalog.CatalogDocumentsCover | scripts/convert_m3u8_to_json.py:429-525 | the writes of the categories in the loop list the entries of those categories' items, each as often as it occurs |
| Catalog.CatalogCover | scripts/convert_m3u8_to_json.py:417-525 | over all categories, the writes list the entry of every unique item exactly once: they are a permutation of the items' entries |
| Catalog.ListedPaged | scripts/convert_m3u8_to_json.py:451-478 | the files of a large category list its series page by page, then its movies |
| Catalog.WriteCatalog | scripts/convert_m3u8_to_json.py:426-525 | the files and index entries of every category, in key order, and `total_saved` is the sum of the `totalCount`s |
| Catalog.EntriesCountGroups | scripts/convert_m3u8_to_json.py:438 | the `totalCount`s of the categories add up to the sizes of their groups |
| Catalog.CatalogTotal | scripts/convert_m3u8_to_json.py:426-438 | `total_saved` equals the number of unique items |
| Catalog.IndexTotals | scripts/convert_m3u8_to_json.py:530-537 | `totalMovies + totalSeries + totalAdult` equals the number of unique items |
| Catalog.SumOfCounts | scripts/convert_m3u8_to_json.py:533-535 | where each `totalCount` is the sum of the three counts, the three index totals add up to the sum of the `totalCount`s |
| Seqs.SortDescSpec | scripts/convert_m3u8_to_json.py:527 | the sort by decreasing `totalCount` gives a sorted permutation, keeps entries with equal counts in their original order (a stable sort), and keeps the sum |
| Catalog.Publish | scripts/convert_m3u8_to_json.py:417-537 | the files and index of the unique items; the writes list every unique item's entry exactly once; `total_saved` and the index's `totalCount`s add up to the number of unique items, and the categories are sorted by decreasing `totalCount` |
| Catalog.Convert | scripts/convert_m3u8_to_json.py:369-537 | `main` on the playlists' contents: the duplicates counted and the catalog of the first item for each URL, whose writes list each such item's entry exactly once |

## Left out

- File and console I/O: reading the playlists, `mkdir`, `json.dump`, the `print` messages and the file-size report at the end of `main`. A playlist is given as its text, or as nothing when the file does not exist. Each JSON file is a `Document` value.
- `time.time()` and `generatedAt` (`datetime.now()`): they are clocks. `Index` has no `generatedAt` field.
- JSON layout: compact separators, `indent=2` and `ensure_ascii`.
- Python's `hash(url)`, which is salted per process. It is a parameter `hash`; only the shape of the identifier built from it is stated.
- Full Unicode: `lower()`/`upper()` map only ASCII and Latin-1 letters (U+00C0 to U+00DE, except U+00D7). `\s` and `strip()` only know the six ASCII whitespace characters, and `\d` only ASCII digits. Case-insensitive regex matching is ASCII case folding.
- Catalog.Dedup: `seen_urls` is a `set` of URLs that the loop grows. The sort in `main` is Python's `list.sort`, a library call. It is modelled as a functional stable insertion sort (`Seqs.SortDesc`), not as an in-place sort.
- The printed `num_parts` is only logged. `PageCount` states the same arithmetic for the series pages.
- Lexer.ParseLines: the loop of `parse_m3u8_file` is split from the `split('\n')` that feeds it (`Lexer.ParseM3u8`). Only the item list and the three pending fields are state.
- Line endings: `open(filepath, 'r')` reads in universal-newline mode, so `\r\n` and a lone `\r` reach the script as `\n`. A playlist's content is given after that translation; `SplitLines` splits on `\n` only.
- File names: each `Document` is one write, in order. A later write to the same file name replaces the earlier file, and the model does not collapse the writes into a directory. `category_to_filename` is not injective (`CategoryToFilenameCollides`), a category whose file name ends in `_p<k>` can share a name with a page of another category, and one whose file name is `index` shares `index.json`, so the writes can overwrite one another; `CatalogCover` counts entries in the writes, not in the files left on disk.
- `create_icon.py`, `create_foreground.py`, `scripts/create_icons.py`, `scripts/debug_cast.py`, `scripts/check_series.py` and `scripts/generate_categories.py` are not part of this model. They draw images or tally JSON files.
