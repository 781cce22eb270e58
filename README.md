# subtitle-tool, modelled in Dafny

subtitle-tool is a small command-line program that looks up TV-show subtitles
and optionally downloads them. This project models its decision logic in
Dafny and proves properties of it. The logic comes from two revisions of the
program.

**Current revision (`main.go`).** It asks two search engines, OpenSubtitles
and Podnapisi, in a fixed order. It merges what they find and reports every
engine that failed in one combined error. It then cuts the list to `-limit`
entries and sorts it by language. It can print the result as JSON or download
each subtitle's archive, keeping every relevant file (anything but `.nfo`).

**Older revision (`src/github.com/International/subtitle-tool/main.go`).**
It asks Podnapisi alone, through its XML search URL. It requires a season and
an episode. It keeps every file of a downloaded archive.

The model has these modules:

- `Common` (common.dfy): the canonical `Subtitle` record and
  `ShowSearchParams`. It also holds the sentinel flag defaults and the
  `Option` / `Result` / `Outcome` wrappers that stand for Go's `(value, error)`
  returns.
- `Text` (text.dfy): `strings.ToLower` (ASCII), `strings.HasSuffix`,
  `strings.Split`, `strings.Join`, and Go's `<` on strings.
- `QueryEscape` (query_escape.dfy): `url.QueryEscape` over the UTF-8 bytes of
  a string, with a decoder that proves the escaping loses nothing.
- `Providers` (providers.dfy):
  - the language table and the OpenSubtitles request filter;
  - the conversion of OpenSubtitles hits;
  - `SearchSubs` with its two loops, proved against the recursive
    specification functions `Merged`, `Failures` and `ErrorText`.
- `Ranking` (ranking.dfy):
  - `SubtitleSorter` and an in-place sort on an array, which promises only
    what `sort.Sort` promises (sorted and a permutation);
  - the `-limit` slice, both as written and as intended;
  - the limit-then-sort step of `main`.
- `Archive` (archive.dfy): `isRelevantSubtitle`, and the entry loop of
  `downloadSubtitle`, proved against the recursive function `Unpack`.
- `Cli` (cli.dfy): the validation of `parseParams` and the format check of
  `formatSubtitles`.
- `Legacy` (legacy.dfy): the older revision's validation, its Podnapisi
  request URL, and its download loop.

**Engines as values.** Each engine is given by what its calls return.

- An OpenSubtitles client is three things: the outcome of creating it, the
  outcome of logging in, and a function from the filter map to the search
  result.
- The Podnapisi library search is a function from the search parameters to
  its outcome.

**Archives as values.** A zip archive is its list of entries. Each entry has a
name and the outcome of opening it, creating the output file and copying it
out.

**Ranging over a Go map.** Go leaves the order unspecified, so the model picks
an arbitrary remaining key at each step. Every property of the query string is
proved for any order in which the keys are visited.

**Points where the program's behaviour is easy to misread:**

- `main` truncates before it calls `sort.Sort`, which is not stable, so the
  limit keeps the first subtitles found, not the first in language order
  (`Ranking.LimitAppliesBeforeSort`). Only the language sequence of the result
  is determined (`Ranking.RankedLanguagesAreDetermined`).
- `url.QueryEscape` keeps `~` and escapes `*`, unlike the WHATWG
  form-urlencoded serializer. The model follows `url.QueryEscape`.
- No limit above the number of results returns exactly the results. Up to the
  slice's capacity, the code returns every result followed by zero-valued
  subtitles. Past the capacity, it panics. See Findings.
- The `-verbose` flag is stored in the `Quiet` field (main.go:131, 147), so
  it silences the progress log. `Cli.ParseParams` states exactly that.
- The "all languages" sentinel is `all` in the current revision and `ALL` in
  the older one.

## Model

| member | source | states |
|---|---|---|
| Providers.AdaptLanguage | main.go:55-59 | a code in `languageAdaptation` becomes its mapped value; any other code passes through unchanged, with no error |
| Providers.AdaptLanguageIdempotent | main.go:244-250 | every value of the table is unmapped or maps to itself, so adapting an adapted code changes nothing |
| Providers.OsdbSearchParams | main.go:61-72 | `query` is the show name; `sublanguageid` is the adapted language; `season` is present iff the season is not "0", and then it equals the season; `episode` follows the same rule; no other key is present |
| Providers.ToCanonical | main.go:85-94 | one subtitle per hit, in the same order; title and the single release are the release name; season, episode, language and URL are copied from the hit |
| Providers.OsdbSearch | main.go:48-99 | succeeds iff creating the client, logging in and the search all succeed, with one subtitle per hit; otherwise the first failing step's error is returned |
| Providers.Search | main.go:41-43 | each engine answers with its own outcome: the OpenSubtitles search above, or the Podnapisi library's result for the same parameters |
| Providers.SearchSubs | main.go:217-242 | every engine runs; the results are the successful lists concatenated in engine order; the error is the concatenated `error:<msg> ` pieces, present iff that text is non-empty; results are returned together with the error |
| Providers.MergeOrder | main.go:218-228 | for engines `before`, one successful engine, and engines `after`, the merged list is the merge of `before`, then that engine's list whole and in its own order, then the merge of `after` |
| Providers.FailureContributesNothing | main.go:223-227 | a failed engine between `before` and `after` adds nothing: the merged list is the merge of `before` followed by the merge of `after`, so later engines still contribute |
| Providers.NoErrorIffAllSucceed | main.go:230-240 | the combined error is nil exactly when every engine succeeded |
| Providers.FailureIsReported | main.go:232-234 | a failure's `error:<msg> ` piece appears in the error, after the earlier failures and before the later ones, so no failure is dropped |
| Providers.AllFailed | main.go:217-242 | when every engine fails the results are empty and the error is present |
| Providers.RegisteredOrder | main.go:108 | with the registered engines, the OpenSubtitles results come before the Podnapisi results, and there is no error iff both succeed |
| Providers.SubtitleSearchEngines | main.go:108 | the registered engines yield, for any parameters, the OpenSubtitles outcome first and the Podnapisi outcome second (`Providers.RegisteredOrder` draws the consequences for the merged list and the error) |
| Text.ToLower | main.go:153 | same length; each character is lower-cased independently |
| Text.HasSuffix | main.go:156 | `strings.HasSuffix`: true exactly when the suffix is no longer than the string and its characters match the string's last ones, position by position |
| Text.StrLessIrreflexive | main.go:105 | no language sorts before itself |
| Text.StrLessAsymmetric | main.go:105 | two languages are never each before the other |
| Text.StrLessTransitive | main.go:105 | the language order is transitive |
| Text.StrLessTotal | main.go:105 | any two distinct languages are ordered one way or the other |
| Text.Join | src/github.com/International/subtitle-tool/main.go:154 | `strings.Join`: the first part leads, and every character of the result comes from the separator or from a part (`Text.SplitJoin` gives the round trip) |
| Text.SplitJoin | src/github.com/International/subtitle-tool/main.go:154 | joining separator-free parts with the separator and splitting again gives back the parts |
| Ranking.Swap | main.go:104 | exchanges two elements and leaves the rest as they were |
| Ranking.Less | main.go:105 | `SubtitleSorter.Less` compares languages only, as a strict total order: never both ways, never between equal languages, one way or the other between different ones (properties of Go's `<` in the `Text.StrLess*` rows) |
| Ranking.Sort | main.go:101-105 | the array ends up ordered by language and holds the same subtitles (a permutation); no stability is promised |
| Ranking.SliceAsWritten | main.go:264-266 | `subtitles[0:Limit]` as Go evaluates it: a limit of 0 keeps the list unchanged; a limit outside 0..capacity panics; otherwise the result has exactly `Limit` elements, the list's own where it has them and zero-valued subtitles past its length |
| Ranking.SliceAsWrittenPads | main.go:265 | one subtitle with room for two and `-limit 2` yields the subtitle followed by a zero-valued subtitle with no URL and no language |
| Ranking.Truncate | main.go:264-266 | the limit as intended: fails only for a negative limit; otherwise the result is a prefix of the list, of length `Limit` when 0 < `Limit` <= length, else the whole list |
| Ranking.TruncateWithinLength | src/github.com/International/subtitle-tool/main.go:233-235 | for 0 < `Limit` <= length, the slice as written and the intended limit both give exactly the first `Limit` subtitles |
| Ranking.LimitThenSort | main.go:264-268 | fails iff the limit is negative; otherwise the result is sorted by language and is a permutation of the truncated list |
| Ranking.LimitAppliesBeforeSort | main.go:264-268 | with languages `pl`, `en` and `-limit 1`, the result is the `pl` subtitle: the cut is made before sorting |
| Ranking.RankedLanguagesAreDetermined | main.go:268 | any two results of the unstable sort of the same cut list have the same language sequence |
| QueryEscape.Utf8 | src/github.com/International/subtitle-tool/main.go:151 | a character encodes to 1 to 4 bytes, and to the single byte of its code exactly when it is ASCII |
| QueryEscape.Escape | src/github.com/International/subtitle-tool/main.go:151 | `url.QueryEscape`: the result holds only unreserved ASCII, `+` and `%`, so never `&` or `=`; unescaping it gives back exactly the UTF-8 bytes of the value, so no two values escape alike (`QueryEscape.EscapePlain` gives the unchanged case) |
| QueryEscape.EscapePlain | src/github.com/International/subtitle-tool/main.go:151 | a value of unreserved ASCII characters is left as it is |
| Archive.IsRelevantSubtitle | main.go:150-163 | a name is irrelevant iff its lower-cased form ends with `.nfo` |
| Archive.RelevantIgnoresCase | main.go:153-156 | a name and its lower-cased form are judged alike |
| Archive.PathJoin | main.go:194 | the joined path is empty iff both parts are; two non-empty parts are joined with `/` |
| Archive.LastExtracted | main.go:187-196 | the picked entry is an extracted entry of the archive after which no entry is extracted, i.e. the last one the loop extracts |
| Archive.DownloadSubtitle | main.go:185-214 | the loop skips irrelevant entries, stops at the first extraction error, and otherwise ends with the last extracted path, or with "no files in the archive" |
| Archive.UnpackPicksLast | main.go:185-214 | when no extraction fails (and the folder or every entry name is non-empty), the result is the last extracted entry joined onto the folder, or the starting destination when nothing is extracted |
| Archive.UnpackStopsAtFailure | main.go:193-207 | the first extracted entry that fails decides the result: its error, whatever follows |
| Archive.DownloadPicksLastRelevant | main.go:185-214 | the download yields the last relevant entry joined onto the output folder, and fails with "no files in the archive" iff no entry is relevant |
| Archive.NoneExtractedIff | main.go:210-211 | nothing is extracted exactly when no entry qualifies |
| Cli.ParseParams | main.go:125-148 | fails iff the name is "MISSING", with "name of show is required"; otherwise every flag is carried over, and `-verbose` lands in `Quiet` |
| Cli.DefaultsAreRejected | main.go:126-141 | with every flag at its default, validation fails for the missing name |
| Cli.CheckFormat | main.go:304-314 | passes iff the format is `json`; otherwise the error is "format <f> not supported" |
| Legacy.ParseParams | src/github.com/International/subtitle-tool/main.go:61-71 | succeeds iff the name is not "MISSING" and neither season nor episode is "0", returning the flags unchanged; the name error takes precedence over the season/episode error |
| Legacy.ValidationIsStricter | src/github.com/International/subtitle-tool/main.go:61-66 | whatever this revision accepts, the current one accepts with the same search parameters; a missing season is refused here and accepted there |
| Legacy.PodnapisiParams | src/github.com/International/subtitle-tool/main.go:136-144 | `sK`, `sTS`, `sTE` are name, season, episode; `sXML` is "1"; `sL` is present iff the language is not "ALL", and then equals it; no other key |
| Legacy.SearchRequestUrl | src/github.com/International/subtitle-tool/main.go:145-155 | the URL is the search URL followed by one `key=QueryEscape(value)` segment per parameter, joined by `&`, visiting every key exactly once in some order |
| Legacy.SegmentsAreSeparable | src/github.com/International/subtitle-tool/main.go:136-151 | there is at least one segment; no parameter name holds `=`; no `key=QueryEscape(value)` segment holds `&` |
| Legacy.QueryStringSplits | src/github.com/International/subtitle-tool/main.go:148-155 | splitting the query string at `&` gives back exactly the segments, in the order they were written |
| Legacy.SegmentDecodes | src/github.com/International/subtitle-tool/main.go:151 | a `key=QueryEscape(value)` segment splits at its one `=` and decodes to the key and the UTF-8 bytes of the value |
| Legacy.DownloadSubtitle | src/github.com/International/subtitle-tool/main.go:192-215 | the loop extracts every entry, stops at the first extraction error, and otherwise ends with the last entry's path, or with "no files in the archive" |
| Legacy.DownloadPicksLastEntry | src/github.com/International/subtitle-tool/main.go:192-215 | the download yields the last entry joined onto the output folder, and fails with "no files in the archive" iff the archive is empty |

## Left out

- Network calls: `http.Get`, `osdb.NewClient`, `LogIn`, `SearchSubtitles` and `podnapisi.Search`. They are parameters of the model: outcomes and functions supplied by the caller. The login credentials and token are not modelled.
- XML parsing of the Podnapisi response (`parseSubtitles` in the older revision). It is a call into libxml2 and is not part of this model.
- Reading the zip archive and writing files: `zip.NewReader`, `file.Open`, `os.Create` and `io.Copy`. Each entry carries one outcome standing for all three steps.
- Archive.PathJoin: does not model the lexical clean-up `path.Join` applies (`..`, `.`, doubled slashes), because only the choice of entry is modelled.
- Text.ToLower: folds only ASCII letters, unlike Go's Unicode `strings.ToLower`. Only the `.nfo` suffix test uses it.
- Ranking.Sort: is an insertion sort, not the algorithm of `sort.Sort`. Its contract is the contract of `sort.Sort` (sorted and a permutation), which is all the program relies on.
- Ranking.LimitThenSort: uses the intended limit (`Ranking.Truncate`), not the slice as written. The padding the code produces is recorded under Findings.
- The capacity of a Go slice after repeated `append` is left to the caller of `Ranking.SliceAsWritten`, because it depends on the runtime's growth policy.
- The rest of `main`:
  - a search error or a validation error is fatal;
  - an empty list ends with "no subtitles found";
  - each subtitle is printed, downloaded or opened in the editor;
  - JSON is written with `json.Marshal` and `fmt.Println`.
  These are output and process control with no decision logic beyond the tests already modelled.
- Flag parsing by the `flag` package. The model starts from the parsed flag values.
- Logging (`log.Println` and the `cliParams.d` helper).

## Findings

| source | as written | input that shows it | evidently intended | confidence | as-written member | corrected member |
|---|---|---|---|---|---|---|
| main.go:264-266 (likewise src/github.com/International/subtitle-tool/main.go:233-235) | `subtitles[0:params.Limit]` accepts any limit up to the slice's capacity; elements past the length are zero-valued subtitles | OpenSubtitles returns 2 subtitles and Podnapisi 1, which grows the slice to length 3 and capacity 4; with `-limit 4` the list gains a fourth subtitle with no URL and no language, sorted first and downloaded from an empty URL | at most `Limit` of the subtitles actually found, and all of them when the limit exceeds their number | medium, not executed | Ranking.SliceAsWrittenPads | Ranking.Truncate |
