# NB N-gram: the query pipeline, in Dafny

NB N-gram is the National Library of Norway's web viewer for word-frequency
time series. This project models two parts of it and proves properties of
them.

- **The viewer** (`static/js/ngram-viewer.js`). It turns the fetched series into
  what the chart shows. First it smooths them with a centred moving average
  (`smooth_data`). When "cumulative" is ticked it turns them into running sums
  (`cumulative_graph`). It narrows them to the year range of the slider
  (`range_update`). It can export them as a year × series table (`save_as_csv`).
  It also builds the Bokhylla search text of a label (`bokhylla_search`).
  It sorts a fetch's outcome into an error message or a drawing (`draw_lines`),
  and caches fetched series in the browser's storage. It avoids drawing a
  search twice through its `post` flag.
- **The query front end** (`backend.py`). It validates the request parameters
  (`get_query_params`) and merges them over the defaults. It cleans the terms
  (`return_terms`), tokenizes each term (`tokenize`) and classifies it as an
  addition, a wildcard pattern, a bracketed truncation or a plain ngram
  (`termParser`, `combination_gen`). It reads the `:lang:corpus:year` options
  of an ngram (`extract_info`). Finally it writes one SQL query per ngram
  (`swapcase`, `query_planner`, `build_query_single`, `query_factory`).

Conventions:

- Everything is a pure function over immutable values. Where the JavaScript
  mutates its argument in place, the model returns the result together with
  the argument as it is left.
- Python exceptions the code does not catch become `Failure(...)` values of
  `Result`.
- Regular expressions are explicit left-to-right scanners.
- Frequencies are exact reals.

Modules:

| module | models |
|---|---|
| `Wrappers`, `Text`, `Dicts` | Option/Result, the string operations of Python and JavaScript used below, the right-biased dictionary merge |
| `SeriesData` | fetched and drawn series |
| `Smoothing`, `Cumulative`, `RangeFilter`, `CsvExport`, `Labels`, `Presentation` | the viewer's transformations |
| `FetchCache`, `Navigation` | `draw_lines`, the browser-storage cache and the `post` flag |
| `QueryTerms`, `Tokenizer`, `TermParser`, `Combinations` | the clean-up and parsing of terms |
| `QueryOptions` | the request parameters and the options of an ngram |
| `QueryBuilder` | the SQL text and its arguments |
| `Request` | the `/ngram/query` handler: the plan of queries for a request |

## Model

| member | source | states |
|---|---|---|
| Smoothing.SmoothData | static/js/ngram-viewer.js:479-510 | The number of series, their keys and their order are kept. Each series is smoothed as the code does it in place. The input is left with every point switched to the value kind of the mode. |
| Smoothing.SmoothSeries | static/js/ngram-viewer.js:484-507 | One series as written. In absolute mode every point that had `f` ends with `y` equal to that `f` and no `f`. In relative mode `f` is dropped and `y` is kept. `x` is kept at every index. |
| Smoothing.WindowAverage | static/js/ngram-viewer.js:499-504 | The loop computes `(2·y[p] + Σ y[j]) / (|W| + 2)` over the window `W` clamped to the series. |
| Smoothing.SmoothKeepsShape | static/js/ngram-viewer.js:484-507 | The smoothed series has the same length and the same `x` at every index as its input. |
| Smoothing.RadiusZeroIsIdentity | static/js/ngram-viewer.js:499-505 | With radius 0 every point keeps its (switched) value. |
| Smoothing.ConstantStaysConstant | static/js/ngram-viewer.js:499-505 | With the corrected switch-first pass, a series whose switched values are all `c` smooths to all `c`, for any radius. |
| Smoothing.ConstantStaysConstantAsWritten | static/js/ngram-viewer.js:488-505 | The in-place pass as written also keeps a constant series constant, for any radius, when every point's `y` is `c` and in absolute mode its `f`, if any, is `c` too. |
| Smoothing.AsWrittenAgreesWithoutMixing | static/js/ngram-viewer.js:490-505 | When the switch of value kind changes no `y`, the in-place pass equals the switch-everything-first pass. |
| Smoothing.ResmoothingMatchesSwappedFirst | static/js/ngram-viewer.js:479-510 | Smoothing the series the first pass left behind (what `smooth_update` and the cache do) gives the switch-first result. |
| Smoothing.FirstPassMixesValueKinds | static/js/ngram-viewer.js:490-505 | As written: two points with `y = 1`, `f = 10` and radius 1 in absolute mode give 7.75 at the first point, not 10. |
| Smoothing.SmoothSeriesSwappedFirst | static/js/ngram-viewer.js:484-507 | The corrected pass: switch every point first, then average. |
| Cumulative.CumulativeSeries | static/js/ngram-viewer.js:515-526 | Output `y[p]` is the sum of the input's `y[0..p]`, with `x` and length kept. The input is overwritten with the same sums. |
| Cumulative.CumulativeGraph | static/js/ngram-viewer.js:512-528 | Every series accumulated, keys and order kept. The returned input holds the running sums too. |
| Cumulative.SumsAreAccumulated | static/js/ngram-viewer.js:515-526 | Any sequence of prefix sums is the reference `Accumulated`. |
| Cumulative.DifferencesRecoverInput | static/js/ngram-viewer.js:518-521 | Consecutive differences of the running sums give the input back, so nothing is lost. |
| Cumulative.NotIdempotent | static/js/ngram-viewer.js:518-521 | Accumulating `[1,2,3]` gives `[1,3,6]`, and accumulating that again gives `[1,4,10]`. |
| RangeFilter.FilterPoints | static/js/ngram-viewer.js:738-740 | The filter never returns more points than it was given. |
| RangeFilter.FilterKeepsExactlyInRange | static/js/ngram-viewer.js:738-740 | A point is kept if and only if it was there and `lo ≤ x ≤ hi`. |
| RangeFilter.EnabledMembers | static/js/ngram-viewer.js:733-734 | A series survives the filter if and only if it was in the input and is not disabled. |
| RangeFilter.EnabledAppend | static/js/ngram-viewer.js:733-734 | The filter distributes over concatenation, so the surviving series keep their input order. |
| RangeFilter.EnabledOne | static/js/ngram-viewer.js:733-734 | A single series is kept when enabled and dropped when disabled. |
| RangeFilter.EnabledAllOn | static/js/ngram-viewer.js:733-734 | With no series disabled the filter returns its input unchanged. |
| RangeFilter.RangeUpdateShape | static/js/ngram-viewer.js:728-746 | One output per enabled series, same key, points filtered. Series left with no points are kept. |
| RangeFilter.FilterTwice | static/js/ngram-viewer.js:738-740 | Filtering twice is filtering once by the intersection of the ranges. |
| RangeFilter.InclusiveEnds | static/js/ngram-viewer.js:738-740 | Years 1900..2000 filtered to 1950..1960 keep exactly 11 points: both ends are included. |
| CsvExport.FirstIndex | static/js/ngram-viewer.js:226-234 | The index of the first point with the given year, or none exactly when no point has it. |
| CsvExport.FindYear | static/js/ngram-viewer.js:226-237 | The scan yields the `y` of the first point with the year, else 0. |
| CsvExport.SaveAsCsvRows | static/js/ngram-viewer.js:205-239 | The header is `anno` and then the keys. There is one row per year from min to max inclusive, each with 1 + (series) cells. Each cell is the first matching `y`, else 0. |
| CsvExport.Sanitize | static/js/ngram-viewer.js:242 | Characters outside ASCII letters and digits become `_`, the length is kept, and letters and digits stay. |
| CsvExport.FileStem | static/js/ngram-viewer.js:242 | The file name stem has at most 20 characters, all letters, digits or `_`. |
| CsvExport.StemOfOneSeries | static/js/ngram-viewer.js:242 | With one series the stem is its key, cut to 20 characters and sanitised. |
| Labels.Head | static/js/ngram-viewer.js:401-403 | The text before the first `:`. It is a prefix with no `:`, followed by `:` when shorter than the key. |
| Labels.BokhyllaSearch | static/js/ngram-viewer.js:399-413 | The result has no `:`. It is the head with its first `+` turned into a space, or the head in double quotes when it has no `+`. |
| Labels.FirstPlusOnly | static/js/ngram-viewer.js:405-407 | Only the first `+` is replaced, and everything around it is kept. |
| Labels.QuotedWord | static/js/ngram-viewer.js:399-413 | `word:suffix` without `+` gives `"word"`. |
| Labels.JoinedWords | static/js/ngram-viewer.js:399-413 | `a+b:suffix` gives `a b`. |
| Presentation.CumulativeView | static/js/ngram-viewer.js:661-663 | Each series replaced by its running sums, keys kept. |
| Presentation.Nvd3Data | static/js/ngram-viewer.js:661-671 | The series drawn: accumulated when "cumulative" is ticked, then range-filtered when the slider was set. The global keeps the accumulated series. |
| Presentation.SmoothUpdate | static/js/ngram-viewer.js:710-726 | Re-smoothing comes from the stored raw series (left switched), then accumulation and the range filter as in the first draw. |
| Presentation.EnabledCumulativeView | static/js/ngram-viewer.js:728-746 | Dropping disabled series commutes with accumulation. |
| Presentation.CumulativeRangeShowsRunningSums | static/js/ngram-viewer.js:661-671 | With cumulative and a range, each drawn point is a running sum over the whole series, not just over the visible years. |
| FetchCache.Purge | static/js/ngram-viewer.js:34-39 | Exactly the keys containing `ngram/query?` are removed, and other entries keep their values. |
| FetchCache.PurgeForgetsQueries | static/js/ngram-viewer.js:34-39 | No query address survives, and purging twice changes nothing. |
| FetchCache.CachePut | static/js/ngram-viewer.js:603-607 | Put-if-absent under the hash, never for the bundled data file. Existing entries are never changed, and no other key appears. |
| FetchCache.FirstWriterWins | static/js/ngram-viewer.js:603-607 | A second put under the same hash changes nothing. |
| FetchCache.Lookup | static/js/ngram-viewer.js:388-394 | The cached series exactly when the key is stored, else a fetch of the given address. |
| FetchCache.PutThenLookup | static/js/ngram-viewer.js:346-352 | Series stored under a hash are found again under it. |
| FetchCache.SmoothingFactor | static/js/ngram-viewer.js:563-568 | The slider's value once it has been moved, else 4. |
| FetchCache.FailureMessage | static/js/ngram-viewer.js:582-588 | Status 500 and only 500 gives "not accepted". Every other failure gives "not responding". |
| FetchCache.DrawLines | static/js/ngram-viewer.js:556-617 | A failed fetch shows its message and changes nothing else. An empty answer shows "No results." and is neither smoothed nor cached. Fetched series are cached (switched) under the hash and drawn smoothed. Inline series are never cached. When the storage is full, the write throws: the series are smoothed but not stored, and the chart area, cleared on entry, stays blank. |
| FetchCache.SwitchedTwice | static/js/ngram-viewer.js:490-497 | Switching the value kind a second time changes nothing. |
| FetchCache.CachedRedrawIsSwappedFirst | static/js/ngram-viewer.js:612-615 | Redrawing cached (already switched) series smooths them the corrected way. |
| Navigation.OnHashChange | static/js/ngram-viewer.js:339-358 | With `post` clear the handler looks the hash up. With `post` set it only clears `post`. |
| Navigation.Search | static/js/ngram-viewer.js:363-395 | The search looks its query up first and ends with the hash set to it. |
| Navigation.SearchDrawsOnce | static/js/ngram-viewer.js:386-395 | A search for a new query makes exactly one request and leaves `post` clear. |
| Navigation.NavigationRedraws | static/js/ngram-viewer.js:339-352 | A hash change while `post` is clear redraws from the new hash. |
| Navigation.RepeatedSearchSwallowsNavigation | static/js/ngram-viewer.js:386-395 | As written: searching again for the query already in the hash leaves `post` set. The next navigation is then not drawn. |
| Navigation.SearchFixed | static/js/ngram-viewer.js:363-395 | The corrected search sets `post` only when the hash will change. |
| Navigation.FixedSearchSettles | static/js/ngram-viewer.js:386-395 | With the correction every search draws once, `post` ends clear, and the next navigation is drawn. |
| QueryTerms.CollapseEmpty | backend.py:127 | `,\s*,` collapses to `,`. Commas and whitespace are the only characters ever removed. |
| QueryTerms.CollapseKeepsSolid | backend.py:127 | The characters other than commas and whitespace are kept, in order. |
| QueryTerms.FindTerms | backend.py:129 | The matches of `[^,"]+|"[^"]*"`, in order, with none of them empty. |
| QueryTerms.FindTermsIsSplit | backend.py:129 | Without quotes the scan is a split on commas that drops the empty pieces. |
| QueryTerms.DropBeforeTight | backend.py:152 | After `\s+\+` → `+` no whitespace is left before a `+`. |
| QueryTerms.DropAfterTight | backend.py:153 | After `\+\s+` → `+` no whitespace is left after a `+`. |
| QueryTerms.DropAfterKeepsTight | backend.py:151-153 | The second substitution does not bring whitespace back before a `+`. |
| QueryTerms.Clean | backend.py:137-153 | A cleaned term has no `*`, no leading or trailing whitespace, and no whitespace beside a `+`. |
| QueryTerms.WildcardBudget | backend.py:137-142 | A term's `*` becomes `%` if and only if it has one and fewer than five earlier terms had one. |
| QueryTerms.CleanAll | backend.py:135-153 | Each term is cleaned under its own wildcard decision, and the count is kept. |
| QueryTerms.ReturnTerms | backend.py:119-155 | At most 10 terms, each with no `*`, trimmed, and with no whitespace beside a `+`. |
| QueryTerms.ReturnTermsKeepNonSpace | backend.py:119-155 | Term `i` keeps exactly the non-whitespace characters of the `i`-th match, with each `*` turned into `%` when its wildcard is granted and deleted otherwise. The one exception is a match reading `","` (a quoted comma) once `*` and whitespace are dropped, which becomes `,`. |
| QueryTerms.ReturnTermsFromFound | backend.py:125-135 | Term `i` is the cleaned `i`-th match of the scan over the collapsed, cut input. |
| QueryTerms.CleanKeepsNonSpace | backend.py:137-153 | Cleaning keeps the term's non-whitespace characters in order, with each `*` turned into `%` or deleted. The one exception is a term reading `","` after that, which becomes `,`. |
| QueryTerms.CleanUnmasks | backend.py:146-147 | The quoted comma `","` is cleaned to a bare `,`. |
| QueryTerms.NonSpaceStarred | backend.py:137-142 | Replacing or deleting `*` commutes with dropping whitespace. |
| QueryTerms.CleanKeepsPlain | backend.py:137-153 | A trimmed term without `*` or `+` comes out unchanged. |
| QueryTerms.CleanBlank | backend.py:144-146 | A whitespace-only term is cleaned to the empty term. |
| QueryTerms.TrailingBlankGivesEmptyTerm | backend.py:119-155 | As written: `w, ` gives the terms `[w, ""]`. The blank after the comma survives as an empty term. |
| Tokenizer.Tokenize | backend.py:348-350 | Every token is a non-empty run of characters other than whitespace and `(`, or a `(`…`)` group with no inner `)`. |
| Tokenizer.TokenizeJoin | backend.py:348-350 | Words joined by single spaces tokenize back to the words. |
| Tokenizer.UnmatchedBracketSkipped | backend.py:350 | A `(` with no `)` after it contributes nothing. |
| Tokenizer.BlankHasNoTokens | backend.py:350 | Whitespace-only text has no tokens. |
| Combinations.ProductSize | backend.py:272-289 | The product has as many picks as the product of the slot sizes. |
| Combinations.ProductMembers | backend.py:272-289 | A sequence is in the product if and only if it picks one alternative from each slot, in order. |
| Combinations.CombinationGen | backend.py:272-289 | For one to three slots the loops build the product with the first slot outermost. For four or more they build nothing. |
| TermParser.StripBracketsSlice | backend.py:388 | `strip('()')` leaves one contiguous stretch of the token. |
| TermParser.StripBracketsEnds | backend.py:388 | That stretch neither starts nor ends with a bracket. |
| TermParser.StripBracketsOuter | backend.py:388 | Everything stripped around that stretch is a bracket. |
| TermParser.Alternatives | backend.py:388-389 | A bracketed token gives one to five alternatives. |
| TermParser.OpensGroupIsGroup | backend.py:384-385 | For a token, matching `\([^)]*\)` at its start means being a bracket group. |
| TermParser.AggNgrams | backend.py:356-366 | An addition gives one to ten parts, each cut to three tokens. |
| TermParser.ParseTerm | backend.py:352-395 | A parsed term is an addition exactly when it contains `+`. Only a wildcard pattern changes the settings. Parsing fails only for a wildcard pattern, with KeyError or TypeError. |
| TermParser.WildcardParse | backend.py:370-375 | A term without `+` that has a token with `%` is parsed by the wildcard search: its failure is the term's failure, and its settings are the term's settings. |
| TermParser.WildcardSearchOutcome | backend.py:204-234 | The wildcard search raises KeyError exactly when the corpus after the pattern's options is not `bok` or `avis`. Otherwise it raises TypeError exactly when case is ignored and some word is empty. It never raises anything else, and on success it returns the new settings. |
| TermParser.AggShape | backend.py:356-366 | An addition gives at most ten ngrams of at most three tokens. |
| TermParser.TruncatedShape | backend.py:384-390 | A bracketed term gives exactly the picks of one alternative per token. There are Count(slots) of them, with at most three tokens and five alternatives each. |
| TermParser.SingleShape | backend.py:369-393 | A plain term gives one ngram: its first three tokens. |
| TermParser.PlainWordAlternative | backend.py:388-389 | A word without brackets or whitespace is its own only alternative. |
| TermParser.WildcardSettings | backend.py:374-380 | After a wildcard pattern the search is case-sensitive. |
| TermParser.WildcardSettingsFromOptions | backend.py:211-215 | A pattern without options keeps the current language and corpus. |
| QueryOptions.GetQueryParams | backend.py:480-505 | A key is present if and only if it was supplied non-empty and its value starts with an allowed alternative. Its value is the supplied one. |
| QueryOptions.SearchParamsComplete | backend.py:517 | After the merge all five keys are present with accepted values. A supplied accepted value wins, else the default. |
| QueryOptions.PrefixOnly | backend.py:488-490 | The validation checks only the start: `nobx` is taken as a language. |
| QueryOptions.ApplyOptionEffect | backend.py:189-200 | One option sets exactly the keys it affects, to the independent `Effect`. A `bok`/`avis` option also resets the language to `all`. |
| QueryOptions.LastEffectWins | backend.py:189-200 | The last option touching a key decides its value. |
| QueryOptions.UntouchedKeyKept | backend.py:189-200 | A key no option touches keeps its value. |
| QueryOptions.OptionKeys | backend.py:189-200 | Options only ever set the language, the corpus and the year. |
| QueryOptions.ExtractInfo | backend.py:176-202 | IndexError exactly for an empty ngram. None exactly when the last word has no `:`. Otherwise the length and the other words are kept, and the last word is the text before its first `:`. |
| QueryOptions.ExtractedOptions | backend.py:176-202 | The options of a term are its colon-separated parts, with the last effect winning. |
| QueryBuilder.CaseSwap | backend.py:341 | Upper and lower case swap and other characters stay. |
| QueryBuilder.CaseSwapTwice | backend.py:341 | Swapping twice gives the character back. |
| QueryBuilder.SwapFirst | backend.py:341 | Only the first character changes, to its other case. |
| QueryBuilder.Swapcase | backend.py:337-346 | The result is twice as long as the input. |
| QueryBuilder.SwapcaseNone | backend.py:337-346 | None exactly when some word is empty. |
| QueryBuilder.SwapcasePairs | backend.py:337-346 | Element `2i` is word `i` and element `2i+1` is its first-letter-swapped twin. |
| QueryBuilder.SwapcaseTwins | backend.py:337-346 | Swapping a twin back gives its word. |
| QueryBuilder.PlanOfWildcardClauses | backend.py:252-263 | For clauses of the wildcard search, the index is `_` + the first letters + `f_` as soon as a `LIKE` argument is longer than one character, else `_f_`. |
| QueryBuilder.FieldClauses | backend.py:310-311 | One `(field in (...))` condition per word, in field order. |
| QueryBuilder.Arguments | backend.py:300-306 | The settings after the options always hold a language and a corpus. |
| QueryBuilder.LangArgs | backend.py:330-334 | No language argument outside `bok`, the language itself when it is not `all`, else `nob` and `nno`. |
| QueryBuilder.BuildQueryErrors | backend.py:296-335 | IndexError exactly for an empty ngram or one of more than three words. KeyError exactly for an unknown corpus. TypeError exactly when case is ignored and some word is empty. |
| QueryBuilder.AssembleArgs | backend.py:318-334 | The arguments are the words (each with its twin when case is ignored), then the year if given, then the language arguments. |
| QueryBuilder.AssemblePlaceholders | backend.py:308-333 | The `?` in the SQL plus one for a year option equals the number of arguments. |
| QueryBuilder.Placeholders | backend.py:296-335 | The same for a whole ngram: a year option adds an argument with no placeholder. |
| QueryBuilder.JoinMarks | backend.py:310-311 | Joining clauses with `k` placeholders each gives `k` per clause. |
| QueryBuilder.Gather | backend.py:166-174 | A successful batch has one entry per query in all five lists. |
| QueryBuilder.GatherFailure | backend.py:166-174 | The batch fails exactly when some query raises, and then with the first one's exception. |
| QueryBuilder.FactoryQueries | backend.py:157-174 | Position `i` of the batch holds ngram `i`'s query, and its label is the ngram's words joined by spaces. |
| QueryBuilder.FactoryFailure | backend.py:157-174 | The batch fails exactly when some ngram's query raises, with the exception of the first such ngram. |
| QueryBuilder.WildcardClauses | backend.py:223-232 | `LIKE ?` for each pattern and the `in` list for each exact word. |
| QueryBuilder.WildcardArgs | backend.py:223-232 | Each word binds at least one argument. |
| QueryBuilder.WildcardArgsFailure | backend.py:223-230 | Building the arguments raises exactly when case is ignored and some word is empty, and then with TypeError. |
| QueryBuilder.WildcardIndexFailure | backend.py:223-263 | Choosing the index fails exactly when building the arguments does, with TypeError. |
| QueryBuilder.PlannerMisreadsPattern | backend.py:223-234 | As written: `[w, "%"]` with case ignored picks `_fsf_`, because the planner measures `w`'s twin instead of the pattern. Corrected, it picks `_f_`. |
| QueryBuilder.WildcardIndexFixedReadsPatterns | backend.py:252-263 | The corrected choice: the index on all fields when some pattern is longer than one character, `_f_` otherwise. |
| Request.GatheringOf | backend.py:529-539 | Summed results exactly for an addition with several queries. Nothing is read exactly for no queries or for a plain term with several. |
| Request.PlanTerms | backend.py:523-539 | A successful plan has one step per term. |
| Request.SingleTermRead | backend.py:529-530 | A plain term gives one query, its result is read, and the settings are kept. |
| Request.WildcardSticks | backend.py:374-380 | After a wildcard term, every later term is searched case-sensitively. |
| Request.WildcardStays | backend.py:374-380 | Once case-sensitive search is on, it stays on. |
| Request.EmptyTermRaises | backend.py:176-182 | The empty term gives one wordless ngram, whose query raises IndexError. |
| Request.EmptyTermFails | backend.py:523-527 | A request with an empty term among its terms fails. |
| Request.TrailingCommaFails | backend.py:511-527 | As written: terms `w, ` make the whole request fail. |
| Request.Worded | backend.py:523-527 | The ngrams that have words, and only those. |
| Request.WordedKeepsAll | backend.py:523-527 | Nothing is dropped when every ngram has words. |
| Request.ParsedWidth | backend.py:352-395 | Every ngram a term parses to has at most three words, given database rows of at most three columns. |
| Request.FixedNoIndexError | backend.py:511-539 | The corrected handler never fails with IndexError. |
| Request.FixedAgrees | backend.py:523-527 | The correction changes nothing for terms whose ngrams all have words. |

## Left out

- DOM and jQuery wiring: sliders, the spinner, the nvd3 chart set-up, tick formatters, colour palettes, the context menu and resizing. These are user-interface code.
- The asynchronous `d3.json` fetch. Its outcome is a parameter (`Outcome`), and the page's hash at the time the answer arrives is another parameter.
- The browser's storage. It is a map from keys to the series their JSON text encodes, so `JSON.stringify` and `JSON.parse` are the identity.
- `$.param`, `$.deparam` and `$.extend`. Query addresses are passed in as strings.
- `Papa.unparse`, `Blob` and `saveAs` in `save_as_csv`. The model stops at the table of cells and the file-name stem.
- `throw_error` draws the bundled data file behind the message. The model shows the message only.
- Floating point: frequencies are exact reals, so rounding is not modelled.
- The database reads: `connect_db`, the request hooks, `query_db_*`, `return_agg_results`, `return_single_results`, `merge_result`, `get_relfreq` and the JSON export. A plan lists the queries the handler would run and how their results would be read.
- The SQL execution of `wildcard_search`. The ngrams its query returns are the parameter `rows` of `ParseTerm`, a function of the pattern's tokens and the settings the search is called with. Its KeyError, its TypeError and its index choice are modelled.
- The browser's storage quota. Whether a `setItem` fits is the parameter `fits` of `FetchCache.DrawLines`.
- CsvExport.StemOfOneSeries: JavaScript's `substring(5, 25)` and `/[^a-z0-9]/gi` count UTF-16 code units, while the model counts Unicode characters. A key with a character outside the Basic Multilingual Plane gives `__` and a shorter cut in JavaScript, but one `_` in the model.
- QueryBuilder.Placeholders: a query with a year option has one argument more than it has `?` marks. The model proves the mismatch but does not turn it into the error sqlite would raise when binding.
- `Request.ParsedWidth` and `Request.FixedNoIndexError` assume `rows` gives rows of at most three words, one per column of the pattern's table.
- Flask's `request.args` with several values per key. The model takes the first value of each key, as `args.get` does.
- `QueryBuilder.CaseSwap` covers ASCII and Latin-1 letters only. Python's `str.swapcase` also maps letters outside Latin-1, as well as `µ` and `ÿ`, whose other case lies outside Latin-1.
- `Combinations.CombinationGen` requires at least one slot. Python raises IndexError on an empty list, but the parser only calls it for a term with at least one bracket group.
- `Text.SplitMax` states only the number of pieces. The pieces themselves are fixed by its definition.
- `export_to_json` and the Flask response are left out.

## Findings

| source | as written | input that shows it | evidently intended | confidence | as-written member | corrected member |
|---|---|---|---|---|---|---|
| static/js/ngram-viewer.js:488-505 | In absolute mode each point's `f` is moved into `y` inside the same loop that averages. The window of a point therefore holds absolute counts before it and unswitched relative frequencies after it. | Points `(1850, y=1, f=10)` and `(1851, y=1, f=10)`, radius 1, absolute mode: the first point smooths to 7.75. | Switch every point first, then average: 10. | not executed | Smoothing.FirstPassMixesValueKinds | Smoothing.SmoothSeriesSwappedFirst |
| static/js/ngram-viewer.js:386-395 | `search` sets `post` even when the hash already holds the query. No hash-change event then clears it, so the user's next navigation is ignored. | Search `q` twice, then follow a link to another query. | Set `post` only when the hash will change. | not executed | Navigation.RepeatedSearchSwallowsNavigation | Navigation.SearchFixed |
| backend.py:119-155, 523-527 | A trailing comma and a space leave an empty term. That term parses to a wordless ngram, whose `extract_info` raises IndexError, and the whole request fails. | `terms=fisk, ` | Skip ngrams without words. | not executed | Request.TrailingCommaFails | Request.FixedNoIndexError |
| backend.py:223-234 | The planner reads `args[idx]` for the clause at `idx`. When case is ignored, an exact word before a pattern puts two arguments in the list, so the planner measures the wrong one. | `fisk %` with `case_sens=0`: index `_fsf_`. | Measure the pattern of the `LIKE` clause: `_f_`. | not executed | QueryBuilder.PlannerMisreadsPattern | QueryBuilder.WildcardIndexFixedReadsPatterns |
