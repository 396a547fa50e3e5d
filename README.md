# scholar-query-splitter, modelled in Dafny

`scholar-query-splitter` breaks a Google Scholar query with too many hits into narrower
subqueries, each one under the roughly 1000 results the engine will list. This project
models the deterministic core of that pipeline and proves properties of the model.

- **The exhaustive splitter** (`ExhaustiveSplitter`, in `exhaustive_splitter.dfy`). It takes a
  base query with more hits than `target_size`. It measures every prepared keyword and entity
  as `base AND "m"` and keeps an effectiveness map. It then builds a strategy in three greedy
  phases:
  - single modifiers, ordered by hits;
  - keyword × entity pairs;
  - one `NOT "…"` exclusion query.

  Finally it re-measures every subquery, records it in a coverage tracker and computes
  coverage statistics.
- **The query generator** (`QueryGeneration`). It cleans and quotes modifiers and orders them
  by score. It forms r-combinations with at most two entities and buckets year spans. It
  assembles `(base) m1 m2 after:{s-1} before:{e+1}` queries and caps their number. It also
  validates a query string.
- **Modifier extraction** (`ModifierExtraction`). It prepares one text per metadata record and
  post-filters the keyword extractor's answer against a list of stop phrases. It counts
  recognised entities over batches of 100 texts and scores them by their share. It drops
  modifiers that the base query already contains.
- **The OpenAlex downloader** (`OpenAlex`, `InvertedIndex`).
  - An abstract is rebuilt from its inverted index.
  - A work object is accepted as a metadata record, or rejected, by a fixed shaping rule.
  - Accepted records are accumulated page by page until `max_results` are held.
- **The hit counter** (`ScholarHits`).
  - Each query gets up to three attempts, with a back-off between failed ones.
  - The result count is capped at 1000.
  - `count_hits` handles queries one at a time: it saves every tenth row and pauses between
    queries.
  - `analyze_results` counts the results and ranks modifiers and year ranges.

Supporting modules:
- `Basics`: `Option`, Python's prefix slice, filters and counts.
- `Text`: Python's `split`, `join`, `strip`, `lower`, `in` and `count` on strings, the
  `\s+` collapse, and integer rendering.
- `Sorting`: Python's stable descending sort by key, and sorting by a total order.
- `OrderedDict`: an insertion-ordered dictionary as a sequence of pairs.

External services have no implementation in the model:
- The search engine is an oracle. In the splitter it is a function from query strings to hit
  counts. In the hit counter it is a function from (query index, attempt number) to what the
  attempt runs into.
- OpenAlex is the sequence of pages it would return.
- KeyBERT is a function from text and `top_n` to an optional list of scored keywords.
- spaCy is a function from a text to its recognised entities.

Both state-keeping classes are Dafny classes:
- `ExhaustiveQuerySplitter` holds the mutable `coverage_tracker`.
- `ScholarHitsCounter` holds `results` and the log of tries, back-offs, pauses and saves.

Their methods are proved against specification functions, and the properties are lemmas
about those functions.

## Model

| member | source | states |
|---|---|---|
| ExhaustiveSplitter.HitQueryNarrower | pipeline/exhaustive_splitter.py:168-169 | the splitter appends `after:{a} before:{b}` with the bounds as given, which is the generator's clause for the years a+1..b-1: with exclusive bounds both boundary years are left out of the count |
| ExhaustiveSplitter.PreparedKeywordsFrom | pipeline/exhaustive_splitter.py:140-148 | every prepared keyword comes from an input item with at least two elements and at most two whitespace-separated words; its score is item[1] for a pair and item[2] otherwise |
| ExhaustiveSplitter.PreparedKeywordsKeep | pipeline/exhaustive_splitter.py:140-148 | every item that passes the keyword test is prepared |
| ExhaustiveSplitter.PreparedKeywordsInOrder | pipeline/exhaustive_splitter.py:140-148 | the j-th prepared keyword is the conversion of the j-th item that passes the keyword test, and there are exactly as many as pass: input order and multiplicity are kept |
| ExhaustiveSplitter.PreparedEntitiesFrom | pipeline/exhaustive_splitter.py:151-160 | every prepared entity comes from an item with at least two elements; triples keep their type, other items become (entity, item[1]); there is no word-count filter |
| ExhaustiveSplitter.PreparedEntitiesKeep | pipeline/exhaustive_splitter.py:151-160 | every item with at least two elements is prepared |
| ExhaustiveSplitter.PreparedEntitiesInOrder | pipeline/exhaustive_splitter.py:151-160 | the j-th prepared entity is the conversion of the j-th item with at least two elements, and there are exactly as many: input order and multiplicity are kept |
| ExhaustiveSplitter.EffectTableKeys | pipeline/exhaustive_splitter.py:198-219 | an effectiveness table has distinct keys, and its keys are exactly the tested modifier texts (a repeated text keeps its first position) |
| ExhaustiveSplitter.EffectTableEntries | pipeline/exhaustive_splitter.py:198-219 | each entry records the measured hits of `base AND "m"` and the reduction rate 1 - hits/base_hits |
| ExhaustiveSplitter.SortedTableFacts | pipeline/exhaustive_splitter.py:222-232 | a sorted table is a permutation of the table, ordered by reduction rate, non-increasing, and its hits are still the measured ones |
| ExhaustiveSplitter.ModifierMapFacts | pipeline/exhaustive_splitter.py:187-234 | the map tests at most the first 30 keywords and 30 entities; each list is a permutation of its table, ordered by reduction rate, non-increasing, with measured hits |
| ExhaustiveSplitter.EligibleKind | pipeline/exhaustive_splitter.py:250-267 | every candidate of phase 1 has 0 < hits < target_size and the type of its table |
| ExhaustiveSplitter.EligibleMeasured | pipeline/exhaustive_splitter.py:250-267 | a candidate carries the hits measured for its query |
| ExhaustiveSplitter.PoolOrder | pipeline/exhaustive_splitter.py:247-270 | the candidate pool is a permutation of keywords then entities, ordered by hits, non-increasing, and stably: on equal hits a keyword stays ahead of an entity |
| ExhaustiveSplitter.PoolMeasured | pipeline/exhaustive_splitter.py:247-270 | for a faithful map, every pooled candidate's hits are the measured ones and lie in (0, target) |
| ExhaustiveSplitter.Phase1Accounting | pipeline/exhaustive_splitter.py:273-286 | after phase 1, remaining_coverage is base_hits minus the sum of the accepted hits, the used set is the accepted texts, and coverage was positive before each acceptance |
| ExhaustiveSplitter.Phase1Distinct | pipeline/exhaustive_splitter.py:277-285 | no modifier text is accepted twice, even when a keyword and an entity share it |
| ExhaustiveSplitter.Phase1Subsequence | pipeline/exhaustive_splitter.py:273-286 | accepted candidates keep pool order |
| ExhaustiveSplitter.Phase1Exhausts | pipeline/exhaustive_splitter.py:273-286 | phase 1 only ends with coverage left when every pool text is used |
| ExhaustiveSplitter.FreshFromPool | pipeline/exhaustive_splitter.py:273-286 | the fresh candidates (each unused text at its first pool position) come from the pool with unused texts |
| ExhaustiveSplitter.FreshDistinct | pipeline/exhaustive_splitter.py:277 | no text is fresh twice |
| ExhaustiveSplitter.FreshCovers | pipeline/exhaustive_splitter.py:277 | every unused text of the pool has a fresh candidate |
| ExhaustiveSplitter.Phase1Takes | pipeline/exhaustive_splitter.py:273-286 | phase 1 accepts a prefix of the fresh candidates, in pool order, each while coverage was positive, and stops short of all of them only once their hits cover base_hits: every candidate reached with coverage left and an unused text is accepted |
| ExhaustiveSplitter.TakenUntilCoveredUnique | pipeline/exhaustive_splitter.py:273-318 | "take the candidates in order until coverage is reached" fixes the result: at most one prefix of the candidates qualifies, so the phase 1 and phase 2 statements determine what is accepted |
| ExhaustiveSplitter.SingleSplitsSum | pipeline/exhaustive_splitter.py:279-286 | the expected hits of the single splits sum to the accepted candidates' hits |
| ExhaustiveSplitter.SingleSplitsPositive | pipeline/exhaustive_splitter.py:273-275 | each single split was added while coverage was still positive |
| ExhaustiveSplitter.SinglesKind | pipeline/exhaustive_splitter.py:279-284 | every phase-1 entry has type `single` |
| ExhaustiveSplitter.SinglesMeasured | pipeline/exhaustive_splitter.py:279-284 | every single split's expected hits are the measured hits of its query and lie in (0, target) |
| ExhaustiveSplitter.NotUsedFacts | pipeline/exhaustive_splitter.py:294-297 | each unused list is a subsequence of the map keys, of length min(10, number of unused keys), each a map key not in the used set |
| ExhaustiveSplitter.PairRowFacts | pipeline/exhaustive_splitter.py:301-315 | for one keyword: coverage drops by the accepted pair hits, at most one pair per entity is accepted, each accepted pair has 0 < hits < target and was added while coverage was positive |
| ExhaustiveSplitter.PairRowsFacts | pipeline/exhaustive_splitter.py:300-318 | over all keywords the same accounting holds, with at most (keywords × entities) pairs, and both loops stop right after coverage reaches 0 or less |
| ExhaustiveSplitter.PairRowTakes | pipeline/exhaustive_splitter.py:301-315 | for one keyword, the accepted pairs are a prefix of that keyword's pairs with 0 < hits < target in entity order, each added while coverage was positive, and all of them unless their hits reach the remaining coverage |
| ExhaustiveSplitter.PairRowsTakes | pipeline/exhaustive_splitter.py:300-318 | over all keywords, the accepted pairs are the shortest prefix of all in-range pairs, keyword-major, whose hits reach the remaining coverage, or all of them |
| ExhaustiveSplitter.Phase2Bounds | pipeline/exhaustive_splitter.py:289-318 | phase 2 adds nothing without coverage left; otherwise it takes the in-range pairs of the first ten unused keywords and entities until coverage is reached, at most 100 `combination` entries, each pairing an unused map keyword with an unused map entity |
| ExhaustiveSplitter.ExclusionFacts | pipeline/exhaustive_splitter.py:321-337 | phase 3 adds one entry exactly when coverage is left and the exclusion query has hits > 0, none otherwise; it is `exclusion`, built from `NOT "m"` for min(5, used) used modifiers, with measured hits and no upper check |
| ExhaustiveSplitter.StrategyPhases | pipeline/exhaustive_splitter.py:236-338 | the strategy lists singles, then combinations, then the exclusion, which can only be last |
| ExhaustiveSplitter.StrategyMeasured | pipeline/exhaustive_splitter.py:236-338 | every entry's expected hits are the measured hits of its query and positive; singles and combinations are below the target |
| ExhaustiveSplitter.StrategyAccounting | pipeline/exhaustive_splitter.py:240-318 | after phases 1 and 2, remaining_coverage is base_hits minus all accepted expected hits, and each entry was added while coverage was positive |
| ExhaustiveSplitter.ExecutedAt | pipeline/exhaustive_splitter.py:346-363 | the i-th final query has id i+1, copies query, modifiers, type and expected hits, and its actual hits are measured without a year range; over-target queries are kept |
| ExhaustiveSplitter.TrackedLatest | pipeline/exhaustive_splitter.py:366-369 | the coverage tracker holds, for each executed query, the hits and modifiers of its latest execution |
| ExhaustiveSplitter.TrackedUntouched | pipeline/exhaustive_splitter.py:366-369 | queries not executed keep their tracker entry |
| ExhaustiveSplitter.CoveragePercentage | pipeline/exhaustive_splitter.py:375-380 | total coverage is the sum of actual hits; the percentage is 0 when base_hits is 0 or less, and otherwise percentage × base_hits = total × 100 |
| ExhaustiveSplitter.CoverageAverage | pipeline/exhaustive_splitter.py:381-382 | query_count is the number of queries; the average times the count is the total, and it is 0 for no queries |
| ExhaustiveSplitter.CoverageUnderTarget | pipeline/exhaustive_splitter.py:383 | queries_under_target counts strict `<` and equals the query count iff every query is under the target |
| ExhaustiveSplitter.CoverageExtremes | pipeline/exhaustive_splitter.py:384-385 | largest and smallest bound every actual hit count and are attained, or are 0 for no queries |
| ExhaustiveSplitter.TestModifiers | pipeline/exhaustive_splitter.py:198-219 | the test loop fails (division by zero) exactly when there is something to test and the base query has no hits; otherwise it yields the effectiveness table |
| ExhaustiveSplitter.EligibleOf | pipeline/exhaustive_splitter.py:250-267 | the collection loop yields the eligible candidates of a table in table order |
| ExhaustiveSplitter.SelectSingles | pipeline/exhaustive_splitter.py:273-286 | the greedy loop yields the single splits, the remaining coverage and the used set of phase 1 |
| ExhaustiveSplitter.TryRow | pipeline/exhaustive_splitter.py:301-315 | the inner pair loop for one keyword equals its specification, which PairRowTakes characterises |
| ExhaustiveSplitter.TryPairs | pipeline/exhaustive_splitter.py:300-318 | the nested pair loops equal their specification, which PairRowsTakes characterises |
| ExhaustiveSplitter.ListSet | pipeline/exhaustive_splitter.py:326 | `list(used_modifiers)` lists each used modifier exactly once, in some order |
| ExhaustiveSplitter.Exclude | pipeline/exhaustive_splitter.py:321-337 | phase 3 for some listing of the used set |
| ExhaustiveSplitter.ExhaustiveQuerySplitter.constructor | pipeline/exhaustive_splitter.py:23-34 | stores the counter and target size and starts with an empty coverage tracker |
| ExhaustiveSplitter.ExhaustiveQuerySplitter.PrepareModifiers | pipeline/exhaustive_splitter.py:135-162 | the prepared keyword and entity lists of the input: the j-th keyword (entity) is the conversion of the j-th item that passes its test, in input order |
| ExhaustiveSplitter.ExhaustiveQuerySplitter.BuildModifierMap | pipeline/exhaustive_splitter.py:187-234 | the effectiveness map measured with the run's year range, or failure on a zero base count |
| ExhaustiveSplitter.ExhaustiveQuerySplitter.CreateSplitStrategy | pipeline/exhaustive_splitter.py:236-338 | the three-phase strategy for some listing of the used set; Phase1Takes, Phase2Bounds and ExclusionFacts say what each phase accepts |
| ExhaustiveSplitter.ExhaustiveQuerySplitter.ExecuteSplits | pipeline/exhaustive_splitter.py:340-371 | the numbered, re-measured final queries, with the tracker updated entry by entry |
| ExhaustiveSplitter.ExhaustiveQuerySplitter.SplitExhaustively | pipeline/exhaustive_splitter.py:36-133 | if base hits ≤ target_size: status `complete`, the single (base, hits) query, coverage 100.0, nothing tested; otherwise the prepared, measured, split, executed and summarised run, or failure |
| QueryGeneration.UnescapeEscape | pipeline/query_generation.py:146 | escaping `"` as `\"` can be undone, so no text is lost |
| QueryGeneration.CleanModifierRoundTrip | pipeline/query_generation.py:130-150 | the cleaned modifier is quoted iff the normalised text has a blank or a character of the set at line 30; unquoting and unescaping gives the normalised text back |
| QueryGeneration.CleanModifierEmpty | pipeline/query_generation.py:141 | cleaning gives the empty string exactly for whitespace-only input |
| QueryGeneration.CleanAllKind | pipeline/query_generation.py:114-123 | every kept modifier has non-empty text and the kind of its source list |
| QueryGeneration.CleanItems | pipeline/query_generation.py:114-123 | the cleaning loop keeps the non-empty cleaned modifiers in order |
| QueryGeneration.PrepareModifiers | pipeline/query_generation.py:101-128 | cleaned keywords then cleaned entities, sorted by score |
| QueryGeneration.PreparedOrder | pipeline/query_generation.py:126 | the prepared list is a permutation of the cleaned inputs, ordered by score, non-increasing, with keywords ahead of entities on ties, and has no empty text |
| QueryGeneration.ChooseLen | pipeline/query_generation.py:170 | there are C(n, r) r-combinations |
| QueryGeneration.ChooseShape | pipeline/query_generation.py:170 | each r-combination has r elements in input order |
| QueryGeneration.IndexTuplesSound | pipeline/query_generation.py:170 | every index tuple has r strictly increasing indexes below n |
| QueryGeneration.IndexTuplesComplete | pipeline/query_generation.py:170 | every tuple of r strictly increasing indexes below n is an index tuple |
| QueryGeneration.IndexTuplesOrdered | pipeline/query_generation.py:170 | the index tuples are in strictly increasing lexicographic order |
| QueryGeneration.IndexTuplesDistinct | pipeline/query_generation.py:170 | no index tuple occurs twice |
| QueryGeneration.ChooseByIndex | pipeline/query_generation.py:170 | `combinations(s, r)`: the j-th combination is s at the j-th index tuple, the tuples being exactly the strictly increasing r-tuples of positions, each once, in lexicographic order |
| QueryGeneration.KeepFewEntities | pipeline/query_generation.py:170-174 | the combination loop keeps exactly the combos with at most two entities, in order |
| QueryGeneration.GenerateCombinations | pipeline/query_generation.py:152-176 | the loops equal the specification: singles, then for r = 2..max the r-combinations with at most two entities, in the order ChooseByIndex states |
| QueryGeneration.CombinationsShape | pipeline/query_generation.py:162-176 | the list starts with the singles in input order; every other entry has 2..max elements, at most two entities, in input order |
| QueryGeneration.CombinationsComplete | pipeline/query_generation.py:169-174 | every selection of 2..max modifiers at increasing positions with at most two entities is generated |
| QueryGeneration.CombinationsCountTwo | pipeline/query_generation.py:162-176 | with max = 2 there are n + n(n-1)/2 combinations (three entities never fit in a pair) |
| QueryGeneration.SteppedRanges | pipeline/query_generation.py:196-210 | one stepped loop yields its buckets (year, min(year + width, end)) |
| QueryGeneration.GenerateYearRanges | pipeline/query_generation.py:178-212 | the year-range loops equal the specification |
| QueryGeneration.EachYearAt | pipeline/query_generation.py:192-195 | the short-span loop yields (y, y) for each year in order |
| QueryGeneration.BucketsAt | pipeline/query_generation.py:196-210 | the i-th bucket starts at start + i·step, before `end_year`, and ends at min(start + i·step + width, end_year); every such start is listed |
| QueryGeneration.YearRangesBounds | pipeline/query_generation.py:178-212 | every range lies within [start, end] and is narrower than its step; ranges are strictly increasing and disjoint |
| QueryGeneration.YearRangesShortSpan | pipeline/query_generation.py:192-195 | with at most five years there is one (y, y) per year, covering every year |
| QueryGeneration.YearRangesCoverBeforeEnd | pipeline/query_generation.py:196-210 | for longer spans every year before `end_year` is covered, and no bucket starts at `end_year` |
| QueryGeneration.YearRangesMissEndExample | pipeline/query_generation.py:196-200 | 2010–2018 gives (2010, 2011) … (2016, 2017), so 2018 is not covered |
| QueryGeneration.QueryDictShape | pipeline/query_generation.py:214-254 | the query is `"(" + base + ")"`, then `" " + m` per modifier in order, then the year clause; the dict records base, modifiers, year range and modifier_count = number of modifiers |
| QueryGeneration.ModRowsLen | pipeline/query_generation.py:72-84 | without a cap the modifier loops produce ranges × combos queries |
| QueryGeneration.ModRowsAt | pipeline/query_generation.py:72-84 | modifier queries are year-major: entry i·C + j pairs combo j with year range i |
| QueryGeneration.AllQueriesLen | pipeline/query_generation.py:72-96 | without a cap there are Y·(C+1) queries |
| QueryGeneration.AllQueriesModifierAt | pipeline/query_generation.py:72-84 | the first Y·C queries are the modifier queries, year-major |
| QueryGeneration.AllQueriesBaseAt | pipeline/query_generation.py:87-96 | after them comes one base-only query per year range |
| QueryGeneration.SubqueryCount | pipeline/query_generation.py:69-96 | with max_queries ≥ 0 there are min(max_queries, Y·(C+1)) queries |
| QueryGeneration.RowQueries | pipeline/query_generation.py:73-81 | the inner loop adds one query per combination for its year range and stops once max_queries exist |
| QueryGeneration.ModifierQueries | pipeline/query_generation.py:72-84 | the first loop nest yields a prefix of the full list, never above the cap, and the whole modifier part when under it |
| QueryGeneration.BaseQueries | pipeline/query_generation.py:87-96 | the base loop extends the prefix, never above the cap, and completes the list when under it |
| QueryGeneration.GenerateSubqueries | pipeline/query_generation.py:32-99 | the result is the first max(0, max_queries) entries of the full year-major list; year ranges are generated only when both years are truthy and none are given, and default to `[None]` |
| QueryGeneration.CheckParens | pipeline/query_generation.py:271-281 | the counting loop accepts iff the running depth never goes negative and ends at 0 |
| QueryGeneration.ValidateQuery | pipeline/query_generation.py:256-290 | the checks run in order (empty, parentheses, quotes, length), and the first failing one gives its message |
| QueryGeneration.ValidationIff | pipeline/query_generation.py:267-290 | valid iff the query is not whitespace-only, its parentheses balance, `"` minus `\"` is even and it has at most 1000 characters; there is no message exactly when valid |
| ModifierExtraction.StrongConceptNames | pipeline/modifier_extraction.py:119-122 | the loop collects the names of concepts with score > 0.5, in order |
| ModifierExtraction.ConceptNamesFacts | pipeline/modifier_extraction.py:119-122 | a name is collected iff some concept with score > 0.5 has it |
| ModifierExtraction.PrepareText | pipeline/modifier_extraction.py:93-129 | title, abstract (rebuilt when it is an index) and strong concept names, joined, collapsed and stripped |
| ModifierExtraction.PreparedTextFacts | pipeline/modifier_extraction.py:125-127 | the `\s+` collapse plus strip is `' '.join(text.split())`: same words, normalised, empty iff the parts are all whitespace |
| ModifierExtraction.CollectTexts | pipeline/modifier_extraction.py:70-74 | the collection loop keeps the non-empty prepared texts in order |
| ModifierExtraction.CollectedTextsFacts | pipeline/modifier_extraction.py:70-74 | the corpus has no empty text, only normalised ones, in record order |
| ModifierExtraction.KeywordsFacts | pipeline/modifier_extraction.py:189-195 | kept keywords are at most top_k, in the extractor's order, free of stop phrases; when no more than top_k survive the filter, all of them are kept |
| ModifierExtraction.ExtractKeywords | pipeline/modifier_extraction.py:156-199 | the extractor is asked for top_k·2 keywords of the joined texts; an exception gives no keywords |
| ModifierExtraction.BatchesPartition | pipeline/modifier_extraction.py:217-222 | the batches concatenate to the texts exactly; each has 1..size texts and their number is the ceiling of texts/size |
| ModifierExtraction.DocMentionsMembers | pipeline/modifier_extraction.py:226-231 | a mention is counted iff some entity of the document has a listed label and a stripped text longer than 2 |
| ModifierExtraction.MentionsMembers | pipeline/modifier_extraction.py:221-231 | a mention of the corpus comes from one of its documents, and every document's mentions count |
| ModifierExtraction.MentionsAppend | pipeline/modifier_extraction.py:221-231 | counting batch by batch equals counting all texts |
| ModifierExtraction.TallyFromCount | pipeline/modifier_extraction.py:231 | after counting, each entity's count grows by its number of mentions |
| ModifierExtraction.TallyFromKeys | pipeline/modifier_extraction.py:231 | the counter's keys are the old keys plus the mentions |
| ModifierExtraction.TallyFromSum | pipeline/modifier_extraction.py:234 | the counter's total grows by the number of mentions |
| ModifierExtraction.TallyFacts | pipeline/modifier_extraction.py:214-234 | the counter maps each mentioned entity, once, to its number of mentions, and its total is the number of mentions |
| ModifierExtraction.CountDoc | pipeline/modifier_extraction.py:226-231 | the per-document loop adds the document's mentions to the counter |
| ModifierExtraction.CountBatch | pipeline/modifier_extraction.py:223-231 | the per-batch loop adds the batch's mentions to the counter |
| ModifierExtraction.SortedCounter | pipeline/modifier_extraction.py:236 | ordering the counter by count is a permutation with non-increasing counts and distinct entities |
| ModifierExtraction.MostCommonFacts | pipeline/modifier_extraction.py:236 | `most_common(k)` returns min(k, size) distinct counter entries in non-increasing count order, and none for k ≤ 0 |
| ModifierExtraction.MostCommonExcluded | pipeline/modifier_extraction.py:236 | an entry left out means k were returned, each with at least its count |
| ModifierExtraction.TopSharesScores | pipeline/modifier_extraction.py:234-238 | at most top_k entities are returned, each a mention with score count/total |
| ModifierExtraction.TopSharesOrdered | pipeline/modifier_extraction.py:234-238 | returned entities are distinct, in non-increasing count and score order |
| ModifierExtraction.TopSharesComplete | pipeline/modifier_extraction.py:234-238 | a mentioned entity left out means top_k were returned, each counted at least as often |
| ModifierExtraction.ScoreShares | pipeline/modifier_extraction.py:235-238 | the scoring loop gives each entry count/total |
| ModifierExtraction.ExtractEntities | pipeline/modifier_extraction.py:201-240 | batches of 100 are counted in order and the top_k shares returned |
| ModifierExtraction.ExtractModifiers | pipeline/modifier_extraction.py:53-91 | keywords and entities are both extracted from the same corpus of non-empty prepared texts |
| ModifierExtraction.KeepNotInBase | pipeline/modifier_extraction.py:258-260 | the filter loop keeps, in order, the items whose lowercased text is not in the lowercased base query |
| ModifierExtraction.FilterModifiers | pipeline/modifier_extraction.py:242-266 | keywords and entities are filtered alike |
| ModifierExtraction.BaseFilterFacts | pipeline/modifier_extraction.py:254-265 | the output is an ordered subsequence; an item is kept iff its lowercased text is not a substring of the lowercased base query; filtering twice is filtering once |
| InvertedIndex.ReconstructAbstract | pipeline/openalex_direct.py:215-238 | the loops list every (position, word) pair, sort them and join the words; an empty index gives "" |
| InvertedIndex.PostingOrder | pipeline/openalex_direct.py:235 | tuple comparison on (position, word) is total, transitive and antisymmetric, so the sort has one outcome |
| InvertedIndex.PostingsMembers | pipeline/modifier_extraction.py:145-148 | a listed pair is exactly a word of the index with one of its positions |
| InvertedIndex.TokensCount | pipeline/openalex_direct.py:229-236 | the text has one token per listed position |
| InvertedIndex.OrderFree | pipeline/modifier_extraction.py:146-152 | the text does not depend on the order in which the dictionary lists its entries |
| InvertedIndex.TokenAtPosition | pipeline/openalex_direct.py:235-236 | when the positions are 0..n-1 each once, token p is the word listed at position p |
| OpenAlex.RejectedWorks | pipeline/openalex_direct.py:146-213 | a work is rejected exactly when it is not an object, is empty, has neither title nor display_name, or shaping raises on a null: the authorships or concepts list, an entry of either, an authorship's author, primary_location, its source, or open_access |
| OpenAlex.AcceptedRecord | pipeline/openalex_direct.py:152-206 | an accepted record has a non-empty title (title, else display_name), the rebuilt abstract or '' without an index, and one author per authorship |
| OpenAlex.AuthorsOfLength | pipeline/openalex_direct.py:172-179 | authors are shaped one per authorship, and shaping fails exactly on a null authorship or author |
| OpenAlex.ConceptsOfFacts | pipeline/openalex_direct.py:182-188 | concepts are shaped one per concept with its display name or '', and shaping fails exactly on a null concept |
| OpenAlex.TakeWorksPrefix | pipeline/openalex_direct.py:95-106 | a page extends the records by its accepted works in order, skipping `None` and rejected works, and stops at max_results |
| OpenAlex.AccumulateBound | pipeline/openalex_direct.py:78-116 | the loop never holds more than max_results records |
| OpenAlex.DownloadBound | pipeline/openalex_direct.py:77-128 | the result has at most max_results records, and the final cut changes nothing |
| OpenAlex.AccumulatePrefix | pipeline/openalex_direct.py:78-116 | the records are a prefix of all pages' accepted works, in page order |
| OpenAlex.AccumulateStops | pipeline/openalex_direct.py:82-114 | after a non-200 page, an empty page or a page with no next cursor, later pages are never read |
| OpenAlex.DownloadMetadata | pipeline/openalex_direct.py:44-134 | the download loop equals its specification |
| ScholarHits.Estimate | pipeline/scholar_hits.py:203-211 | the estimate never exceeds 1000 |
| ScholarHits.EstimateTotalResults | pipeline/scholar_hits.py:186-215 | the counting loop gives min(count, 1000), and 0 when the search raises first |
| ScholarHits.SettleReaches | pipeline/scholar_hits.py:144-182 | failing attempts only move the retry loop on |
| ScholarHits.SettleFrom | pipeline/scholar_hits.py:144-182 | the loop stops after at most 3 attempts, all failing but the last; success at the first attempt that does not raise, error with the last message only after the third failure |
| ScholarHits.CountSingleOutcome | pipeline/scholar_hits.py:141-184 | 1..3 attempts; status `error` with hit count 0 and the last message iff all three raise; otherwise `success` at the first attempt that does not raise, with its hits and no error |
| ScholarHits.SuccessHits | pipeline/scholar_hits.py:152-171 | a successful count is at most 1000 and positive only when there was a first result |
| ScholarHits.RetriesShape | pipeline/scholar_hits.py:173-182 | each failing attempt is followed by the 60-second back-off |
| ScholarHits.TryLogShape | pipeline/scholar_hits.py:141-182 | n attempts alternate with n-1 back-offs; there is no back-off after the last attempt |
| ScholarHits.RowsShape | pipeline/scholar_hits.py:93-95 | row i has index i and the query's text, base query and modifier count; it is settled and its hit count is at most 1000 |
| ScholarHits.TenthIsMultiple | pipeline/scholar_hits.py:98 | the save test is (i+1) % 10 == 0 |
| ScholarHits.QueryLogTries | pipeline/scholar_hits.py:93-104 | a query's log has its t attempts and t-1 back-offs |
| ScholarHits.QueryLogPauses | pipeline/scholar_hits.py:101-104 | a query is followed by a pause unless it is the last |
| ScholarHits.QueryLogSaves | pipeline/scholar_hits.py:97-99 | a query's log saves exactly when its 1-based number is a multiple of 10 |
| ScholarHits.CountLogTries | pipeline/scholar_hits.py:90-104 | a run makes between n and 3n attempts, n plus one per back-off |
| ScholarHits.CountLogPauses | pipeline/scholar_hits.py:101-104 | a run pauses n-1 times, only between queries |
| ScholarHits.CountLogSaves | pipeline/scholar_hits.py:97-107 | a run saves after every tenth row, and once more at the end |
| ScholarHits.UniqueFacts | pipeline/scholar_hits.py:291 | `unique()` lists each column value exactly once |
| ScholarHits.MeanHits | pipeline/scholar_hits.py:294 | the mean times the group size is the group's total hits |
| ScholarHits.MeanHitsBounds | pipeline/scholar_hits.py:294 | with counts capped at 1000 the mean lies in 0..1000 |
| ScholarHits.TotalHitsBound | pipeline/scholar_hits.py:294 | with counts capped at 1000 a group has at most 1000 hits per row |
| ScholarHits.PerformancesFacts | pipeline/scholar_hits.py:290-300 | an entry is listed exactly for each non-empty distinct value; it holds the value's group mean and its count of rows under 1000 |
| ScholarHits.BestFacts | pipeline/scholar_hits.py:302-304 | at most 10 distinct entries, ordered by queries_under_1000, non-increasing, each for a non-empty value of the column |
| ScholarHits.BestComplete | pipeline/scholar_hits.py:302-304 | a non-empty value left out means 10 entries were kept, each with at least its queries_under_1000 |
| ScholarHits.AnalysisCounts | pipeline/scholar_hits.py:279-286 | successful + failed ≤ total, and queries under 1000 count only successful rows |
| ScholarHits.CompleteRunCounts | pipeline/scholar_hits.py:279-283 | after count_hits every row is either successful or failed |
| ScholarHits.CompleteRunAverages | pipeline/scholar_hits.py:289-321 | after count_hits every ranked average lies in 0..1000 |
| ScholarHits.RankColumn | pipeline/scholar_hits.py:289-304 | the ranking loop equals its specification |
| ScholarHits.AnalyzeResults | pipeline/scholar_hits.py:269-323 | the analysis of the rows, with both rankings |
| ScholarHits.ScholarHitsCounter.constructor | pipeline/scholar_hits.py:23-44 | stores the proxy settings and starts with no results |
| ScholarHits.ScholarHitsCounter.SaveResults | pipeline/scholar_hits.py:217-236 | saving changes no row and logs one save of the current rows |
| ScholarHits.ScholarHitsCounter.CountSingleQuery | pipeline/scholar_hits.py:114-184 | the row the retry loop settles on, with its attempts and back-offs logged |
| ScholarHits.ScholarHitsCounter.Pace | pipeline/scholar_hits.py:97-104 | saves after every tenth row and pauses unless at the last query |
| ScholarHits.ScholarHitsCounter.CountHits | pipeline/scholar_hits.py:75-112 | results are reset and hold one row per query in order; the log is every query's attempts, saves and pauses, then the final save |
| Text.SplitJoin | pipeline/query_generation.py:141 | splitting blank-joined words gives the words back |
| Text.NormalizeIdempotent | pipeline/query_generation.py:141 | normalising twice is normalising once |
| Text.NormalizeEmptyIffAllSpace | pipeline/query_generation.py:141 | normalised text is empty iff the input is whitespace-only |
| Text.StripCollapseIsNormalize | pipeline/modifier_extraction.py:126-127 | `re.sub(r'\s+', ' ', s).strip()` equals `' '.join(s.split())` |
| Text.StripEmptyIffAllSpace | pipeline/query_generation.py:267 | `s.strip()` is empty iff `s` is whitespace-only |
| Text.SplitEmptyIffAllSpace | pipeline/exhaustive_splitter.py:146 | `s.split()` has no words iff `s` is whitespace-only |
| Text.LowerIdempotent | pipeline/modifier_extraction.py:254 | lowercasing twice is lowercasing once |
| Text.ContainsIffOccurs | pipeline/modifier_extraction.py:259 | Python's `p in s` on strings holds iff `p` occurs at some position of `s` |
| Text.IntToStringRoundTrip | pipeline/query_generation.py:241-243 | the year bounds are rendered in decimal and read back |
| Sorting.SortDescPermutes | pipeline/query_generation.py:126 | a descending sort by key is a permutation |
| Sorting.SortDescOrdered | pipeline/query_generation.py:126 | its keys are non-increasing |
| Sorting.SortDescStable | pipeline/exhaustive_splitter.py:270 | it is stable: elements with equal keys keep their relative order |
| Sorting.SortDescMembers | pipeline/scholar_hits.py:303 | it keeps exactly the elements of its input |
| Sorting.SortDescDistinct | pipeline/scholar_hits.py:303 | it keeps a list without repeats free of repeats |
| Sorting.SortByPermutes | pipeline/openalex_direct.py:235 | sorting by an order is a permutation |
| Sorting.SortBySorted | pipeline/openalex_direct.py:235 | with a total, transitive order the result is sorted |
| Sorting.SortedUnique | pipeline/openalex_direct.py:235 | two sorted permutations of each other under an antisymmetric order are equal |
| OrderedDict.GetPut | pipeline/exhaustive_splitter.py:366-369 | after `d[k] = v`, k maps to v and other keys are unchanged |
| OrderedDict.PutKeys | pipeline/exhaustive_splitter.py:202 | assignment keeps an existing key's place and appends a new key at the end |
| OrderedDict.PutKeepsOthers | pipeline/exhaustive_splitter.py:366 | assignment leaves every other entry in place |
| Basics.Take | pipeline/exhaustive_splitter.py:198 | `s[:k]` is a prefix of length min(k, size), or counted from the end for negative k |

## Left out

- Network and scraping are not modelled: HTTP sessions and `scholarly.search_pubs` are
  oracles. The proxy setup `_setup_proxy` (pipeline/scholar_hits.py:46-73) is left out as
  network configuration. OpenAlex request parameters, the contact email and the cursor
  parameter are left out too; only the pages' outcomes are input.
- The splitter's hit counter is an abstract deterministic function of the query string. It
  is not composed with the hit counter's retry model. The simulated random counter used when
  no counter is given (pipeline/exhaustive_splitter.py:181-185) is left out.
- Time and randomness are not modelled: waits are events without a duration
  (`random.uniform` delay, `time.sleep`). Timestamps, tqdm progress, printing and logging are
  left out, and so is `_log_summary`, which only logs.
- Persistence is not modelled: the CSV and JSON writes (`_save_results` of both the hit
  counter and the downloader, the result files of `split_exhaustively`), file paths,
  `output_dir` and `load_existing_metadata`. A save is recorded as an event.
- DataFrames are sequences of rows. `sort_values('index')` is not modelled, since rows are
  already in index order.
- A frame built from no rows has no columns, so the source raises `KeyError` for an empty
  run. This happens in `count_hits` (at `sort_values`) and in `analyze_results` (at
  `df['status']`). The model answers `None` in both cases.
- KeyBERT, CountVectorizer and spaCy are functions given as parameters. What they compute is
  outside the model.
- Floating-point values are real numbers without rounding: scores, reduction rates, means,
  shares and the coverage percentage.
- `str.lower()` is modelled on ASCII letters only. Whitespace is the set of code points
  Python's `str.isspace()` accepts.
- Python's iteration order for `list(used_modifiers)` is open: the exclusion phase is proved
  for every listing of the set.
- Missing dictionary keys of the inputs are read as empty lists. The constructor parameter
  that sets the maximum combination size is a plain argument.
- The unused `processed_queries` set of the splitter is left out. So is the `combinations`
  entry of its effectiveness map, which is always empty.
- A division by zero in `_build_modifier_map` ends the run with `Failed`. No other exception
  of the splitter is modelled.
- In the downloader a shaping exception is modelled as a null in one of these places: the
  `authorships` or `concepts` list, an entry of either, an authorship's `author`,
  `primary_location`, its `source`, or `open_access`. A work whose fields have other JSON
  types is not modelled. The re-raise of request exceptions and a null `meta` are left out.
- The year range of a result row is rendered as `None` or `(a, b)`. The string `None` is a
  non-empty value and is ranked among the year ranges, as in the source.
- ScholarHits.BestFacts: the order of rows with equal `queries_under_1000` is not stated.
  Membership, order, bounds and completeness are.
- ScholarHits.UniqueFacts: the first-appearance order of `unique()` is modelled but not
  stated. Membership and distinctness are.
