# Text de-duplication matcher and SenseVoice word splitter, in Dafny

This project models two parts of the transcription back end.

The first is the text matcher in `backend/app/text_deduplication/text_matcher.py`. A speech recogniser gives a redundant list of word records. Each record has a text, a start time, an end time and a confidence, and the same words appear several times with different cuts. A de-duplicated target text is also given. The matcher picks the records that spell the target. The model covers:

- `clean_text`: punctuation and whitespace removal.
- `greedy_match`: the greedy pass.
- `_combine_characters_to_words`: the character combiner.
- `find_best_match_sequence`: the default best-match scan.
- `match_and_filter` and `batch_process`: the module-level entry points.

The second is `TranscriptionService._convert_sensevoice_to_word_level` in `backend/app/transcription_service.py`. It turns SenseVoice's output into word records. It:

1. removes the `<|...|>` markers;
2. strips the text;
3. splits it into words at whitespace and at CJK ideographs: an ideograph after another ideograph, after whitespace or at the start is a word on its own, and an ideograph after any other character starts a new word that the following non-space, non-ideograph characters join;
4. gives each word a timestamp pair.

Each loop of the source is a Dafny `method` with its `while`/`for` loop. Each method is proved equal to a specification function:

| method | specification function |
|---|---|
| `GreedyMatch` | `Greedy` |
| `MergeAdjacent` | `MergeRuns` |
| `AddBackWords` | `ReAdd` |
| `CombineCharactersToWords` | `Combined` |
| `FindBestMatchSequence` | `BestMatch` |
| `MatchAndFilter` | `MatchFilter` |
| `SplitWords` | `Tokenize` |
| `ConvertToWordLevel` | `WordLevel` |

Two library calls of the source have no loop of their own and are functions only: `re.sub(r'<\|[^|]*\|>', '', text)` is `SenseVoice.StripTags` and `.strip()` is `SenseVoice.Strip` (transcription_service.py:243-244). `WordLevel` applies them before `Tokenize`.

What the source promises is then proved about those functions as lemmas. Records are the datatype `Word(word, start, end, conf)`, with times and confidences as `real`.

Modules, one per file:

| module | file | contents |
|---|---|---|
| `Strings` | strings.dfy | substrings, subsequences, Python's whitespace set, the CJK range |
| `Records` | records.dfy | the word record, `Option`, joined text |
| `Sorting` | sorting.dfy | Python's stable `sorted`/`list.sort` with the combiner's two keys |
| `Cleaning` | clean_text.dfy | `clean_text` |
| `GreedyMatching` | greedy_match.dfy | `greedy_match` |
| `Combining` | combine_words.dfy | `_combine_characters_to_words` |
| `BestMatching` | best_match.dfy | `find_best_match_sequence` |
| `MatchFiltering` | match_filter.dfy | `match_and_filter` and `batch_process` |
| `SenseVoice` | sensevoice.dfy | `_convert_sensevoice_to_word_level` |

Where the source's own comments and docstrings describe something other than what its code does, the model follows the code.

- **No dynamic programming.** The module docstring (text_matcher.py:12) promises a rightmost-match-first strategy. The `use_dp` docstring (text_matcher.py:319) and the comment on that branch (text_matcher.py:345) call the default mode a dynamic-programming algorithm. `find_best_match_sequence` (text_matcher.py:72-134) builds no table and prefers no rightmost match. It combines records, then scans the cleaned target left to right. At each position it takes the unused record with the longest exact match, and on equal length the higher confidence. `BestMatching` models that scan.
- **Mixed-script words.** The comment at transcription_service.py:256-257 says Chinese is split by character and English by word. The code keeps an ideograph that follows a non-space, non-ideograph character together with the non-space, non-ideograph characters after it: `a中b` gives the words `a` and `中b` (`SenseVoice.TokenizeCjkStartsWord`).
- **Stale docstring example.** The example in the docstring of `match_and_filter` (text_matcher.py:326-335) returns the two original records `大家好` and `欢迎`. The code merges them instead. They are consecutive by start time and their joined text occurs in the target, so the result is one merged record, `大家好欢迎`, from 0.33 to 0.9. The model follows the code.

Two further points about the code itself:

- **Punctuation-only records.** The greedy pass keeps such a record when it meets it before the end of the target (`GreedyMatching.GreedyKeepsPunctuation`). The best-match scan never takes one.
- **Batch failures.** `batch_process` (text_matcher.py:352-368) catches nothing, so an exception raised for one pair ends the whole batch. The model has no error path, so `MatchFiltering.BatchProcess` always yields one result per pair.

## Model

| member | source | states |
|---|---|---|
| Cleaning.CleanText | backend/app/text_deduplication/text_matcher.py:40-57 | the cleaned text is never longer than the input |
| Cleaning.CleanTextKept | backend/app/text_deduplication/text_matcher.py:56 | no punctuation (ASCII or the Chinese list) and no whitespace survives cleaning |
| Cleaning.CleanTextKeepsExactly | backend/app/text_deduplication/text_matcher.py:56 | a character occurs in the cleaned text if and only if it occurs in the input and is neither punctuation nor whitespace |
| Cleaning.CleanTextSubseq | backend/app/text_deduplication/text_matcher.py:56 | cleaning keeps the remaining characters in their original order (the result is a subsequence of the input) |
| Cleaning.CleanTextOfClean | backend/app/text_deduplication/text_matcher.py:56 | a text with nothing to remove is returned unchanged |
| Cleaning.CleanTextIdempotent | backend/app/text_deduplication/text_matcher.py:40-57 | cleaning twice is cleaning once |
| Cleaning.CleanTextAppend | backend/app/text_deduplication/text_matcher.py:56 | cleaning a concatenation is concatenating the cleaned parts |
| Sorting.Sort | backend/app/text_deduplication/text_matcher.py:149 | the sort returns its input reordered (same multiset) and sorted by the key |
| Sorting.SortStable | backend/app/text_deduplication/text_matcher.py:206 | the sort is stable: the records sharing any one key keep their input order |
| Sorting.InsertPermutes | backend/app/text_deduplication/text_matcher.py:149 | one insertion adds exactly the inserted record |
| Sorting.InsertSorted | backend/app/text_deduplication/text_matcher.py:149 | one insertion into a sorted list keeps it sorted |
| GreedyMatching.Acceptable | backend/app/text_deduplication/text_matcher.py:286-291 | the loop's test holds iff the cleaned word fits in the rest of the cleaned target and equals, or is at least `threshold` similar to, the segment under the cursor |
| GreedyMatching.GreedyMatch | backend/app/text_deduplication/text_matcher.py:265-299 | the for loop with its early `break` returns the greedy pass over the cleaned target from cursor 0 |
| GreedyMatching.GreedySubseq | backend/app/text_deduplication/text_matcher.py:281-294 | the greedy result is a subsequence of the input records: records are only dropped, never reordered or altered |
| GreedyMatching.GreedyPlacement | backend/app/text_deduplication/text_matcher.py:281-297 | every kept record passes the test at the cursor; the cursor advances by its cleaned length; no record is kept once the cursor has reached the end; the final cursor never passes the end of the cleaned target |
| GreedyMatching.GreedyKeeps | backend/app/text_deduplication/text_matcher.py:290-297 | a record that passes the test is kept, and the pass stops exactly when the moved cursor reaches the end |
| GreedyMatching.GreedyExact | backend/app/text_deduplication/text_matcher.py:265-299 | when the records' cleaned texts, none empty, spell the rest of the target exactly, every record is kept, for any threshold and scorer |
| GreedyMatching.GreedyKeepsPunctuation | backend/app/text_deduplication/text_matcher.py:286-294 | a punctuation-only record met before the end of the target is kept and does not move the cursor |
| GreedyMatching.AcceptsBySimilarity | backend/app/text_deduplication/text_matcher.py:290-291 | for a scorer that is a ratio in [0, 1], equal to 1 on equal strings, and a threshold of at most 1, the exact comparison only short-cuts the similarity test |
| Combining.MaxConfIsMax | backend/app/text_deduplication/text_matcher.py:175 | the running `max` of a run's confidences is at least each of them and equal to one of them |
| Combining.MergeRun | backend/app/text_deduplication/text_matcher.py:181-186 | a merged record has the run's joined text, the first record's start, the last record's end and the run's highest confidence |
| Combining.RunEnd | backend/app/text_deduplication/text_matcher.py:163-178 | a run never shrinks and never passes the end of the sorted list |
| Combining.Runs | backend/app/text_deduplication/text_matcher.py:154-189 | every run the first pass cuts is nonempty |
| Combining.RunsPartition | backend/app/text_deduplication/text_matcher.py:154-189 | the runs, joined back, are exactly the start-sorted records: nothing is lost, duplicated or reordered |
| Combining.MergeRunsText | backend/app/text_deduplication/text_matcher.py:154-189 | the merged records' texts, joined, equal the sorted records' texts joined |
| Combining.RunsInTarget | backend/app/text_deduplication/text_matcher.py:171 | every run of two or more records has a joined text that occurs in the target text |
| Combining.RunEndStops | backend/app/text_deduplication/text_matcher.py:163-178 | a run that ends before the last record ends at a record whose text, joined to the run's, does not occur in the target |
| Combining.RunsMaximal | backend/app/text_deduplication/text_matcher.py:163-178 | the runs are as long as they can be: each run but the last is followed by a record whose text, joined to the run's, does not occur in the target |
| Combining.ReAddComplete | backend/app/text_deduplication/text_matcher.py:192-204 | after the second pass every original record longer than one character is covered by some record of the result: its text occurs in that record's, and their starts are less than 0.1 s apart |
| Combining.ReAddShape | backend/app/text_deduplication/text_matcher.py:192-204 | the second pass keeps the merged list as a prefix and appends original records in their original order, each longer than one character and covered by nothing before it |
| Combining.CombinedOrdered | backend/app/text_deduplication/text_matcher.py:206 | the combiner's result is ordered longest text first, then by start time, and is a permutation of the two passes' output; records with the same length and start keep the order of the two passes' output |
| Combining.ExtendRun | backend/app/text_deduplication/text_matcher.py:155-186 | the inner `j` loop ends where the run ends and yields the run's merged record |
| Combining.MergeAdjacent | backend/app/text_deduplication/text_matcher.py:154-189 | the outer `i` loop produces one merged record per run |
| Combining.IsIncluded | backend/app/text_deduplication/text_matcher.py:195-200 | the inner loop with its `break` reports a record as included iff some record built so far contains its text and starts less than 0.1 s away |
| Combining.AddBackWords | backend/app/text_deduplication/text_matcher.py:192-204 | the second pass appends exactly the records the re-add rule selects |
| Combining.CombineCharactersToWords | backend/app/text_deduplication/text_matcher.py:136-208 | the combiner returns the sort, by length and then start, of the second pass applied to the first pass over the start-sorted records |
| BestMatching.BestIn | backend/app/text_deduplication/text_matcher.py:100-123 | a record the inner loop picks is among those seen, unused, non-empty once cleaned, and matches the target exactly at the cursor |
| BestMatching.BestInIsBest | backend/app/text_deduplication/text_matcher.py:100-123 | the inner loop finds nothing iff no unused record matches at the cursor; otherwise its pick is at least as long as every match, has at least the confidence of every equally long match, and comes first among full ties |
| BestMatching.BestAt | backend/app/text_deduplication/text_matcher.py:95-123 | the for loop with its `continue`s leaves the best match, its cleaned length and its index, or None, 0 and -1 |
| BestMatching.Scan | backend/app/text_deduplication/text_matcher.py:94-132 | every placement of the outer loop names a record of the combined list |
| BestMatching.ScanPlacements | backend/app/text_deduplication/text_matcher.py:94-132 | each taken record was unused at the start and matches the target exactly at its position; there are at most as many placements as target characters |
| BestMatching.ScanDisjoint | backend/app/text_deduplication/text_matcher.py:94-132 | positions increase, matched segments do not overlap, and no record is taken twice |
| BestMatching.ScanSpellsSubseq | backend/app/text_deduplication/text_matcher.py:94-132 | the cleaned text of the result is a subsequence of the cleaned target |
| BestMatching.ScanSkip | backend/app/text_deduplication/text_matcher.py:130-132 | with no match at the cursor, the scan moves on by one character |
| BestMatching.ScanTake | backend/app/text_deduplication/text_matcher.py:126-129 | with a match, the scan appends that record, marks it used and moves past its cleaned length |
| BestMatching.MatchAlong | backend/app/text_deduplication/text_matcher.py:89-132 | the outer while loop returns the records the scan takes from cursor 0 with nothing used |
| BestMatching.FindBestMatchSequence | backend/app/text_deduplication/text_matcher.py:72-134 | the method returns the scan over the combined records and the cleaned target |
| MatchFiltering.MatchFilterResult | backend/app/text_deduplication/text_matcher.py:337-349 | the result for an empty record list or an empty target is empty. In best-match mode the result's cleaned text is a subsequence of the cleaned target, so never longer, and does not depend on the threshold or scorer. In greedy mode the result is a subsequence of the input records. |
| MatchFiltering.MatchAndFilter | backend/app/text_deduplication/text_matcher.py:302-349 | returns nothing for empty input or target, else dispatches on `use_dp` to the best-match scan or the greedy pass at the given threshold |
| MatchFiltering.MatchAndFilterDefaults | backend/app/text_deduplication/text_matcher.py:302-349 | with the default settings (`use_dp=True`, threshold 0.8) the result is empty for empty input or target, and otherwise the best-match scan |
| MatchFiltering.BatchProcess | backend/app/text_deduplication/text_matcher.py:352-368 | one result per pair, in order, each the matcher's result for that pair with the shared settings |
| SenseVoice.TagLen | backend/app/transcription_service.py:243 | a marker found at the front is `<|`, then characters other than `|`, then `|>` |
| SenseVoice.StripTags | backend/app/transcription_service.py:243 | marker removal never lengthens the text, and a text that does not start with `<` keeps its first character |
| SenseVoice.StripTagsSubseq | backend/app/transcription_service.py:243 | marker removal only deletes characters |
| SenseVoice.StripTagsNoMarker | backend/app/transcription_service.py:243 | a text with no `<|` is left unchanged |
| SenseVoice.StripTagsMarker | backend/app/transcription_service.py:243 | a marker at the front is deleted and the pass resumes right after it |
| SenseVoice.StripTagsPlainFirst | backend/app/transcription_service.py:243 | a first character other than `<` is kept and the pass goes on after it |
| SenseVoice.StripTagsPlainPrefix | backend/app/transcription_service.py:243 | text without `<` passes through unchanged and leaves the pass over what follows it as it would be on its own |
| SenseVoice.StripTagsMarkerAfter | backend/app/transcription_service.py:243 | a marker after text without `<` is deleted, wherever it occurs (`ab<|zh|>cd` becomes `abcd`) |
| SenseVoice.StripTagsSinglePass | backend/app/transcription_service.py:243 | one pass only: a marker completed by a deletion is not removed (`<<|a|>|b|>` gives `<|b|>`) |
| SenseVoice.TrimStart | backend/app/transcription_service.py:244 | `strip`'s left half removes exactly the leading whitespace |
| SenseVoice.TrimEnd | backend/app/transcription_service.py:244 | `strip`'s right half removes exactly the trailing whitespace |
| SenseVoice.Strip | backend/app/transcription_service.py:244 | `strip` never lengthens the text, and neither end of a nonempty result is whitespace |
| SenseVoice.RemoveSpacesStrip | backend/app/transcription_service.py:244 | `strip` removes only whitespace, and a nonempty stripped text holds a non-whitespace character |
| SenseVoice.StepPreserves | backend/app/transcription_service.py:261-276 | one character of the splitter keeps every word nonempty and free of whitespace, with a CJK ideograph only first, and adds exactly that character unless it is whitespace |
| SenseVoice.TokenizeWords | backend/app/transcription_service.py:257-279 | the words are nonempty, hold no whitespace, hold a CJK ideograph only as their first character, and together spell the text with its whitespace removed |
| SenseVoice.RunWordsPrefix | backend/app/transcription_service.py:261-276 | words once emitted by the loop are never taken back |
| SenseVoice.RunAppendPlain | backend/app/transcription_service.py:275-276 | characters that are neither whitespace nor ideographs only extend the word being built |
| SenseVoice.FlushedAtBoundary | backend/app/transcription_service.py:262-279 | the word being built is emitted whole at the end of the text, at whitespace or at an ideograph |
| SenseVoice.NothingPendingAfterBreak | backend/app/transcription_service.py:261-274 | after whitespace, after an ideograph standing on its own, and at the start, no word is being built |
| SenseVoice.TokenizeKeepsRun | backend/app/transcription_service.py:261-279 | a run of non-space, non-ideograph characters after whitespace, after an ideograph standing on its own, or at the start, followed by the end, whitespace or an ideograph, is one word (`你好world` gives `你`, `好`, `world`) |
| SenseVoice.TokenizeCjkStartsWord | backend/app/transcription_service.py:267-279 | an ideograph after another non-space, non-ideograph character starts a new word, and the following such characters join it |
| SenseVoice.TokenizeCjkAlone | backend/app/transcription_service.py:266-274 | an ideograph at the start, after whitespace or after another ideograph is a word on its own |
| SenseVoice.SplitWords | backend/app/transcription_service.py:257-279 | the loop with `words` and `current_word`, and the final flush, computes the splitter's word list |
| SenseVoice.SpanIndexProperties | backend/app/transcription_service.py:305-307 | with fewer pairs than words the clamp never fires; the first word takes the first pair; later words never take earlier pairs |
| SenseVoice.Assign | backend/app/transcription_service.py:288-315 | one record per word |
| SenseVoice.AssignProperties | backend/app/transcription_service.py:288-315 | for any nonempty timestamp list each record carries its word and confidence 0.9; when the pairs' start times never decrease, neither do the records' |
| SenseVoice.WordLevelWords | backend/app/transcription_service.py:243-315 | for a nonempty cleaned text and nonempty timestamps there is at least one word, one record per word, and the words spell the marker-free text with all whitespace removed |
| SenseVoice.AssignInOrder | backend/app/transcription_service.py:290-300 | with at least as many pairs as words, word `i` takes pair `i` |
| SenseVoice.AssignSpread | backend/app/transcription_service.py:302-315 | with fewer pairs than words, word `i` takes pair `floor(i * T / W)`, clamped to the last |
| SenseVoice.ConvertToWordLevel | backend/app/transcription_service.py:207-326 | the conversion returns nothing for an empty cleaned text or no timestamps, and otherwise the split words with their assigned pairs |

## Left out

- The similarity ratio (`calculate_similarity`, difflib's `SequenceMatcher.ratio`) is a function parameter `sim`. Its algorithm is not modelled. `IsRatio` states the two properties that are used: values lie in [0, 1], and equal strings score 1.
- Dictionary access with defaults (`.get('start', 0)` and the like) is not modelled. Every record has all four fields.
- Floating point is not modelled. Times and confidences are exact reals. The `abs(...) < 0.1` test and the `/ 1000.0` conversion are exact. `int(i * len(timestamps) / len(words))` is integer floor division; both operands are nonnegative, so this agrees with the float computation for ordinary inputs but can differ for word counts above about 10^8.
- The debug file writes, `os.makedirs` and `datetime.now()` in `_convert_sensevoice_to_word_level` are I/O and are left out. They do not affect the result.
- Timestamp entries of the wrong shape (not two numbers) are not modelled. A pair is `Span(startMs, endMs)`.
- The punctuation re-insertion code after `return combined` (text_matcher.py:210-263) cannot be reached, so it is not modelled.
- The `__main__` demonstration in text_matcher.py is left out.
- Python's regular-expression engine is not modelled in general. `StripTags` is the one-pass left-to-right deletion that this single pattern performs.
- `TextMatcher.__init__` only stores the threshold. The threshold is a parameter of each operation, and `MatchFiltering.DefaultThreshold` is the default 0.8, used by `MatchFiltering.MatchAndFilterDefaults`.
- main.py, database.py, models.py, the rest of transcription_service.py and the test scripts are not part of this model.
