# IndicOCR core, modelled in Dafny

IndicOCR serves a document text-recognition engine behind an HTTP service. It supports folder-level batch runs and ships a script that benchmarks recognition accuracy and latency against labelled ground truth. This project models the sequential logic around the opaque engine and proves properties of it:

- **Engine cache** (`ocr_engine.dfy`, module `OcrEngine`):
  - `EngineManager` is a class with a language-keyed map of engines, the keys' insertion order and a load counter.
  - `GetEngine` is get-or-create. It refuses unsupported codes without caching anything.
  - `Preload` warms the cache and skips unknown codes.
  - The region loops of `run_ocr` and `_extract_results_from_saved_json` are modelled as methods. They turn the engine's parallel arrays (texts, scores, polygons) into regions and a newline-joined full text.
- **Batch endpoint** (`batch.dfy`, module `Batch`):
  - `POST /ocr/batch` applies its gates in order: language, folder exists, folder is a directory, non-empty image list.
  - It then runs a per-image loop that records a failing image and carries on.
  - It keeps counters and an ordered result list.
  - Each image's recognition is an abstract attempt passed as a parameter.
- **Image checks** (`image_utils.dfy`, module `ImageUtils`):
  - `validate_image_bytes` and `validate_image_path`, with their checks in source order.
  - `collect_images_from_folder`: glob per supported extension, then a stable sort by lower-cased name.
  - The file system is a sequence of entries (path, kind, size) in listing order (`paths.dfy`).
- **Settings** (`config.dfy`, module `Config`):
  - the defaults and the derived base folders of `Settings.__init__`;
  - the megabyte-to-byte conversion;
  - the comma-list parsing of extensions and of preload languages;
  - the output folders and the supported-language table.
- **Benchmark**: normalisation, the table-filling Levenshtein distance, CER and accuracy (`scoring.dfy`), dataset discovery and pairing, `benchmark_single`, the sample-size rule and the run loop (`benchmark.dfy`).
- **Benchmark summary aggregation**:
  - mean, min, max, `_median` and `_percentile` (`statistics.dfy`);
  - the grouping by language and the per-language summary rows of `_write_summary_csv` (`summary.dfy`).

Supporting modules:
- `text.dfy`: Python `str` semantics for `isspace`, `strip`, `split()`, `split(sep)`, `join`, `lower` and string `<=`.
- `sorting.dfy`: an insertion sort standing for `sorted`/`list.sort`, proved ordered, a permutation and stable.
- `lists.dfy`: filter-map and flat-map over sequences.
- `paths.dfy`: the `pathlib` operations used: `name`, `suffix`, `stem`, `with_suffix`, `/`, and lookups of a path with its trailing slashes dropped, as `Path(...)` does.
- `wrappers.dfy`: `Option` and `Result`.

Where the repository's design description and its code differ, the model follows the code:

- There is no resize-to-long-side step before recognition.
- There is no reading-order sort. Regions stay in detector order.
- For an empty normalised ground truth, CER is exactly 1.0, not `distance / max(1, len)`. So two empty texts score accuracy 0.0 (`Scoring.Cer`).
- A result with no regions records the confidence sentinel -1.0 rather than an absent value. The summary removes it by keeping only non-negative confidences (`Benchmark.AverageConfidence`, `Summary.Confidences`).
- A negative `num_images` makes `random.sample` raise, and nothing catches it. The whole run ends at the first language that has pairs, instead of other languages carrying on (`Benchmark.RunResultsOutcome`).
- The engine cache has no lock. Only sequential calls are modelled, and nothing is claimed about concurrent first calls.

## Model

| member | source | states |
|---|---|---|
| Scoring.Normalize | benchmarks/benchmark.py:108-114 | the normalised text is single-spaced (no whitespace at either end, only ' ' as whitespace, never two spaces in a row), holds no line feed, and is empty exactly when the input is all whitespace |
| Scoring.NormalizeIdempotent | benchmarks/benchmark.py:108-114 | normalising keeps the words, and normalising twice equals normalising once |
| Scoring.EditDistance | benchmarks/benchmark.py:143-144 | the distance to an empty string is the other string's length |
| Scoring.EditDistanceBounds | benchmarks/benchmark.py:138-156 | the distance is at most the longer length and at least the difference of the lengths |
| Scoring.EditDistanceSymmetric | benchmarks/benchmark.py:140-141 | swapping the arguments does not change the distance, which justifies the swap |
| Scoring.EditDistanceZeroIffEqual | benchmarks/benchmark.py:138-156 | the distance is 0 exactly when the strings are equal |
| Scoring.LevenshteinFallback | benchmarks/benchmark.py:138-156 | `_levenshtein_fallback` (swap, empty shorter string, table) returns the unit-cost edit distance |
| Scoring.DistanceTable | benchmarks/benchmark.py:146-156 | after row `i`, `prev_row[j]` is the distance between the first `i` characters of `s1` and the first `j` of `s2`; the last cell is the distance |
| Scoring.NextRow | benchmarks/benchmark.py:147-154 | the inner loop builds row `i + 1` from row `i`, cell by cell, as the minimum of insertion, deletion and substitution |
| Scoring.CappedRatio | benchmarks/benchmark.py:135 | `min(dist / len, 1.0)` lies in [0, 1] and is 0 exactly when the distance is 0 |
| Scoring.Cer | benchmarks/benchmark.py:117-135 | CER lies in [0, 1] and is exactly 1.0 when the ground truth has no words |
| Scoring.ComputeCer | benchmarks/benchmark.py:117-135 | `compute_cer` with the table-filling distance returns that CER |
| Scoring.CerZeroIffSameWords | benchmarks/benchmark.py:124-135 | for a ground truth with words, CER is 0 exactly when the two normalised texts are equal |
| Scoring.CerIgnoresLayout | benchmarks/benchmark.py:124-125 | scoring the already-normalised texts gives the same CER, so layout does not count |
| Scoring.Accuracy | benchmarks/benchmark.py:287-288 | accuracy is 1 − CER, lies in [0, 1], and is 0 when the ground truth has no words |
| Scoring.AccuracyOneIffSameWords | benchmarks/benchmark.py:287-288 | for a ground truth with words, accuracy is 1.0 exactly when the normalised texts are equal |
| Statistics.MeanOr | benchmarks/benchmark.py:497 | the mean times the count is the sum, and the fallback is used for no values |
| Statistics.MeanWithin | benchmarks/benchmark.py:497-506 | a mean lies within any bounds that all its values lie within |
| Statistics.MinOf | benchmarks/benchmark.py:507 | `min` is a member no larger than any value |
| Statistics.MaxOf | benchmarks/benchmark.py:508 | `max` is a member no smaller than any value |
| Statistics.Median | benchmarks/benchmark.py:470-475 | 0.0 for no values; on sorted values at least half of them lie at or below it and at least half at or above it |
| Statistics.MedianMiddle | benchmarks/benchmark.py:470-475 | the median is the middle value for an odd count and the mean of the two middle values for an even count |
| Statistics.ScaledIndex | benchmarks/benchmark.py:480-481 | for pct in [0, 100], `int(k)` indexes the list |
| Statistics.Percentile | benchmarks/benchmark.py:477-484 | 0.0 for no values; on sorted non-empty values it lies between the first and the last value |
| Statistics.PercentileOfOneToTen | benchmarks/benchmark.py:477-484 | the 95th percentile of 1..10 is 9.55 |
| Statistics.PercentileEnds | benchmarks/benchmark.py:477-484 | the 0th and 100th percentiles are the first and the last value |
| Statistics.PercentileFiftyIsMedian | benchmarks/benchmark.py:470-484 | the 50th percentile equals `_median` for every list |
| Benchmark.Confidences | benchmarks/benchmark.py:281 | one confidence per region, in order; a region with no confidence reads 0.0 |
| Benchmark.AverageConfidence | benchmarks/benchmark.py:279-284 | the sentinel -1.0 for no regions, else the mean of the region confidences |
| Benchmark.AverageConfidenceSentinel | benchmarks/benchmark.py:279-284 | with confidences in [0, 1], the value is -1.0 exactly when there are no regions, and otherwise lies in [0, 1] |
| Benchmark.ScoreFacts | benchmarks/benchmark.py:238-290 | status is success exactly when the ground truth was read and the service answered; each failure carries its message text and leaves the latency, confidence, accuracy and OCR-length measurements at zero; a success carries the normalised lengths, the latency, the average confidence and an accuracy of 1 − CER in [0, 1] |
| Benchmark.BenchmarkSingle | benchmarks/benchmark.py:238-290 | the step-by-step filling with early returns yields the scored result of the sample |
| Benchmark.DatasetDirs | benchmarks/benchmark.py:173-180 | a language without a dataset has no folders; otherwise its folders are the input base followed by each configured suffix, in order |
| Benchmark.Discovered | benchmarks/benchmark.py:173-176 | a language without a dataset discovers nothing |
| Benchmark.DiscoverSamples | benchmarks/benchmark.py:164-197 | the folder loop returns each folder's pairs, folder after folder |
| Benchmark.FolderSamples | benchmarks/benchmark.py:180-194 | a path that is not a directory contributes nothing, otherwise the pairs of its sorted ".jpg" files |
| Benchmark.PairImages | benchmarks/benchmark.py:185-194 | the inner loop keeps, in order, each image whose ".txt" sibling exists |
| Benchmark.JpegImagesMembers | benchmarks/benchmark.py:185 | the sorted glob holds exactly the ".jpg" entries directly inside the folder |
| Benchmark.PairsMembers | benchmarks/benchmark.py:185-194 | a sample is found exactly when it is some image together with its existing ".txt" sibling |
| Benchmark.DirSamplesMembers | benchmarks/benchmark.py:180-194 | a folder's samples are exactly the pairs of its ".jpg" children, and there are none when it is not a directory |
| Benchmark.SamplesInMembers | benchmarks/benchmark.py:179-194 | the samples of several folders are exactly the union of each folder's samples |
| Benchmark.DiscoveredMembers | benchmarks/benchmark.py:164-197 | discovery finds exactly the pairs in the language's dataset folders, each labelled with that language |
| Benchmark.SampleSize | benchmarks/benchmark.py:342 | `min(num_images, len(samples))`: at most both, and equal to one of them |
| Benchmark.Selected | benchmarks/benchmark.py:341-343 | drawing fails exactly for a negative size; otherwise it returns `min(num_images, pairs)` samples, each one of the discovered pairs |
| Benchmark.SelectedDistinct | benchmarks/benchmark.py:343 | the drawn samples sit at distinct positions of the discovered list |
| Benchmark.ScoreEachLength | benchmarks/benchmark.py:346-351 | one result per selected image |
| Benchmark.ScoreEachAt | benchmarks/benchmark.py:346-351 | the t-th result is the score of the t-th selected image |
| Benchmark.LanguageResults | benchmarks/benchmark.py:335-351 | a language without pairs contributes no results and no error; otherwise it fails exactly for a negative size, and otherwise contributes `min(num_images, pairs)` results |
| Benchmark.LanguageResultsLabelled | benchmarks/benchmark.py:346-351 | every result of a language carries the run id, that language, and an accuracy in [0, 1] |
| Benchmark.RunResultsOutcome | benchmarks/benchmark.py:329-351 | a run fails exactly when the size is negative and some language has pairs; otherwise it yields the sum over languages of `min(num_images, pairs)` results, each with the run id, a requested language, and an accuracy in [0, 1] |
| Benchmark.RunResultsStep | benchmarks/benchmark.py:329-351 | one more language appends its results, or its error ends the run |
| Benchmark.RunResultsErrPersists | benchmarks/benchmark.py:341-343 | once a language has raised, the later languages change nothing |
| Benchmark.RunBenchmark | benchmarks/benchmark.py:327-351 | the language loop appending to `all_results` computes the run's results or its error |
| Benchmark.BenchmarkLanguage | benchmarks/benchmark.py:334-351 | one language: discover, skip when empty, draw, then score each drawn image |
| Benchmark.ScoreAll | benchmarks/benchmark.py:346-351 | the per-image loop scores each selected image in order |
| Summary.SuccessesMembers | benchmarks/benchmark.py:463 | `ok` holds exactly the successful results; it holds all of them exactly when none failed, and none exactly when all failed |
| Summary.SortedOrZero | benchmarks/benchmark.py:466-467 | the list is never empty and is sorted; it is `[0.0]` for no values, otherwise a permutation of the values |
| Summary.ConfidencesMembers | benchmarks/benchmark.py:468 | the kept confidences are exactly the non-negative confidences of the successful results |
| Summary.ConfidencesEmpty | benchmarks/benchmark.py:468 | no confidence is kept exactly when every one is negative |
| Summary.SummaryCounts | benchmarks/benchmark.py:463-464 | processed is the number of results, succeeded the number of successes, and failed the rest (never negative); failed is 0 exactly when all succeeded |
| Summary.SummaryWithoutSuccess | benchmarks/benchmark.py:466-510 | with no success, every latency and accuracy figure is 0.0, the confidence figures are -1, and the average lengths are 0 |
| Summary.SortedAggregates | benchmarks/benchmark.py:470-484 | on a sorted non-empty list, the median, the percentile and the mean lie between the first and the last value |
| Summary.SortedEnds | benchmarks/benchmark.py:498-499 | after sorting, the first and last values are members and bound every value |
| Summary.SummaryLatencies | benchmarks/benchmark.py:497-501 | min ≤ mean, median, p95 ≤ max, and min and max bound every successful latency |
| Summary.SummaryAccuracies | benchmarks/benchmark.py:502-505 | with accuracies in [0, 1], 0 ≤ min ≤ mean ≤ max ≤ 1, the median lies between min and max, and min and max bound every successful accuracy |
| Summary.ConfidenceFigures | benchmarks/benchmark.py:463-468 | no confidence is kept exactly when no success has a non-negative one; otherwise the least and greatest kept confidences belong to successes, bound every non-negative successful confidence, and enclose the mean |
| Summary.SummaryConfidences | benchmarks/benchmark.py:506-508 | all three figures are -1 when no success has a non-negative confidence; otherwise 0 ≤ min ≤ mean ≤ max, min and max are confidences of successes, and they bound every non-negative successful confidence |
| Summary.OfLanguageMembers | benchmarks/benchmark.py:429-431 | a language's list holds exactly the results of that language |
| Summary.OfLanguageUnseen | benchmarks/benchmark.py:429-431 | a language that no result has gets an empty list |
| Summary.RowAccuraciesBounded | benchmarks/benchmark.py:502-505 | with accuracies in [0, 1], a language's row has 0 ≤ min ≤ mean ≤ max ≤ 1 and the median between min and max |
| Summary.GroupedSnoc | benchmarks/benchmark.py:430-431 | appending one result to its language's list (a new key goes last in key order) keeps the grouping |
| Summary.GroupByLanguage | benchmarks/benchmark.py:429-431 | the grouping loop gives each language that appears exactly its results in run order, with the keys in first-appearance order and no key repeated |
| Summary.SortedKeys | benchmarks/benchmark.py:462 | `sorted(by_lang.items())` visits each language that appears exactly once, in strictly increasing order, with its own results |
| Summary.KeysCover | benchmarks/benchmark.py:462 | rows labelled by the keys cover exactly the languages that appear |
| Summary.RowsFor | benchmarks/benchmark.py:462-513 | one row per key, in key order, each summarising that key's results |
| Summary.SummaryRows | benchmarks/benchmark.py:419-513 | there is a row exactly for each language that appears; the languages strictly increase; each row summarises exactly its language's results |
| OcrEngine.UnsupportedMessage | app/services/ocr_engine.py:27-30 | the error message lists the supported codes "hi, mr, te, ta" in table order |
| OcrEngine.EngineManager.constructor | app/services/ocr_engine.py:21 | the cache starts empty, with no load |
| OcrEngine.EngineManager.GetEngine | app/services/ocr_engine.py:24-48 | an unsupported code is refused and changes nothing; a cached code returns the same engine without loading; otherwise exactly one new engine for that code is built, cached and appended to the key order; afterwards the code is cached |
| OcrEngine.EngineManager.LoadedLanguages | app/services/ocr_engine.py:51-53 | the listed codes are exactly the cached ones, one per load |
| OcrEngine.EngineManager.PreloadStep | app/services/ocr_engine.py:58-62 | one iteration loads the code when it is supported and keeps every earlier engine |
| OcrEngine.EngineManager.Preload | app/services/ocr_engine.py:56-62 | afterwards every supported code of the list is cached; earlier engines are unchanged; nothing else is added; the load order only grows at its end |
| OcrEngine.RegionAt | app/services/ocr_engine.py:94-95 | an index beyond the scores gives confidence 0.0; an index beyond the polygons gives an empty box |
| OcrEngine.Candidates | app/services/ocr_engine.py:92-95 | one candidate region per text, in index order |
| OcrEngine.KeepRegionsCorrect | app/services/ocr_engine.py:92-93 | exactly the regions with a non-blank text are kept, no more than there were; all when none is blank, none when all are |
| OcrEngine.KeepRegionsIdempotent | app/services/ocr_engine.py:93 | keeping twice is keeping once |
| OcrEngine.CollectRegions | app/services/ocr_engine.py:92-102 | the loop yields the kept candidates in index order, and their texts as the lines |
| OcrEngine.AssembleRegions | app/services/ocr_engine.py:83-105 | the prediction loop yields the regions of each prediction in turn, and the full text is their texts joined with "\n" |
| OcrEngine.RunOcr | app/services/ocr_engine.py:65-105 | an unsupported code is refused exactly; otherwise the engine is loaded and the output is assembled from the predictions; a refusal or a cached code leaves the cache, key order and load count as they were, and a first use adds exactly that code's engine, appends the code to the order and counts one load |
| OcrEngine.ExtractFromSavedJson | app/services/ocr_engine.py:108-156 | empty results and empty full text when no `*_res.json` was found or the first one cannot be read; otherwise the kept regions of the first file |
| OcrEngine.RunOcrAndSaveAnnotated | app/services/ocr_engine.py:159-198 | an unsupported code is refused exactly; otherwise the engine is loaded and the output is what the saved document yields, empty when there is none or it cannot be read; the cache changes exactly as for `RunOcr` |
| OcrEngine.FullTextLines | app/services/ocr_engine.py:102-105 | when no kept text holds a line feed, splitting the full text at line feeds gives the region texts: as many lines as results |
| OcrEngine.AllRegionsKept | app/services/ocr_engine.py:86-102 | every assembled region has a non-blank text |
| Batch.ProcessOne | app/routes/batch.py:80-143 | one image's entry is named after the image; it records the output on success, and on an exception records `success = false` with the exception's text |
| Batch.ItemsLength | app/routes/batch.py:80-143 | one entry per image |
| Batch.ItemsAt | app/routes/batch.py:80-143 | entry k is the entry of image k |
| Batch.ItemsEach | app/routes/batch.py:80-143 | one entry per image, in order, each the entry of that image |
| Batch.CountSuccessBounds | app/routes/batch.py:126-143 | the successes do not exceed the entries; all succeeded exactly when the count equals the entries, none exactly when it is 0 |
| Batch.ProcessImages | app/routes/batch.py:71-143 | the loop yields one entry per image in order; processed counts the successes, and processed + failed equals the number of images |
| Batch.Dispatch | app/routes/batch.py:67-173 | after the gates: results length = total = image count = processed + failed, each entry is its image's entry, success is failed < total, and the effects are the batch folder then the summary with the same counts and results |
| Batch.OcrBatch | app/routes/batch.py:30-174 | gates in order: unsupported language gives 400, missing folder 404, non-directory 400, no images 400 with no folder made; otherwise the dispatched run |
| Batch.SuccessMeansSomeRecognised | app/routes/batch.py:165 | the response reports success exactly when some image was recognised, and failed is 0 exactly when all were |
| ImageUtils.Message | app/utils/image_utils.py:49-81 | the texts of the missing-image, not-a-file, missing-folder and not-a-directory errors, each ending with the path (the batch endpoint passes the folder ones on) |
| ImageUtils.Extension | app/utils/image_utils.py:27 | the checked extension is in lower case, with the length of the name's suffix |
| ImageUtils.ValidateImageBytes | app/utils/image_utils.py:15-42 | accepted exactly when within the size limit, with a supported extension, and decodable; refused for size exactly when too large; refused for the extension exactly when within the limit with an unsupported extension |
| ImageUtils.OversizeWinsOverEverything | app/utils/image_utils.py:20-24 | an oversized upload is refused for size whatever its name and content |
| ImageUtils.ExactLimitPassesSize | app/utils/image_utils.py:20 | data of exactly the limit passes the size check |
| ImageUtils.ExtensionCaseInsensitive | app/utils/image_utils.py:27 | a path and its lower-cased spelling have the same checked extension |
| ImageUtils.SameExtensionUpToCase | app/utils/image_utils.py:55-56 | paths that differ only in letter case pass or fail the extension test together |
| ImageUtils.ValidateImagePath | app/utils/image_utils.py:45-67 | missing gives not-found and a non-file not-a-file, each naming the path with trailing slashes dropped; an unsupported extension returns false; true exactly when it exists, is a file, has a supported extension and is within the limit |
| ImageUtils.ValidatePathRaisesOnlyFor | app/utils/image_utils.py:49-65 | an unsupported extension never raises; only a missing path, a non-file, or an oversized file with a supported extension do |
| ImageUtils.Glob | app/utils/image_utils.py:88 | `glob("*" + ext)` keeps exactly the listed entries whose name ends with the extension |
| ImageUtils.GlobbedMembers | app/utils/image_utils.py:83-88 | after the extension loop, an entry is present exactly when its name ends with one of the extensions |
| ImageUtils.Listing | app/utils/image_utils.py:83-88 | the non-recursive listing holds the folder's children, the recursive one every entry below it |
| ImageUtils.CollectImages | app/utils/image_utils.py:70-93 | a missing folder and a non-directory are refused before listing, each error naming the folder with trailing slashes dropped; otherwise the globbed entries sorted by lower-cased name |
| ImageUtils.FolderImagesCorrect | app/utils/image_utils.py:83-91 | the images are exactly the searched entries whose name ends with a supported extension; they are ordered by lower-cased name and are a permutation of the globbed list |
| Config.SupportedCodesEnumerateTable | app/config.py:68-73 | the supported table has exactly the keys hi, mr, te and ta |
| Config.MbToBytes | app/config.py:45-46 | the bytes are whole megabytes: dividing by 1024 * 1024 gives the megabytes back with no remainder |
| Config.ExtensionSet | app/config.py:49-50 | the set holds each comma-separated entry stripped and lower-cased, and nothing else |
| Config.ExtensionSetClean | app/config.py:50 | every member is stripped, lower case and free of commas |
| Config.ExtensionSetOfList | app/config.py:49-50 | clean extensions joined by commas parse back to the set of them |
| Config.DefaultExtensionSet | app/config.py:32 | the default setting gives exactly the seven image extensions |
| Config.BlankEntryKept | app/config.py:49-56 | a blank entry becomes the empty extension in the set, but is dropped from the preload list |
| Config.KeepStripped | app/config.py:56 | the kept pieces are stripped and non-empty, no more than the input pieces |
| Config.KeepStrippedMembers | app/config.py:56 | a string is kept exactly when it is non-empty and is some piece stripped |
| Config.KeepStrippedAppend | app/config.py:56 | keeping from two lists one after the other is keeping from each in turn, so input order is kept |
| Config.PreloadLanguages | app/config.py:52-56 | [] for blank input; otherwise the kept codes are non-empty, stripped and free of commas |
| Config.PreloadLanguagesUniform | app/config.py:53-56 | the early return for blank input agrees with the general rule |
| Config.PreloadLanguagesMembers | app/config.py:52-56 | a code is listed exactly when it is non-empty and is some comma-separated entry stripped |
| Config.PaddedCodesParsed | app/config.py:52-56 | two clean codes written with a space on either side and a comma between parse to exactly those two codes, in order |
| Config.PreloadLanguagesOfList | app/config.py:52-56 | clean codes joined by commas parse back to the same list in input order |
| Config.Settings.constructor | app/config.py:16-42 | every field takes its environment value or its default; an empty output or input base is derived from the home folder, an explicit one is kept |
| Config.Settings.MaxImageSizeBytes | app/config.py:44-46 | the limit in bytes is the limit in megabytes times 1024 * 1024 |
| Config.Settings.SupportedExtSet | app/config.py:48-50 | with the default setting, the set is exactly the seven image extensions |
| Config.Settings.PreloadLanguageList | app/config.py:52-56 | the listed codes are non-empty, stripped and free of commas, and are exactly the non-empty stripped entries of the setting |
| Config.Settings.SingleOutputDir | app/config.py:58-60 | the folder's name is "single" |
| Config.Settings.BatchOutputDir | app/config.py:62-64 | the folder's name is "batch", and it differs from the single-image folder |
| Config.OutputDirsDiffer | app/config.py:58-64 | the batch and single-image folders under one base are different folders |
| Paths.JoinPathName | app/config.py:60 | joining a slash-free part onto a base gives a path whose name is that part |
| Paths.StemSuffix | benchmarks/benchmark.py:186 | a name is its stem followed by its suffix, which `with_suffix` relies on |
| Paths.Lookup | app/utils/image_utils.py:49-52 | a found entry is in the file system under the path with trailing slashes dropped; nothing is found exactly when no entry has that path |
| Paths.CanonicalTrailingSlash | app/routes/batch.py:49 | `Path(p + "/")` names the same path as `Path(p)` |
| Paths.LookupTrailingSlash | app/routes/batch.py:49-53 | a folder given with a trailing slash is found, or not found, just as without it |
| Sorting.SortByCorrect | app/utils/image_utils.py:91 | the sort returns its input ordered and permuted |
| Sorting.SortByStable | app/utils/image_utils.py:91 | the sort is stable: elements that compare equal come out in their input order |

## Left out

- Inference by the recognition engine, its artifact writers (`save_to_img`, `save_to_json`) and image decoding. They are foreign calls, so their outcomes are parameters: `predictions`, the saved documents, `decodes`, and the batch attempt `ocr`. The engine constructor is an abstract class with no behaviour.
- `call_ocr_api` and the network are out: how each call ends is a parameter (`ApiOutcome`). Reading a ground-truth file is also a parameter.
- `random.Random(seed).sample` is out as an algorithm. The draw is an abstract rule that returns `n` distinct positions (`IsDraw`/`Draws`). The model captures the sample size, that the samples come from the discovered pairs, and reproducibility for a fixed rule. It does not capture the order of Python's generator.
- Wall-clock timing and `round(x, 4)` / `round(x, 3)` are out. Latencies are inputs, values are exact reals, and processing times are left out of the batch records.
- The CSV writers (`_write_details_csv` and the writer calls of `_write_summary_csv`), `_print_summary`, `parse_args`, `main` and logging are out: they are formatting and I/O. The summary is modelled up to the rows before rounding.
- `app/services/file_handler.py` is not part of this model. Creating the batch and per-image folders and writing result files are effects passed in or recorded (`MadeBatchDir`, `SavedSummary`).
- The rapidfuzz distance is not modelled. The table-filling distance stands for it, and both compute the unit-cost edit distance.
- The `lru_cache` settings singleton and `.env` loading are out. Settings values are passed to the image and batch code as parameters, and the environment is a record of optional values.
- Concurrency (`asyncio.to_thread`, concurrent first calls to `get_engine`) is out: only sequential calls are modelled.
- Text.Lower: lowers only the ASCII letters. Python's full Unicode case mapping is not modelled.
- Paths: paths are POSIX strings. Trailing slashes are dropped as `Path(...)` drops them, and file-system entries are stored in that form; `.`/`..` and doubled inner slashes are not normalised. Relative paths are not resolved against a working directory: in particular the empty path, which `pathlib` reads as `.`, is looked up as the literal path "" (so a file system of absolute paths reports it missing), and its listing is taken as that of the root. A directory listing is the file system's entries below a path, and the order of `glob`/`rglob` is the listing's order.
- Statistics.Percentile: requires `0 <= pct <= 100`, which the source does not check; the only caller passes 95. Outside that range the source behaves as follows. With one value, `k` is 0 and that value comes back for every `pct`. Slightly above 100, while `int(k)` is still the last index, `hi` is capped there and the last value comes back. Further above, `vals[lo]` raises IndexError. Slightly below 0, `int` truncates `k` to 0 and the result is extrapolated below the first value. Further below, the negative index counts from the end of the list.
- ImageUtils.CollectImages: takes the order in which iterating the extension set yields its members as a parameter (`extOrder`, each member once), since Python's set order is unspecified. Because the final sort is stable (`Sorting.SortByStable`), that order can decide the order of equal lower-cased names.
- ImageUtils.Message: the size and extension error texts are not reproduced character for character, since they format floats and sorted sets.
- OcrEngine.EngineManager.Preload: logging of skipped codes is left out.
- OcrEngine.EngineManager.GetEngine: engine construction is assumed to succeed. In the source (app/services/ocr_engine.py:37-43) the constructor can raise; then nothing is cached and the error reaches the caller.
