# LibreTranslate-Marathi core, modelled in Dafny

This project models the core of a small English ↔ Marathi translation service that grew out of LibreTranslate. It has three parts:

- **The `/translate` endpoint** (`app.py`). It checks a JSON body against a fixed chain of guards. It loads the MarianMT model on first use and keeps it. It then translates one text or a list of texts and answers in the shape of the request.
- **Per-fragment language detection** (`libretranslate/detect.py`). This is `Detector.detect`, with Marathi codes normalised and English at zero confidence as the fallback.
- **The language layer** (`libretranslate/language.py`). It covers the alias conversions `iso2model`/`model2iso`, the built-in language registry and `detect_languages` over one text or a batch. It also covers `improve_translation_formatting`: punctuation mirroring, the "salad" workaround for a repeated word, and case mirroring.

The external engines are parameters. These are the langdetect estimator (`string -> Estimate`) and the transformers pipeline (`Pipeline(run: string -> PipelineOutput)`). Python's own behaviour is written out where the code depends on it:

- `str.strip`, `str.split`, `str.lower`/`upper`/`islower`/`isupper` and truthiness (modules `PyStr` and `Json`);
- `round` with ties to even (`Detect.RoundHalfEven`);
- the stable `list.sort(reverse=True)` (`LanguageDetection.SortByWeight`);
- the `AttributeError` raised by `.get`, `.lower` or `.strip` on a value of the wrong type.

Mutable state is modelled with classes:

- the `translator` global of `app.py` (`App.TranslationService`);
- the `__languages` slot with the `lru_cache` of `load_lang_codes` (`LanguageRegistry.LanguageStore`).

Loops of the source are methods with loop invariants. Each is proved equal to a specification function, and the properties are lemmas about those functions.

| file | module | contents |
|---|---|---|
| wrappers.dfy | Wrappers | `Option`, `Result`, `OneOrMany` (a single text or a list) |
| sequences.dfy | Sequences | subsequences, prefixes, a snoc rule for quantifiers |
| pystr.dfy | PyStr | Python string operations |
| json.dfy | Json | JSON values, truthiness, `dict.get`, Python type names and `AttributeError` messages |
| detect.dfy | Detect | `detect.py` |
| language_aliases.dfy | LanguageAliases | `iso2model`, `model2iso` |
| language_registry.dfy | LanguageRegistry | `load_languages`, `load_lang_codes` |
| language_detection.dfy | LanguageDetection | `detect_languages` |
| detection_properties.dfy | DetectionProperties | properties of `detect_languages` |
| translation_formatting.dfy | TranslationFormatting | `improve_translation_formatting` and its properties |
| app.dfy | App | `load_model`, `translate` |
| app_properties.dfy | AppProperties | properties of the endpoint |

## Model

| member | source | states |
|---|---|---|
| Detect.NewLanguage | libretranslate/detect.py:16-19 | a new record has the given code, the confidence as a number and text length 0 |
| Detect.CheckLang | libretranslate/detect.py:25-29 | a language is supported exactly when no codes are given or its normalised code is one of them |
| Detect.NormalizedLangCode | libretranslate/detect.py:32-38 | the code is "mr" exactly for "mr" and "mar"; every other code is kept; "mar" never comes out |
| Detect.RoundHalfEven | libretranslate/detect.py:74 | the result is within one half of the input; an exact half rounds to the even neighbour; a percentage stays in 0..100 |
| Detect.ToLanguage | libretranslate/detect.py:74 | the entry carries the normalised code and a confidence that is a whole number within one half of `prob * 100`, rounded as Python's `round` does; for a probability in [0, 1] it lies in [0, 100] |
| Detect.FilterSupported | libretranslate/detect.py:60-64 | keeps only supported entries, every supported entry among them, in the estimator's order |
| Detect.FilterSupportedCounts | libretranslate/detect.py:60-64 | every supported entry is kept exactly as often as the estimator lists it, every other entry is dropped |
| Detect.FromEstimates | libretranslate/detect.py:60-76 | one to three entries with no text length and no "mar"; unless it is the English fallback, every entry is supported |
| Detect.Detect | libretranslate/detect.py:47-82 | blank text gives the fallback; the call fails exactly when the estimator raised an error other than "can't detect", and with that error; otherwise one to three supported entries |
| Detect.TopChoicesAreFirstSupported | libretranslate/detect.py:60-66 | with no codes, the unfiltered branch equals the filtered one |
| Detect.BlankIgnoresEstimator | libretranslate/detect.py:52-53 | blank text gives the fallback whatever the estimator would say |
| Detect.DetectFallsBack | libretranslate/detect.py:52-80 | blank text, a "can't detect" error, and no supported estimate among the first three or a best one at probability 0 each give the English fallback |
| Detect.DetectKeepsEstimatorOrder | libretranslate/detect.py:61-76 | when the first three supported estimates are not empty and the best has a non-zero probability, the answer converts exactly those estimates, entry by entry and in order; any answer but the fallback converts an in-order subsequence of the estimator's list |
| Detect.DetectConfidenceIsPercentage | libretranslate/detect.py:74 | for probabilities in [0, 1], every confidence is a whole number in [0, 100] |
| Detect.DetectCodesSupported | libretranslate/detect.py:52-80 | when English is among the codes, every detected code is one of the codes, the fallback included |
| LanguageAliases.Iso2Model | libretranslate/language.py:11-19 | a list gives a list of the same length whose i-th element is the conversion of the i-th input; a string is lower-cased and looked up; any other value is returned unchanged |
| LanguageAliases.Model2Iso | libretranslate/language.py:21-30 | a string is lower-cased; a dict with "language" keeps its keys and every other entry and gets the conversion of its "language" entry, or raises what that conversion raises; a list succeeds exactly when every element does, giving the conversions in order; any other value raises `AttributeError` with Python's message |
| LanguageAliases.Collect | libretranslate/language.py:26-27 | a list comprehension over elements that may raise gives all values in order when none raises, and otherwise the exception of the first element that raises |
| LanguageAliases.Model2IsoRaisesFirst | libretranslate/language.py:26-27 | a list whose conversion raises raises the exception of its first element that cannot be converted |
| LanguageAliases.Iso2ModelIdempotent | libretranslate/language.py:11-19 | converting twice is converting once |
| LanguageAliases.DirectionsAgree | libretranslate/language.py:11-30 | on codes and lists of codes both directions give the same result, so `model2iso` never raises on them and keeps their shape |
| LanguageAliases.RoundTrip | libretranslate/language.py:11-30 | `model2iso(iso2model(x))` equals `iso2model(x)` on codes and lists of codes |
| LanguageRegistry.BuiltIn | libretranslate/language.py:39-63 | English and Marathi, each translatable into the other |
| LanguageRegistry.BuiltInPairsAreSymmetric | libretranslate/language.py:60-61 | each built-in language translates into every other one and not into itself |
| LanguageRegistry.BuiltInCodes | libretranslate/language.py:68-71 | the codes of the built-in list are ("en", "mr") |
| LanguageRegistry.LanguageStore.constructor | libretranslate/language.py:7 | nothing is loaded at import |
| LanguageRegistry.LanguageStore.LoadLanguages | libretranslate/language.py:32-66 | an unset or empty slot is filled with the built-in list; a filled one is returned untouched; the slot stays valid |
| LanguageRegistry.LanguageStore.LoadLangCodes | libretranslate/language.py:68-71 | always ("en", "mr"), cached after the first call; a first call also loads the built-in languages, a cached call leaves them alone |
| LanguageDetection.WithLength | libretranslate/language.py:88-89 | each candidate of the fragment carries the fragment's length |
| LanguageDetection.OfCode | libretranslate/language.py:108 | keeps only the candidates of the code |
| LanguageDetection.Insert | libretranslate/language.py:124-126 | one insertion step of the sort is a permutation |
| LanguageDetection.SortByWeight | libretranslate/language.py:124-126 | the sort is a permutation of its input |
| LanguageDetection.DetectLanguagesSpec | libretranslate/language.py:73-128 | English at 0.0 when there are no candidates; otherwise the ranked candidates as answers |
| LanguageDetection.DetectLanguages | libretranslate/language.py:73-128 | the procedure computes `DetectLanguagesSpec` |
| LanguageDetection.CollectCandidates | libretranslate/language.py:84-92 | the fragment loop computes `Candidates` |
| LanguageDetection.DetectFragment | libretranslate/language.py:86-92 | one pass of the fragment loop computes `FragmentCandidates` |
| LanguageDetection.AverageByCode | libretranslate/language.py:104-117 | the code loop computes `Merge` |
| LanguageDetection.AverageOfCode | libretranslate/language.py:108-117 | one pass of the code loop adds the `Summary` of that code's candidates |
| LanguageDetection.StampLength | libretranslate/language.py:88-89 | the stamping loop computes `WithLength` |
| DetectionProperties.SortNonIncreasing | libretranslate/language.py:123-126 | the result is ordered by non-increasing weight |
| DetectionProperties.SortStable | libretranslate/language.py:124-126 | entries of equal weight keep their order |
| DetectionProperties.SortWithoutTextKeepsOrder | libretranslate/language.py:125 | with no text read every key is 0 and the order is unchanged |
| DetectionProperties.MergeByCode | libretranslate/language.py:106-117 | per code, the merged list holds the summary of that code's candidates, and nothing for other codes |
| DetectionProperties.MergeOnePerCode | libretranslate/language.py:106-117 | at most one merged entry per code |
| DetectionProperties.MergeFollowsCodeOrder | libretranslate/language.py:106-117 | merged entries follow the order of the codes, one per code detected |
| DetectionProperties.SummaryOfOneCode | libretranslate/language.py:109-117 | a summary is empty exactly for no candidates, else one entry of that code |
| DetectionProperties.SummaryKeepsLength | libretranslate/language.py:113 | the summary keeps the summed text length |
| DetectionProperties.MergeKeepsTotalLength | libretranslate/language.py:95-121 | merging keeps the total text length |
| DetectionProperties.MergeNonEmpty | libretranslate/language.py:119-121 | candidates of loaded codes never merge into nothing |
| DetectionProperties.SummaryConfidenceBounds | libretranslate/language.py:112 | the mean of percentages is a percentage |
| DetectionProperties.CandidatesSupported | libretranslate/language.py:84-92 | every candidate carries a loaded code |
| DetectionProperties.FragmentSupported | libretranslate/language.py:87-90 | every candidate of one fragment carries a loaded code |
| DetectionProperties.FragmentEmptyIffRaised | libretranslate/language.py:86-92 | a fragment adds nothing exactly when detection raised on it |
| DetectionProperties.NoCandidatesIffAllRaised | libretranslate/language.py:84-100 | no candidates exactly when detection raised on every fragment |
| DetectionProperties.RaisedFragmentSkipped | libretranslate/language.py:90-92 | a raising fragment is skipped and the loop goes on |
| DetectionProperties.AllRaisedAnswersEnglish | libretranslate/language.py:97-100 | then the answer is English at 0.0 |
| DetectionProperties.BlankTextAnswersEnglish | libretranslate/language.py:73-100 | a single blank text gets English at 0.0 |
| DetectionProperties.AnswerRanked | libretranslate/language.py:123-128 | the answer is never empty and is ordered heaviest first |
| DetectionProperties.BatchAnswerMerged | libretranslate/language.py:104-128 | a batch answer is a permutation of the merged list: one summary per code, total length kept |
| DetectionProperties.SingleTextNotMerged | libretranslate/language.py:75-104 | a single text's answer is a permutation of its own one to three candidates |
| TranslationFormatting.MirrorPunctuation | libretranslate/language.py:140-152 | when the source ends in punctuation, the translation ends in that character, which replaces its own final punctuation character if it has one and is otherwise appended (nothing changes when both already agree); otherwise a trailing punctuation character is dropped |
| TranslationFormatting.WordCounts | libretranslate/language.py:160-162 | every word is counted with its number of occurrences |
| TranslationFormatting.RemoveSalad | libretranslate/language.py:157-167 | the translation is kept unless the workaround fires, which gives its first word |
| TranslationFormatting.MirrorCase | libretranslate/language.py:169-184 | the case rules for lower-case, upper-case and mixed sources; a mixed source whose first character has no case leaves the translation unchanged; only letter case changes |
| TranslationFormatting.Format | libretranslate/language.py:131-138 | blank source gives ""; empty translation gives the trimmed source |
| TranslationFormatting.CountWords | libretranslate/language.py:159-162 | the loop computes `WordCounts` |
| TranslationFormatting.RemoveSingleWordDuplicates | libretranslate/language.py:157-167 | the loops compute `RemoveSalad` |
| TranslationFormatting.ImprovePunctuation | libretranslate/language.py:140-152 | the branches compute `MirrorPunctuation` |
| TranslationFormatting.ImproveTranslationFormatting | libretranslate/language.py:131-184 | the procedure computes `Format` |
| TranslationFormatting.MirrorPunctuationIdempotent | libretranslate/language.py:140-150 | mirroring twice is mirroring once |
| TranslationFormatting.FormatEndsWithSourcePunctuation | libretranslate/language.py:140-184 | the result ends in the source's final punctuation unless the salad workaround fired |
| TranslationFormatting.FormatLowerSource | libretranslate/language.py:169-170 | a lower-case source gives no upper-case letters |
| TranslationFormatting.FormatUpperSource | libretranslate/language.py:172-173 | an upper-case source gives no lower-case letters |
| TranslationFormatting.SaladCollapsesRepeats | libretranslate/language.py:157-167 | a single word repeated twice or more collapses to that word |
| TranslationFormatting.FormatCollapsesSalad | libretranslate/language.py:131-184 | the whole function on such a salad gives the word in the source's case |
| TranslationFormatting.SaladNeedsShortSingleTokenSource | libretranslate/language.py:158 | with a space or 20+ characters in the source the workaround changes nothing |
| TranslationFormatting.SaladWithPunctuation | libretranslate/language.py:158-167 | five or more repeats with punctuation appended still collapse to the bare word |
| TranslationFormatting.SaladOverridesPunctuation | libretranslate/language.py:140-167 | a punctuated source with a repeated-word translation yields a result not ending in that punctuation |
| App.LowerField | app.py:109-110 | `get(key, '').lower()` succeeds exactly for a string, lower-casing it |
| App.Validate | app.py:102-156 | errors are 400 or 500; an accepted request has truthy `q` and two different supported codes |
| App.TranslateOne | app.py:135-142 | falsy and blank texts give "" without the pipeline; a truthy non-string raises Python's `strip` error; a non-blank string gives the pipeline's first output, or raises the pipeline's exception |
| App.TranslateAll | app.py:134-142 | a completed loop gives one translation per text |
| App.TranslateFragment | app.py:136-142 | the loop body computes `TranslateOne` |
| App.TranslateTexts | app.py:134-142 | the loop computes `TranslateAll` |
| App.FirstErrorStands | app.py:134-156 | after an exception the later texts do not change the outcome |
| App.TranslationService.constructor | app.py:17-18 | no model is loaded at start-up |
| App.TranslationService.LoadOutcome | app.py:20-40 | a cached model is returned; a missing directory gives "Model not found ..."; otherwise what building gives |
| App.TranslationService.LoadModel | app.py:20-40 | returns `LoadOutcome` of the old cache; caches a newly built model; leaves a failure uncached |
| App.TranslationService.Translate | app.py:100-156 | the reply is `Answer` on the old cache; the cache changes only when a valid request loads a model |
| AppProperties.AcceptedIff | app.py:104-123 | a body is accepted exactly when all guards pass; then the request holds `q` and the lower-cased codes |
| AppProperties.ValidationOrder | app.py:113-123 | the guards fire in order: missing `q`, missing code, unsupported code, same codes |
| AppProperties.EmptyBodyRejected | app.py:104-105 | a falsy body gets 400 "No JSON data provided" |
| AppProperties.CapitalCodesAccepted | app.py:109-119 | codes in any case are accepted and reported lower-cased |
| AppProperties.EnToMrInCapitals | app.py:109-119 | "EN" to "MR" is an English-to-Marathi request |
| AppProperties.BlankTextNeedsNoModel | app.py:136-138 | blank texts give "" whatever the pipeline |
| AppProperties.EmptyOutputEchoes | app.py:141 | an empty pipeline output gives back the text itself |
| AppProperties.TranslateAllFailsAt | app.py:134-142 | when text i raises and every earlier text translates, the loop raises text i's exception |
| AppProperties.PipelineFailureFailsRequest | app.py:134-156 | a pipeline exception on a non-blank text, after the earlier texts translated, fails the request with status 500 and that message |
| AppProperties.TranslateAllElementwise | app.py:134-142 | the loop succeeds exactly when every text does, giving each text's translation in order |
| AppProperties.AnswerShape | app.py:130-151 | a list gives a list of the same length, entry by entry; a single text gives a string; confidence 100, source language |
| AppProperties.AnswerStatus | app.py:100-156 | a success reports a supported source at 100; every failure is 400 or 500; a failed guard is the reply |
| AppProperties.CachedModelServes | app.py:125-127 | with a cached model the answer does not depend on loading |

## Left out

- Flask routing, CORS, `jsonify`, the `/`, `/health` and `/languages` routes, the 404 handler and every `print`. They are plumbing or output with no effect on results.
- `request.get_json()` is the `data` parameter, already parsed. Failures to parse a body or a wrong content type are not modelled.
- Loading the tokenizer and the model is the `build` constant of `TranslationService`: a pipeline or an exception message. The model directory's existence is the `modelDirExists` constant. File-system and network I/O are not modelled.
- Loading errors: the message of a `FileNotFoundError` is the fixed string with the directory already formatted in. `str(e)` of a loading exception is whatever `build` holds.
- The translation pipeline and the langdetect estimator are deterministic functions given as parameters. langdetect is seeded with 0. Nothing is known about their outputs.
- Detect.Language is a value, not a mutable object. In `detect_languages`, `lang.confidence = ...` mutates `lc[0]`, which is also in `candidates`. The mutated object is only observable through `candidates` when `temp_average_list` is empty, and it cannot be empty once some code had candidates. So value semantics gives the same result.
- LanguageDetection.SortByWeight is the stable sort that `list.sort` is, written as an insertion sort on values. The in-place update of the Python list is not modelled.
- Floats are modelled as exact reals. Rounding error in `sum(...) / len(...)` and in the sort key is not modelled. Python's `round` is modelled with ties to even on the exact product `prob * 100`.
- PyStr.Lower and PyStr.Upper, with `islower`/`isupper`, handle ASCII letters only. Other characters count as uncased. Python's Unicode case tables are not modelled, so Devanagari text, which has no case, behaves the same.
- `str.split()` and `str.strip()` use Python's set of whitespace characters. Only `str.count(" ")` counts the plain space.
- `detect_languages` on a batch with a non-string item: `len(t)` and `Detector.detect` fail differently on such items in Python. The model takes a list of strings (`OneOrMany<string>`).
- `load_lang_codes()` is the constant `LangCodes`, because the registry only ever holds English and Marathi (`LanguageRegistry.BuiltInCodes`). The local `Language` class's `get_translation` and `to_lang` are not called by the modelled code and are not modelled.
- Json.TypeName: it tells `int` from `float` by whether the JSON number is whole. Python decides by how the number is written, so a whole number written with a fraction or an exponent (`1.0`, `1e2`) is a `float` there and an `int` here. This changes only the text of an error message.
- The `__str__` method of the detected-language record (detect.py:21-22) is display only.

## Notes on the code

- An exception raised by the pipeline while a batch is translated is caught by the handler around the whole endpoint (app.py:155-156). The request fails with status 500. No text is echoed back for the failing item, and the translations already done are lost (`AppProperties.PipelineFailureFailsRequest`, `App.FirstErrorStands`).
- The salad step runs after the punctuation step and can drop the punctuation that step added. For a source ending in `!` and a translation repeating one word five times or more, the result is that word without `!` (`TranslationFormatting.SaladOverridesPunctuation`). "Ends with the source's punctuation" therefore holds only when the workaround does not fire (`TranslationFormatting.FormatEndsWithSourcePunctuation`).
- The case step runs after the salad step. A source such as `Hi` with the translation `no no no no` gives `No`, not `no` (`TranslationFormatting.FormatCollapsesSalad`).
- A truthy request body that is not an object, or a `source`/`target` that is not a string, raises `AttributeError` inside the handler. The answer is status 500 with Python's message, not a 400.
