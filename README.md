# A.R.T.I.S.T resume core, modelled in Dafny

This project models four parts of the A.R.T.I.S.T resume tool and proves
properties of them.

- **The resume ranking service** (`ResumeRankingService`). It extracts
  keywords from a job description. It scores a resume on three metrics:
  keyword relevance, formatting and content quality. It combines them into a
  weighted overall score and builds a feedback dictionary.
- **The heuristic resume score** (`score_resume`). This adds up points for
  section headings, a word-count window, bonus keywords and contact details,
  then clamps the total.
- **The validating input parser**. It checks required fields, trims
  whitespace, and parses work-experience and education entries. It calls the
  email, phone-number and date validators, which the model takes as given
  fallible functions.
- **The form dictionary helpers**. These render an empty form from a template
  schema, reorder sections and add optional fields, and turn an error into a
  message.

Modules:

- `Outcomes`: `Option` and `Result`. An error the source raises is an `Err`
  value here.
- `OrderedDict`: a Python dict as a sequence of key/value pairs, so insertion
  order is kept. `Set` is `d[k] = v`; `Get` is `d.get(k)`.
- `Text`: the string builtins the source relies on, in the source's terms.
  - `Words` is `str.split()` on Python's whitespace set.
  - `Strip` is `str.strip(chars)`.
  - `Lower` is `str.lower()` on ASCII letters.
  - `Contains` is the substring `in`.
- `ResumeRanking`: `ResumeRankingService` as a class whose two fields are
  fixed at construction. Its metrics are functions. `GenerateFeedback` is a
  method that inserts into the feedback dictionary step by step.
  - Scores are exact `real`s.
  - The TF-IDF similarity is a parameter `similarity: (string, string) -> real`.
- `Scoring`: `score_resume` as a method with the source's accumulator and
  keyword loop. It is proved equal to a rule-by-rule specification
  `HeuristicScore`.
- `InputParser`: the parser.
  - Validators are a `Validators` record of functions.
  - `ValidationError` is a datatype with one constructor per place that
    raises it. `Message` gives the exact text the source raises.
  - The entry loops and the required-field loop are methods.
- `FormComponent`: `render_form` and `customize_form_options` as methods over
  ordered dictionaries. `handle_errors` is a function.

Where the code and its documentation differ, the model follows the code.

- A keyword's length is tested before punctuation is stripped. So "ab," gives
  the keyword "ab", and "..." gives the empty keyword.
- Keyword relevance is not clamped to 100.
- The overall score is not clamped either.
- `score_resume` documents a range of 0 to 100, but it can never exceed 95.

## Model

| member | source | states |
|---|---|---|
| ResumeRanking.RankingService.constructor | src/services/resume_ranking_service.py:19-20 | stores the job description; the keyword list is the keywords extracted from it, and is empty when the description is None or "" |
| ResumeRanking.RankingService.ExtractKeywords | src/services/resume_ranking_service.py:29-36 | a falsy text gives no keywords; there are never more keywords than lowercased whitespace-separated words |
| ResumeRanking.KeywordsOfSources | src/services/resume_ranking_service.py:34 | every keyword is the punctuation-stripped form of a word whose unstripped length exceeds 2, and every such word contributes its stripped form |
| ResumeRanking.KeywordsOfAppend | src/services/resume_ranking_service.py:34 | the comprehension works word by word: the keywords of two word lists joined are the keywords of each, in order, duplicates kept |
| ResumeRanking.ExtractKeywordsAroundSpace | src/services/resume_ranking_service.py:33-34 | splitting a text at any whitespace character splits its keyword list at the same place, so source order and repetitions are kept |
| ResumeRanking.ExtractKeywordsOfWord | src/services/resume_ranking_service.py:33-34 | a single word gives its lowercased, punctuation-stripped form when it has more than two characters, and nothing otherwise |
| ResumeRanking.BlankDescriptionHasNoKeywords | src/services/resume_ranking_service.py:20 | a whitespace-only job description is truthy and is kept, yet gives no keywords, so every resume scores 0 for relevance |
| ResumeRanking.StrippedKeywordMayBeShort | src/services/resume_ranking_service.py:34 | the length test comes before stripping: "ab," gives the two-character keyword "ab" |
| ResumeRanking.StrippedKeywordMayBeEmpty | src/services/resume_ranking_service.py:34 | "..." gives the empty keyword |
| ResumeRanking.RankingService.ScoreKeywordRelevance | src/services/resume_ranking_service.py:45-54 | 0 for an empty keyword list; otherwise 100 times the number of lowercased, unstripped resume words that are in the list, divided by the list length; never negative; 0 exactly when no word matches |
| ResumeRanking.MatchCountZero | src/services/resume_ranking_service.py:50 | the match count is 0 exactly when no word is in the keyword list |
| ResumeRanking.MatchCountAppend | src/services/resume_ranking_service.py:50 | the match count of two word lists joined is the sum of their counts |
| ResumeRanking.RelevanceCanExceedHundred | src/services/resume_ranking_service.py:49-52 | relevance is not clamped: a one-keyword list and a resume naming that keyword twice score 200 |
| ResumeRanking.RankingService.EvaluateFormatting | src/services/resume_ranking_service.py:64-70 | 25 times the number of the four section names found in the lowercased resume; one of 0, 25, 50, 75 or 100; 100 exactly when all four occur |
| ResumeRanking.FormattingNeverDrops | src/services/resume_ranking_service.py:64-65 | appending or prepending text never lowers the formatting score |
| ResumeRanking.RankingService.EvaluateContentQuality | src/services/resume_ranking_service.py:79-89 | exactly 50 when the job description is falsy; otherwise 100 times the similarity, which stays within 0..100 when the similarity stays within 0..1 |
| ResumeRanking.RankingService.RankResume | src/services/resume_ranking_service.py:98-118 | the three scores are the three metrics; the overall score is 0.4, 0.3 and 0.3 times them; the feedback meets `IsFeedbackFor`; with no job description, relevance is 0, content quality is 50, the relevance and content entries are present, "overall" is absent, and overall equals 0.3 times formatting plus 15 |
| ResumeRanking.OverallBetweenMetrics | src/services/resume_ranking_service.py:105-107 | the weights sum to one, so the overall score lies between the lowest and the highest metric |
| ResumeRanking.OverallNotClamped | src/services/resume_ranking_service.py:105-107 | the overall score is not clamped: metrics 150, 100 and 100 give 120 |
| ResumeRanking.RankingService.GenerateFeedback | src/services/resume_ranking_service.py:127-141 | `IsFeedbackFor`: each metric key maps to its advice exactly when the metric is below its threshold (70, 80, 75); "overall" maps to the praise exactly when none is; no other key and no key twice; keys in insertion order |
| ResumeRanking.NextEntry | src/services/resume_ranking_service.py:129-136 | one conditional insert appends the key's advice when its test fires and leaves the dictionary unchanged otherwise |
| ResumeRanking.EntriesRanked | src/services/resume_ranking_service.py:127-139 | after n tests, every inserted key comes from the first n tests, and the keys are in test order |
| ResumeRanking.MetricEntriesEmpty | src/services/resume_ranking_service.py:138-139 | the three metric tests insert nothing exactly when the praise is due |
| ResumeRanking.EntriesLookup | src/services/resume_ranking_service.py:129-139 | after all four tests, each key maps to its advice exactly when its test fired, and is absent otherwise |
| ResumeRanking.FeedbackOfEntries | src/services/resume_ranking_service.py:127-141 | the entries the four tests insert, in test order, form feedback for the scores |
| ResumeRanking.FeedbackShape | src/services/resume_ranking_service.py:138-139 | feedback is never empty, and when "overall" is present it is the only key |
| Scoring.LengthAdjustment | src/utils/scoring_utils.py:19-23 | +20 exactly when the word count is between 400 and 800 inclusive, -10 otherwise |
| Scoring.ContactPenalty | src/utils/scoring_utils.py:32-33 | a single deduction of 20, applied exactly when "Phone" or "Email" is missing; never doubled |
| Scoring.RawScore | src/utils/scoring_utils.py:8-33 | the unclamped sum of the rules lies between -30 and 95 and is a multiple of 5 |
| Scoring.Clamp | src/utils/scoring_utils.py:36 | `max(0, min(100, x))`: within 0..100, unchanged inside that range, 0 below it and 100 above it |
| Scoring.HeuristicScore | src/utils/scoring_utils.py:36 | the clamped score is within 0..95 and a multiple of 5; it is 0 exactly when the raw sum is not positive, and equals the raw sum otherwise |
| Scoring.ScoreResume | src/utils/scoring_utils.py:1-38 | the accumulator with its keyword loop returns `HeuristicScore` of the content, so it is within 0..95 and a multiple of 5 |
| Scoring.SectionHeadingWorthTwenty | src/utils/scoring_utils.py:11-16 | making one more of the three headings occur, with all else equal, adds exactly 20 to the raw score |
| Scoring.BonusKeywordWorthFive | src/utils/scoring_utils.py:26-29 | making one more of the three bonus keywords occur, with all else equal, adds exactly 5 to the raw score |
| Scoring.WorkedExample | src/utils/scoring_utils.py:8-38 | every heading, 400 to 800 words, "Python" but neither other keyword, and both contact words: the score is 85 |
| Scoring.BareResumeScoresZero | src/utils/scoring_utils.py:8-38 | no heading, fewer than 400 words and no "Phone": the score clamps to 0, whatever the keywords |
| Scoring.OnlyLengthCanHurt | src/utils/scoring_utils.py:11-33 | appending text can lower the score only by moving the word count out of the window |
| InputParser.ValidateEmail | src/generators/input_parser.py:10-18 | succeeds exactly when the email validator does, with its normalised address; otherwise the error carries the validator's text |
| InputParser.ValidatePhone | src/generators/input_parser.py:20-30 | succeeds exactly when the number parses and is valid, with its international format; an unparseable number and an invalid one give the two distinct errors |
| InputParser.ValidateDate | src/generators/input_parser.py:32-40 | succeeds exactly when the date matches the pattern, and then returns its input unchanged; otherwise it reports the text and the pattern |
| InputParser.SanitizeSpec | src/generators/input_parser.py:42-46 | trimming removes whitespace at both ends and nothing else: the result is a slice of the input, every cut character is whitespace, neither end of the result is whitespace, and trimming again changes nothing |
| InputParser.ParseExperienceEntry | src/generators/input_parser.py:54-67 | the incomplete-entry error exactly when company, role or start_date is missing; success exactly when the start date and any end date other than "Present" validate; the four fields are the trimmed company and role, the start date, and the end date defaulting to "Present"; a failed date check reports the start date when it fails, and the end date only otherwise |
| InputParser.PresentIsNeverValidated | src/generators/input_parser.py:59-61 | an end date of "Present", given or defaulted, never reaches the date validator |
| InputParser.ParseExperience | src/generators/input_parser.py:48-68 | succeeds exactly when every entry parses, with one result per entry in input order; otherwise it returns the error of the first entry that fails |
| InputParser.ParseEducationEntry | src/generators/input_parser.py:76-85 | the incomplete-entry error exactly when institution, degree or graduation_year is missing; success exactly when the year validates under "%Y"; the three fields are the trimmed institution and degree and the year; a failed year check reports the year and "%Y" |
| InputParser.ParseEducation | src/generators/input_parser.py:70-86 | succeeds exactly when every entry parses, with one result per entry in input order; otherwise it returns the error of the first entry that fails |
| InputParser.FirstExperienceErrorUnique | src/generators/input_parser.py:53-55 | the first failing entry's error is well defined: two errors that both qualify are equal |
| InputParser.SanitizeAll | src/generators/input_parser.py:115-117 | the list comprehension keeps the length and trims each element |
| InputParser.ParseResumeInput | src/generators/input_parser.py:88-131 | reports the first missing field in the order name, email, phone, experience, education; then the email, phone, experience and education errors, each only when the earlier checks pass; succeeds exactly when all pass, with the trimmed name, validated email and phone, entry-wise parsed lists, trimmed skills and hobbies defaulting to [], and the summary defaulting to "Not Provided" |
| FormComponent.EmptyFields | src/components/form_component.py:64 | the field map has each listed field once, in order of first occurrence, and every value is None |
| FormComponent.EmptyFieldsLookup | src/components/form_component.py:64 | a field maps to None exactly when it is listed, and is absent otherwise |
| FormComponent.RenderForm | src/components/form_component.py:58-65 | the form has exactly the schema's sections, in schema order, each holding the empty field map of its fields |
| FormComponent.ReorderSpec | src/components/form_component.py:97 | the comprehension succeeds exactly when every ordered section is in the form, and otherwise fails with the first missing one; on success the keys are the order without repeats, and each keeps its value from the form |
| FormComponent.CustomizeFormOptions | src/components/form_component.py:92-103 | a missing "order" is a KeyError; so is an ordered section absent from the form, the first one being reported; on success the keys are the order followed by the new optional fields, each optional field maps to None, each other ordered section keeps its value, and nothing else is present |
| FormComponent.CustomizedOrderFirst | src/components/form_component.py:97-101 | optional fields never move the reordered sections: those come first, in their order |
| FormComponent.HandleErrors | src/components/form_component.py:106-114 | a string gets "Validation Error: " in front; a mapping with "error" gives "API Error: " and that value; any other mapping gives "Unknown error occurred." |
| FormComponent.HandleErrorsClassifies | src/components/form_component.py:110-114 | each prefix identifies its case in both directions, and the payload can be read back after the prefix |
| Text.WordsAroundSpace | src/services/resume_ranking_service.py:33 | `str.split()` splits at any whitespace character: the words of two texts joined by whitespace are the words of each |
| Text.WordsAreRuns | src/utils/scoring_utils.py:19 | every word `str.split()` returns is non-empty and free of whitespace |
| Text.StripSpec | src/generators/input_parser.py:46 | `str.strip` removes the selected characters at both ends and nothing else |
| Text.StripIdempotent | src/generators/input_parser.py:46 | stripping twice gives the same as stripping once |
| Text.PunctuationIsStringPunctuation | src/services/resume_ranking_service.py:34 | the punctuation test is exactly the 32 characters of `string.punctuation` |
| Text.CountContainedExtremes | src/services/resume_ranking_service.py:65 | the number of parts found is the total exactly when all occur, and 0 exactly when none does |
| OrderedDict.SetKeys | src/components/form_component.py:101 | `d[k] = v` keeps an existing key in place and appends a new one |
| OrderedDict.SetGet | src/components/form_component.py:101 | after `d[k] = v`, `k` maps to `v` and every other key keeps its value |
| OrderedDict.Dedup | src/components/form_component.py:64 | the keys of a comprehension are the distinct elements of the source list, and no others |

## Left out

- The TF-IDF and cosine-similarity branch of `evaluate_content_quality`
  (src/services/resume_ranking_service.py:83-87) is a library call on
  floating point. It is the parameter `similarity`.
- `ResumeRanking.RankingService.EvaluateContentQuality` and
  `ResumeRanking.RankingService.RankResume` always return a score. In the
  source, `TfidfVectorizer().fit_transform`
  (src/services/resume_ranking_service.py:84) raises `ValueError` (empty
  vocabulary) when neither text has a token of two or more word characters.
  One such input is the truthy job description "!!" with the resume "". The
  total `similarity` parameter does not model that exception.
- Logging calls are left out. They only produce output.
- Floating-point rounding is left out. Scores and weights are exact `real`s.
- Python integer and float results are not told apart: the source's `0` and
  `50` are `0.0` and `50.0` here.
- `str.lower()` is modelled on ASCII letters only. Unicode case mapping is not
  modelled.
- The internals of the email-validator, phonenumbers and `datetime.strptime`
  libraries are left out. They are given functions in `Validators`.
- Inputs of the wrong type are not modelled: a non-string field, a
  non-dictionary entry, or a None where a string is read. In the source these
  raise `TypeError` or `AttributeError`.
- `RawResume` holds each top-level field as an `Option`. So a key present
  with the value None counts as absent.
- `InputParser.ParseResumeInput`: raw experience and education entries are
  Dafny `map`s. Their key order does not reach the result, because each
  parsed entry is a record.
- `FormComponent.HandleErrors`: the value under "error" is taken as text
  already. The source's `str()` conversion of other values is not modelled.
- The Pydantic models and `validate_input` are not part of this model.
- `submit_form` is not part of this model. It makes an HTTP request.
- src/main.py, src/models/llm_inference.py, src/generators/pdf_exporter.py,
  src/generators/resume_generator.py and src/utils/template_renderer.py are
  not part of this model. They are I/O, network and orchestration code.
- The `__main__` demo blocks are left out.
