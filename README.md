# wehire-ml-hub core, modelled in Dafny

This project models the deterministic core of the WeHire ML hub, a Python service. Around its language-model calls the service does the following:

- It reads a resume PDF page by page and falls back to OCR for pages without text. It groups the pages into chunks and extracts each chunk with the language model, in parallel. It then puts the partial records back in chunk order and merges them field by field (`OptimizedResumeExtractor`).
- It sizes an interview from its duration, the expected answer length and a buffer share (`InterviewConfig`). It formats client-provided interview questions and counts the model calls (`InterviewQuestionGenerator`).
- It checks job-matching weights and produces the matching schema and the answer template. It produces the mail schema.
- It pages through public job posts and keeps those the user has not had scored. It sends them to the model in batches and builds one score update per matched job.
- It decides whether a PDF is text-based from its word count.
- It lists and loads the JSON files of an upload directory.
- It overlays the sections the model rewrote onto a resume.

The language model, the OCR engines, the job server, the file system and `json.loads` are outside the model. They appear as parameters: a function from a chunk (or a batch, or a prompt's data) to the reply, the OCR texts inside each page, a sequence of page responses, a map from directory to entries, and a function from text to JSON.

Python's semantics are written out where they matter:

- `int()` truncates toward zero.
- `max(key=len)` keeps the first maximum.
- `s[:n]` with a negative `n` counts from the end.
- `str.split()` and `str.isspace()` use Python's whitespace set.
- `in` has its meaning on dicts, lists and strings.
- `PurePath.stem` drops only a suffix that neither starts nor ends the name.

The interview buffer share and the matching weights are exact reals, not floats; "## Left out" says where this changes results.

Modules, one per source file, plus shared ones:

- `Wrappers` (`Option`, `Result`).
- `Text`: whitespace, ASCII lower-casing, `split()`, `join`, string order, and sorting a set of strings.
- `Json`: JSON values and path lookup.
- `Slicing`: `[xs[i:i+k] for i in range(0, len(xs), k)]`.
- `ResumeRecord`: the resume record and `empty_schema`.
- `ResumeMerge`: `_merge_results`.
- `ResumeExtractor`: pages, chunks, the parallel step, counters and the shared empty record.
- `Interview`, `QuestionGeneration`, `JobSchema`, `MatchTemplate`, `FetchJobs`, `PdfText`, `FindResume` and `ResumeService`.

The extractor always goes through the thread pool, even for one chunk, and the unit of work is a chunk of `pages_per_chunk` pages. In the merge, personal info is first-non-empty-wins, and languages are an exact-string union without case folding.

## Model

Source paths are relative to the repository root.

| member | source | states |
|---|---|---|
| ResumeExtractor.FinalText | application/ai_agents/pdf_extractor/resume_extractor.py:151-165 | A page keeps its embedded text unless that text is blank and the OCR method is "tesseract" or "vision". In that case it gets that engine's text. "none" and every other method leave a blank page blank. |
| ResumeExtractor.KeptPagesSpec | application/ai_agents/pdf_extractor/resume_extractor.py:150-167 | The kept pages are, in page order, exactly the pages whose final text is not blank. Each one is the final text of its page. |
| ResumeExtractor.KeptPagesNonBlank | application/ai_agents/pdf_extractor/resume_extractor.py:166-167 | No kept page is blank, and there are no more kept pages than pages. |
| ResumeExtractor.OcrPageNumbersSpec | application/ai_agents/pdf_extractor/resume_extractor.py:152-165 | OCR runs on exactly the pages whose embedded text is blank under an OCR-capable method, and they are listed in page order. |
| ResumeExtractor.ReadPages | application/ai_agents/pdf_extractor/resume_extractor.py:150-167 | The page loop returns the kept pages and the pages on which OCR ran, as KeptPagesSpec and OcrPageNumbersSpec characterise them. |
| ResumeExtractor.ChunkSize | application/ai_agents/pdf_extractor/resume_extractor.py:231 | A chunk closes at `pages_per_chunk` pages, so any value below 1 acts as 1. |
| ResumeExtractor.JoinEach | application/ai_agents/pdf_extractor/resume_extractor.py:232 | One chunk text per page group, each group joined with the "--- PAGE BREAK ---" separator. |
| ResumeExtractor.ChunkTextsSpec | application/ai_agents/pdf_extractor/resume_extractor.py:222-235 | With `n` pages and chunk size `k` there are `ceil(n/k)` chunks, none for no pages. Chunk `i` joins pages `i*k` up to `(i+1)*k` or the end. |
| ResumeExtractor.OptimizedResumeExtractor.CreateChunks | application/ai_agents/pdf_extractor/resume_extractor.py:222-235 | The accumulate-and-flush loop returns exactly those chunk texts. |
| Slicing.GroupsSizes | application/ai_agents/pdf_extractor/resume_extractor.py:227-233 | Every group but the last has exactly `k` elements and the last has 1 to `k`. The groups concatenated give back the input. |
| Slicing.GroupsCount | application/db_apis/fetch_jobs.py:82-83 | The number of groups is the least `c` with `c*k >= n`. |
| Slicing.GroupsSlices | application/db_apis/fetch_jobs.py:82-83 | Group `i` is the slice `[i*k : i*k+k]`, and the number of groups is the least `c` with `c*k >= n`. |
| ResumeExtractor.ExpectedRecords | application/ai_agents/pdf_extractor/resume_extractor.py:250-265 | One record per chunk. Position `i` holds chunk `i`'s parsed reply, or the empty record when the call raised or its content did not parse. |
| ResumeExtractor.OptimizedResumeExtractor.ExtractChunk | application/ai_agents/pdf_extractor/resume_extractor.py:267-298 | A returned call adds one API call and its prompt and completion tokens, even when the content then fails to parse. A call that raises changes no counter. |
| ResumeExtractor.OptimizedResumeExtractor.ExtractParallel | application/ai_agents/pdf_extractor/resume_extractor.py:237-265 | Whatever order the chunks complete in, the sorted results are the expected records in chunk order. The API-call count grows by the number of chunks whose call returned. |
| ResumeExtractor.RestoredOrder | application/ai_agents/pdf_extractor/resume_extractor.py:263-265 | Sorting the `(chunk_idx, record)` pairs collected in any completion order puts chunk `i`'s record at position `i`. |
| ResumeExtractor.SortIncreasing | application/ai_agents/pdf_extractor/resume_extractor.py:264 | Sorting pairs with distinct chunk indices yields strictly increasing indices. |
| ResumeExtractor.SortByIndex | application/ai_agents/pdf_extractor/resume_extractor.py:264 | The sort is a permutation of the collected pairs. |
| ResumeExtractor.IncreasingIndicesAreRange | application/ai_agents/pdf_extractor/resume_extractor.py:263-265 | `n` strictly increasing indices below `n` are exactly `0..n-1`. |
| ResumeExtractor.OptimizedResumeExtractor.constructor | application/ai_agents/pdf_extractor/resume_extractor.py:65-90 | The extractor keeps its chunk size and worker count and starts with all three counters at 0. |
| ResumeExtractor.OptimizedResumeExtractor.ExtractFromPdf | application/ai_agents/pdf_extractor/resume_extractor.py:128-199 | The counters restart from 0. The result is the merge of the chunk records, in chunk order, onto a fresh empty record. This is the corrected merge; the merge as written is MergeResultsShared. `total_pages` is the number of kept pages, `chunks_processed` the number of chunks, and `api_calls` the number of calls that returned. |
| ResumeExtractor.OptimizedResumeExtractor.MergeResultsShared | application/ai_agents/pdf_extractor/resume_extractor.py:300-309 | As written, the merge starts from the shared `empty_schema` object's current contents and leaves its result in that object. |
| ResumeExtractor.SharedRecordLeaksName | application/schema/resume_parser.py:101-110 | Through the shared record, a second document merged after one naming "Alice" keeps the name "Alice". |
| ResumeExtractor.FreshRecordKeepsName | application/ai_agents/pdf_extractor/resume_extractor.py:309-315 | Merging onto a fresh empty record, the second document gets its own name "Bob". |
| ResumeMerge.MergeResults | application/ai_agents/pdf_extractor/resume_extractor.py:304-375 | `_merge_results` produces, field by field, the merge its policies define. |
| ResumeMerge.MergeDeterministic | application/ai_agents/pdf_extractor/resume_extractor.py:304-375 | The merge of given results onto a given record is unique. |
| ResumeMerge.MergePersonalInfo | application/ai_agents/pdf_extractor/resume_extractor.py:311-315 | The nested loops over results and their keys compute the personal-info merge. |
| ResumeMerge.PersonalInfoFirstNonEmpty | application/ai_agents/pdf_extractor/resume_extractor.py:311-315 | For a key that starts empty, the merged value is the first non-empty value any result gives, in result order. It is unchanged when no result gives one. |
| ResumeMerge.NonEmptyNeverOverwritten | application/ai_agents/pdf_extractor/resume_extractor.py:314 | A non-empty personal-info value is never overwritten by a later result. |
| ResumeMerge.FirstNonEmpty | application/ai_agents/pdf_extractor/resume_extractor.py:312-315 | A value found is non-empty and comes from some result. When none is found, every result's value for the key is empty. |
| ResumeMerge.Longest | application/ai_agents/pdf_extractor/resume_extractor.py:320 | `max(key=len)` returns a string at least as long as every candidate. On ties it returns the first of the longest. |
| ResumeMerge.LongestSummaryWins | application/ai_agents/pdf_extractor/resume_extractor.py:317-320 | With no non-empty summary the record's summary is kept. Otherwise the merged summary is a non-empty summary of some result and at least as long as every result's summary. |
| ResumeMerge.SummariesEmpty | application/ai_agents/pdf_extractor/resume_extractor.py:318-319 | The candidate list is empty exactly when no result has a non-empty summary. |
| ResumeMerge.MergeSkills | application/ai_agents/pdf_extractor/resume_extractor.py:322-331 | The merged skills are sorted without repeats and are exactly the first-seen spellings of the lower-cased skills. |
| ResumeMerge.SkillsPolicy | application/ai_agents/pdf_extractor/resume_extractor.py:322-331 | No two merged skills agree when lower-cased. Each is the first spelling seen of its lower-cased form. Every input skill's lower-cased form is represented. |
| ResumeMerge.FirstSpellingsSpec | application/ai_agents/pdf_extractor/resume_extractor.py:325-330 | `skills_map` has one key per lower-cased skill, and it maps each to the first spelling seen. |
| ResumeMerge.MergeLanguages | application/ai_agents/pdf_extractor/resume_extractor.py:333-337 | The merged languages are sorted without repeats and form the exact-string union of all results' languages. |
| ResumeMerge.LanguagesPolicy | application/ai_agents/pdf_extractor/resume_extractor.py:333-337 | A language is merged exactly when some result lists it. |
| ResumeMerge.MergeKeyed | application/ai_agents/pdf_extractor/resume_extractor.py:339-373 | The `seen`-set loops append to the record's list, in input order, the first entry of each key. They skip entries with a blank key. |
| ResumeMerge.KeepFirstByKeySpec | application/ai_agents/pdf_extractor/resume_extractor.py:339-373 | Kept entries have pairwise distinct keys and none is blank. Their keys are exactly the non-blank keys of the input. |
| ResumeMerge.KeepFirstByKeyOrder | application/ai_agents/pdf_extractor/resume_extractor.py:339-373 | Each kept entry is the first input entry with its key, and kept entries keep their input order. |
| ResumeMerge.GatherMembers | application/ai_agents/pdf_extractor/resume_extractor.py:325-326 | The entries gathered over all results are exactly the entries of some result. |
| Text.SortStrings | application/ai_agents/pdf_extractor/resume_extractor.py:331 | `sorted()` of a set of strings gives a strictly increasing list of exactly its elements. |
| Interview.TruncToInt | application/schema/interview.py:104 | `int()` truncates toward zero. |
| Interview.QuestionCount | application/schema/interview.py:88-107 | The question count is at least 1. |
| Interview.QuestionCountFits | application/schema/interview.py:100-107 | When one question fits in `duration * (1 - buffer)`, the count's questions fit and one more would not. Otherwise the count is 1. |
| Interview.DefaultSizing | application/schema/interview.py:77-107 | With the 15% buffer, a 30-minute interview with medium answers has 5 questions, and a 5-minute one with long answers has 1. |
| Interview.NewInterviewConfig | application/schema/interview.py:67-86 | Missing client questions become `[]`. A hybrid interview without client questions raises `ValueError`. Otherwise every field keeps its argument, including the phase and `client_questions_count`, and `total_questions` is computed from the duration, the length and the buffer. |
| QuestionGeneration.PyTake | application/ai_agents/generation/question_generation.py:117 | Python's `s[:n]`: the first `n` items, or all but the last `-n` for a negative `n`. |
| QuestionGeneration.ClientQuestionSet | application/ai_agents/generation/question_generation.py:111-145 | Only the first `total_questions` client questions are formatted, in order, numbered from 1, with the fixed client-question fields. The summary counts them all in the configured difficulty's bucket. The estimated duration is their number times the time per question. |
| QuestionGeneration.InterviewQuestionGenerator.FormatClientQuestions | application/ai_agents/generation/question_generation.py:111-145 | The formatting loop builds exactly the client question set. |
| QuestionGeneration.BucketsSum | application/ai_agents/generation/question_generation.py:137-141 | The three difficulty buckets add up to the number of questions. |
| QuestionGeneration.ClientInterviewFitsBudget | application/ai_agents/generation/question_generation.py:117-131 | For a configuration whose total was computed at construction, the client interview's estimated duration stays within the time left after the buffer, whenever one question fits in it. |
| QuestionGeneration.InterviewQuestionGenerator.constructor | application/ai_agents/generation/question_generation.py:23-31 | The counters start at 0. |
| QuestionGeneration.InterviewQuestionGenerator.CallApi | application/ai_agents/generation/question_generation.py:249-272 | A returned call adds one API call and its tokens, even if its content does not parse. A raised call changes nothing and propagates. |
| QuestionGeneration.InterviewQuestionGenerator.Generate | application/ai_agents/generation/question_generation.py:37-109 | Counters are reset. The client-provided path makes no call, so all counters stay 0, and it returns exactly the client question set. The other paths make one call and return its parsed set, or fail when the call raises or its content does not parse. The metrics report the counters, the number of questions and the summary's duration. |
| JobSchema.GetMatchingScoreJson | application/schema/job.py:34-176 | `ValueError("Total weightage must be 100.")` exactly when the weights do not sum to 100. Otherwise the fixed matching schema. |
| JobSchema.MatchingSchemaIgnoresWeights | application/schema/job.py:53-176 | All accepted weightings give the same schema. |
| JobSchema.ConfiguredWeightsAccepted | application/utils/config.py:22-25 | The configured weights 30/25/25/20 are accepted. |
| JobSchema.MatchingSchemaRequired | application/schema/job.py:160-173 | The top level requires `matched_jobs` and forbids other properties. A matched job requires its four keys, the details their four categories, and each category its five fields. |
| JobSchema.MailSchemaRequired | application/schema/job.py:179-198 | The mail schema has exactly `job_id`, `subject` and `email_content`, requires all three and forbids others. |
| MatchTemplate.GetMatchingScoreTemplate | application/ai_agents/prompts_n_keys.py:183-228 | `ValueError` exactly when the weights do not sum to 100. Otherwise an object whose `matched_jobs` is a list. |
| MatchTemplate.MaxScoresAreWeights | application/ai_agents/prompts_n_keys.py:189-225 | An accepted template has exactly one matched job, and each category's `max_score` is that category's weight argument. |
| MatchTemplate.MaxScoresSumTo100 | application/ai_agents/prompts_n_keys.py:185-220 | On success the four `max_score`s add up to 100. |
| MatchTemplate.TemplateScoresZero | application/ai_agents/prompts_n_keys.py:191-221 | The job's `match_score` and every category `score` are 0, and its id and title are empty. |
| MatchTemplate.SameWeightCheck | application/ai_agents/prompts_n_keys.py:185-186 | The template and the schema version accept exactly the same weights. |
| FetchJobs.GetUnprocessedJobs | application/db_apis/fetch_jobs.py:25-54 | A failed request gives `([], 1)`. Otherwise the page count is `totalPages`, or 1 when absent. The job list is never longer than the page's posts. |
| FetchJobs.UnprocessedJobsSpec | application/db_apis/fetch_jobs.py:44-47 | A post is returned exactly when it is on the page and no `userJobs` entry has its `_id` as `jobId`. |
| FetchJobs.UnprocessedAppend | application/db_apis/fetch_jobs.py:47 | The filter distributes over concatenation, so it keeps the posts' order. |
| FetchJobs.AsWrittenVisitsConsecutivePages | application/db_apis/fetch_jobs.py:64-118 | Paging visits pages 1, 2, ... consecutively, and each visited page has unprocessed posts. Every visited page but the last is below its page count. The run ends at a page that reached its count, or before a page without unprocessed posts. |
| FetchJobs.ProcessedPageStopsPaging | application/db_apis/fetch_jobs.py:74-76 | As written, a first page whose posts were all scored ends the run, though page 2 holds an unscored post. The corrected paging scores that post. |
| FetchJobs.CorrectedReachesEveryPage | application/db_apis/fetch_jobs.py:73-118 | Paging that skips pages whose posts were all scored sends every unscored post of a well-behaved server, in page order. |
| FetchJobs.BatchesCoverJobs | application/db_apis/fetch_jobs.py:82-83 | Batches hold 1 to `batch_size` jobs and together are the page's unprocessed list. |
| FetchJobs.BatchesCoverPages | application/db_apis/fetch_jobs.py:73-83 | Over the whole run, every job of every visited page is sent in exactly one batch, in page order. |
| FetchJobs.BatchPayloads | application/db_apis/fetch_jobs.py:102-107 | One payload per matched job, carrying the user, the job id and the score, with the score 0 when missing. |
| FetchJobs.ScoreBatch | application/db_apis/fetch_jobs.py:102-112 | The update loop builds the batch's payloads. |
| FetchJobs.ScorePage | application/db_apis/fetch_jobs.py:82-114 | The `range(0, len, batch_size)` loop sends exactly the page's slices and builds their payloads. |
| FetchJobs.ProcessJobsInBatches | application/db_apis/fetch_jobs.py:60-118 | The paging loop sends the batches of exactly the pages the as-written paging visits, and builds their payloads. |
| PdfText.IsPdfTextBased | application/utils/utils_functions.py:3-15 | True exactly when some prefix's running word count reaches `min_words`, returned at the first such page. False otherwise, after reading every page. |
| PdfText.ThresholdOfWholeDocument | application/utils/utils_functions.py:7-15 | A document is text-based exactly when it has pages and all its words reach the threshold. An empty document never is. |
| PdfText.AppendKeepsTextBased | application/utils/utils_functions.py:7-13 | Appending pages never turns a text-based verdict into the opposite. |
| PdfText.LaterPagesIgnored | application/utils/utils_functions.py:12-13 | Pages after the one that reaches the threshold change neither the verdict nor the page it is reached at. |
| Text.Words | application/utils/utils_functions.py:9 | `split()` gives non-empty words free of whitespace. |
| Text.WordsAroundSpace | application/utils/utils_functions.py:9-10 | A whitespace character always separates words: the words of `a + c + b` are those of `a` followed by those of `b`. Together with WordsOfWord this fixes every word as a maximal run of non-whitespace, and so fixes the count of words. |
| Text.WordsOfWord | application/utils/utils_functions.py:9 | A string with no whitespace splits into nothing when empty and into itself otherwise. |
| FindResume.Stem | application/utils/find_resume.py:27 | `stem` is a prefix of the name. It drops the part from the last `.` when that dot neither starts nor ends the name, and keeps the whole name otherwise. |
| FindResume.StemOfSuffixed | application/utils/find_resume.py:27 | The stem of `x.ext` is `x`. |
| FindResume.GetUploadedFileNames | application/utils/find_resume.py:5-27 | A missing directory raises `FileNotFoundError`, the only error. |
| FindResume.ListedStemsSpec | application/utils/find_resume.py:21-27 | The listing holds the stem of each regular file matching the extension (or of each regular file without one), and only those. |
| FindResume.EmptyExtensionListsAll | application/utils/find_resume.py:21-24 | An empty extension filters nothing, like no extension. |
| FindResume.JsonName | application/utils/find_resume.py:47 | The name looked up always ends with ".json". It is the filename if that already ends with ".json", otherwise the filename plus ".json". |
| FindResume.JsonNameIdempotent | application/utils/find_resume.py:47 | Normalising twice is normalising once. |
| FindResume.LoadJsonFromFile | application/utils/find_resume.py:31-56 | A missing directory is reported before any file lookup. A missing file is `FileNotFoundError`. A found entry that is a directory, or whose content is not JSON, gives that error. A found regular file with JSON content loads exactly that content, and loaded data always comes from such a file. |
| FindResume.ExtensionOptional | application/utils/find_resume.py:47-56 | Loading `x` and loading `x.json` give the same outcome. |
| ResumeService.Subset | application/api/services/resume.py:125-130 | The subset has exactly the four section keys, with the resume's values where present and `{}`, `{}`, `[]`, `[]` otherwise. |
| ResumeService.SubsetIgnoresOtherKeys | application/api/services/resume.py:125-130 | What the model is sent depends on the four sections alone. |
| ResumeService.ExtractContent | application/api/services/resume.py:143-149 | The content falls back to "{}" on no response, no choices, an unreadable, null or empty content. In every other case it is exactly the first choice's content. It is never empty. |
| ResumeService.Overlay | application/api/services/resume.py:154-157 | The loop completes exactly when the reply is an object or `in` finds none of the four keys in it; otherwise `TypeError`. On completion each of the four sections the reply holds replaces the resume's. Every other key is kept as it was, and extra reply keys are ignored. |
| ResumeService.OverlayKeepsOtherKeys | application/api/services/resume.py:154-157 | An overlay never adds, removes or changes a key outside the four sections. |
| ResumeService.EnhanceResumeWrtJob | application/api/services/resume.py:120-159 | A model call that raises propagates. Content that does not parse raises. Otherwise the parsed reply is overlaid on the resume: it fails or succeeds as the overlay does, and the result is the resume with the reply's sections in place. With the "{}" fallback the resume comes back unchanged. |
| ResumeService.EnhanceResumeWrtAi | application/api/services/resume.py:162-180 | A model call that raises propagates. It succeeds exactly when the content parses to an object, and the data is then that object; `{}` with the "{}" fallback. Content that does not parse, or parses to anything but an object (rejected by `data: dict`), fails. |

## Left out

- The language model, Tesseract and the vision OCR are parameters. Prompt texts, the model name, the extraction and enhancement schema literals, and what the model returns are not modelled.
- Opening PDFs, rasterising pages, and file and network I/O are not modelled. The model has no HTTP `PUT` of the score updates; their payloads are the result. It also has no JSON file writing and no HTTP routes.
- Time, cost and buffer-minute figures (`_calculate_cost`, `total_time`, `buffer_time`) are floating-point arithmetic and are not modelled.
- Concurrency is not modelled. The thread pool is a completion order, and the unsynchronised `+=` on the counters is treated as atomic.
- The `verbose` printing is not modelled.
- Text.LowerChar: `str.lower()` is modelled on ASCII letters only. Other letters keep their case, so skills and keys that differ only in non-ASCII case are treated as distinct.
- ResumeExtractor.OptimizedResumeExtractor.ExtractParallel: the token totals are stated as sums in completion order. That they do not depend on the order is not proved.
- ResumeExtractor.OptimizedResumeExtractor.MergeResultsShared: when a failed chunk's placeholder is the same shared `empty_schema` object as `merged`, the merge also reads what it has already written. This aliasing within one merge is not modelled; the placeholder is a separate empty record.
- A partial record missing a key of the schema is not modelled. Records always carry every field, as the strict extraction schema requires, so `.get(key, default)` fallbacks inside the merge are not modelled.
- `InterviewConfig` with a `question_length` outside short/medium/long (a `KeyError`) cannot be expressed: the length is an enumeration.
- `_generate_ai_questions` and `_generate_hybrid_questions` are not modelled separately. Each is one model call whose reply is a parameter, and so is their prompt building.
- FetchJobs.ProcessJobsInBatches: a model reply that is not JSON or lacks `matched_jobs` or `job_id` raises in the source. That is not modelled; replies are lists of entries. A post without `_id` or a user job without `jobId` (a `KeyError`) is not modelled either.
- FindResume.GetUploadedFileNames: glob metacharacters in the extension, and a directory path that names a file, are not modelled.
- `save_text_to_file` is file output and is not modelled.
- ResumeExtractor.FinalText: an OCR engine that raises propagates out of `extract_from_pdf` in the source. The model takes each engine's text as part of the page, so this error path is not modelled; ResumeExtractor.ReadPages and ResumeExtractor.OptimizedResumeExtractor.ExtractFromPdf inherit this.
- ResumeService.EnhanceResumeWrtJob: the resume arrives already decoded as an object. A `resume_json` that `json.loads` rejects (`JSONDecodeError`), or that decodes to something other than an object (an `AttributeError` at `.get`), is not modelled.
- Interview.QuestionCount: the count is computed over exact reals, while the source uses floats. Where rounding crosses a whole number the results differ. For example, 60 minutes with short answers and a 0.9 buffer gives `int(5.999999999999999 / 3) = 1` in Python and 2 in the model.
- JobSchema.GetMatchingScoreJson: the weights are exact reals, so float rounding in `sum(...) != 100` is not modelled. MatchTemplate.GetMatchingScoreTemplate is the same. The template's callers in `application/db_apis/fetch_jobs.py` and `application/app.py` pass the integer weights of `application/utils/config.py`, for which the two agree. `application/api/services/job.py` passes weights from `security.config`, which is not part of this model, so their type and values are unknown.

## Findings

| source | as written | input that shows it | evidently intended | confidence | as-written member | corrected member |
|---|---|---|---|---|---|---|
| application/ai_agents/pdf_extractor/resume_extractor.py:300-309 | `_empty_result` returns the module-level `empty_schema` object itself, and `_merge_results` writes into it. Every later extraction starts from the previous document's merged record. | Extract a resume naming "Alice", then one naming "Bob": the second result keeps "Alice" and accumulates the first document's experience entries. | Each merge starts from a fresh empty record. | not executed; high | ResumeExtractor.SharedRecordLeaksName | ResumeExtractor.FreshRecordKeepsName |
| application/db_apis/fetch_jobs.py:74-76 | `if not unprocessed_jobs: break` ends paging at the first page whose posts were all scored already, though later pages may hold unscored posts. | Two pages reporting `totalPages` 2: page 1's only post is in `userJobs`, page 2 holds an unscored post. Nothing is scored. | Skip such a page and stop only once `page >= total_pages`. | not executed; medium | FetchJobs.ProcessedPageStopsPaging | FetchJobs.CorrectedReachesEveryPage |
