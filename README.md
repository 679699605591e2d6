# Syllabus retrieval pipeline and rule helpers, in Dafny

This project models the deterministic core of a syllabus assistant. The model covers five parts.

- **Ingestion** (`rag/ingest.py`):
  - the word-window chunker, with its default chunk size and overlap;
  - the `unit`/`chapter` label detector;
  - the choice of file type;
  - the chunk records handed to the vector store.
- **Vector store** (`rag/vector_store.py`):
  - a class whose `index`, `chunks` and `dimension` fields change when an index is built or loaded;
  - saving and loading over a map from paths to artifacts;
  - a search over a flat squared-L2 index. Ranking uses integer coordinates, so every distance is exact.
- **Retriever** (`rag/retriever.py`):
  - a class whose `store` is set only when both artifacts load;
  - over-fetching `2 * top_k` results, post-filtering by unit substring and by exact Bloom level, then cutting to `top_k`;
  - numbered context blocks.
- **Helpers** (`utils/helpers.py`):
  - the Bloom-level counter;
  - the syllabus display text.
- **Agents** (`agents/compliance_agent.py`, `agents/assessment_agent.py`):
  - the compliance agent's verb check, duplicate check and syllabus check. The syllabus check is modelled through its deterministic branches and through how it reads the YES/NO reply;
  - the compliance agent's verdict rule, its Bloom tally and batch validation;
  - the assessment agent's default distributions, its requirement lines and question total, its unit instruction and its retrieval query.

Collaborators the core cannot see are parameters:
- the embedding model is a function from text to an integer vector of fixed dimension;
- the chat model is a function from the text it is shown to its reply, with `None` when the call raises;
- artifacts on disk are a map from path to an index file or a chunks file;
- the compliance agent's retriever is a value giving its readiness and what `retrieve(query, top_k)` returns.

Python's falsy defaults are modelled explicitly:
- `x or DEFAULT` becomes "0 or empty means default";
- absent dictionary keys are `Option`s, except a chunk's `"text"` (see "## Left out");
- exceptions are `Failure` results.

Quirks of the code are modelled as written. For example:
- an overlap of 0 becomes 50;
- a short tail window is emitted again;
- "NOT COMPLIANT" reads as compliant;
- a lower-case "no" makes the whole reply the issue;
- a failing `build_index` has already replaced the chunks;
- the index embeds only the chunks that have text, yet search labels index all chunks, so an empty chunk before a non-empty one shifts which chunk a hit reports;
- two retrieved chunks with empty text give the truthy context `"\n\n"`, so the syllabus check still asks the model.

Some functions are only the definitions that other rows' contracts use: `FlatL2.Distances` (behind `Search`), `Retriever.HitTexts` and `Retriever.Blocks` (behind `RetrieveContext`, `SyllabusCheck` and `GetRelevantContext`), and `Compliance.QuestionTexts` and `Compliance.WeekLines` (behind `Validate`). They have no row of their own.

Modules, one per file: `Wrappers`, `Text` (ASCII string functions), `Settings` (constants and the fallback verb table from `config/constants.py:42-49`), `Ingest`, `FlatL2`, `VectorStore`, `Retriever`, `Helpers`, `Compliance` and `Assessment`.

The loop at `rag/ingest.py:51-65` emits `ceil(W / step)` chunks for W words, because it starts a window at every multiple of the step below W. A tail window whose words the previous window already covers is emitted again.

## Model

| member | source | states |
|---|---|---|
| Ingest.EffectiveChunkSize | rag/ingest.py:44 | a falsy chunk size becomes the default 500 (`CHUNK_SIZE`); any other is kept |
| Ingest.EmitWindow | rag/ingest.py:52-63 | one turn of the loop appends the window at `start` (its strip() is never empty), leaving the windows from `start + step` still to come |
| Ingest.ChunkText | rag/ingest.py:39-67 | the while loop returns exactly the windows of `Windows`, whose properties are the lemmas below |
| Ingest.ChunkBounds | rag/ingest.py:49-63 | chunk i starts at `i*(chunk_size-overlap)`, ends at `min(start+chunk_size, W)`, and its text is the single-space join of those words |
| Ingest.ChunkWords | rag/ingest.py:52-60 | each chunk's text splits back into exactly its words, is non-blank, and has between 1 and chunk_size words |
| Ingest.ChunkCount | rag/ingest.py:47-65 | no words give no chunks; otherwise the count n is the least n with `n*step >= W`, that is `ceil(W/step)` |
| Ingest.LastChunkReachesEnd | rag/ingest.py:51-65 | with a non-negative overlap, the last chunk's end_word is W |
| Ingest.ZeroOverlapMeansDefault | rag/ingest.py:44-45 | passing overlap 0 gives overlap 50, so windows of 200 advance by 150, and 301 words give 3 chunks |
| Ingest.TailWindowRepeatsWords | rag/ingest.py:51-65 | 170 words in windows of 200 with overlap 40 give two chunks; the second, 160-170, is already inside the first |
| Ingest.NineHundredWordsSixChunks | rag/ingest.py:51-65 | 900 words with chunk size 200 and overlap 40 give six chunks |
| Text.SplitWordsAreWords | rag/ingest.py:47 | every word of `split()` is non-empty and contains no whitespace |
| Text.SplitJoin | rag/ingest.py:47-54 | splitting the single-space join of words gives those words back |
| Text.StripEmptyIffAllSpace | rag/ingest.py:56 | `strip()` is empty iff the text is all whitespace |
| Ingest.MatchIsPattern | rag/ingest.py:77-89 | a match found by the matcher satisfies the pattern, its separators ending where the greedy `[\s-]*` run ends |
| Ingest.PatternIsMatch | rag/ingest.py:77-89 | wherever the pattern holds with group d, the matcher returns d |
| Ingest.MatchAtIffPattern | rag/ingest.py:77-89 | the matcher at a position succeeds with digits d iff the keyword, a run of spaces or hyphens and a maximal non-empty digit run d are there |
| Ingest.FindIsLeftmost | rag/ingest.py:86-90 | the first `finditer` match is the leftmost one, and there is none iff no position matches |
| Ingest.FindFromFirst | rag/ingest.py:87-90 | a hit of `finditer` from position i sits at a matching position with no match between i and it |
| Ingest.FindFromNone | rag/ingest.py:87-92 | when `finditer` yields nothing from i, no position from i on matches |
| Ingest.FindFromIgnoresCase | rag/ingest.py:77-87 | the lower- and upper-case spellings of a pattern find the same match |
| Ingest.DetectUnitPrefersUnit | rag/ingest.py:75-92 | a "unit" match anywhere wins, giving `"Unit-"` plus its leftmost digit run verbatim, leading zeros kept |
| Ingest.DetectUnitFallsBackToChapter | rag/ingest.py:75-92 | with no "unit" match, the leftmost "chapter" match gives the label |
| Ingest.DetectUnitUnknownIff | rag/ingest.py:84-92 | the label is "Unknown" iff neither keyword matches at any position |
| Ingest.DetectUnitDigits | rag/ingest.py:86-90 | a label other than "Unknown" is `"Unit-"` followed by a non-empty run of digits |
| Ingest.MatchIsDigits | rag/ingest.py:77-89 | a group captured by `(\d+)` is a non-empty run of digits |
| Ingest.FileType | rag/ingest.py:101-107 | a given type is kept; otherwise "pdf" or "txt" is chosen by case-insensitive suffix, ".pdf" first, and any other suffix is an error |
| Ingest.IngestSyllabus | rag/ingest.py:95-134 | a file-type or missing-file error is returned as is; otherwise record i holds window i's text, `chunk_id` i, the detected unit, page 1 and level "Apply" |
| FlatL2.SqDistSymmetric | rag/vector_store.py:72 | the squared L2 distance is symmetric |
| FlatL2.SqDistZeroIffEqual | rag/vector_store.py:72 | the distance between equal-length vectors is 0 iff they are equal |
| FlatL2.DistanceZeroIffSame | rag/vector_store.py:138 | a row of the query's length is at distance 0 exactly when it equals the query |
| FlatL2.RankIsPermutation | rag/vector_store.py:138 | the ranking is a permutation of the row positions |
| FlatL2.RankIsRanked | rag/vector_store.py:138 | the ranking orders positions by ascending distance, ties by ascending position |
| FlatL2.RankCovers | rag/vector_store.py:138 | every row position appears in the ranking |
| FlatL2.SearchShape | rag/vector_store.py:138 | k slots: the first min(k, rows) hold distinct rows with their distances, and the rest carry label -1 |
| FlatL2.SearchAscending | rag/vector_store.py:138 | hits come in ascending distance and precede every -1 slot |
| FlatL2.SearchNearest | rag/vector_store.py:138 | no row left out of the answer is nearer than a row in it |
| VectorStore.Embed | rag/vector_store.py:59-63 | one embedding per text; for an embedder of fixed dimension, every row has that dimension |
| VectorStore.TextsAreNonEmpty | rag/vector_store.py:51-53 | the kept texts are non-empty and no more than the chunks; there are none iff every chunk's text is empty |
| VectorStore.TextsWhenAllHaveText | rag/vector_store.py:51 | when every chunk has text, text i is chunk i's |
| VectorStore.BuiltIndexRows | rag/vector_store.py:51-73 | then the index has one row per chunk, and row i embeds chunk i's text |
| VectorStore.SavedArtifacts | rag/vector_store.py:77-94 | after saving, the index file and the chunks file are at their paths, and every other path is unchanged |
| VectorStore.SavedToOnePath | rag/vector_store.py:89-94 | saving both to one path leaves only the chunks file there |
| VectorStore.HitsOrigin | rag/vector_store.py:141-147 | each result is a copy of the chunk at an in-range label, with that slot's distance |
| VectorStore.HitsAscending | rag/vector_store.py:141-149 | dropping slots keeps the ascending distance order |
| VectorStore.HitsAllInRange | rag/vector_store.py:142-147 | when exactly the first n slots are hits inside the chunk list, there are n results |
| VectorStore.SearchResultsProperties | rag/vector_store.py:138-149 | at most top_k results, in ascending distance, each a stored chunk at a position below both the chunk and row counts, with its row's distance |
| VectorStore.SearchResultsCount | rag/vector_store.py:138-149 | with one chunk per row, there are min(top_k, rows) results |
| VectorStore.EmptyTextShiftsLabels | rag/vector_store.py:51-73 | with an empty chunk before a non-empty one, the single row embeds the second chunk's text, but a search reports the first chunk |
| VectorStore.RagVectorStore.constructor | rag/vector_store.py:26-36 | a fresh store has no index, no chunks and no dimension |
| VectorStore.RagVectorStore.BuildIndex | rag/vector_store.py:38-75 | no chunks is an error with nothing changed; otherwise the chunks are replaced first; no text is then an error with the index untouched; else the index holds the text embeddings and the dimension is the model's |
| VectorStore.RagVectorStore.SaveIndex | rag/vector_store.py:77-97 | with no index, an error; otherwise the disk with both artifacts written |
| VectorStore.RagVectorStore.LoadIndex | rag/vector_store.py:99-118 | a missing index file, then a missing chunks file, is an error with nothing changed; otherwise the index and dimension are loaded, then the chunks; row and chunk counts are not compared |
| VectorStore.RagVectorStore.Search | rag/vector_store.py:120-149 | an error before build or load; otherwise the loop's output equals the search results above |
| Retriever.EffectiveTopK | rag/retriever.py:63 | top_k is positive, and it is the given one when that is non-zero |
| Retriever.ByBloomByUnit | rag/retriever.py:69-73 | the two list comprehensions in a row keep exactly the results passing both filters, in order |
| Retriever.ByUnitIsKept | rag/retriever.py:69-70 | the unit comprehension is the one-filter case |
| Retriever.ByBloomIsKept | rag/retriever.py:72-73 | the Bloom comprehension is the one-filter case |
| Retriever.KeptNothing | rag/retriever.py:66-76 | empty filters keep every result |
| Retriever.PostFilterIsTakeOfKept | rag/retriever.py:66-76 | filtering then slicing is the first top_k of the kept results |
| Retriever.TakeKeptIsSubsequence | rag/retriever.py:66-76 | the output is an order-preserving subsequence of the search output |
| Retriever.KeptSatisfies | rag/retriever.py:69-73 | every kept result comes from the input and passes the filters |
| Retriever.PostFilterProperties | rag/retriever.py:66-76 | at most top_k results, forming an order-preserving subsequence; with a unit filter every unit contains it case-insensitively (a missing unit reads as ""); with a Bloom filter every level equals it; with no filters, the first top_k |
| Retriever.RetrieveBounds | rag/retriever.py:63-76 | a falsy top_k is 3, and the result has at most top_k items, all from the search output in its order |
| Retriever.ContextEmptyIff | rag/retriever.py:89-99 | the context is "" iff there are no results, and otherwise it starts with the first block |
| Retriever.RagRetriever.constructor | rag/retriever.py:19-30 | the paths default, and the store is set iff both artifacts load, holding the loaded index and chunks |
| Retriever.RagRetriever.LoadStore | rag/retriever.py:32-45 | the store is set, to a fresh store with the loaded index and chunks, iff both files exist and load; otherwise it is unset |
| Retriever.RagRetriever.IsReady | rag/retriever.py:101-103 | ready iff the store is set |
| Retriever.RagRetriever.Retrieve | rag/retriever.py:47-76 | no store gives []; otherwise search for `2*top_k`, filter, cut to top_k, or the search's error |
| Retriever.RagRetriever.RetrieveContext | rag/retriever.py:78-99 | the numbered blocks of what retrieve returns, joined by blank lines; "" when it returns nothing |
| Text.CapitalizeIgnoresCase | utils/helpers.py:64 | `capitalize` gives the same key for upper-, lower- and original-case text |
| Helpers.CountQuestion | utils/helpers.py:64-67 | one question raises the count of its capitalised level if that is a key, keeping every count equal to the tally of the questions seen |
| Helpers.CalculateBloomDistribution | utils/helpers.py:59-68 | the keys are exactly the six levels, and each count is the number of questions whose capitalised level is that key |
| Helpers.NoQuestionsNoCounts | utils/helpers.py:61-68 | no questions give zero for every level |
| Helpers.CountAppend | utils/helpers.py:63-66 | one more question raises only its own level's count, by one |
| Helpers.AppendRaisesAtMostOne | utils/helpers.py:63-66 | appending a question leaves every other level's count unchanged, and raises its level's count by exactly 1 when that is one of the six |
| Helpers.LevelKeyIgnoresCase | utils/helpers.py:64 | "APPLY", "apply" and "Apply" count as the same level |
| Helpers.SumCountsAppend | utils/helpers.py:63-66 | over distinct levels, the sum of counts rises by one exactly when the new question's level is among them |
| Helpers.CountsSumAtMostQuestions | utils/helpers.py:63-66 | unrecognised levels are not counted, so the counts sum to at most the number of questions |
| Helpers.FormatSyllabusForDisplay | utils/helpers.py:34-56 | the appending loop yields the lines of `DisplayLines`, joined by newlines |
| Helpers.HeaderOf | utils/helpers.py:36-45 | the subject line, the course code, credits and hours lines for truthy fields only, then the Units line |
| Helpers.AppendUnitLines | utils/helpers.py:47-54 | one unit adds its heading, then one line per topic |
| Helpers.TopicLines | utils/helpers.py:52-54 | one line per topic |
| Helpers.TopicLinesCover | utils/helpers.py:52-54 | every topic has its `"  - topic"` line |
| Helpers.AllUnitLinesShape | utils/helpers.py:47-54 | one heading per unit plus one line per topic, and every heading and topic line is present |
| Helpers.HeaderLinesDiffer | utils/helpers.py:37-46 | the header line kinds cannot be confused with each other |
| Helpers.CourseCodeLine | utils/helpers.py:39-40 | a Course Code line is in the header iff the course code is truthy |
| Helpers.CreditsLine | utils/helpers.py:41-42 | a Credits line is in the header iff the credits are truthy |
| Helpers.TotalHoursLine | utils/helpers.py:43-44 | a Total Hours line is in the header iff the total hours are truthy |
| Helpers.HeaderShape | utils/helpers.py:36-45 | the header starts with the Subject line, ends with the Units line, and has each optional line iff its field is truthy |
| Helpers.DisplayShape | utils/helpers.py:34-56 | the first line is the Subject line (default "Unknown"); the Units header closes the header; each optional line is present iff its field is truthy; the length counts every unit and topic |
| Helpers.DisplayStartsWithSubject | utils/helpers.py:36-56 | the text starts with the Subject line |
| Compliance.AnyVerbIn | agents/compliance_agent.py:177 | true iff some allowed verb, lower-cased, occurs in the lower-cased text |
| Compliance.CheckBloomCompliance | agents/compliance_agent.py:162-190 | UNKNOWN iff the level has no verbs; PASS iff some verb is a case-insensitive substring; an issue iff not PASS |
| Compliance.BloomCheckExamples | agents/compliance_agent.py:164-190 | a lower-case level name is unknown, and "use" inside "because" passes Apply |
| Compliance.VerbsExactlyForLevels | config/constants.py:42-49 | a level has verbs iff it is one of the six |
| Compliance.SetSizeIffNoDuplicate | agents/compliance_agent.py:206 | the set is no larger than the list, and as large iff the list has no repeated entry |
| Compliance.CheckExamPatternCompliance | agents/compliance_agent.py:192-217 | never UNKNOWN; an issue iff FAIL |
| Compliance.ExamPatternFailsIffDuplicate | agents/compliance_agent.py:195-211 | FAIL iff two question strings are equal (no questions pass) |
| Compliance.LastPieceFromProperties | agents/compliance_agent.py:146 | the scan behind `split(sep)[-1]` returns a suffix without the separator, and the rest of the text when no separator follows |
| Compliance.LastPieceProperties | agents/compliance_agent.py:146 | `split("NO")[-1]` is a suffix without "NO", and the whole reply when there is none |
| Compliance.ReplyCheck | agents/compliance_agent.py:140-152 | never UNKNOWN, with no issue on PASS |
| Compliance.QuotedPieceShape | agents/compliance_agent.py:146 | the quoted piece has at most 200 characters, contains no "NO", and occurs in the reply |
| Compliance.ReplyIssueShape | agents/compliance_agent.py:144-151 | an issue comes only with FAIL, has at most 200 characters and no "NO", and is text of the reply |
| Compliance.LowerCaseNoQuotesWholeReply | agents/compliance_agent.py:140-146 | when only the upper-cased answer has "NO", the whole stripped reply, cut to 200, is the issue |
| Compliance.PlainAnswer | agents/compliance_agent.py:140 | a stripped upper-case reply is its own answer |
| Compliance.ReplyExamples | agents/compliance_agent.py:140-152 | "NOT COMPLIANT" passes, "NO" fails with no issue, and "YES" passes |
| Compliance.SyllabusCheckOutcomes | agents/compliance_agent.py:97-160 | UNKNOWN exactly for text stripping to under 10 characters; without a given context: PASS when the retriever is not ready or retrieves an empty context, the retriever's error when it fails, otherwise the model is asked with the retrieved context; with a given context, PASS when the model raises and otherwise the reading of the reply |
| Compliance.BlankChunksGiveTruthyContext | agents/compliance_agent.py:106-110 | two retrieved chunks with empty text give the context `"\n\n"`, which is truthy |
| Compliance.PassCountIff | agents/compliance_agent.py:54-59 | the pass count is 0 iff no question passes its Bloom check, and equals the number of questions iff all pass |
| Compliance.BloomChecksPassed | agents/compliance_agent.py:53-59 | the loop counts the passing checks among the first three questions |
| Compliance.BloomTallyRule | agents/compliance_agent.py:52-74 | only the first three questions count; PASS iff at least half of those examined pass |
| Compliance.CountStatusAllIff | agents/compliance_agent.py:82-84 | a status count equals the number of checks iff every check has that status |
| Compliance.CountStatusZeroIff | agents/compliance_agent.py:82-87 | a count is zero iff no check has that status |
| Compliance.AggregateRule | agents/compliance_agent.py:82-91 | PASS iff no check fails, or some check passes and at most one fails; the verdict is never UNKNOWN |
| Compliance.UnknownIsNeutral | agents/compliance_agent.py:82-88 | an added UNKNOWN check changes neither the verdict nor the issues |
| Compliance.IssuesOfFailures | agents/compliance_agent.py:88 | the issues are the truthy issues of failed checks, each present, and no more of them than failures |
| Compliance.IssuesAppend | agents/compliance_agent.py:88 | issues keep the order of the validations |
| Compliance.Validate | agents/compliance_agent.py:17-95 | the method returns the aggregated verdict over the checks run in order, or the retriever's error |
| Compliance.OtherContentRule | agents/compliance_agent.py:28-95 | other content types get the syllabus check alone, and pass unless it fails |
| Compliance.QuestionContentChecks | agents/compliance_agent.py:43-79 | questions get the syllabus check, the tally when non-empty, and the duplicate check last |
| Compliance.AnnotateBatch | agents/compliance_agent.py:230-241 | with any validator: each item in the array gets its validation attached in place, and the passing items are returned in order; when the validator fails, the earlier items are annotated and the rest are untouched |
| Compliance.ValidateBatch | agents/compliance_agent.py:219-241 | each item gets its validation attached in place, and exactly the passing items are returned in order; on a retriever error, the earlier items are annotated and the rest untouched |
| Compliance.PassingProperties | agents/compliance_agent.py:230-241 | the result is an ordered subsequence of the input, all passed, including every passed item |
| Assessment.DefaultDistributions | agents/assessment_agent.py:73-88 | the tables use distinct Bloom levels with non-negative counts: quiz 6 questions over 3 levels, assignment 5 over 3, end 10 over 5, mid 10 over 4 |
| Assessment.UnknownExamTypeIsMid | agents/assessment_agent.py:84-88 | any other exam type falls to the mid table |
| Assessment.PositiveLevelsIff | agents/assessment_agent.py:102-103 | the number of positive levels is 0 iff no count is positive, and equals the number of levels iff all are |
| Assessment.BloomRequirements | agents/assessment_agent.py:99-108 | the loop totals the positive counts and joins their requirement lines |
| Assessment.RequirementCounts | agents/assessment_agent.py:100-108 | one line per positive level; the total is at least the number of lines, and zero iff no count is positive |
| Assessment.RequirementAppend | agents/assessment_agent.py:102-106 | a positive level adds its count and one line naming up to three verbs |
| Assessment.UnitInstruction | agents/assessment_agent.py:110-115 | "Cover all units from syllabus" iff no units are given |
| Assessment.UnitQueryPartsInOrder | agents/assessment_agent.py:60-63 | the parts are each unit's name followed by up to three topics, unit by unit |
| Assessment.PartCountAppend | agents/assessment_agent.py:61-63 | a unit adds one part plus min(3, topics) |
| Assessment.QueryShape | agents/assessment_agent.py:56-65 | at most ten parts; given units are used when present; a short syllabus is queried whole |
| Assessment.BuildQuery | agents/assessment_agent.py:55-65 | the loop builds exactly that query |
| Assessment.GetRelevantContext | agents/assessment_agent.py:50-71 | "" when the retriever is not ready; otherwise the texts retrieved for the query with top_k 8, joined by blank lines |
| Assessment.ChosenDistribution | agents/assessment_agent.py:42-43 | the default is used only when no distribution is given |
| Assessment.GenerateQuestions | agents/assessment_agent.py:19-48 | the request carries the chosen distribution, its total and requirement lines, the unit instruction, and the context: "" when not ready, else the top-8 texts for the query joined by blank lines and cut to 3000; a retrieval error is passed on |
| Assessment.EmptyGivenDistributionIsKept | agents/assessment_agent.py:42-43 | an empty given distribution is kept and asks for 0 questions, while a default always asks for some |

## Left out

- File reading (`load_pdf`, `load_txt`), FAISS serialisation, pickle and directory creation are left out: they are I/O. A loader's output is an input map, and artifacts are a map from path to a value.
- `build_index_from_file` and the `__main__` blocks are left out: they are wiring and printing.
- SentenceTransformer and the FAISS numerics are not modelled. The embedder is an abstract function to integer vectors, and distances are exact integer squared L2, not float32.
- The float `score = 1/(1+d)` is not modelled, because it is floating point. Results carry the distance only.
- VectorStore.RagVectorStore.Search: FAISS's order among equal distances is unspecified. The model breaks ties by ascending row position.
- VectorStore.RagVectorStore.Search: a non-positive `top_k` is a `Failure(InvalidTopK)` standing for the exception FAISS raises. The retriever only ever asks for `2*top_k >= 2`.
- Retriever.RagRetriever.Retrieve: a negative `top_k` is not modelled (the parameter is a `nat`). 0 stands for both `None` and 0.
- The chat-model calls, the prompt texts and `_generate_with_llm`'s JSON parsing of the reply are left out. The model is a parameter. `GenerateQuestions` stops at what the model would be given.
- Compliance: `str(content_data)` for content types other than questions and teaching plans depends on Python's repr. It is an input string (`dataText`).
- Compliance: the agent's retriever is a value (its readiness and the result of `retrieve(query, top_k)`), not the retriever object. Validation then needs no heap. An exception from that retrieve is a `Failure` that ends the validation, as the uncaught exception does.
- Assessment.DefaultDistributions: the tables are sequences of (level, count) in the dict's key order, not Python dicts.
- Lower-casing, upper-casing, `strip` and `split` are ASCII-only, not full Unicode.
- Ingest.MatchAt: the regular expressions' `\d` and `\s` are ASCII digits and ASCII whitespace, not Python's Unicode classes.
- Ingest.DetectUnit: only the default `unit_patterns` are modelled. A caller-given pattern list is not.
- Ingest.EffectiveChunkSize: a negative `chunk_size` is not modelled (the parameter is a `nat`). The only caller passes None.
- Ingest.Chunk: a chunk without a `"text"` key is modelled as one with empty text. `build_index` reads it with `.get` and treats it the same way. `retrieve_context`, the compliance agent and the assessment agent read `chunk["text"]` and would raise `KeyError`; the model gives them "" instead.
- Printing and logging are left out.
