# Document Metric Identifier: a verified model of the extraction core

Document Metric Identifier takes an uploaded document and does four things:

1. It extracts the document's text with a cascade of document loaders.
2. It splits the text into sentences.
3. For every sentence it reports the sensitive identifiers the sentence mentions:
   - Aadhaar numbers, PAN numbers and phone numbers;
   - each report is a "finding", with the label, the keywords matched, the value and its offsets.
4. It concatenates the findings of all sentences.

This project models that sequential core in Dafny and proves what it promises.

- `text.dfy`, module `Text`: the parts of Python's `str` the core relies on.
  - `strip()` with its whitespace set.
  - `sep.join(...)`.
  - `lower()`, for the ASCII letters only.
- `seqs.dfy`, module `Seqs`: `Concat`, the flattening of a list of lists, and its laws.
- `wrappers.dfy`, module `Wrappers`: `Option` and `Result`.
- `doc_reader.dfy`, module `DocReader`: the per-segment rule of `process_segment`.
  - It includes `detect_keyword`, `extract_with_regex` and `segment_text`.
  - It includes the label tables `regex_patterns` and `keyword_aliases`.
  - The collaborators are function fields of `Models`:
    - the classifier (`clf.predict_proba`) and its label list (`mlb.classes_`);
    - the phrase matcher;
    - the regex engine;
    - `round(c, 3)`.
  - `Models.Valid` asks for two things: the scores are aligned with the labels, and every match span lies inside the text.
  - `UsesShippedTables` is a separate assumption: the pattern table is the shipped one and the matcher only reports labels of the shipped alias table. Only `PatternGateFollowsKeywordGate` asks for it.
- `document_extracter.dfy`, module `DocumentExtracter`: the loader fallback chains for PDF, Word, Excel and PowerPoint.
  - It also covers the POSIX `pathlib` suffix of the file name and the dispatch on it.
  - It also covers `extract_text_with_tika_client` with its final length gate, its error wrapping and the deletion of the temporary file.
  - What a loader does is the parameter `load: LoaderId -> LoadOutcome`: the pages loaded, or the message raised.
  - The import flags are an `Availability` value.
  - The effect of staging the upload into a temporary file is a `Staging` value.
- `split_aggregate.dfy`, module `SplitAggregate`: `aggregator`.
- `app.dfy`, module `App`: `document_extractor`.
  - It splits the text, runs `process_segment` with the default threshold 0.1 on every sentence, and aggregates.
  - It keeps the sentence order, because Celery's group result lists the task outputs in the order of the tasks.

Each operation of the source that changes local state step by step is a Dafny method proved against a specification function.

- Loops: `ProcessSegment`, `AppendMatchFindings`, `DetectKeyword`, `TryLoaders`, `Aggregator` and `DocumentExtractor`.
- Straight-line code that builds the loader lists by appends and branches: the four chain methods, `LoadBySuffix` and `ExtractTextWithTikaClient`.

The properties are lemmas about those specification functions.

Two behaviours of the code are worth stating:

- **Blank sentences.** `split_doc` and `segment_text` strip every sentence and keep the blank ones, as empty strings.
  - `process_segment` returns no finding for an empty segment.
  - `App.BlankSentenceYieldsNothing` proves that keeping them does not change the findings.
- **Length gates.** The per-kind gates are strict: PDF text needs more than 50 stripped characters, Word text more than 10.
  - The final gate only rejects text with fewer than 10 stripped characters.
  - So text of exactly 10 stripped characters is accepted.

## Model

| member | source | states |
|---|---|---|
| Text.Strip | main/doc_reader.py:51 | stripping never lengthens the text |
| Text.StripShape | main/doc_reader.py:51 | `strip()` removes whitespace, and only whitespace, on both sides; the result is an infix of the input that neither starts nor ends with whitespace |
| Text.StripEmptyIff | main/doc_reader.py:51-53 | a segment strips to nothing exactly when it is all whitespace |
| Text.StripIdempotent | main/doc_reader.py:51 | stripping an already stripped segment changes nothing |
| Text.Join | main/document_extracter.py:63 | the joined text is at least as long as the first page, and with two or more pages at least as long as the first two pages plus the separator |
| Text.JoinEmptyIff | main/document_extracter.py:63 | text joined with "\n\n" is empty exactly when there is no page or one empty page |
| Text.LowerChar | main/document_extracter.py:143 | the model's ASCII lower-casing maps upper-case letter `n` of the alphabet table to lower-case letter `n`, leaves every other character unchanged, and never yields an upper-case letter |
| Text.Lower | main/document_extracter.py:143 | lower-casing keeps the length, leaves no upper-case ASCII letter, keeps every other character in place, and replaces each upper-case letter by its lower-case partner from the alphabet table |
| Text.LowerIdempotent | main/document_extracter.py:143 | lower-casing twice is lower-casing once |
| Seqs.ConcatAppend | main/split_aggregate.py:9-10 | flattening distributes over concatenation of the list of lists |
| Seqs.ConcatMember | main/split_aggregate.py:9-10 | an element of the flattened list is an element of one of the parts, and conversely |
| Seqs.ConcatSplit | main/doc_reader.py:60-83 | part `i` sits between the parts before it and those after it |
| DocReader.LabelTablesAgree | main/doc_reader.py:9-20 | `regex_patterns` and `keyword_aliases` have the same keys: the three labels AADHAAR_NUMBER, PAN_NUMBER, PHONE_NUMBER |
| DocReader.DetectKeyword | main/doc_reader.py:27-38 | the two lists have one entry per phrase match; entry `i` of each is the text and the label of match `i` |
| DocReader.KeywordsFor | main/doc_reader.py:76-79 | the filtered keyword list is no longer than either list, and empty for a label that no match carries |
| DocReader.KeywordsForMembers | main/doc_reader.py:76-79 | a keyword is in a finding's keyword list exactly when it was matched under that finding's label |
| DocReader.KeywordsForAppend | main/doc_reader.py:76-79 | the keyword filter keeps the order of the matches |
| DocReader.KeywordsForNonEmpty | main/doc_reader.py:66-79 | the filtered keyword list is non-empty exactly when the label is among the keyword labels |
| DocReader.ShippedPatternsOnly | main/doc_reader.py:40-43 | with the shipped table, a label other than the three known ones has no match; AADHAAR_NUMBER, PAN_NUMBER and PHONE_NUMBER are each searched with their own literal pattern |
| DocReader.ExtractWithRegex | main/doc_reader.py:40-43 | a label without a pattern yields no match |
| DocReader.SegmentText | main/doc_reader.py:45-47 | one entry per sentence, in order, each the stripped sentence and empty exactly when the sentence is blank; nothing is dropped (`split_doc` in main/split_aggregate.py:1-5 is the same code) |
| DocReader.MatchFindings | main/doc_reader.py:71-83 | one finding per regex match, in match order |
| DocReader.MatchFindingsAt | main/doc_reader.py:71-83 | finding `j` appended for a label is built from regex match `j` |
| DocReader.LabelMatches | main/doc_reader.py:69-70 | the spans examined for a label lie inside the stripped segment |
| DocReader.AppendMatchFindings | main/doc_reader.py:71-83 | the inner loop appends one finding per regex match, in match order, after the findings already collected |
| DocReader.ProcessSegment | main/doc_reader.py:49-85 | the output is the ordered list of findings of all labels that pass the three gates; a blank segment yields an empty list without consulting the classifier or the matcher |
| DocReader.SegmentFindings | main/doc_reader.py:49-85 | a segment that strips to nothing yields no finding |
| DocReader.LabelFindingsWellFormed | main/doc_reader.py:72-83 | each finding of one label satisfies the well-formedness conditions stated for `FindingsWellFormed` |
| DocReader.FindingsWellFormed | main/doc_reader.py:51-81 | every finding carries the stripped segment, `0 <= start <= end <= len(seg)`, the stripped text of that range, a label of the classifier that has a pattern, and its non-empty keyword list |
| DocReader.LabelFindingsLabelIff | main/doc_reader.py:60-83 | label number `idx` yields a finding labelled `lbl` exactly when it is `lbl`, passes the gates and matches |
| DocReader.FindingOnlyIfEmits | main/doc_reader.py:60-83 | a finding's label is a label that passed the gates and matched |
| DocReader.FindingIfEmits | main/doc_reader.py:60-83 | a label that passes the gates and matches yields a finding |
| DocReader.FindingExistsIff | main/doc_reader.py:51-71 | a finding labelled `lbl` exists exactly when the segment is not blank and `lbl` has confidence at least the threshold, is among the keyword labels, has a regex pattern, and its regex matches |
| DocReader.BlocksCount | main/doc_reader.py:60-83 | the labels before number `k` contribute `EmittedCount(k)` findings: their matches, summed over the labels that pass |
| DocReader.FindingCount | main/doc_reader.py:60-83 | the number of findings is the sum of the match counts over the labels that pass the gates |
| DocReader.EmittedCountMonotone | main/doc_reader.py:60 | later labels start no earlier in the output |
| DocReader.LabelFindingAt | main/doc_reader.py:72-83 | finding `j` of a label records the segment, the label, its keywords, the stripped value of match `j`, its offsets and the rounded confidence |
| DocReader.FindingsAround | main/doc_reader.py:60-71 | the findings of each label are one contiguous run in match order, preceded by exactly the findings of the earlier labels |
| DocReader.FindingAt | main/doc_reader.py:60-71 | finding `j` of label `idx` sits at position `EmittedCount(idx) + j` |
| DocReader.PatternGateFollowsKeywordGate | main/doc_reader.py:66-69 | with the shipped tables, a label that passed the keyword gate has a regex pattern |
| DocumentExtracter.FirstSuccess | main/document_extracter.py:59-71 | the chosen attempt passes its gate and every earlier one failed; there is none exactly when all fail |
| DocumentExtracter.TryLoaders | main/document_extracter.py:59-69 | the loop returns the joined text of the first loader that does not raise and passes the gate, and invokes exactly the loaders up to that one |
| DocumentExtracter.FirstSuccessAt | main/document_extracter.py:59-66 | a loader that succeeds after all earlier ones failed is where the chain stops |
| DocumentExtracter.ChainResultCases | main/document_extracter.py:59-71 | a returned text is that of a succeeding loader preceded only by failures; the chain raises exactly when every loader fails |
| DocumentExtracter.ChainTextLongerThan | main/document_extracter.py:65 | a chain whose gates demand more than `n` stripped characters only returns such text |
| DocumentExtracter.FirstSuccessMiss | main/document_extracter.py:59-69 | after a failing first loader, the chain stops one position later than it would on the rest |
| DocumentExtracter.ChainConsHit | main/document_extracter.py:59-66 | a first loader that succeeds ends the chain with its text, and only it is invoked |
| DocumentExtracter.ChainConsMiss | main/document_extracter.py:59-69 | a first loader that fails is skipped: the result is that of the rest, and it is invoked before the rest's loaders |
| DocumentExtracter.ChainCons | main/document_extracter.py:59-69 | a first loader that succeeds ends the chain; one that fails is skipped and the rest runs |
| DocumentExtracter.ExtractWithPdfLoaders | main/document_extracter.py:45-71 | the PDF function returns the chain result over its list, built by appends, and invokes the loaders the chain invokes |
| DocumentExtracter.PdfLoaderOrder | main/document_extracter.py:47-57 | Unstructured hi_res if available, then PyMuPDF if available, then PyPDF, always present and last; each gate is "more than 50" |
| DocumentExtracter.PdfChainResult | main/document_extracter.py:59-71 | returned PDF text has more than 50 stripped characters; "All PDF loaders failed to extract text" is raised exactly when every loader fails |
| DocumentExtracter.ExtractWithWordLoaders | main/document_extracter.py:74-94 | the Word function returns the chain result over its list and invokes the loaders the chain invokes |
| DocumentExtracter.WordChain | main/document_extracter.py:77-94 | Docx2txt is tried exactly for ".docx", the Unstructured Word loader exactly when available; returned text has more than 10 stripped characters; ".doc" without that loader always raises |
| DocumentExtracter.ExtractWithExcelLoaders | main/document_extracter.py:97-121 | pandas is tried first, then the Unstructured list, and the result is the chain result over both |
| DocumentExtracter.ExcelChain | main/document_extracter.py:103-121 | pandas' text is returned as it is and nothing else is tried; otherwise non-empty Unstructured text when available; otherwise "All Excel loaders failed" |
| DocumentExtracter.NonEmptyGate | main/document_extracter.py:115 | the "non-empty" gate accepts the joined pages exactly when there is a page and they are not a single empty page |
| DocumentExtracter.ExtractWithPptLoaders | main/document_extracter.py:124-133 | text is returned, ungated, exactly when the Unstructured loader is available and does not raise; otherwise "PowerPoint loader failed" |
| DocumentExtracter.LastIndexOf | main/document_extracter.py:143 | the position found holds the character and no later position does; none means the character is absent |
| DocumentExtracter.PathName | main/document_extracter.py:143 | the name is a single component: it holds no '/' and is not "." |
| DocumentExtracter.PathNameIsLastComponent | main/document_extracter.py:143 | a non-empty name is a whole component of the path, bounded by '/' or the path's ends, and every component after it is empty or "."; the name is empty only when every component is empty or "." |
| DocumentExtracter.LastComponentExamples | main/document_extracter.py:143 | ".." is a component of its own and a trailing '.' belongs to the name: "a/b/.." is named "..", and "x.pdf." is named "x.pdf." and has no suffix |
| DocumentExtracter.PathSuffix | main/document_extracter.py:143 | a non-empty suffix is a proper tail of the name: a dot followed by at least one character, with no further dot |
| DocumentExtracter.PathSuffixIff | main/document_extracter.py:143 | the suffix is non-empty exactly when the name's last dot is neither its first nor its last character, and it then starts at that dot |
| DocumentExtracter.SuffixOf | main/document_extracter.py:141-143 | no file name or an empty one gives ''; otherwise the suffix of the name, lower-cased, of the same length, starting with '.' and with no upper-case letter |
| DocumentExtracter.PathNameLower | main/document_extracter.py:143 | the file name's last component is found the same way before and after lower-casing |
| DocumentExtracter.PathSuffixLower | main/document_extracter.py:143 | the suffix of the lower-cased path is the lower-cased suffix |
| DocumentExtracter.SuffixIgnoresCase | main/document_extracter.py:141-143 | dispatch sees the same suffix for a file name and its lower-cased form |
| DocumentExtracter.Dispatched | main/document_extracter.py:152-178 | PDF text has more than 50 and Word text more than 10 stripped characters; a failing chain raises the failure message of its kind |
| DocumentExtracter.LoadBySuffix | main/document_extracter.py:152-178 | ".pdf", ".docx"/".doc", ".xlsx"/".xls" and ".pptx"/".ppt" go to their chains; ".txt", ".csv" and anything else go to one loader whose exception propagates |
| DocumentExtracter.UnknownSuffixUsesFileLoader | main/document_extracter.py:174-178 | an unknown suffix invokes `UnstructuredFileLoader` alone |
| DocumentExtracter.FinalGate | main/document_extracter.py:180-181 | dispatched text passes exactly when it has at least 10 stripped characters; otherwise the error is "Extracted text is too short or empty"; an error passes through |
| DocumentExtracter.Extracted | main/document_extracter.py:180-188 | returned text has at least 10 stripped characters, and every error message starts with "Error extracting text from file: " |
| DocumentExtracter.ExtractTextWithTikaClient | main/document_extracter.py:136-195 | the result is that of suffix dispatch plus the final gate with errors wrapped; a temporary file is deleted exactly when its path was created, and a failed deletion only warns and does not change the result |
| SplitAggregate.Aggregated | main/split_aggregate.py:7-11 | no output gives no finding |
| SplitAggregate.AggregatedSingleton | main/split_aggregate.py:7-11 | a single output is aggregated into its own findings |
| SplitAggregate.Aggregator | main/split_aggregate.py:7-11 | the result is the findings of every output, output by output, each in its own order |
| SplitAggregate.AggregatedAppend | main/split_aggregate.py:9-10 | aggregating `a + b` is aggregating `a`, then `b` |
| SplitAggregate.AggregatedMember | main/split_aggregate.py:9-10 | a finding is in the aggregate exactly when it is in some output |
| SplitAggregate.AggregatedCount | main/split_aggregate.py:8-11 | the aggregate's length is the sum of the outputs' lengths, 0 for no output |
| SplitAggregate.AggregatedOrder | main/split_aggregate.py:9-10 | output `i`'s findings sit between those of the outputs before it and those after it |
| App.SegmentOutputs | main/app.py:43-45 | one task output per segment, that of `process_segment`; a blank segment's output is empty, and every finding of output `i` carries segment `i`, stripped |
| App.DocumentExtractor | main/app.py:40-48 | the result is the aggregate of `process_segment` over the stripped sentences, in sentence order |
| App.PipelineAppend | main/app.py:40-48 | sentences are processed independently: the findings for `a + b` are those for `a` followed by those for `b` |
| App.BlankSentenceAlone | main/app.py:40-48 | a blank sentence yields no finding |
| App.BlankSentenceYieldsNothing | main/split_aggregate.py:5 | keeping a blank sentence in the list does not change the findings |
| App.PipelineFindingsWellFormed | main/app.py:40-48 | every finding comes from one of the stripped sentences, with offsets inside it, its keywords, and a label that passed the confidence, keyword and pattern gates for that sentence and matched there |

## Left out

- spaCy, the phrase matcher, scikit-learn's `predict_proba`, joblib model loading and the regex engine are supplied as the function fields of `DocReader.Models`.
  - Their internals are not modelled: tokenisation, lookarounds, `\b`, `re.IGNORECASE`.
  - `Models.Valid` assumes two things of them:
    - the scorer returns one score per classifier label, `|scorer(s)| == |classes|`;
    - every span lies inside its text.
  - `UsesShippedTables` assumes that the matcher's labels are those of the shipped tables. `Models.Valid` does not include it; only `PatternGateFollowsKeywordGate` requires it.
- Confidences are reals, and `round(c, 3)` is an uninterpreted parameter. Floating point is not modelled.
- LangChain loaders and pandas are not modelled. Each is only what its `load()` returns or the message it raises; `str(e)` is that message.
- The temporary file: creating it, writing it and deleting it are modelled only through their outcomes (`Staging`, `unlinkFails`) and the ghost flags of `ExtractTextWithTikaClient`.
  - `os.path.exists` is taken to be true for a created path.
  - Logging is not modelled.
- DocumentExtracter.PathSuffix models POSIX `pathlib` with its suffix rule before Python 3.14: a trailing dot is no suffix. Windows paths are not modelled.
- Text.LowerChar and Text.Lower lower-case the ASCII letters only. Python's `lower()` also maps non-ASCII letters. Of those, only KELVIN SIGN (U+212A) lower-cases to an ASCII letter, 'k', and no dispatched suffix contains a 'k', so dispatch is unaffected.
- The Celery group, `apply_async`, the 60-second timeout, the task wrapper and worker launching are concurrency and are not modelled. The pipeline is an in-order sequential map.
- The Flask routes, template rendering and main/train_model.py are outside the extraction core.
