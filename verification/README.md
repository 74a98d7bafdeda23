# Contract analysis and question answering, modelled in Dafny

This project models the core of a contract-analysis system. The system
parses legal contracts, answers questions about them and writes bilingual
(Arabic/English) analyses and summaries. Seven parts are modelled:

- **Retrieval QA** (`app/rag_model.py`):
  - segment loading and whitespace normalisation;
  - the legal-intent query rewrite;
  - the top-n candidate pool;
  - maximal-marginal-relevance (MMR) re-ranking;
  - the rule-based extractive answerer with its citations.
- **Supporting tools**: the sentence segmenter (`src/rag/parse_utils.py`),
  the quote stripping and humaniser logic of the CLI (`src/rag/qa_cli.py`),
  the retrieval benchmark (`app/metrics_rag.py`) and its gold-label
  bootstrap (`benches/bootstrap_qrels.py`).
- **Language-model bookkeeping** (`src/llm_handler.py`): the sliding
  request window, the daily token budget, the quota report and the token
  estimate.
- **Session metrics** (`src/analysis_metrics.py`): per-document
  bookkeeping, the quality scores, the complexity score and the final
  ratios.
- **The analysis driver** (`src/analysis.py`): input selection, the
  fallback analysis, output naming and the retry pass.
- **Translation** (`src/translation_handler.py`, `src/translation_utils.py`):
  language detection, right-to-left normalisation, chunked translation and
  the Arabic companion file.
- **Summaries** (`src/contract_summary_generator.py`,
  `src/bilingual_contract_summary_generator.py`, `src/bilingual_analyzer.py`):
  - grouping analysis files by contract;
  - section extraction and reassembly;
  - prompt assembly;
  - the per-contract outcome.

The model is written over immutable values: pure functions, plus methods
for the loops of top-n selection, MMR re-ranking and segment loading, and
for the search and `ask` steps built on them. Anything the Python code gets from outside is a
parameter of the model:

- file contents and directory listings;
- the clock;
- the language model and the translator;
- similarity engines;
- regular expressions with data-dependent patterns.

The properties are stated as `ensures` clauses and lemmas. The shared
modules are:

- `Wrappers`: Option and Result.
- `Text`: Python's string primitives.
- `Json`: parsed JSON values.
- `Paths`: `pathlib` names.
- `PyDict`: `dict(zip(...))`.
- `Sentences`: the look-behind sentence split.
- `AnalysisSections`: the seven numbered analysis sections.

## Model

| member | source | states |
|---|---|---|
| Text.Strip | app/rag_model.py:240 | `str.strip()` returns a piece of its input. The piece is empty exactly when the input is all whitespace. When it is not empty, it neither starts nor ends with whitespace. |
| Text.StripIdempotent | app/rag_model.py:240 | Stripping twice is the same as stripping once. |
| Text.StripDecompose | app/rag_model.py:240 | Every string is its stripped form between two whitespace-only pieces. |
| Text.StripContained | app/rag_model.py:240 | The stripped text occurs in the original text. |
| Text.LowerFacts | app/rag_model.py:234 | Lower-casing leaves no ASCII capital, is idempotent, changes a text exactly when it has a capital, and turns each capital into its small letter. |
| Text.JoinContainsPart | app/rag_model.py:235 | Every hit text occurs in the `" ".join(...)` of all hit texts. |
| Text.ConcatAppend | src/contract_summary_generator.py:153-165 | Text accumulated by `+=` over two lists of parts is the text of the first list followed by the text of the second. |
| Text.ConcatContainsPart | src/contract_summary_generator.py:153-165 | Every part appended by a `+=` loop occurs in the accumulated text. |
| Text.SplitJoin | src/analysis.py:362 | `sep.join(s.split(sep)) == s`: splitting loses nothing. |
| Text.SplitPiecesFree | src/analysis.py:362 | No piece of `s.split(sep)` contains the separator. |
| Text.SplitHeadBefore | src/analysis.py:362 | `s.split(sep)[0]` is exactly the text before the first occurrence of `sep`. |
| Text.ReplaceIsSplitJoin | src/contract_summary_generator.py:168 | `s.replace(pat, rep)` equals `rep.join(s.split(pat))`. |
| Text.ReplaceOutcome | src/contract_summary_generator.py:168 | A template with the placeholder gets the replacement somewhere in it. A template without the placeholder is returned unchanged. |
| Text.ReplaceAbsent | src/contract_summary_generator.py:168 | Replacing a pattern that does not occur changes nothing. |
| Text.FirstLine | app/rag_model.py:267 | `s.splitlines()[0]` is a prefix of `s` that contains no line boundary. When it is shorter than `s`, a line boundary follows it. |
| Text.NatToStringValue | src/contract_summary_generator.py:291 | `str(n)` reads back as `n`, so different lengths give different reports. |
| Text.Pad3 | src/rag/parse_utils.py:21 | `f"{i:03d}"` has at least three characters, all of them digits. |
| Text.Pad3Value | src/rag/parse_utils.py:21 | The zero-padded rendering reads back as the number, so it is injective. |
| RagSegments.CollapseRuns | app/rag_model.py:83 | `re.sub(r"\s+", " ", s)` is empty exactly when `s` is empty. Its first character is the space or the first character of `s`. |
| RagSegments.CollapseSingleSpaced | app/rag_model.py:83 | After collapsing, the only whitespace is a plain space and no two spaces are adjacent. |
| RagSegments.CollapseKeepsNonSpace | app/rag_model.py:83 | Collapsing keeps every non-whitespace character, in order. |
| RagSegments.NormalizeSpace | app/rag_model.py:82-83 | The result has single spaces only and no surrounding whitespace. It keeps every non-whitespace character of the input, in order. It is empty exactly when the input is blank. |
| RagSegments.NormalizeSpaceIdempotent | app/rag_model.py:82-83 | Normalising normalised text changes nothing. |
| RagSegments.SegmentOf | app/rag_model.py:97-100 | A segment made from an item carries normalised text. |
| RagSegments.LoadItems | app/rag_model.py:91-103 | The loop computes the same as the selection-based reference: the last full-text value (`""` if none); one segment per item that has `id` and `text` and no `full_text`, in order; "No segments found" when there is no such item. A segment item whose text is not a string gives the TypeError. |
| RagSegments.LoadParsed | app/rag_model.py:86-103 | A list source is walked as is and a dict source through its `items` list. A scalar source is not iterable and raises. Otherwise the result is the one LoadItems states. |
| RagSegments.LoadedSegmentsFromItems | app/rag_model.py:93-101 | The k-th loaded segment comes from the k-th segment item of the source. Its id is `str(id)` of that item and its text is normalised. |
| RagRetrieval.Matched | app/rag_model.py:150-159 | The intents a lower-cased query selects are exactly those whose trigger fragments occur in it: governing law, termination, payment and parties, in that order. |
| RagRetrieval.RewriteQuery | app/rag_model.py:149-160 | The rewritten query starts with the query and a space, followed by the boost terms of every selected intent joined by spaces. When no intent is selected, it is the query and a space. |
| RagRetrieval.TopN | app/rag_model.py:364-366 | The pool is a list of distinct positions of the n best scores, best first. No position left out scores higher than one taken. |
| RagRetrieval.Search | app/rag_model.py:358-376 | An index type other than tfidf or sbert is the "unknown index type" error. Otherwise the result holds the candidates at a top-n order of the rewritten query's scores. The pool size is 50 for TF-IDF and max(k, 50) for sentence embeddings. Every candidate id and text comes from the index. |
| RagRetrieval.MaxScore | app/rag_model.py:211 | `max(rel)` is attained by some candidate and bounds all of them. |
| RagRetrieval.Divisor | app/rag_model.py:211 | `max(rel) or 1.0` is never zero, so the normalisation never divides by zero. |
| RagRetrieval.FirstMax | app/rag_model.py:215 | `max(remaining, key=...)` returns the first position of maximal key. |
| RagRetrieval.GreedyPick | app/rag_model.py:217-220 | The position FirstMax finds in the remaining list is an unselected candidate of maximal MMR key, the earliest such. |
| RagRetrieval.MmrSelect | app/rag_model.py:208-221 | The selection loop yields a greedy MMR selection of k candidates. The first pick maximises relevance. Each later pick maximises `lambda*rel - (1-lambda)*max_sim` among the unselected candidates. |
| RagRetrieval.SelectionDistinct | app/rag_model.py:213-221 | A greedy selection never picks a candidate twice and only picks existing candidates. |
| RagRetrieval.FirstPickIsMostRelevant | app/rag_model.py:214-216 | The first pick is the earliest candidate of maximal normalised relevance. |
| RagRetrieval.Mmr | app/rag_model.py:180-222 | With at most k candidates, the list is returned unchanged. Otherwise the result has max(k, 0) candidates, picked in the order of a greedy MMR selection. Every returned candidate is one of the inputs. |
| RagAnswer.Span | app/rag_model.py:265-267 | The quoted span of a match is a prefix of it: the first line for termination clauses, the whole match otherwise. |
| RagAnswer.TopIds | app/rag_model.py:246 | The fallback citations are the ids of the first min(5, n) hits, in order. |
| RagAnswer.CiteFrom | app/rag_model.py:241-245 | The citation search finds the first hit whose text contains the non-empty span, or reports that none does. |
| RagAnswer.Pack | app/rag_model.py:239-247 | `pack_with_best_citation` always answers with a double-quoted text. |
| RagAnswer.PackInner | app/rag_model.py:240-247 | The quoted text is a prefix of the stripped span, at most 700 characters long. It is the whole stripped span when that fits. |
| RagAnswer.PackCitation | app/rag_model.py:241-246 | The citation is either the id of the first hit containing the stripped span (when the span is non-empty and the id is non-empty) or the first five ids. It is the first five ids whenever no hit contains the span. |
| RagAnswer.PackExtractive | app/rag_model.py:239-247 | When a text contains the packed span, it also contains the quoted answer. |
| RagAnswer.PackUnquotes | app/rag_model.py:247 | Stripping the quotes of a packed answer, as the CLI does, gives back the stripped span when it was not cut. |
| RagAnswer.LawHitFrom | app/rag_model.py:250-258 | The law-sentence scan finds the first hit whose law sentence, stripped, is longer than 30 characters, or reports that none has one. |
| RagAnswer.RuleResult | app/rag_model.py:249-297 | A rule that applies yields a quoted answer in one of the two citation forms. |
| RagAnswer.FirstRule | app/rag_model.py:249-297 | The rules are tried in table order. The answer is the first applicable rule's answer, and none of the earlier rules applies. When no rule applies, the result is nothing. |
| RagAnswer.Tokens | app/rag_model.py:301 | `re.findall(r"[A-Za-z0-9]+", q)` yields non-empty runs of ASCII letters and digits. |
| RagAnswer.LongTerms | app/rag_model.py:301 | The query terms are exactly the tokens longer than two characters. |
| RagAnswer.Count | app/rag_model.py:305 | A sentence's score is at most the number of terms. It is positive exactly when some term occurs in the sentence. |
| RagAnswer.Scan | app/rag_model.py:302-307 | The fallback loop keeps the earliest eligible sentence of the highest positive score, since only a strictly higher score replaces it. It finds none when every eligible sentence scores zero. |
| RagAnswer.BestSentence | app/rag_model.py:299-308 | A non-empty fallback is the stripped best sentence of the joined text. |
| RagAnswer.BestSentenceContained | app/rag_model.py:299-308 | The fallback sentence occurs in the joined hit texts. |
| RagAnswer.RulesOrFallback | app/rag_model.py:249-309 | Every answer from the rules or the fallback is quoted and cited in one of the two forms. |
| RagAnswer.ExtractiveAnswer | app/rag_model.py:230-311 | No hits give NOT_FOUND with no citations. Any hits give a quoted answer with one of the two citation forms. Corrected last resort: an empty top hit gives the empty quote. |
| RagAnswer.NotFoundIffNoHits | app/rag_model.py:231-232 | The answer is NOT_FOUND exactly when there are no hits. |
| RagAnswer.RuleExtractive | app/rag_model.py:259-297 | With sound pattern finders, a rule's answer quotes a piece of the joined hit texts. |
| RagAnswer.AnswerExtractive | app/rag_model.py:230-311 | With sound pattern finders, every answer quotes a piece of the joined hit texts: the answer is extractive. |
| RagAnswer.FallbackPicksBest | app/rag_model.py:299-309 | When no rule applies and the fallback finds a sentence, the answer packs the earliest best-scoring eligible sentence. |
| RagAnswer.ExtractiveAnswerAsWritten | app/rag_model.py:311 | As written, the last resort raises when the top hit's text is empty. In every other case the result equals the corrected answer. |
| RagAnswer.EmptyTopHitRaises | app/rag_model.py:311 | Counterexample: the empty query with a single empty hit makes the code as written raise IndexError. The corrected function answers `""` citing that hit. |
| RagAnswer.LastResortOnEmptyQuery | app/rag_model.py:311 | For the empty query, an empty top hit always raises as written and always gives the empty quote when corrected. |
| RagAnswer.EmptyQueryNoRule | app/rag_model.py:249-297 | The empty query triggers no rule. |
| RagAnswer.EmptyQueryNoSentence | app/rag_model.py:301-308 | The empty query has no terms, so the fallback finds nothing. |
| RagAnswer.SliceTo | app/rag_model.py:402 | `xs[:k]` is a prefix of xs of length min(k, n) for k >= 0. For negative k its length is max(n + k, 0). |
| RagAnswer.Shape | app/rag_model.py:402-411 | The response echoes the query and the answer. It lists every hit's id and score. Its contexts are the id and text of the first k hits. |
| RagAnswer.Ask | app/rag_model.py:379-411 | An unknown index type is the "unknown index type" error. Otherwise the pool is the search result for the query and the hits are the MMR re-ranking of that pool, at most max(k, 0) of them, each from the pool and the index. Asking fails exactly when the extractive answer as written raises, with its IndexError. Otherwise the response is shaped from those hits and their answer. |
| Sentences.RunEnd | app/rag_model.py:300 | `\s+` extends to the first non-whitespace character or to the end of the text. |
| Sentences.FirstCutFrom | src/rag/parse_utils.py:5 | The earliest split point at or after p: a whitespace run right after `.`, `?` or `!`, followed by a capital or `[` when required. |
| Sentences.SplitReassembles | app/rag_model.py:300 | Weaving the pieces of `re.split` with the removed whitespace runs gives back the text. |
| Sentences.GapsBlank | app/rag_model.py:300 | Every removed run is non-empty whitespace. |
| Sentences.PieceEndsTerminal | src/rag/parse_utils.py:5 | Every piece but the last is non-empty and ends with terminal punctuation. |
| Sentences.PieceContained | app/rag_model.py:300 | Every piece occurs in the text. |
| Sentences.FirstPiece | src/rag/parse_utils.py:5 | The first piece ends at the earliest split point. |
| Sentences.NoCutOnePiece | src/rag/parse_utils.py:5 | A text without split points is one piece. |
| SentenceSegments.FirstFullText | src/rag/parse_utils.py:10-13 | At most one item is carried over: the first full-text item, and none when there is no full-text item. |
| SentenceSegments.Numbered | src/rag/parse_utils.py:18-20 | The kept sentences are the non-empty ones, each numbered by its own position, with positions increasing. |
| SentenceSegments.NumberedComplete | src/rag/parse_utils.py:18-20 | No non-empty sentence is dropped. |
| SentenceSegments.SentenceSegment | src/rag/parse_utils.py:21-22 | A sentence segment carries the id `f"{id}_s{i:03d}"` and the sentence text. |
| SentenceSegments.ItemSegments | src/rag/parse_utils.py:14-22 | An item without id or text yields nothing. A non-string text raises. Otherwise there is one segment per numbered non-empty sentence, in order. |
| SentenceSegments.AllSegments | src/rag/parse_utils.py:14-22 | The walk succeeds exactly when every item's segmentation does. |
| SentenceSegments.ToSentenceSegments | src/rag/parse_utils.py:7-22 | A non-iterable source fails. Otherwise the output is the carried-over full-text item followed by every item's sentence segments in item order, and it fails exactly when some item does. |
| SentenceSegments.SentenceIdInjective | src/rag/parse_utils.py:21 | Within one item, different sentence numbers give different ids. |
| SentenceSegments.ItemIdsDistinct | src/rag/parse_utils.py:18-21 | The segments of one item carry pairwise different ids. |
| SentenceSegments.SegmentTextContained | src/rag/parse_utils.py:18-20 | Every segment text is a non-empty, stripped sentence that occurs in the item's stripped text. |
| SentenceSegments.EverySentenceKept | src/rag/parse_utils.py:18-22 | Every non-blank sentence has a segment numbered by its position among all sentences. |
| QaCli.StripQuotes | src/rag/qa_cli.py:11-15 | The result is stripped and no longer than the input. An unquoted text is only trimmed. A quoted text loses at least its two quotes and keeps an inner piece. |
| QaCli.UnquoteQuoted | src/rag/qa_cli.py:11-15 | `_strip_quotes` of a text wrapped in matching quotes is the stripped text. |
| QaCli.StripQuotesNoop | src/rag/qa_cli.py:11-15 | A stripped, unquoted text is returned unchanged. |
| QaCli.MakeHuman | src/rag/qa_cli.py:19-74 | Empty evidence gives the fixed "couldn't find" message. Otherwise the stripped model reply is returned when it is non-blank, and the evidence when there is no reply or the reply is blank. The result is never empty and always stripped. |
| AnalysisSections.Header | src/contract_summary_generator.py:95-101 | A section header is `**`, the section's number and its title. |
| AnalysisSections.FindHeader | src/contract_summary_generator.py:119 | The header search finds the first case-insensitive occurrence at or after the start, or reports that none exists. |
| AnalysisSections.SearchBetween | src/contract_summary_generator.py:95-101 | The non-greedy section pattern (`SearchSection` instantiates it with the section's header and next marker) fails exactly when the header is missing, or when no next-section marker follows its first occurrence (not for the last section). Otherwise the match starts at a header occurrence and ends with the next section's marker. |
| AnalysisSections.TrimTail | src/contract_summary_generator.py:124 | `re.sub(r'\n\n\*\*\d+\..*$', '', t)` leaves a text without a match alone. Otherwise it keeps everything before the first match, plus at most a final line break. |
| AnalysisSections.TrimTailAbsent | src/contract_summary_generator.py:124 | A text without a blank line followed by `**` is not changed by the cleanup. |
| AnalysisSections.TrimMark | src/contract_summary_generator.py:124 | The next section's marker that the search included is removed again by the cleanup. |
| AnalysisSections.ExtractSection | src/contract_summary_generator.py:116-129 | When the section pattern fails the result is `[<name> section not found]`. Otherwise it is the match with the next section's header cleaned off, without surrounding whitespace and no longer than the match. |
| AnalysisSections.ExtractMissing | src/contract_summary_generator.py:126-127 | A content without the header, in any case, gives `[<name> section not found]`. |
| AnalysisSections.ExtractWellFormed | src/contract_summary_generator.py:116-125 | A section followed by the next section's marker is extracted as its header and body, stripped. This holds whatever comes after the marker. |
| AnalysisSections.ExtractLast | src/contract_summary_generator.py:101 | The last section runs to the end of the content and is extracted stripped. |
| AnalysisSections.KeysDistinct | src/contract_summary_generator.py:95-101 | The seven section keys are pairwise different. |
| AnalysisSections.SectionsOf | src/contract_summary_generator.py:95-101 | The section dictionary has exactly the seven keys, each mapped to its extracted section. |
| ContractSummary.StampOfOutput | src/contract_summary_generator.py:61 | The `_analysis_<timestamp>` the analysis driver writes is a match of `_analysis_\d{8}_\d{6}`. |
| ContractSummary.RemoveStamps | src/contract_summary_generator.py:61 | Removing timestamp markers never lengthens the name. |
| ContractSummary.RemoveStampsPrefix | src/contract_summary_generator.py:61 | A prefix in which no match starts is kept unchanged. |
| ContractSummary.NoStraddle | src/contract_summary_generator.py:61 | No match can straddle a stamp-free name and a following `_` plus non-digit. |
| ContractSummary.StripLanguage | src/contract_summary_generator.py:64 | A name ending in `_arabic` or `_english`, in any case, loses that ending. Any other name is kept. |
| ContractSummary.KeyOfOutput | src/contract_summary_generator.py:58-64 | The Arabic, English and unmarked analyses that the driver writes for document x all map back to contract x. |
| ContractSummary.StripLanguageOf | src/contract_summary_generator.py:64 | Stripping the language ending gives back the contract name. |
| ContractSummary.Members | src/contract_summary_generator.py:56-68 | Reference: the files of contract k are exactly the listed files whose key is k, in order. |
| ContractSummary.GroupBy | src/contract_summary_generator.py:56-68 | The grouping loop keeps contracts in order of first appearance, each with exactly its files in order. |
| ContractSummary.GroupStep | src/contract_summary_generator.py:66-67 | One more file adds its contract to the contract list when the contract is new, and changes nothing there otherwise. |
| ContractSummary.MembersStep | src/contract_summary_generator.py:66-68 | One more file is appended to the list of its own contract and of no other. |
| ContractSummary.GroupPartition | src/contract_summary_generator.py:56-68 | Every file lies in the group of its own contract and in no other. |
| ContractSummary.GroupKeys | src/contract_summary_generator.py:56-68 | The groups are exactly the contracts of the files. |
| ContractSummary.GroupFiles | src/contract_summary_generator.py:38-77 | `group_related_documents` has one group per contract of the files, holding that contract's files in order. |
| ContractSummary.VersionsGroupedTogether | src/contract_summary_generator.py:56-68 | The Arabic and English analyses of one document end up in the same group. |
| ContractSummary.LanguageLabel | src/contract_summary_generator.py:89 | The label is Arabic exactly when the name holds `_arabic_`, and English otherwise. |
| ContractSummary.ArabicOutputLabelled | src/contract_summary_generator.py:89 | The Arabic analysis the driver writes is labelled Arabic. |
| ContractSummary.AnalysisContent | src/contract_summary_generator.py:79-114 | A readable file gives its label, name, full text and all seven sections as extracted. An unreadable one gives "Unknown", its name, the error and an empty text, and no sections. |
| ContractSummary.ReadContentSections | src/contract_summary_generator.py:92-103 | Every section of a read file is in its dictionary as extracted. |
| ContractSummary.UnreadContent | src/contract_summary_generator.py:107-114 | The error dictionary has the label "Unknown", the name, the error and an empty text, and no section keys. |
| ContractSummary.KeysNotExtra | src/contract_summary_generator.py:92-103 | No section key clashes with a bookkeeping key, so no entry overwrites another. |
| ContractSummary.VersionBlock | src/contract_summary_generator.py:158-165 | A version's block carries its basic-info line, with "N/A" when the section is missing. |
| ContractSummary.VersionBlocks | src/contract_summary_generator.py:157-165 | One block per version, in order. |
| ContractSummary.SummaryPrompt | src/contract_summary_generator.py:145-170 | A template with `{CONTRACT_DATA}` ends up containing the whole contract data. A template without it is returned unchanged. |
| ContractSummary.DataTextAppend | src/contract_summary_generator.py:153-165 | The data of several contracts is the data of each, in order. |
| ContractSummary.BlockInData | src/contract_summary_generator.py:154-165 | Each contract's block is part of the data. |
| ContractSummary.FallbackPrompt | src/contract_summary_generator.py:137-143 | With the built-in template, the prompt is its opening sentence followed by the data. |
| ContractSummary.UnreadableVersionNA | src/contract_summary_generator.py:107-114 | An unreadable version contributes "N/A" for its sections. |
| ContractSummary.Versions | src/contract_summary_generator.py:185-189 | Each file of a group is read and extracted, in order. |
| ContractSummary.DryRunNamesContract | src/contract_summary_generator.py:155 | A dry-run prompt from a template with the placeholder names the contract in its heading. |
| ContractSummary.ProcessAll | src/contract_summary_generator.py:258-301 | There is one entry per contract of the files, computed from exactly that contract's files. |
| BilingualAnalyzer.Part | src/bilingual_analyzer.py:146-148 | Each part starts with its section header and ends with the section text. A header is added only when it is missing. |
| BilingualAnalyzer.PartIdempotent | src/bilingual_analyzer.py:147-148 | A text that already starts with its header does not get a second one. |
| BilingualAnalyzer.KeptFrom | src/bilingual_analyzer.py:143-144 | The kept sections are exactly those present with non-empty text, in report order. |
| BilingualAnalyzer.Reconstruct | src/bilingual_analyzer.py:127-151 | The reassembly is empty exactly when no section is present with non-empty text. |
| BilingualAnalyzer.KeptSectionShown | src/bilingual_analyzer.py:143-151 | Every kept section appears in the reassembly under its header. |
| BilingualAnalyzer.PartsAgree | src/bilingual_analyzer.py:143-151 | Two dictionaries that agree on the kept sections reassemble alike. |
| BilingualAnalyzer.OtherKeysIgnored | src/bilingual_analyzer.py:143-144 | Entries under keys that are not section keys do not change the reassembly. |
| BilingualAnalyzer.EmptySectionIgnored | src/bilingual_analyzer.py:144 | An empty section is left out as if it were missing. |
| BilingualSummary.DocumentLanguage | src/bilingual_contract_summary_generator.py:40-61 | The language is Arabic exactly when the name holds `_arabic_` or the readable text is classified Arabic. An unreadable file is judged by its name alone. |
| BilingualSummary.NotArabicIsEnglish | src/bilingual_contract_summary_generator.py:50-56 | Text not classified Arabic, in a file not named Arabic, is English. |
| BilingualSummary.ArabicTextIsArabic | src/bilingual_contract_summary_generator.py:47-54 | A file whose letters are all Arabic is Arabic, whatever its name. |
| BilingualSummary.ArabicOutputIsArabic | src/bilingual_contract_summary_generator.py:50-54 | The Arabic analysis the driver writes counts as Arabic whatever its text. |
| BilingualSummary.Side | src/bilingual_contract_summary_generator.py:154-166 | Reference: one side of a contract holds exactly that contract's files of that language, in order. |
| BilingualSummary.Buckets | src/bilingual_contract_summary_generator.py:154-166 | The grouping loop yields exactly the reference buckets. |
| BilingualSummary.OneListEach | src/bilingual_contract_summary_generator.py:163-166 | Every file lies in exactly one list: the side of its language in the bucket of its contract. |
| BilingualSummary.BucketNotEmpty | src/bilingual_contract_summary_generator.py:163-166 | Every bucket has a file on at least one side. |
| BilingualSummary.GroupDocuments | src/bilingual_contract_summary_generator.py:136-180 | There is one bucket per contract of the files. Each bucket's Arabic and English lists hold exactly that contract's files of the detected language, in order. |
| BilingualSummary.ArabicOutputListed | src/bilingual_contract_summary_generator.py:154-166 | A contract's Arabic analysis lands in its Arabic list. |
| BilingualSummary.ExtractAnalysisSections | src/bilingual_contract_summary_generator.py:107-121 | The extracted dictionary carries the language and the whole text. |
| BilingualSummary.ExtractedKeys | src/bilingual_contract_summary_generator.py:109-119 | Exactly the language, the seven section keys and the text are present. |
| BilingualSummary.ExtractedSection | src/bilingual_contract_summary_generator.py:111-117 | Each section is present as extracted. |
| BilingualSummary.ErrorAnalysis | src/bilingual_contract_summary_generator.py:96-105 | The error dictionary has exactly the seven sections, each `[Translation error: e]`, and the text. |
| BilingualSummary.Target | src/bilingual_contract_summary_generator.py:80-82 | The requested language when given; otherwise the opposite of the source's. |
| BilingualSummary.DefaultTargetDiffers | src/bilingual_contract_summary_generator.py:80-84 | Without a requested language the analysis is always translated. |
| BilingualSummary.AnalysisOfText | src/bilingual_contract_summary_generator.py:78-92 | A file already in the target language has its sections extracted. Otherwise it gets the translator's sections, or the error dictionary when translation fails. |
| BilingualSummary.CreateBilingualAnalysisAsWritten | src/bilingual_contract_summary_generator.py:74-105 | As written, a file that was read behaves like AnalysisOfText. An unreadable file raises from inside the error handler. |
| BilingualSummary.UnreadableFileRaises | src/bilingual_contract_summary_generator.py:94-105 | Counterexample: every unreadable file makes the function raise. |
| BilingualSummary.CreateBilingualAnalysis | src/bilingual_contract_summary_generator.py:63-105 | Corrected: a read file as AnalysisOfText; an unreadable file gives the error dictionary with an empty text. |
| BilingualSummary.CreateBilingualAnalysisCorrected | src/bilingual_contract_summary_generator.py:94-105 | The corrected function agrees with the original wherever the original returns. Where the original raises, it returns every section as the translation error. |
| BilingualSummary.SectionLines | src/bilingual_contract_summary_generator.py:195-212 | There is one line per section in report order, with the default for a missing section. |
| BilingualSummary.BlockShowsSection | src/bilingual_contract_summary_generator.py:194-212 | Every section line is in its language's block. |
| BilingualSummary.BilingualPrompt | src/bilingual_contract_summary_generator.py:182-215 | A template with the placeholder ends up containing the bilingual data. A template without it is unchanged. |
| BilingualSummary.UnshownContributesNothing | src/bilingual_contract_summary_generator.py:193-204 | An analysis without a non-empty basic-info section contributes nothing, as if it were empty. |
| BilingualSummary.ShownSectionsInData | src/bilingual_contract_summary_generator.py:193-212 | A shown analysis has each section in the data: the Arabic one under Arabic labels ("غير متوفر" if missing), the English one under English labels ("N/A"). |
| BilingualSummary.TranslationErrorShown | src/bilingual_contract_summary_generator.py:96-105 | A failed translation is still shown, with its error in every line. |
| BilingualSummary.BilingualFallbackPrompt | src/bilingual_contract_summary_generator.py:223-228 | With the built-in template, the prompt is its opening sentence followed by the data. |
| BilingualSummary.SideAnalysis | src/bilingual_contract_summary_generator.py:264-294 | A side with files has its first file read without protection and extracted, so a read failure raises. A side without files gets the other side's first file through `create_bilingual_analysis` as written: translated when readable, and raising (the unbound `content`) when not. With no files at all it is empty. The side fails exactly in those two read failures. |
| BilingualSummary.Entry | src/bilingual_contract_summary_generator.py:297-328 | "NO_DATA" appears exactly when both analyses are empty. Otherwise a dry run gives the prompt length, and a real run gives the saved file's name or "ERROR: e". |
| BilingualSummary.ContractOutcome | src/bilingual_contract_summary_generator.py:257-328 | A contract fails exactly when one of its sides fails, that is when a file it reads cannot be read. Otherwise its entry is built from both analyses. |
| BilingualSummary.NoDataUnreachable | src/bilingual_contract_summary_generator.py:297-328 | A contract with a file never yields "NO_DATA". |
| BilingualSummary.Outcomes | src/bilingual_contract_summary_generator.py:257-328 | The walk succeeds exactly when every contract does, and the first error ends it. On success there is one entry per contract. |
| BilingualSummary.ProcessBilingual | src/bilingual_contract_summary_generator.py:230-338 | On success there is one entry per contract of the files, and none is "NO_DATA". |
| BilingualSummary.NoDataNowhere | src/bilingual_contract_summary_generator.py:326-328 | The "NO_DATA" branch is dead for every contract the grouping produces. |
| Analysis.DocumentInput | src/analysis.py:52-76 | A dict with `full_text` gives that text and its `language`. A non-empty list gives its first item's `full_text` and `lang`, or "No full_text in array format". Anything else is "Unrecognized document format". An empty text is refused with "No full_text field", so an accepted text is never empty. |
| Analysis.SegmentedDocumentDispatch | src/analysis.py:59-64 | A sentence-segmented document carries its full-text item first, so the dispatch finds that item's text and language. |
| Analysis.Fallback | src/analysis.py:204-208 | A fallback analysis starts with the fallback marker and is never blank. |
| Analysis.FallbackHasReason | src/analysis.py:208 | A fallback analysis carries the line `(Reason: <reason>)`. |
| Analysis.FailureReason | src/analysis.py:99-144 | The answer is replaced exactly when the call failed. Finish reason 2 means the response limit, 3 the content filter, and any other failure an API error. |
| Analysis.AnalysisText | src/analysis.py:99-149 | The saved analysis is never blank. A failed call gives the fallback with its reason. A successful call gives the answer when it is non-blank, and otherwise the "Empty or None response" fallback. |
| Analysis.ApiErrorReportSelected | src/analysis.py:116 | A report saved after an API error carries both retry markers. |
| Analysis.OtherReasonLinesUnmarked | src/analysis.py:108-113 | Reports saved after the response-limit or content-filter failures do not carry the API-error marker line. |
| Analysis.ReasonLineUnmarked | src/analysis.py:339 | A reason without `(` that does not start with "A" gives a reason line that is not the API-error line. |
| Analysis.LastOccurrence | src/analysis.py:362 | The last occurrence of the separator, or none when it does not occur. |
| Analysis.RetryStemAsWritten | src/analysis.py:360-362 | As written: the text before the first `_analysis_`, a prefix of the stem. |
| Analysis.RetryStem | src/analysis.py:360-362 | Corrected: the text before the last `_analysis_`. It is absent exactly when the stem has no separator. |
| Analysis.OutputNameStem | src/analysis.py:155 | The stem of a saved file name is the document stem, `_analysis_` and the timestamp. |
| Analysis.NoLaterMarker | src/analysis.py:155 | No separator starts after the one the saving step wrote. |
| Analysis.RetryStemRoundTrip | src/analysis.py:155 | Recovering from the last separator gives back every document stem. |
| Analysis.RetryStemAsWrittenRoundTrip | src/analysis.py:360-362 | As written, the stem comes back when no separator starts inside it. |
| Analysis.RetryStemAsWrittenLosesStem | src/analysis.py:360-362 | Counterexample: the stem "a_analysis" comes back as "a" as written, and whole from the last separator. |
| Analysis.OutputNameMatchesGlob | src/analysis.py:327 | Every saved analysis name matches `*_analysis_*.txt`. |
| Analysis.RetryTarget | src/analysis.py:333-366 | A file is retried only when its name matches the glob, its content has both markers, and the stem recovered as written (before the first `_analysis_`) plus ".json" is among the parsed documents; that document is the target. |
| Analysis.RetryTargets | src/analysis.py:326-366 | The documents to retry are exactly those targeted by some saved file. There are at most as many as files. |
| Analysis.FailedDocumentRetried | src/analysis.py:99-366 | A document "X.json" whose analysis failed with an API error, saved under its output name, is found again by the retry pass as written, whenever no separator starts inside X. |
| Analysis.SavedDocumentTarget | src/analysis.py:155-366 | A retry candidate saved under the output name of "X.json" is traced back to "X.json" when no separator starts inside X. |
| AnalysisMetrics.CountTrue | src/analysis_metrics.py:346 | `sum(bools)` equals the length exactly when every indicator holds. It is zero exactly when none holds. |
| AnalysisMetrics.Share | src/analysis_metrics.py:346 | The share of the indicators that hold lies in [0, 1]. It is 1 exactly when all hold and 0 exactly when none holds. |
| AnalysisMetrics.CountChar | src/analysis_metrics.py:343 | `s.count(c)` is at most the length. It is zero exactly when c does not occur. |
| AnalysisMetrics.WordCountBound | src/analysis_metrics.py:377 | `len(s.split())` is at most half the length, rounded up. |
| AnalysisMetrics.CapitalWords | src/analysis_metrics.py:371 | `len(re.findall(r'[A-Z][a-z]+', s))` is at most the length. |
| AnalysisMetrics.StructureScore | src/analysis_metrics.py:316-332 | The structure score lies in [0, 1]. It is 1 exactly when all six section patterns are found, ignoring case, and 0 exactly when none is. |
| AnalysisMetrics.CompletenessScore | src/analysis_metrics.py:334-346 | The completeness score lies in [0, 1]. A full score requires a response over 100 characters, with at least three periods and without a failure phrase. |
| AnalysisMetrics.DensityScore | src/analysis_metrics.py:348-380 | The density score lies in [0, 1]. A full score requires at least 100 words and two colons. |
| AnalysisMetrics.ShortResponseNotDense | src/analysis_metrics.py:377-380 | A response shorter than 199 characters never earns the full density score. |
| AnalysisMetrics.ConsistencyScore | src/analysis_metrics.py:382-399 | The consistency score lies in [0.4, 1], since three pairs never reach the floor. It is 1 exactly when no contradictory pair occurs. |
| AnalysisMetrics.Bump | src/analysis_metrics.py:420-421 | `m[k] = m.get(k, 0) + 1` raises k's tally by one and leaves every other tally alone. |
| AnalysisMetrics.DetectType | src/analysis_metrics.py:401-424 | The type score is 1 exactly when some type pattern matches. Only the first matching type's tally grows, and with no match the tally is untouched. |
| AnalysisMetrics.EmptySession | src/analysis_metrics.py:71-98 | A fresh session keeps the session invariant and has processed nothing. |
| AnalysisMetrics.Start | src/analysis_metrics.py:100-142 | Starting a document appends its size and raises only its language's tally, by one. The record is fresh. The invariant is kept. |
| AnalysisMetrics.StartAllTally | src/analysis_metrics.py:138-140 | After a run of starts, every language's tally has grown by the number of documents started in it. |
| AnalysisMetrics.RecordApiCall | src/analysis_metrics.py:144-174 | The record counts one more call. The response time is kept for the session only on success, and the token count only when it is given and non-zero. Nothing else changes, and the invariant is kept. |
| AnalysisMetrics.Assess | src/analysis_metrics.py:176-245 | The four quality scores lie in [0, 1]. The type score is 1 exactly when some contract type matches. |
| AnalysisMetrics.AnalyzeQuality | src/analysis_metrics.py:176-251 | The five scores are stored on the record and four of them are appended to the session's lists. Nothing else changes, and the invariant is kept. |
| AnalysisMetrics.LanguageFactor | src/analysis_metrics.py:476-477 | The multiplier is 1.2 exactly for a language code starting with "ar", and 1.0 otherwise. |
| AnalysisMetrics.Complexity | src/analysis_metrics.py:471-479 | The complexity never exceeds 1 and is non-negative for non-negative measurements. |
| AnalysisMetrics.ComplexitySaturates | src/analysis_metrics.py:471-479 | A document at or beyond every baseline (50000 characters, 30 seconds, 3 calls) scores 1. |
| AnalysisMetrics.ComplexityMonotone | src/analysis_metrics.py:471-479 | Complexity never decreases with length, time or calls. |
| AnalysisMetrics.ArabicNotSimpler | src/analysis_metrics.py:476-479 | An Arabic document is never scored simpler than any other with the same measurements. |
| AnalysisMetrics.Finish | src/analysis_metrics.py:253-314 | The session counts one more document and one more success or failure. It appends the record with its outcome and error, adds the elapsed time and appends the complexity score. It keeps the invariant. |
| AnalysisMetrics.MeanBounds | src/analysis_metrics.py:568 | The mean of values within bounds lies within those bounds. |
| AnalysisMetrics.Trunc | src/analysis_metrics.py:578 | `int(x)` truncates toward zero. |
| AnalysisMetrics.MeanIf | src/analysis_metrics.py:559-569 | An average is reported exactly for a non-empty list. The average of unit scores is a unit score. |
| AnalysisMetrics.FinalMetrics | src/analysis_metrics.py:539-594 | Before any document nothing is added. Afterwards the success rate is reported, in [0, 1]. Throughput is reported exactly when time has passed. Each average is reported exactly over a non-empty list, quality averages in [0, 1] and the complexity average at most 1. |
| AnalysisMetrics.RepeatedAverage | src/analysis_metrics.py:557-569 | On the second call (analysis.py calls it for the summary and again for saving), each stored `avg_<type>` float is averaged as a one-element list: the `avg_avg_<type>` entry exists exactly when the stored average is non-zero, and equals it. |
| AnalysisMetrics.MinOf | src/analysis_metrics.py:579 | The least element bounds every element. |
| LlmQuota.EstimateTokens | src/llm_handler.py:442-444 | `len(text) // 4` is the largest r with 4r at most the length. |
| LlmQuota.Initial | src/llm_handler.py:47-52 | A fresh handler has no request times and no daily tokens, and resets a day after its creation. |
| LlmQuota.Prune | src/llm_handler.py:72 | The pruned window keeps exactly the request times less than 60 seconds old, and never grows. |
| LlmQuota.PruneConcat | src/llm_handler.py:72 | Pruning a joined list prunes each part and joins the results, so the kept times stay in their order. |
| LlmQuota.PruneTwice | src/llm_handler.py:72-80 | Pruning again once the clock has moved on, as the check does after waiting, is the same as pruning once at the later time. |
| LlmQuota.PruneDrops | src/llm_handler.py:72-80 | A minute after the oldest request, that request leaves the window, so the waiting recursion ends. |
| LlmQuota.PruneAppendNow | src/llm_handler.py:93-98 | A request recorded now is the newest entry of the window. |
| LlmQuota.AfterReset | src/llm_handler.py:83-85 | Past the reset time the daily count restarts at zero with a new reset a day later. Before it, nothing changes. |
| LlmQuota.CheckRateLimits | src/llm_handler.py:59-91 | The check never moves the clock back. Its final state is the window pruned at the final clock, after the daily reset check at that moment, with fewer than 30 requests in it. It allows the call exactly when the daily count plus the estimate stays within 10,000,000. |
| LlmQuota.UnderCapNoWait | src/llm_handler.py:72-91 | With spare rate there is no waiting, and the call is refused exactly when the daily budget would be exceeded. |
| LlmQuota.RecordRequest | src/llm_handler.py:93-98 | Recording appends the time, adds the tokens and sets the last request time. |
| LlmQuota.QuotaStatus | src/llm_handler.py:484-508 | The report prunes and resets like the check and counts the requests of the last minute. The requests remaining are 30 minus that count, never below zero, and the rate is OK exactly below 30. The tokens remaining are the daily budget minus the used ones, never below zero, and daily usage is OK below 8,000,000 tokens. The reset time is the time left until the reset, never negative, truncated to whole seconds. |
| LlmQuota.StatusOkAllows | src/llm_handler.py:496-507 | A report of spare rate and enough remaining tokens promises that the check at the same moment allows the call without waiting. |
| LlmQuota.RecordedRequestCounted | src/llm_handler.py:93-98 | A recorded request is counted in the next report at the same moment. |
| LlmQuota.Bookkeep | src/llm_handler.py:395-402 | A call counts as a success exactly for finish reason "success" or "1". The total is the prompt plus the response tokens, at most a quarter of their length. |
| TranslationHandler.CountArabic | src/translation_handler.py:83 | The count of Arabic-block characters is zero exactly when none occurs. |
| TranslationHandler.CountLetters | src/translation_handler.py:84 | The letter count lies between the Arabic count and the length. |
| TranslationHandler.DetectLanguage | src/translation_handler.py:74-96 | "unknown" exactly for blank text or text without letters. Otherwise "ar" exactly when more than 70% of the letters are Arabic, "en" exactly when fewer than 10% are, and "mixed" in between. |
| TranslationHandler.RatioAbove | src/translation_handler.py:90-93 | The ratio comparisons are the integer comparisons of the counts. |
| TranslationHandler.AllArabicIsArabic | src/translation_handler.py:83-92 | Text whose letters are all Arabic, with at least one, is Arabic. |
| TranslationHandler.LatinIsEnglish | src/translation_handler.py:83-94 | Text with Latin letters and no Arabic one is English. |
| TranslationHandler.RemoveEachIsWithout | src/translation_handler.py:181-185 | Removing the directional characters one after another drops exactly those characters and keeps the rest in order. |
| TranslationHandler.FormatRtl | src/translation_handler.py:171-189 | Empty text is unchanged. Other text starts with the right-to-left mark. |
| TranslationHandler.FormatRtlContent | src/translation_handler.py:181-189 | The normalised text is the mark followed by the text with every directional character dropped. |
| TranslationHandler.FormatRtlIdempotent | src/translation_handler.py:171-189 | Normalising twice is normalising once. |
| TranslationHandler.TranslateText | src/translation_handler.py:98-103 | Blank text comes back unchanged without any translator being asked. Otherwise the result is the translator chain's outcome. |
| TranslationUtils.ChunkingJoin | src/translation_utils.py:32-47 | For any size, chunking keeps every non-empty paragraph, in order: the chunks joined by a blank line equal the paragraphs joined by one. |
| TranslationUtils.ChunkingFits | src/translation_utils.py:36-47 | With the separator counted, every chunk fits the size or is a single paragraph that alone exceeds it. |
| TranslationUtils.ChunksFit | src/translation_utils.py:36-47 | Corrected chunking: every chunk fits the size, or is a single paragraph that alone exceeds it. |
| TranslationUtils.ChunkOverflowAsWritten | src/translation_utils.py:38-43 | Counterexample: as written, the paragraphs "a" and "b" with size 2 become the 4-character chunk "a\n\nb". |
| TranslationUtils.TranslateAll | src/translation_utils.py:36-47 | The chunks are translated in order. The result succeeds exactly when every chunk does. |
| TranslationUtils.TranslateWith | src/translation_utils.py:9-53 | Blank text gives "". A text within the size is translated whole, and a longer one chunk by chunk, the chunks formed under the given size rule, with the results joined by blank lines. The first failure gives the error line followed by the original text. |
| TranslationUtils.TranslateToArabic | src/translation_utils.py:9-53 | As written: a long text is cut into the chunks of the size check that leaves out the separator, and the translations are joined by blank lines. |
| TranslationUtils.TranslateToArabicCorrected | src/translation_utils.py:9-53 | Corrected: the same, cut into chunks that each fit the size or are one oversized paragraph. |
| TranslationUtils.IdentityRoundTripWith | src/translation_utils.py:28-49 | With a translator that changes nothing, a non-blank text without empty paragraphs comes back unchanged, under either chunking rule. |
| TranslationUtils.IdentityRoundTrip | src/translation_utils.py:28-49 | The same round trip for the chunking as written. |
| TranslationUtils.IdentityRoundTripCorrected | src/translation_utils.py:28-49 | The same round trip for the corrected chunking. |
| TranslationUtils.ArabicPath | src/translation_utils.py:66-70 | The companion file sits in the same directory under a different name. |
| TranslationUtils.SaveArabic | src/translation_utils.py:55-76 | Saving writes the content to the companion path and returns it. Every other file is untouched. |
| TranslationUtils.LoadArabic | src/translation_utils.py:78-96 | Loading gives the companion file's content exactly when it exists. |
| TranslationUtils.HasArabic | src/translation_utils.py:98-112 | The existence check agrees with loading. |
| TranslationUtils.SaveThenLoad | src/translation_utils.py:55-112 | What is saved is found and loaded back, and the original file is left as it was. |
| MetricsRag.WithDefaultK | app/metrics_rag.py:16 | A validated item keeps every field. It gets "k" = 8 only when "k" is missing. |
| MetricsRag.LoadBench | app/metrics_rag.py:10-17 | Loading succeeds exactly when every item has "q" and "gold_regex". It then gives one item per input, in order, each with the default "k". |
| MetricsRag.LoadBenchFrom | app/metrics_rag.py:13-17 | The same, from a given item onwards. |
| MetricsRag.MissingKeyReported | app/metrics_rag.py:14-15 | The first dict item without "q" or "gold_regex" is reported with its own position. |
| MetricsRag.HitAtK | app/metrics_rag.py:40-46 | Hit@k is 1 exactly when some hit maps to a non-empty indexed text in which the pattern is found, and 0 otherwise. |
| MetricsRag.PAt1 | app/metrics_rag.py:48-53 | P@1 is 1 exactly when there is a first hit and it matches. |
| MetricsRag.PAt1AtMostHitAtK | app/metrics_rag.py:40-53 | P@1 never exceeds Hit@k on the same hits. |
| MetricsRag.UnknownIdsNeverMatch | app/metrics_rag.py:43-44 | Hits whose ids are not in the index count for neither metric. |
| MetricsRag.ExactMatch | app/metrics_rag.py:55-58 | Exact match is 1 exactly for a string answer in which the pattern is found. |
| MetricsRag.Pattern | app/metrics_rag.py:41 | The item's pattern is usable exactly when its "gold_regex" is a string; anything else is the TypeError of `re.compile`. |
| MetricsRag.RowOf | app/metrics_rag.py:76-94 | A failed run gives an error row with empty metrics and the run's error, whatever the pattern. For a run that answered, a pattern that is not a string or that `re.compile` rejects raises. Otherwise the OK row carries the run's latency and Hit@k, P@1 and exact match for that pattern. |
| MetricsRag.RowOrdered | app/metrics_rag.py:40-94 | Every row written is well formed: an OK row has its three indicators, each 0 or 1, with P@1 at most Hit@k. |
| MetricsRag.Rows | app/metrics_rag.py:74-94 | The script writes rows exactly when no item raises, one row per bench item in bench order. Otherwise it ends with the error of an item that raises. |
| MetricsRag.RowsFrom | app/metrics_rag.py:74-94 | The same, from a given item onwards. |
| MetricsRag.OkRows | app/metrics_rag.py:102 | The OK rows are exactly the rows with status OK. |
| MetricsRag.SumHit | app/metrics_rag.py:116 | The Hit@k sum over OK rows is at most their number. |
| MetricsRag.SumP1 | app/metrics_rag.py:117 | The P@1 sum over OK rows is at most their number. |
| MetricsRag.SumEm | app/metrics_rag.py:118 | The exact-match sum over OK rows is at most their number. |
| MetricsRag.Latencies | app/metrics_rag.py:104-110 | The latencies are exactly those of the rows that have one, at most one per row. |
| MetricsRag.LatenciesConcat | app/metrics_rag.py:104-110 | Latencies are collected row by row, so they keep the row order. |
| MetricsRag.Summarise | app/metrics_rag.py:102-121 | With no OK row the summary holds only the counts. Otherwise it counts all rows and the OK rows, and gives each metric's mean over the OK rows. The average latency is present exactly when some OK row has a latency, and is then the mean of those latencies. |
| MetricsRag.AverageLatencyBounds | app/metrics_rag.py:104-111 | When every latency lies within bounds, so does the reported average. |
| MetricsRag.SummaryRates | app/metrics_rag.py:112-119 | Every mean in the summary lies between 0 and 1. |
| MetricsRag.P1SumAtMostHit | app/metrics_rag.py:116-117 | Over rows with P@1 at most Hit@k, the P@1 sum is at most the Hit@k sum. |
| MetricsRag.OkRowsOrdered | app/metrics_rag.py:102 | Filtering the OK rows keeps that order property. |
| MetricsRag.MeanP1AtMostHit | app/metrics_rag.py:74-119 | When the script writes its rows, they are well formed and the reported mean P@1 never exceeds the mean Hit@k. |
| MetricsRag.OkRowsMeans | app/metrics_rag.py:102-119 | Over well-formed rows with P@1 at most Hit@k, the summary's mean P@1 never exceeds its mean Hit@k. |
| MetricsRag.TextsByIdLastWins | app/metrics_rag.py:20-24 | The id-to-text map holds, for each id, the text paired with its last occurrence in the index. |
| BootstrapQrels.SliceValue | benches/bootstrap_qrels.py:40-41 | Slicing works on lists and strings only. It keeps the first n elements. |
| BootstrapQrels.SliceTwice | benches/bootstrap_qrels.py:40-41 | Cutting to three answers twice is the same as cutting once. |
| BootstrapQrels.Matching | benches/bootstrap_qrels.py:29 | The gold ids are exactly the keys whose text is non-empty and matches the pattern. |
| BootstrapQrels.MatchingInOrder | benches/bootstrap_qrels.py:29 | Gold ids keep the order of the keys they come from. |
| BootstrapQrels.DistinctMatching | benches/bootstrap_qrels.py:29 | Filtering distinct keys gives distinct gold ids. |
| BootstrapQrels.RegexGoldIds | benches/bootstrap_qrels.py:11-29 | Regex mode gives, without repetition, exactly the indexed ids whose text matches. |
| BootstrapQrels.FirstStop | benches/bootstrap_qrels.py:36 | This is the position of the first ".", "؟" or "!", if there is one. |
| BootstrapQrels.Snippet | benches/bootstrap_qrels.py:36-37 | The weak answer is a prefix of the text. With a terminator it runs through the first one. Without one it is the first 200 characters. |
| BootstrapQrels.GoldAnswers | benches/bootstrap_qrels.py:34-37 | There is one stripped snippet for each of the first three gold ids. |
| BootstrapQrels.BootItem | benches/bootstrap_qrels.py:23-41 | An item without "q" fails. Regex mode fails exactly when the pattern is not a string or does not compile. It uses the matching ids, or the ranker's when none match, with answers from the first three. Otherwise it uses the given gold ids when truthy, else the ranker's, and the given answers. The lists are cut to 10 and 3, and "k" defaults to 8. |
| BootstrapQrels.Bootstrap | benches/bootstrap_qrels.py:22-41 | There is one output item per input item, in order. The first failing item, for instance one whose pattern does not compile, aborts the run. |
| BootstrapQrels.BootstrapBounds | benches/bootstrap_qrels.py:41 | Every output item keeps its question, with at most 10 gold ids and 3 answers. |
| Paths.LastDot | src/translation_utils.py:69 | This is the last dot of a file name, if there is one. |
| Paths.StemSuffixSplit | src/translation_utils.py:69 | The stem followed by the suffix is the whole name. |
| Paths.StemOfExtension | src/analysis.py:155 | A non-empty base with a one-dot extension splits back into that base and extension. |
| Paths.LastDotAt | src/analysis.py:360 | A dot with no dot after it is the last dot. |
| PyDict.ZipMap | benches/bootstrap_qrels.py:11 | The keys of a zipped dict are exactly the ids that have a partner. |
| PyDict.ZipMapLast | benches/bootstrap_qrels.py:11 | Each key holds the value paired with its last occurrence. |
| PyDict.Dedup | benches/bootstrap_qrels.py:29 | Dict iteration visits every key once. |
| PyDict.DedupFirstOccurrence | benches/bootstrap_qrels.py:29 | Dict iteration visits the keys in the order of their first occurrence. |

## Left out

- File and process I/O become parameters or oracles: reading and writing files, directory listings, joblib index loading, CSV writing and the subprocess call in the metrics script. A file system is a map from paths to contents where the model needs one.
- The clock is a parameter. The sleep in the rate-limit check is a clock advance to the moment the oldest request leaves the window. The timings and latencies of the question-answering path are inputs.
- External services are oracles: the language model, the translators (Google, deep_translator, Azure), the similarity scorers (TF-IDF, sentence embeddings) and the bilingual analyzer's section translation. Their retries and their response parsing are not modelled.
- Regular expressions other than the simple fixed ones are oracles. This covers the legal patterns, quality indicators, contract-type and section-header patterns. The sentence splitter, the base-name clean-up, the first-sentence snippet, the word tokens and the trailing-header clean-up are modelled character by character.
- Case folding (Text.Lower, Text.Upper) covers ASCII letters only, and `\d` matches ASCII digits only. Python folds and matches all of Unicode.
- Floating-point arithmetic is exact real arithmetic. `round` in the final metrics and in the summary of the metrics script is not modelled, and neither is the median.
- JSON values have no floating-point numbers, and `str()` of a list or a dict is rendered as the fixed text "[...]" or "{...}". An id that is a list or a dict therefore gives a different segment id in RagSegments.LoadedSegmentsFromItems and SentenceSegments.SentenceSegment than in Python; string and integer ids are rendered as Python does.
- Whether a gold pattern compiles is an oracle (`compiles`), in the metrics script and in the bootstrap script alike.
- Python dicts are maps: ProcessAll and ProcessBilingual give a map from contract to outcome, without the dict's insertion order. The grouping functions keep the order of files within a group.
- RagRetrieval.TopN: numpy's argsort order among equal scores is unspecified. The model takes the earliest position first.
- AnalysisMetrics.FinalMetrics: the averages are returned in a separate report, and the session is left unchanged, where the source writes them into the metrics dict it returns. Repeated calls therefore do not accumulate in the model; the `avg_avg_<type>` entries that the second call in analysis.py adds are described on their own by AnalysisMetrics.RepeatedAverage.
- Analysis.Fallback: the report text is abbreviated to the lines that carry the file name, the language, the size and the reason. The fixed prose in between is left out.
- Analysis.OtherReasonLinesUnmarked: that the other failure reports are not selected for retry is proved for the reason line the analysis writes, not for the whole saved file.
- LlmQuota.StatusOkAllows assumes that the daily count does not exceed the budget. Above it the report shows zero remaining tokens and the check refuses, so the promise is vacuous there.
- The unused per-minute token limit of the handler is not modelled.
- The headers of the written summary files (date, languages, contract names) and the output directories of saved files are left out. Only the prompt and the per-contract outcome are modelled.
- The "[Error extracting …]" branch of section extraction is left out. That branch catches regex engine failures, which the model has none of.
- The Streamlit pages, the command-line drivers, the configuration, the document readers and the contract generator are not part of this model, and neither are the console dashboards of the metrics module.
- The generative answer mode of the question-answering path and the language-model path of `makehuman` are oracles. Only the extractive answer and the empty-evidence branch are modelled concretely.

## Findings

| source | as written | input that shows it | evidently intended | confidence | as-written member | corrected member |
|---|---|---|---|---|---|---|
| src/analysis.py:360-362 | The retry recovers the document stem as the text before the first "_analysis_" in the output file name. | Stem "a_analysis" gives the file "a_analysis_analysis_TS.txt", which maps back to "a". | The text before the last "_analysis_", which gives back the stem for every stem. | not executed | Analysis.RetryStemAsWrittenLosesStem | Analysis.RetryStemRoundTrip |
| app/rag_model.py:311 | The last-resort answer takes the first line of the top hit's text with `splitlines()[0]`. | An empty query with one hit whose text is "": no rule fires, no sentence scores, and `"".splitlines()` is empty, so indexing raises. | The empty text as the answer. | not executed | RagAnswer.EmptyTopHitRaises | RagAnswer.ExtractiveAnswer |
| src/bilingual_contract_summary_generator.py:94-105 | When reading the analysis file fails, the error branch uses `content`, which was never bound. | An analysis file that cannot be read. | The error dictionary: every section shows the read error and the full content is empty. | not executed | BilingualSummary.UnreadableFileRaises | BilingualSummary.CreateBilingualAnalysisCorrected |
| src/translation_utils.py:38-43 | The chunk-size check leaves out the blank-line separator that joins the next paragraph. | Paragraphs "a" and "b" with chunk size 2 form the 4-character chunk "a\n\nb". | Count the separator, so that every chunk fits unless one paragraph alone is larger. | not executed | TranslationUtils.ChunkOverflowAsWritten | TranslationUtils.ChunksFit |
