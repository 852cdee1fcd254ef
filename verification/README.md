# Verified model of the history-learning pipeline

The program modelled here, called the original below, learns from exported chat logs in stages. A large JSON export is
streamed through a small refillable buffer. Its messages are normalized, those seen before or repeated in a burst are
left out, and the rest are cut into overlapping, bounded windows, some of which are selected. A language model is
asked, page after page, what can be learned from each window and, on request, from a continuation that joins a
window's tail to the next window. Windows are extracted concurrently; outcomes are applied in chronological order and
leave checkpoints, so that an interrupted run can be resumed. The candidates of all windows are merged by key and
reduced through bounded model batches until one result is left.

The model is an untrusted oracle: its answers are arbitrary values, for every page of every window and every round. A
window's extraction is a function of the window and the next one, so a window that is asked again, in a resumed run,
is answered as before; given that, what is said of a whole run holds for every interleaving and every point of
interruption. The last theorem of the chain, `Conclusion.ExportGrounded`, goes through all stages from the events of
an export on: whatever the model says and however the run is scheduled, what comes out cites messages of the stream
only, and meets the rules of its kind over them.

Beside the pipeline the project covers four self-contained parts of the same repository: the prompt registry with
its hot reload and its file format, the binary container of emoji packages, the bounded list of tool results, and
the ranking of stored expressions.

Code that updates state is modelled by classes and by methods with loops, each proved against a specification
function or an outright property; the laws are lemmas about those specifications. Numbers that are floats in the
program are reals here. What the host language or a library provides (case folding, hashing, compression, the
square root, text cleaning and the filters for sensitive data, the length of rendered JSON) is a parameter.

## Modules

| file | content |
|---|---|
| `Prelude.dfy`, `Seqs.dfy` | options, white space, messages; sequences without repeats, parts of sequences in order |
| `Json.dfy` | the JSON decoder with its error cases, and its locality |
| `JsonSpelling.dfy`, `JsonNumber.dfy`, `JsonGrammar.dfy`, `JsonValues.dfy` | the grammar of RFC 8259, apart from the decoder: strings, numbers, whole values, which values it reaches; the decoder reads exactly that |
| `Refill.dfy`, `ExportText.dfy`, `ExportReader.dfy`, `ExportGrammar.dfy` | decoding from a growing buffer; the export as a whole text and in chunks; the streaming reader; which texts are exports, and of what |
| `Ingest.dfy` | from the events of an export to the stream of messages |
| `Windows.dfy`, `Continuation.dfy`, `Selection.dfy` | cutting the stream, joining a tail to the next window, choosing windows |
| `Candidates.dfy`, `Merge.dfy`, `Grounding.dfy`, `Reading.dfy`, `Spelling.dfy` | candidates and their keys, the algebra of merging, the grounding rules, what exactly a reply is read as, the spelling of merged terms |
| `Paging.dfy`, `NaturalWindow.dfy`, `Recorded.dfy` | one window's pages, a window with its continuation, what is recorded for it |
| `Scheduler.dfy`, `Collected.dfy`, `Learning.dfy` | the schedule, what a run collects, a whole run |
| `Greedy.dfy`, `Partition.dfy`, `Rendering.dfy` | prompt budgets, batches, the texts they measure |
| `Consolidation.dfy`, `Replies.dfy`, `Concluding.dfy`, `Retention.dfy`, `Refusal.dfy`, `Conclusion.dfy` | the rounds, what one reply makes of a batch, what the whole run makes of the candidates, what is never lost, when a run is refused, the end of a run |
| `PromptRegistry.dfy`, `Prompts.dfy`, `HotReload.dfy` | the entries of prompt files and how they are replaced; the prompt manager; reading one file again compared with loading all |
| `PromptText.dfy`, `PromptSections.dfy`, `PromptMetadata.dfy`, `PromptDocument.dfy`, `PromptPrint.dfy` | lines and names, the parser of prompt files part by part, the round trip |
| `Container.dfy`, `ToolResults.dfy`, `VectorRanking.dfy`, `RankingExact.dfy` | package files, tool results, expression ranking and what it is apart from its computation |

## Where the code does less than it seems to promise

- A number of more than one digit at the top level of a field or of the messages array is taken too early when a chunk
  ends inside it, behind its first digit. `Refill.DecodesUnlessCut` says that this is the only way in which the chunks
  matter; `ExportReader.IterExportEvents` gives the events for every chunk size, those of the whole text if and only
  if no number is cut. `ExportGrammar.TwelveIsCut` is an export for which they differ.
- Candidates citing the tail of a window are removed to be found again in the continuation, but the last window has
  none. `NaturalWindow.LastWindowKeeps` says exactly when nothing is lost there, and `NaturalWindow.TailLost` gives a
  case in which everything is. In any other window the tail is shown again (`NaturalWindow.TailIsReread`), but a
  removed candidate that also cites earlier messages cannot be found again whole; `NaturalWindow.DroppedShown` says
  exactly when all it cites is shown.
- A tail of more than one message and more than 12,000 characters is not joined whole (`Continuation.WholeTail`, and
  `Paging.TailCut` for an instance); windows within the default limits have no such tail.
- A full reload of the prompt files, at every change of the cache revision, drops the prompts registered in memory
  (`Prompts.PromptManager.GetPrompt`; `Prompts.MemoryLost` for an instance); reloads of single files keep them.
- A request reads one file again, the one its prompt is known to be from or else the longest file name that is a dotted
  beginning of the id, and no other. When another file exports the id by then, the request does not find it, although a
  full load would: the id moved to another file (`HotReload.MovedLost`, found by the second request), or was added to
  a file while there is one of a longer name (`HotReload.AddedLost`, found by no request until that file is read for
  another id or the revision changes). `HotReload.RequestIsLoad` says exactly when a request is answered as a full load
  of the disk would answer it.
- Reloading a single file passes over ids registered in memory before it looks for duplicates, so it accepts a file that
  exports an id of another file when that id is registered. A full load of the same files is then refused, and every
  request after a change of the cache revision fails. `PromptRegistry.HotReloadIsLoad` says when a load of files the
  registry was given is refused, and `PromptRegistry.MaskedClash` is an instance.
- The terms of merged jargon candidates are the same up to case folding only, so a cited message contains some spelling
  of the term (`Grounding.MergeGrounded`), not always the one kept. `Spelling.MergeSpelled` says that the one kept is
  always there if and only if the later spelling contains it; `Spelling.SpellingLost` is a reply for which it is not.

## Model

| member | source | states |
|---|---|---|
| Json.ValueLocal | src/bw_learner/history_import.py:188-204 | A value that decodes at a place of one text decodes alike from any text showing the same characters there; a number must also not go on. |
| JsonGrammar.DecodesIs | src/bw_learner/history_import.py:188-204 | At any place of any text the decoder reads a value and its end if and only if a spelling of that value stands there, by a grammar stated apart from the decoder (white space anywhere it may be, nested arrays and objects), a number as long as the text goes on with one. |
| JsonSpelling.SpelledReads | src/bw_learner/history_import.py:188-204 | Every string spelled piece by piece (plain characters, the eight short escapes, four hexadecimal digits of either case, surrogate pairs for codes above 0xFFFF) is read as exactly those codes, whatever follows it. |
| JsonSpelling.LiteralSpelled | src/bw_learner/history_import.py:188-204 | Every string that is read is so spelled. |
| JsonNumber.LongestIs | src/bw_learner/history_import.py:188-204 | A number is read exactly where one of section 6 of RFC 8259 stands that the text does not go on with. |
| JsonValues.ProperIs | src/bw_learner/history_import.py:188-204 | Exactly the values of known constants, numbers, and strings of code points without a high surrogate before a low one have a spelling, and so can be read. |
| Refill.ChunkFree | src/bw_learner/history_import.py:188-204 | Unless a number of more than one digit is ahead, decoding with retries after each refill gives, for every buffer fill and chunk size, the result of decoding the whole rest at once, size errors included. |
| Refill.LongNumberIsCut | src/bw_learner/history_import.py:188-204 | Read one character at a time, such a number ends after its first digit, which is not what the whole text says. |
| Refill.TwelveIsLong | src/bw_learner/history_import.py:188-204 | There are such numbers: 12 is one. |
| Refill.ChunkSizeIrrelevant | src/bw_learner/history_import.py:188-204 | The chunk size is irrelevant if and only if no number of more than one digit is ahead. |
| Refill.LongNumberDecodes | src/bw_learner/history_import.py:188-204 | Such a number decodes to some number, or is refused as too long, at any chunk size. |
| Refill.DecodesUnlessCut | src/bw_learner/history_import.py:152-204 | Read in chunks of any size from any place of a text, a value decodes as it does when the whole text is at hand if and only if it is not a number with a chunk boundary behind its first digit and before its end (and up to there not too long already); such a number decodes to a shorter one. |
| Refill.FirstSuccess | src/bw_learner/history_import.py:188-204 | A value that one more refill completes ends within the characters it brought. |
| ExportText.ChunksCompare | src/bw_learner/history_import.py:245-283 | Read in chunks of any size, an export gives the events of the whole text before the first number that is cut, and agrees with the whole text altogether, errors included, if and only if none is. |
| ExportText.SelfDelimitingUncut | src/bw_learner/history_import.py:245-283 | An export that completes without a number of more than one digit is cut by no chunks; one with such a number is cut by chunks of one character. |
| ExportReader.IncrementalJsonReader.constructor | src/bw_learner/history_import.py:137-145 | A new reader has the whole text before it and nothing buffered. |
| ExportReader.IncrementalJsonReader.Compact | src/bw_learner/history_import.py:147-150 | Dropping the consumed prefix changes neither the input still to be consumed nor what is buffered of it, and does nothing at a position that needs no compaction, such as the start saved by decoding. |
| ExportReader.IncrementalJsonReader.ReadMore | src/bw_learner/history_import.py:152-161 | A refill keeps the remaining input (buffer suffix plus unread source), adds one chunk or what is left, reports whether anything was left, reaches no further than the next chunk boundary, and never makes a saved start stale. |
| ExportReader.IncrementalJsonReader.EnsureAvailable | src/bw_learner/history_import.py:163-167 | Something is buffered afterwards if and only if input remains. |
| ExportReader.IncrementalJsonReader.SkipWhitespace | src/bw_learner/history_import.py:169-174 | The remaining input loses exactly its leading white space, across refills. |
| ExportReader.IncrementalJsonReader.Peek | src/bw_learner/history_import.py:176-180 | The next character of the remaining input after white space, or an error when there is none. |
| ExportReader.IncrementalJsonReader.Expect | src/bw_learner/history_import.py:182-186 | Consumes the expected character, and fails exactly when another or none is next. |
| ExportReader.IncrementalJsonReader.DecodeNext | src/bw_learner/history_import.py:188-204 | The decoded value, or the error, is that of the chunked reading at this place of the text; exactly the value is consumed, and no more is buffered than up to the next boundary. |
| ExportReader.IncrementalJsonReader.Attempt | src/bw_learner/history_import.py:193-204 | One attempt to decode what is buffered: the outcome of the chunked reading, or one more refill after which it is still that. |
| ExportReader.ReadMessages | src/bw_learner/history_import.py:266-275 | The messages array yields its members in order; what was read and what is still to be read make up the chunked reading. |
| ExportReader.ReadEntryValue | src/bw_learner/history_import.py:264-277 | The value of a field, or the members of the messages array, joins the events as in the chunked reading. |
| ExportReader.ReadEntry | src/bw_learner/history_import.py:260-283 | One top-level field, with its separator: on the way through the chunked reading, or ended as it ends. |
| ExportReader.IterExportEvents | src/bw_learner/history_import.py:245-283 | No events for a chunk size of zero or less. For any other and any text exactly the events and the end of the chunked reading; those before the first number that is cut are those of the whole text, and all of them and the end are if and only if none is cut. |
| ExportGrammar.ExportsIs | src/bw_learner/history_import.py:245-283 | Reading a whole text completes with some fields and messages if and only if the text is an export of exactly those, in order: an object of named values and messages arrays, keys and values in any spelling of at most 2 MiB, with any white space between the parts and anything behind. |
| ExportGrammar.ReadExport | src/bw_learner/history_import.py:245-283 | Such an export read in chunks of any size yields its fields and messages in order and completes, if and only if no number is cut; always when no value is a number of more than one digit, and with one-character chunks only then. |
| ExportGrammar.TwelveIsCut | src/bw_learner/history_import.py:188-204 | The export {"n":12}, read one character at a time, is cut. |
| Ingest.AnalyzeExport | src/bw_learner/history_import.py:429-500 | The loop over the events keeps exactly the usable messages that are first with their id and not a third or later one of a burst, in order; total, retained and left-out counts add up, the duplicates of either kind and the unusable ones for each reason are counted exactly, as are senders, and the time span is that of what is kept. |
| Ingest.IngestedIs | src/bw_learner/history_import.py:429-500 | What is kept is one stream, read off the events: each message normalized knowing the bots known from the start or from chat descriptions before it, those whose id no earlier usable one has, and of them those not of a burst. |
| Ingest.FirstSeenIs | src/bw_learner/history_import.py:462-465 | Exactly the messages are seen first, in order, whose id no earlier usable one has. |
| Ingest.IngestedDistinct | src/bw_learner/history_import.py:447-500 | Whatever an export holds, no id occurs twice in the stream it gives. |
| Ingest.BurstIs | src/bw_learner/history_import.py:467-477 | A message is left out for a burst exactly when the last one before it of the same sender and folded text was sent at most the given seconds before, and that one repeated another in this way. |
| Ingest.CalmIs | src/bw_learner/history_import.py:467-477 | Exactly the messages that are not so are kept, in order. |
| Windows.WindowsCover | src/bw_learner/history_import.py:602-636 | The windows are stretches of the stream that start and end strictly later one after the other, cover every message, respect both limits unless a single message exceeds one, and contain no break. Each is closed by a break, after which the next starts with the message behind it, or because that message would exceed the number of messages or of characters: then the next starts with as many of the last messages as the overlap has, if the message still fits behind them, and without them otherwise. |
| Windows.CutsOnce | src/bw_learner/history_import.py:602-636 | There is one such list of windows. |
| Windows.WindowAt | src/bw_learner/history_import.py:570-584 | The k-th window is numbered k and holds exactly its stretch, within the limits. |
| Windows.IterHistoryWindows | src/bw_learner/history_import.py:587-636 | The generator yields exactly those windows, numbered from one, and refuses exactly the options the original refuses. |
| Windows.Arrive | src/bw_learner/history_import.py:620-634 | Whether a message closes the open window, and what stays open with how many characters. |
| Windows.KeepOverlap | src/bw_learner/history_import.py:606-632 | What a full window leaves open: its last messages, as many as the overlap has, with their characters, or nothing when the message does not fit behind them either. |
| Continuation.AppendIs | src/bw_learner/history_learning.py:268-287 | Appending adds the unseen messages of a prefix, and stops only before an unseen message with which there would be more than 80 messages or 12,000 characters. |
| Continuation.AppendAll | src/bw_learner/history_learning.py:282-287 | The loop with its set of seen ids appends exactly the specified messages. |
| Continuation.AppendKeeps | src/bw_learner/history_learning.py:268-287 | Appending never repeats an id, never drops what is there, and keeps within 80 messages and 12,000 characters or one message. |
| Continuation.AppendFits | src/bw_learner/history_learning.py:268-287 | Distinct messages that fit together are all appended. |
| Continuation.BuildContinuationWindow | src/bw_learner/history_learning.py:252-304 | The joined window is the specified one; it fails exactly when a tail id is not of the current window. |
| Continuation.ContinuationHolds | src/bw_learner/history_learning.py:252-304 | It starts with the whole validated tail, goes on with the unseen messages among the next window's first 40 up to one that does not fit, repeats no id, and has at most 52 messages and 12,000 characters or one message. |
| Continuation.WholeTail | src/bw_learner/history_learning.py:268-287 | For windows of any size, the whole tail is joined if and only if it has at most 12,000 characters or is a single message. |
| Continuation.CutWindowsContinue | src/bw_learner/history_learning.py:252-304 | For every stream with distinct ids cut with at most 12,000 characters to a window (the default), every validated tail of every window but the last is joined whole to the next window. |
| Selection.BestFromIs | src/bw_learner/history_import.py:706-715 | The index a slot takes wins over every other unselected one: each priority sender it adds counts 5, its signal its score, every place away from the slot's place in time costs 3/4, then the nearer and then the earlier one wins; there is one unless all are selected. |
| Selection.PickSlot | src/bw_learner/history_import.py:704-715 | The search over all indices finds that index. |
| Selection.EachSlotBest | src/bw_learner/history_import.py:704-717 | Each slot takes the unique best of the windows no earlier slot took, given the senders covered so far; no window is taken twice. |
| Selection.ChoosesOnce | src/bw_learner/history_import.py:701-717 | Slot after slot, given the priority senders of the windows already taken, one choice is possible, and it is the one made. |
| Selection.BudgetIsSpent | src/bw_learner/history_import.py:704-719 | Exactly the budgeted number of windows is selected. |
| Selection.SelectHistoryWindows | src/bw_learner/history_import.py:685-719 | The selected windows are those of that choice, in input order; nothing for no budget, everything when the budget suffices. |
| Selection.Spread | src/bw_learner/history_import.py:704-717 | With equal scores and no priority senders, every slot takes a window within one half of its target. |
| Selection.SpreadEvenly | src/bw_learner/history_import.py:704-719 | Then the picks are in time order, both ends among them, and neighbours at most (n-1)/(budget-1) + 1 apart. |
| Candidates.Deduplicate | src/bw_learner/history_candidates.py:760-769 | The loop over an insertion-ordered dictionary computes the specified merge. |
| Candidates.MergeWindowCandidates | src/bw_learner/history_candidates.py:772-806 | Every kind's candidates, in order of the results, are merged by that kind's key. |
| Merge.DedupIsMerged | src/bw_learner/history_candidates.py:760-769 | The result has one candidate for each key, in the order of first occurrence, and each is the merge of all candidates with its key. |
| Merge.ClaimsMerged | src/bw_learner/history_candidates.py:760-806 | What remains of the candidates of a kind claims what no earlier one says the same as, in order: the same situation and style, the same actor, learning type, action and outcome, the same term, the same type, person and content, or the same person, category, name and value, free text up to case folding. |
| Merge.FoldExactly | src/bw_learner/history_candidates.py:741-757 | A group of candidates with one key merges to the first one's claim under its id, the first 12 distinct evidence ids and the first 64 distinct sources of all of them, however the truncations fall in between, and the greatest scores, and to nothing else; one by itself keeps what it has, blank and repeated sources apart. |
| Merge.FoldScores | src/bw_learner/history_candidates.py:741-757 | Merged confidence is the greatest; so is merged importance, for memories only. |
| Merge.MergeAssociative | src/bw_learner/history_candidates.py:741-757 | Merging candidates is associative, caps included. |
| Merge.AbsorbLeft | src/bw_learner/history_candidates.py:760-769 | Deduplicating a deduplicated beginning first changes nothing. |
| Merge.AbsorbRight | src/bw_learner/history_candidates.py:760-769 | Deduplicating a deduplicated end first changes nothing. |
| Merge.DedupIdempotent | src/bw_learner/history_candidates.py:760-769 | Deduplication is idempotent. |
| Merge.Regroup | src/bw_learner/history_candidates.py:772-806 | Merging already merged groups of results equals merging all results at once, for any grouping and any inputs. |
| Merge.MergeIdempotent | src/bw_learner/history_candidates.py:772-806 | Merging a merged result again changes nothing. |
| Reading.ParseHistoryWindowResult | src/bw_learner/history_candidates.py:489-713 | Whatever the reply, every candidate read is grounded; for each kind there is one candidate for each key of an accepted item among the first 60, 40, 60, 50 or 50, in order of first occurrence, being the merge of all accepted items with that key, and no other. |
| Reading.ParseReads | src/bw_learner/history_candidates.py:489-713 | A reply can be read so in one way only. |
| Reading.ParseItems | src/bw_learner/history_candidates.py:482-486 | One kind's items, up to its maximum, in order, rejected ones left out, merged by key. |
| Reading.AcceptIs | src/bw_learner/history_candidates.py:518-677 | An item is accepted as a candidate if and only if each field of its claim is the cleaned text under its own name, within that field's lengths; its scores are those given and within its kind's bounds; its kind, type or category and content are allowed; its evidence are the cited messages that may be cited for the claim, in the order of their first mention among the twelve ids looked at; they are enough, with the actor, two people or a person among them where that is asked; and of a behaviour every cited message may be cited. |
| Reading.AcceptAllIs | src/bw_learner/history_candidates.py:518-677 | Of a list of items exactly the accepted ones become candidates, in order. |
| Grounding.AcceptGrounded | src/bw_learner/history_candidates.py:518-677 | Whatever a raw item says, what it is accepted as meets its kind's rules: known distinct ids, at most 12, of eligible senders; two ids and a grounded actor for behaviours; the term in every cited message; subject-authored evidence for profiles; thresholds and filters. |
| Grounding.MergeGrounded | src/bw_learner/history_candidates.py:741-757 | Merging two candidates with the same key keeps the rules, the term of a jargon up to case folding. |
| Grounding.ParseGrounded | src/bw_learner/history_candidates.py:489-713 | Every candidate of every reply is grounded. |
| Grounding.MergeWindowsGrounded | src/bw_learner/history_candidates.py:772-806 | Merging grounded results gives grounded results. |
| Spelling.MergeSpelled | src/bw_learner/history_candidates.py:741-757 | For any two spellings: merging a candidate for the later into one for the earlier leaves the earlier in every cited message, for all evidence, if and only if the later spelling contains the earlier. |
| Spelling.SpellingLost | src/bw_learner/history_candidates.py:583-696 | A reply whose two accepted terms fold alike is read as one candidate citing a message that does not have the term as spelled. |
| Grounding.CitedWellGrounded | src/bw_learner/history_candidates.py:824-830 | Being grounded depends on the cited messages only, so it survives forgetting all others. |
| Paging.ExtractWindowResult | src/bw_learner/history_learning.py:344-414 | The loop computes the specified extraction and reports pages 1, 2, and so on, one for each model call. |
| Paging.ExtractedIs | src/bw_learner/history_learning.py:363-414 | An extraction fails exactly when its first page cannot be read. Otherwise it stops at the first page, or the twentieth, that cannot be read, announces no more, or adds nothing; its candidates are those of all readable pages merged at once; its follow-up request is the last valid one; it is complete exactly when the last page says so. |
| Paging.MergeStep | src/bw_learner/history_learning.py:395-396 | Merging page by page is merging all pages at once. |
| Paging.EachPageAdds | src/bw_learner/history_learning.py:363-404 | Every page but the last adds a candidate, within 20 pages. |
| Paging.ExtractedGrounded | src/bw_learner/history_learning.py:363-414 | For every sequence of pages, all candidates of a window are grounded in it. |
| Paging.ExtractedCites | src/bw_learner/history_learning.py:344-414 | Whatever the model answers, a candidate of a window cites, at most twelve times and without repetition, only messages of that window, by people who are not excluded and, where learning is restricted, are eligible, or by a bot for a behaviour; memories and profile facts only where they are allowed. |
| Paging.TailIs | src/bw_learner/history_candidates.py:434-450 | A reply asks for a follow-up from a tail if and only if the known ids among the last twelve it names, each once and in order, are the last messages of the window. |
| Paging.TailAccepted | src/bw_learner/history_candidates.py:434-450 | A request that lists the last messages of a window, up to twelve, is accepted as listed. |
| Paging.TailCut | src/bw_learner/history_learning.py:252-304 | Two messages of 7,000 characters each: the request for both is accepted, and the joined window does not start with both. |
| NaturalWindow.ExtractNaturalWindow | src/bw_learner/history_learning.py:437-537 | The steps compute the specified outcome; the progress total is extended, through page numbers and the reservation for a follow-up together, by every call but one. |
| Recorded.RecordsAlone | src/bw_learner/history_learning.py:437-537 | Without a follow-up, what is recorded is the merge of the candidates of the window's own pages that avoid the tail, if one was asked for; the window is incomplete exactly when its pages are; the calls are its pages. |
| Recorded.RecordsFollowUp | src/bw_learner/history_learning.py:437-537 | With a tail and a next window, what is recorded is the merge of the first part's candidates that avoid the tail, followed by those of the joined window's pages (none when its first page cannot be read); the window's id and the joined one are incomplete exactly when their own pages are, and the calls are the pages of both. |
| NaturalWindow.NaturalSucceeds | src/bw_learner/history_learning.py:437-537 | Extracting a window never fails on a foreign tail; it takes 1 to 20 calls for the window and at most 20 for a continuation, and records their number. |
| NaturalWindow.NaturalGrounded | src/bw_learner/history_learning.py:437-537 | All candidates recorded for a window are grounded in its messages and the next window's. |
| NaturalWindow.UntailedIs | src/bw_learner/history_learning.py:307-322 | Exactly the candidates that cite none of the tail are kept. |
| NaturalWindow.LastWindowKeeps | src/bw_learner/history_learning.py:486-505 | Without a next window the recorded candidates are exactly those that avoid the tail, hence all of them if and only if no follow-up was asked for or no candidate cites the tail. |
| NaturalWindow.TailLost | src/bw_learner/history_learning.py:486-505 | A concrete window and reply for which the only candidate is dropped and the window counts as complete. |
| NaturalWindow.TailIsReread | src/bw_learner/history_learning.py:499-525 | In a stream cut with at most 12,000 characters to a window, a follow-up request of any window but the last makes the model see the whole tail again, in one continuation, in at least one call. |
| NaturalWindow.DroppedShown | src/bw_learner/history_learning.py:252-322 | All that a candidate cites is shown in the continuation if and only if each cited message is of the tail or of those taken from the next window. |
| Scheduler.CompleteRun | src/bw_learner/history_learning.py:682-779 | Any run that completes, at any concurrency from 1 to 16, in any interleaving, with any valid saved checkpoints, ends with the candidates, evidence, continuation ids, incomplete ids and call count of the sequential run, and has emitted the fresh windows' checkpoints in order. |
| Collected.RunCollects | src/bw_learner/history_learning.py:701-779 | What a complete run has, whatever the interleaving: of all selected windows in order, the candidates of each, the continuation and incomplete ids of all, their calls, and the last shown message for every id some window's candidates cite and its messages show; emitted are the checkpoints of those that were not saved before, in order. |
| Scheduler.AnyPoint | src/bw_learner/history_learning.py:723-779 | At any point of any run the emitted checkpoints are a prefix of those of the fresh windows, and at most as many tasks are pending as the concurrency allows. |
| Scheduler.CrashAndResume | src/bw_learner/history_learning.py:682-779 | A run stopped anywhere and resumed from what it emitted, at any concurrency, ends as the sequential run does; the checkpoints of both parts together are those of an uninterrupted run. |
| Scheduler.RunInv | src/bw_learner/history_learning.py:731-773 | Every step keeps the invariant: pending windows in order and without gaps, results and checkpoints those of a sequential prefix. |
| Scheduler.ProgressLedger | src/bw_learner/history_learning.py:694-710 | At any point the progress count is short of its total by exactly the number of fresh selected windows that have not returned a page, so it never exceeds it. |
| Scheduler.FinalProgress | src/bw_learner/history_learning.py:694-710 | At the end both equal the sum over selected windows of their calls, one at least for each. |
| Scheduler.NeverStuck | src/bw_learner/history_learning.py:731-773 | Unless the run is complete some step can be taken. |
| Scheduler.EveryRunEnds | src/bw_learner/history_learning.py:731-773 | Every run has at most a number of steps fixed by the plan, and is complete exactly when it has that many. |
| Learning.LearningIsValid | src/bw_learner/history_learning.py:664-681 | Learning any stream by any model answers, at any accepted concurrency, satisfies what the scheduler's theorems ask of extraction. |
| Learning.RetainIs | src/bw_learner/history_candidates.py:824-830 | The evidence grows by exactly the cited messages. |
| Learning.LearnedGrounded | src/bw_learner/history_learning.py:682-783 | When a run completes, the merged candidates are grounded in the evidence kept, which is of the stream; at most 40 calls were made for each selected window. |
| Greedy.StretchAdmissible | src/bw_learner/history_candidates.py:960-1002 | Any stretch of a run that fits a prompt fits one too: shared evidence is paid once, so cost is monotone. |
| Greedy.GreedyIsMinimal | src/bw_learner/history_candidates.py:1005-1048 | No other cut of the candidates, in order, into batches that fit has fewer batches than the greedy one. |
| Greedy.GreedyIsUnique | src/bw_learner/history_candidates.py:1005-1048 | A cut whose every closed batch could not have taken the next candidate is the greedy one. |
| Greedy.OversizedHasNoCut | src/bw_learner/history_candidates.py:1035-1043 | When some candidate alone exceeds the budget there is no cut into batches that fit. |
| Rendering.FitsIs | src/bw_learner/history_candidates.py:949-1002 | A batch is within the budgets if and only if it has at most 30 expressions, 20 behaviours, 30 terms, 25 memories and 30 profile facts, the JSON text of what it shows of its candidates has at most 64,000 characters, and that text with the JSON text of the evidence for the first two ids of each, every id once, at most 120,000. |
| Partition.PartitionIs | src/bw_learner/history_candidates.py:1005-1048 | Per kind the batches concatenate to the input in order; every batch meets both character budgets and all per-kind limits; none is empty unless the input is; no closed batch could have taken the next candidate; it fails exactly when some candidate alone exceeds the budget. |
| Partition.Place | src/bw_learner/history_candidates.py:1029-1043 | One candidate joins the open batch, or closes it and opens another, or is refused as too large by itself. |
| Partition.PartitionCandidates | src/bw_learner/history_candidates.py:1005-1048 | The loops over the kinds compute that partition. |
| Consolidation.ConsolidateFrom | src/bw_learner/history_learning.py:539-574 | Whatever one call answers, its result cites only evidence and sources of its batch's kind, under a type pair, folded term, type and subject, or subject and category that occurs there. |
| Consolidation.RestrictIs | src/bw_learner/history_candidates.py:868-912 | Exactly the answered candidates are kept that cite something, cite only evidence of the batch's kind, and carry a tag of the batch. |
| Consolidation.SourcesAre | src/bw_learner/history_candidates.py:915-945 | A candidate's sources are its own and those of all originals that share evidence or identity with it, and no others. |
| Consolidation.RepeatedFrom | src/bw_learner/history_candidates.py:844-858 | The fallback keeps exactly the terms that occur in two cited messages not the bot's own. |
| Consolidation.MergePromotesNothing | src/bw_learner/history_learning.py:627-628 | Merging the answers of a round promotes nothing either. |
| Consolidation.NoPromotion | src/bw_learner/history_learning.py:576-637 | For every sequence of answers over all rounds, every candidate of the result cites only what candidates of its kind cited in the input, under a tag that occurred there. |
| Consolidation.RoundsBound | src/bw_learner/history_learning.py:601-637 | The number of batches falls from round to round or the loop ends, which bounds rounds and calls. |
| Consolidation.CallBound | src/bw_learner/history_learning.py:591-637 | From b batches there are at most min(12, b) rounds and b(b+1)/2 calls; the bound on calls holds for a refused run too. |
| Consolidation.CallRound | src/bw_learner/history_learning.py:602-621 | One round asks once for each batch, in order, and reports after each call, never beyond the estimate. |
| Consolidation.ConsolidateHierarchically | src/bw_learner/history_learning.py:576-637 | The loop computes the specified result; every progress report has completed at most estimated, one before the first call and one after each, also when the run is refused after some rounds; nothing is asked when there are no candidates. |
| Replies.ConsolidateReplies | src/bw_learner/history_candidates.py:844-945 | What one reply makes of a batch, kind by kind and position by position: of a readable one, the answered candidates that cite something, cite only what the batch shows and carry a tag of it, with their own claim, evidence and scores and the sources of the originals behind them; of an unreadable one, the batch without the terms not repeated. |
| Replies.RepliedOnce | src/bw_learner/history_learning.py:539-574 | That determines the result. |
| Concluding.ConcludedOnce | src/bw_learner/history_learning.py:576-637 | A whole run of rounds: each cuts what it has into batches, has each batch answered and merges the answers; it stops at one batch, at a round that does not lessen the batches, or after twelve rounds, and is refused at a batch that fits no prompt. Exactly one outcome meets that, and it is what the loop computes. |
| Retention.NothingLost | src/bw_learner/history_learning.py:576-637 | When every answer repeats what it was shown, no key of the input is lost in any number of rounds. |
| Refusal.RefusedExactly | src/bw_learner/history_learning.py:591-637 | A run is refused if and only if some candidate of the input or of a round of it that has to be put into a batch exceeds a prompt by itself. |
| Refusal.FairSucceeds | src/bw_learner/history_learning.py:591-637 | For any bounds on claims and scores: when the input and all answers keep to them, and every candidate that keeps to them and cites, of its kind, what the input cites fits a prompt by itself, the run succeeds, whatever the answers. |
| Conclusion.ReplyIsParsed | src/bw_learner/history_learning.py:562-570 | Every reply read for consolidation is one of the answers the rounds are modelled with. |
| Conclusion.FallbackGrounded | src/bw_learner/history_candidates.py:844-865 | The deterministic fallback leaves only terms cited in two messages. |
| Conclusion.ConsolidatedGrounded | src/bw_learner/history_learning.py:576-637 | Whatever the answers, consolidating grounded candidates leaves candidates grounded by the strict rules, under which a term needs two messages. |
| Conclusion.RunGrounded | src/bw_learner/history_learning.py:682-796 | From the stream to the consolidated candidates: for all answers to all pages and rounds, all schedules, interruptions and resumptions, what comes out cites stream messages only and is grounded by the strict rules. |
| Conclusion.ExportGrounded | src/bw_learner/history_import.py:447-500 | The same from the events of an export on, without assuming anything of the ids. |
| Prompts.PromptManager.ResolveName | src/common/prompt_manager.py:176-184 | Alias resolution ends: at the first name on the chain that is no alias, or refused exactly when the chain never leaves the aliases. |
| Prompts.ResolvesOnce | src/common/prompt_manager.py:176-184 | A name resolves in one way, and what it resolves to resolves to itself. |
| Prompts.PromptManager.RegisterPrompt | src/common/prompt_manager.py:205-214 | A registered prompt overrides its resolved id, loses source and metadata, and leaves everything else. |
| Prompts.PromptManager.RegisterContextPrompts | src/common/prompt_manager.py:186-190 | Overrides of one chat are added under resolved names, in order, up to a name that cannot be resolved; other chats keep theirs. |
| Prompts.PromptManager.ReplaceFileEntries | src/common/prompt_manager.py:333-381 | A file's entries become its exports but for ids registered in memory, which are left out first; all others stay. On an id left that is an entry of another file nothing changes. |
| PromptRegistry.ExportsAre | src/common/prompt_manager.py:102-124 | A file exports its template under its name, or each section under the file's name, a dot and its own, with source and metadata, and nothing else. |
| PromptRegistry.ReplacedMirrors | src/common/prompt_manager.py:333-381 | After a replacement the registry mirrors the file's new contents and every other file as before; metadata ids stay among source ids and those among prompt ids. |
| PromptRegistry.ReplacedExactly | src/common/prompt_manager.py:333-381 | A replacement is refused if and only if another file exports one of its ids and that id is not registered in memory. |
| PromptRegistry.RemovedMirrors | src/common/prompt_manager.py:317-321 | A file that is gone leaves no entry, and its removal is never refused. |
| Prompts.PromptManager.LoadPrompts | src/common/prompt_manager.py:147-174 | A full load takes all files or, when one cannot be parsed or two export an id, changes nothing. |
| Prompts.PromptManager.ReloadIfChanged | src/common/prompt_manager.py:299-306 | Everything is loaded again exactly when the revision changed since the last load; it fails exactly when that load is refused. |
| PromptRegistry.LoadedMirrors | src/common/prompt_manager.py:147-174 | A load mirrors all files and leaves no prompt without a source. |
| PromptRegistry.LoadedExactly | src/common/prompt_manager.py:147-174 | A full load is refused if and only if some file cannot be read or two files export one id. |
| Prompts.PromptManager.FindSourceFile | src/common/prompt_manager.py:326-331 | The longest known file name that is the id or a dotted beginning of it, or none if there is none; refused exactly when the listing has a name twice. |
| Prompts.SourceFileUnique | src/common/prompt_manager.py:326-331 | There is at most one such file, whatever the order of the set. |
| Prompts.PromptManager.ReloadPromptIfChanged | src/common/prompt_manager.py:308-324 | The id's file is read again and its entries replaced: exactly the reload step of the run model; refused exactly when the file has to be looked for in a listing with a name twice, cannot be parsed, or its replacement is refused; afterwards the id, if from a file, is what that file exports now; prompts in memory stay. |
| Prompts.PromptManager.GetPrompt | src/common/prompt_manager.py:238-266 | The exact answer in every case. A changed revision or a first request loads everything: an error when that is refused, and otherwise what was loaded. A name that cannot be resolved is an error, and an override of the chat comes first. With nothing to load the answer is a template if and only if the id is registered in memory with it, or the one file that is read again is on disk, can be parsed, is not refused and exports the id with it; an error if and only if that file is refused; and not found otherwise, whatever other files export. What is left is that load, or that one file read again, or all as it was. |
| Prompts.PromptManager.ReadAgain | src/common/prompt_manager.py:261-266 | Reading the prompt's file again and looking the id up gives exactly that answer; right after a load of the same disk, what was loaded. |
| HotReload.RequestIsLoad | src/common/prompt_manager.py:238-331 | For any registry, any disk that can be loaded and any id not registered, a request that is not refused is answered as a full load would answer it if and only if the file that is read again exports the id as the listed files do; when that file is listed or gone, if and only if it exports the id or no listed file does. |
| HotReload.MovedLost | src/common/prompt_manager.py:308-331 | The file a is gone and a new file a.b exports its id: the request does not find it, a full load serves it. |
| HotReload.AddedLost | src/common/prompt_manager.py:308-331 | A section b is added to the file a while there is a file a.b: no request finds a.b, none changes anything, and a full load serves it. |
| Prompts.ReloadAfterLoad | src/common/prompt_manager.py:147-266 | After a load, reading the file of any prompt again is never refused. |
| Prompts.ReloadChangesNothing | src/common/prompt_manager.py:147-266 | And it changes nothing. |
| Prompts.MemoryLost | src/common/prompt_manager.py:205-306 | A prompt registered in memory is served, and is not found once the revision has changed. |
| PromptRegistry.AfterMirrors | src/common/prompt_manager.py:205-381 | After any sequence of registrations and reloads, refused ones included, the registry mirrors the files as last read, with the last registrations in memory. |
| PromptRegistry.HotReloadIsLoad | src/common/prompt_manager.py:147-381 | A registry that got where it is by any registrations and reloads, refused ones included, serves the last registrations and otherwise what the files as last read export. It equals a full load of any loadable files, with the registrations on top, if and only if those files export what was last read, registered ids apart. When it was given exactly those files, the load is refused if and only if one cannot be read, a name is listed twice, or two export an id that is registered. |
| PromptRegistry.MaskedClash | src/common/prompt_manager.py:147-381 | A registration and a reload after which the registry has been given two files that a full load refuses. |
| PromptSections.ParsePromptSections | src/common/prompt_loader.py:196-253 | The line loop reads some sections if and only if the lines are laid out as them: no marker at all for none, or else, in order, a line that opens each with a new safe name, its lines without markers, and a line that ends it, with only blank lines around. |
| PromptMetadata.ParseMetadataValues | src/common/prompt_loader.py:297-311 | The loop over metadata lines computes the specified values, or refuses the same lines. |
| PromptMetadata.ParsePromptMetadata | src/common/prompt_loader.py:256-352 | A text without metadata is taken whole exactly when no line looks like a marker. Metadata and the rest are read if and only if the text starts, after blank lines, with one marked block and no other marker, each line of which gives a value to a known key not given before; the fields are those values; id, kind, status, names and variants are proper; and the rest is what follows the block. |
| PromptMetadata.ValuesSay | src/common/prompt_loader.py:297-311 | The lines of a block have values if and only if each is blank or gives a non-empty value to a known key no earlier line has, and the values are exactly those given. |
| PromptDocument.ParsePromptDocument | src/common/prompt_loader.py:355-371 | A text is read as a document if and only if it has no metadata, need have none and is itself the template, or it describes metadata for the expected id whose variants are the names of the sections in order, and the rest is the template; the template is not blank and is laid out as the sections. |
| PromptPrint.PrintedDocumentReads | src/common/prompt_loader.py:196-371 | For every well-formed metadata record, or none, and every list of distinct sections with trimmed, non-empty, marker-free bodies, or plain template, reading the printed file gives the same document. |
| PromptDocument.AcceptedIsProper | src/common/prompt_loader.py:196-371 | Whatever text is accepted has distinct, safely named, trimmed, non-empty sections, a template that is not blank, and, with metadata, variants equal to its section names in order. |
| Container.PayloadSize | scripts/mmipkg_tool.py:303-306 | The size computed before writing is the exact length of the payload. |
| Container.WritePackage | scripts/mmipkg_tool.py:324-415 | Writing succeeds exactly when all lengths fit their fields, and then the file is header, payload (compressed or not) and footer with the payload's digest; a failed attempt leaves the header and the parts before the first that does not fit, or nothing when the header's own sizes do not fit. |
| Container.WriteFrames | scripts/mmipkg_tool.py:343-405 | The framing loop writes and hashes the same bytes: each part behind its length, in order; it fails exactly when a length does not fit four bytes, with the parts before it written. |
| Container.PackageParts | scripts/mmipkg_tool.py:324-415 | Header fields, body and footer are found at their places, with their values; an uncompressed file has 32 + payload + 40 bytes. |
| Container.RoundTrip | scripts/mmipkg_tool.py:324-566 | A written package is accepted when read if and only if manifest and payload are within the limits; then manifest and images come back as they were, in order, with a matching digest. |
| Container.ByteStream.Read | scripts/mmipkg_tool.py:545-551 | The next bytes of the payload, as many as asked for or as are left. |
| Container.ReadFrame | scripts/mmipkg_tool.py:603-618 | One length and that many bytes, or nothing when either is cut short; the stream is then after what was read. |
| Container.ImportItems | scripts/mmipkg_tool.py:578-700 | The k-th item is judged by the k-th frame of the payload, so a skipped, failed or rejected image never shifts the framing, whatever storing made of the images before; imported, skipped and errors count the outcomes and add up to the number of items. |
| Container.PackedImagesImport | scripts/mmipkg_tool.py:578-700 | For a package as the packer fills it, only storing can refuse an image, and each item gets its own image to store. |
| Container.ImportPackage | scripts/mmipkg_tool.py:441-575 | A whole file: refused without importing anything, or all its items judged, successful exactly when none failed. |
| ToolResults.ToolResultList.AppendBounded | src/chat/chat_tool_registry.py:72-90 | The new result keeps its content up to its own limit; total content is exactly min(old + min(new, 6000), 12000); what is given up is all content of the oldest results and part of at most one more; order and all else stay. |
| ToolResults.ToolResultList.MakeRoom | src/chat/chat_tool_registry.py:78-84 | The loop over the oldest results gives up exactly what is too much. |
| ToolResults.ToolResultList.GiveUp | src/chat/chat_tool_registry.py:81-84 | One result gives up as much content as it has, or as is too much. |
| ToolResults.ToolResultList.HasCapacity | src/chat/chat_tool_registry.py:68-69 | Whether the budget is not yet spent. |
| ToolResults.RunKeepsBudget | src/chat/chat_tool_registry.py:59-90 | However many results are appended, none is lost or reordered, and what is kept is exactly what they want, each up to its limit, up to the budget. |
| VectorRanking.CosineSimilarity | src/bw_learner/expression_vector_index.py:111-125 | The single loop accumulates dot product and both squared norms; the similarity is their quotient, or 0 for vectors that are empty, of unequal length or zero. |
| VectorRanking.DotBounded | src/bw_learner/expression_vector_index.py:111-125 | The squared dot product is at most the product of the squared norms. |
| VectorRanking.CosineBounded | src/bw_learner/expression_vector_index.py:111-125 | The similarity of any two vectors is between -1 and 1. |
| VectorRanking.LexicalTokens | src/bw_learner/expression_vector_index.py:66-96 | The tokens are exactly the longest word runs of two or more characters, the ideographs, and the pairs of neighbouring ideographs. |
| VectorRanking.FlushWord | src/bw_learner/expression_vector_index.py:72-75 | Closing a run of word characters adds its word if it is long enough, and nothing else. |
| VectorRanking.FlushIdeographs | src/bw_learner/expression_vector_index.py:77-82 | Closing a run of ideographs adds each of them and each neighbouring pair. |
| VectorRanking.OverlapBounded | src/bw_learner/expression_vector_index.py:99-108 | The overlap score of any two token sets is between 0 and 1. |
| VectorRanking.ScoreBounded | src/bw_learner/expression_vector_index.py:354-360 | Every blended score is between -0.85 and 1. |
| VectorRanking.RankCandidates | src/bw_learner/expression_vector_index.py:341-368 | The matching expressions are scored, sorted by the exact scores with equal ones in order, cut to the limit, and shown with their three scores rounded. |
| RankingExact.RankingIs | src/bw_learner/expression_vector_index.py:341-368 | The ranking is one list: of the expressions with an embedding of the query's model and dimension, each scored 0.85 times its cosine plus 0.15 times its shared tokens, the best first, equal ones in order, cut to the limit. |
| RankingExact.CosineIs | src/bw_learner/expression_vector_index.py:111-125 | The similarity is the one number with the dot product's sign whose square is the squared dot product over the product of the squared norms. |
| RankingExact.SharedIs | src/bw_learner/expression_vector_index.py:99-108 | The overlap is the one number not below 0 whose square is the squared number of shared tokens over the product of the numbers of tokens. |
| VectorRanking.RankingIsTop | src/bw_learner/expression_vector_index.py:341-368 | What is kept is in descending order and scores at least as high as anything left out; nothing is lost otherwise. |
| VectorRanking.SortDownStable | src/bw_learner/expression_vector_index.py:367 | Expressions of one score keep their order. |
| VectorRanking.StableIsUnique | src/bw_learner/expression_vector_index.py:367 | There is only one such order. |
| VectorRanking.ShownDescending | src/bw_learner/expression_vector_index.py:362-368 | The rounded scores shown are in descending order too, if rounding keeps order. |

## Left out

- Model calls, prompt texts, JSON repair and the shape of raw replies: a reply is a value with raw items, or one that cannot be read.
- Databases and file systems: storing candidates and emojis, atomic renames, directory scans; storing an image is an arbitrary function of it and of the frames read before.
- Normalizing one raw message (text extraction, placeholders, low-signal detection, identifiers) and finding the exporter's own account: functions given from outside; the loop around them is modelled, without the names and cards of participants, the checks of the export's description, and discarding the result of an export that ends in an error.
- Normalized messages as lines of JSON between import and learning.
- Exports are decoded from text: file encodings and byte order marks are not part of this model; objects keep repeated member names instead of the last one only, and the host's limits on nesting depth are not modelled.
- Text cleaning, case folding, filters for sensitive data, hashes, stable ids and window names: functions given from outside; nothing is assumed of them.
- Lengths of rendered candidates and evidence entries: functions given from outside; the frame of the prompt's JSON, its commas and the sharing of evidence are modelled.
- Rounding and overflow of floats: scores, timestamps and vectors are reals.
- Coroutines below the level of steps between suspensions; a failing callback or request ends a run like a cancellation.
- Checkpoints and candidates as JSON: their conversion to and from dictionaries.
- The final cut of consolidated candidates to the best-ranked of each kind, and the catalogue kept beside it: sorting and taking a prefix.
- Signal scores of windows: selection takes them as given.
- Ids generated for prompts registered without a name, formatting of templates, scoped contexts as context variables: the chat is a parameter.
- Prompt files by path and the cache of their contents: a disk maps names to parsed documents.
- Texts of log messages, progress bars and statistics.
- The catalogue of tool definitions and the rendering of tool results for a reply: string building only.
- Embedding requests, the index file and its refresh: entries are given.
- Enrichment, the legacy learners, telemetry, user interfaces and launchers: not part of this model.
