# Fact-checking service core, modelled in Dafny

The repository is a fact-checking service. Its AI side resolves coreferences in a text. It
splits the text into sentences of span-tagged tokens, rewrites each pronoun-like mention to
its cluster's canonical mention, and rebuilds every sentence as a `SentenceProposal`. It runs
steps through a name-keyed `Pipeline`, keeps embedded documents in a FAISS `VectorStorage`,
fills a fact-checking prompt with a claim and its evidence, and returns each verdict as a
`SuggestionResponse` dictionary. A corpus cleaner turns scanned book text into paragraphs, and
an evaluation script scores predicted error suggestions against true ones. The document
service accepts uploads by file name and edits a document's text by inserting or deleting
characters. A small utility checks an environment file against its template.

Each source module is one Dafny module:

- `Wrappers`: `Option`, `Result` and `Outcome`.
- `Text`: the Python string operations the code relies on (`strip`, `lower`, `isalnum`, `\w`,
  substring tests, slice bounds).
- `Sentence` (sentence.py): `Token` and `SentenceProposal` as classes.
- `Coref` (models/coref.py): the resolver. The coreference model's prediction is an input.
  Tokenizing, sentence splitting and rewriting are methods over `Token` objects, proved
  against value-level specifications.
- `Pipelines` (preprocessing.py and processing.py): the registry as a class.
- `VectorStore` (vector_storage.py): the store as a class over an abstract index.
- `Responses` (response.py): the response records and their dictionaries.
- `Cleaning` (corpus_tools/cleaning.py): the four cleaning stages. The notebooks copy
  `notebooks/corpus_tools/cleaning.py` has the same code.
- `Prompts` (both `utils.py` files and `static.py`): `str.format` on the two fields, the
  default prompt, and `FactCheckerPrompt`.
- `Metrics` (metric.py): the label vectors and the suggestion-level scores.
  `notebooks/metric.py` is a line-for-line copy.
- `Documents` (api/services/document.py): upload checks and token edits over a table of
  documents.
- `Env` (core/utils/env.py): `.env` parsing and the template check.

Where a module exists in two copies, each row below cites one of them. The cited lines are
identical in the other copy.

## Model

| member | source | states |
|---|---|---|
| `Text.ToLower` | backend/AI_services/ai_services/corpus_tools/cleaning.py:36 | lower-casing neither creates nor removes whitespace or digits, so the page-number test can lower-case first |
| `Text.LowerIsNotSpace` | backend/AI_services/ai_services/corpus_tools/cleaning.py:50 | a line starting with a lower-case letter starts with an alphanumeric, non-space character |
| `Text.LStrip` | backend/AI_services/ai_services/corpus_tools/cleaning.py:51 | `lstrip` never grows the text and leaves no leading whitespace |
| `Text.LStripIsSuffix` | notebooks/corpus_tools/cleaning.py:55 | `lstrip` removes exactly the leading run of whitespace: the result is a suffix, and everything cut is whitespace |
| `Text.RStrip` | backend/document_crud/document_crud/app/core/utils/env.py:20 | `rstrip` never grows the text and leaves no trailing whitespace |
| `Text.RStripIsPrefix` | notebooks/corpus_tools/cleaning.py:67 | `rstrip` removes exactly the trailing run of whitespace: the result is a prefix, and everything cut is whitespace |
| `Text.Strip` | backend/AI_services/ai_services/corpus_tools/cleaning.py:63 | `strip` leaves no whitespace at either end |
| `Text.StripIsSlice` | backend/AI_services/ai_services/corpus_tools/cleaning.py:36 | `strip` returns the contiguous middle of the text, after the leading whitespace |
| `Text.SliceIndex` | backend/src/app/api/services/document.py:150-151 | Python's slice bound: it lies in `[0, n]`, and an in-range index is kept as it is |
| `Text.BeforeAfter` | backend/src/app/api/services/document.py:150-152 | `s[:i] + s[i:] == s` for every integer `i` |
| `Sentence.Token.constructor` | backend/AI_services/ai_services/sentence.py:13-23 | a token stores its text and span exactly as given |
| `Sentence.TextsOf` | backend/AI_services/ai_services/sentence.py:43 | the texts the join loop reads, one per token, in order |
| `Sentence.HoldsTexts` | backend/AI_services/ai_services/sentence.py:47 | tokens holding given values have those values' texts |
| `Sentence.Texts` | backend/AI_services/ai_services/sentence.py:45 | the value view of the same texts, one per token |
| `Sentence.SentenceProposal.constructor` | backend/AI_services/ai_services/sentence.py:41-55 | the join loop builds `JoinTokens` of the tokens' texts and keeps the tokens and the index |
| `Sentence.JoinFromLeft` | backend/AI_services/ai_services/sentence.py:42-50 | the left-to-right accumulation is the first text followed by each later text, spaced when it starts with an alphanumeric |
| `Sentence.ConcatSpacedSnoc` | backend/AI_services/ai_services/sentence.py:47-50 | one more token adds exactly its own spaced contribution |
| `Sentence.FirstTokenVerbatim` | backend/AI_services/ai_services/sentence.py:44-46 | the first token's text opens the sentence with no space before it |
| `Sentence.JoinExtends` | backend/AI_services/ai_services/sentence.py:43 | the sentence of a prefix of the tokens is a prefix of the whole sentence |
| `Sentence.ConcatSpacedLength` | backend/AI_services/ai_services/sentence.py:47-48 | the later tokens contribute their lengths plus one space per alphanumeric start |
| `Sentence.JoinLength` | backend/AI_services/ai_services/sentence.py:41-52 | a sentence's length is the token lengths plus one space per later token starting with an alphanumeric |
| `Coref.Prefix` | backend/AI_services/ai_services/models/coref.py:78 | the prefix's length, the offset used later, is the context's plus the context token's plus three (the blank line and the space) |
| `Coref.ShiftSpans` | backend/AI_services/ai_services/models/coref.py:90-94 | the comprehension over one cluster's spans: those starting at or after the offset, moved left by it (`ShiftSpansExactly` states it as an iff) |
| `Coref.ShiftSpansExactly` | backend/AI_services/ai_services/models/coref.py:90-94 | a span survives exactly when it starts at or after the offset, and it comes out moved left by the offset |
| `Coref.ShiftSpansBounded` | backend/AI_services/ai_services/models/coref.py:90-94 | the shift never adds spans, and no surviving span starts before the raw text |
| `Coref.AdjustClusters` | backend/AI_services/ai_services/models/coref.py:86-97 | the adjusted mention and span lists stay aligned |
| `Coref.KeptClusters` | backend/AI_services/ai_services/models/coref.py:95 | the indices of the clusters kept are indices of zipped clusters |
| `Coref.AdjustClustersAligned` | backend/AI_services/ai_services/models/coref.py:89-97 | the adjusted lists are exactly the clusters with a surviving span, in order, each with its own mentions and its own shifted, non-empty spans |
| `Coref.AdjustTruncated` | backend/AI_services/ai_services/models/coref.py:89 | `zip` looks only at the common length of the two lists |
| `Coref.AdjustLoop` | backend/AI_services/ai_services/models/coref.py:86-97 | the loop computes the adjusted clusters |
| `Coref.AdjustKeepsCanonical` | backend/AI_services/ai_services/models/coref.py:96 | every kept cluster still has its canonical (first) mention |
| `Coref.KeptClustersIncreasing` | backend/AI_services/ai_services/models/coref.py:89 | kept clusters keep their original order |
| `Coref.KeptClustersComplete` | backend/AI_services/ai_services/models/coref.py:95-97 | every cluster with a surviving span is kept |
| `Coref.KeptPrefix` | backend/AI_services/ai_services/models/coref.py:89-97 | which clusters are kept depends only on the clusters looked at |
| `Coref.AntecedentsExactly` | backend/AI_services/ai_services/models/coref.py:99-105 | a string is an antecedent iff it is a mention containing a space or a system token, and the system tokens come last |
| `Coref.MultiWordExactly` | backend/AI_services/ai_services/models/coref.py:99-104 | the comprehension keeps exactly the mentions containing a space, over all clusters |
| `Coref.SpacedOnlyExactly` | backend/AI_services/ai_services/models/coref.py:103 | within one cluster, exactly the mentions containing a space are kept |
| `Coref.EscapedLengthConcat` | backend/AI_services/ai_services/models/coref.py:161 | the length of `re.escape` adds up over concatenation and never shortens a string |
| `Coref.OrderAntecedents` | backend/AI_services/ai_services/models/coref.py:160-164 | the sort is a permutation of the antecedents, ordered by escaped length, longest first |
| `Coref.InsertByEscapedLength` | backend/AI_services/ai_services/models/coref.py:160-164 | one insertion step of the stable sort keeps the order and adds exactly the new element |
| `Coref.SortedHeadIsLongest` | backend/AI_services/ai_services/models/coref.py:162-163 | in the sorted list the head has the longest escaped form |
| `Coref.FirstAntecedentAt` | backend/AI_services/ai_services/models/coref.py:166 | the alternation picks an antecedent that matches at the position, or none exists |
| `Coref.FirstAntecedentIsLongest` | backend/AI_services/ai_services/models/coref.py:160-166 | when some antecedent matches at a position, the one the pattern picks is at least as long as every matching antecedent |
| `Coref.FirstInSortedIsLongest` | backend/AI_services/ai_services/models/coref.py:166 | in any list sorted by escaped length, the first matching alternative is a longest matching one |
| `Coref.RunEnd` | backend/AI_services/ai_services/models/coref.py:167-168 | a greedy run of word (or of non-word, non-space) characters stops at the first character outside the class |
| `Coref.MatchEnd` | backend/AI_services/ai_services/models/coref.py:165-169 | a match starts at a position unless it holds whitespace and no antecedent, and a match is never empty |
| `Coref.Scan` | backend/AI_services/ai_services/models/coref.py:174-177 | `finditer` from a position: the leftmost match, then the next search from its end (`ScanWellFormed` and `ScanCoversNonSpace` state what the matches are) |
| `Coref.ScanWellFormed` | backend/AI_services/ai_services/models/coref.py:174-177 | `finditer` yields tokens that read in the text their own text, non-empty, ordered and non-overlapping |
| `Coref.ScanCoversNonSpace` | backend/AI_services/ai_services/models/coref.py:165-177 | every non-whitespace character lies in some token: only whitespace is skipped |
| `Coref.ScanTokens` | backend/AI_services/ai_services/models/coref.py:172-179 | the loop creates one fresh, distinct `Token` per match, holding the match's text and span |
| `Coref.TokenizeWithAntecedents` | backend/AI_services/ai_services/models/coref.py:158-179 | the tokenizer's tokens are the scan with the antecedents ordered by the sort |
| `Coref.SplitPositions` | backend/AI_services/ai_services/models/coref.py:189 | the splitter's matches are increasing positions inside the text |
| `Coref.SplitListIncreasing` | backend/AI_services/ai_services/models/coref.py:189 | the matches are strictly increasing, not only between neighbours |
| `Coref.IsSplitAt` | backend/AI_services/ai_services/models/coref.py:43 | the default splitter at one whitespace character: after `.` or `?`, and neither lookbehind matches (`SplitPositionsExactly` ties the split positions to it) |
| `Coref.SplitPositionsExactly` | backend/AI_services/ai_services/models/coref.py:43 | a position is a split iff the splitter pattern matches its whitespace character there |
| `Coref.ShiftTokens` | backend/AI_services/ai_services/models/coref.py:195-197 | every token moves right by the same amount, nothing else changes |
| `Coref.SentenceValuesWellFormed` | backend/AI_services/ai_services/models/coref.py:190-197 | after re-basing, a sentence's tokens address the whole text and end inside the sentence |
| `Coref.SentencesAdjacent` | backend/AI_services/ai_services/models/coref.py:190-200 | each sentence ends where the next one starts |
| `Coref.SentenceGroupsWellFormed` | backend/AI_services/ai_services/models/coref.py:181-212 | every group addresses the whole text and each group's tokens precede the next group's |
| `Coref.ShiftOffsets` | backend/AI_services/ai_services/models/coref.py:195-197 | the loop moves every token's span by the sentence start and keeps its text |
| `Coref.TokenizeSentence` | backend/AI_services/ai_services/models/coref.py:191-197 | one sentence yields fresh distinct tokens with re-based offsets |
| `Coref.AddSentence` | backend/AI_services/ai_services/models/coref.py:199 | appending a sentence's group keeps the earlier groups and the group invariant |
| `Coref.TokenizeSplitSentences` | backend/AI_services/ai_services/models/coref.py:189-200 | the split loop builds one group per split and returns where the tail starts |
| `Coref.TokenizeBySentences` | backend/AI_services/ai_services/models/coref.py:181-212 | the groups hold the sentence-group values, tail included, with all token objects distinct |
| `Coref.AppendGroup` | backend/AI_services/ai_services/models/coref.py:199 | a group of new tokens keeps all token objects distinct |
| `Coref.PutStarts` | backend/AI_services/ai_services/models/coref.py:224-226 | every span start of the cluster maps to its canonical mention; other keys are kept |
| `Coref.StartMap` | backend/AI_services/ai_services/models/coref.py:221-226 | every key of the start map has a span starting there |
| `Coref.StartMapKeys` | backend/AI_services/ai_services/models/coref.py:222-226 | a start is a key iff some zipped cluster has a span starting there |
| `Coref.StartMapLastWins` | backend/AI_services/ai_services/models/coref.py:222-226 | a start maps to the canonical mention of the last cluster with a span starting there |
| `Coref.BuildStartMap` | backend/AI_services/ai_services/models/coref.py:221-226 | the nested loops build that map |
| `Coref.FirstIndexAt` | backend/AI_services/ai_services/models/coref.py:236-237 | the first span of a cluster starting at a position, or none |
| `Coref.FirstSpanAt` | backend/AI_services/ai_services/models/coref.py:233-238 | `next` finds a span starting at the token iff some cluster has one |
| `Coref.FirstSpanAtIsFirst` | backend/AI_services/ai_services/models/coref.py:233-238 | the span `next` returns is the first such span of the first such cluster |
| `Coref.RewriteText` | backend/AI_services/ai_services/models/coref.py:240-242 | the canonical mention followed by the token text from the span's length on, with Python's slice clamping (`RewriteKeepsSuffix` states what is kept) |
| `Coref.RewriteKeepsSuffix` | backend/AI_services/ai_services/models/coref.py:240-242 | the text glued after the mention is kept behind the canonical mention |
| `Coref.Replaced` | backend/AI_services/ai_services/models/coref.py:230-242 | rewriting keeps a token's span, and a token starting at no mention is unchanged |
| `Coref.ReplacedAll` | backend/AI_services/ai_services/models/coref.py:229-242 | a sentence is rewritten token by token |
| `Coref.ReplaceInSentence` | backend/AI_services/ai_services/models/coref.py:229-242 | the inner loop rewrites the tokens in place to those values |
| `Coref.ReplaceCoreferenceBySpans` | backend/AI_services/ai_services/models/coref.py:214-244 | returns the same groups, whose tokens now hold the rewritten values |
| `Coref.ApartGroups` | backend/AI_services/ai_services/models/coref.py:228-229 | different groups share no token object, so rewriting one leaves the others alone |
| `Coref.AntecedentsNonEmpty` | backend/AI_services/ai_services/models/coref.py:103-105 | with non-empty system tokens no antecedent is empty |
| `Coref.CallAntecedents` | backend/AI_services/ai_services/models/coref.py:99-105 | the antecedents the call tokenizes around are never empty |
| `Coref.Resolution` | backend/AI_services/ai_services/models/coref.py:107-113 | the token groups `__call__` passes on: the raw text tokenized by sentences around the antecedents, then rewritten to canonical mentions (`ResolutionKeepsOffsets`, `ResolutionRewritesOnlyMentions` and `ResolutionWithoutClusters` state its properties) |
| `Coref.ResolutionKeepsOffsets` | backend/AI_services/ai_services/models/coref.py:107-113 | rewriting keeps the sentence grouping and every token's offsets |
| `Coref.ResolutionRewritesOnlyMentions` | backend/AI_services/ai_services/models/coref.py:228-242 | a token starting where no surviving span starts comes out unchanged |
| `Coref.ResolutionWithoutClusters` | backend/AI_services/ai_services/models/coref.py:66-118 | with no predicted cluster the sentences are the plain tokenization around the system tokens |
| `Coref.MakeProposals` | backend/AI_services/ai_services/models/coref.py:115-118 | one proposal per group, numbered from 0, each holding its group and its joined text |
| `Coref.CorefResolver.constructor` | backend/AI_services/ai_services/models/coref.py:55-64 | empty context, the given context token, the system tokens fixed to it, the model on the given device |
| `Coref.CorefResolver.SetContext` | backend/AI_services/ai_services/models/coref.py:120-130 | only the context changes |
| `Coref.CorefResolver.SetContextToken` | backend/AI_services/ai_services/models/coref.py:132-141 | only the context token changes; the system tokens keep the initial one |
| `Coref.CorefResolver.To` | backend/AI_services/ai_services/models/coref.py:143-156 | `_device` and the model move to the device, and the resolver itself is returned |
| `Coref.CorefResolver.Call` | backend/AI_services/ai_services/models/coref.py:66-118 | one proposal per resolved sentence, numbered from 0, whose text is the join of the rewritten tokens |
| `Pipelines.Names` | backend/AI_services/ai_services/preprocessing.py:53 | the registered names, in order |
| `Pipelines.Without` | backend/AI_services/ai_services/preprocessing.py:90 | after `del`, the name is gone and exactly the other names remain |
| `Pipelines.WithoutAt` | backend/AI_services/ai_services/preprocessing.py:88-90 | with unique names, removing a registered name removes exactly its entry and keeps the others in order |
| `Pipelines.UniqueNamesTail` | backend/AI_services/ai_services/preprocessing.py:74-76 | the registry's names stay unique on every part of it |
| `Pipelines.WithoutAbsent` | backend/AI_services/ai_services/processing.py:53 | deleting an absent name changes nothing |
| `Pipelines.WithoutUnique` | backend/AI_services/ai_services/processing.py:51-53 | removing a step keeps the names unique |
| `Pipelines.Fold` | backend/AI_services/ai_services/preprocessing.py:121-123 | the data threaded through the steps in registration order (`FoldAppend` and `RegisteredRunsLast` state its properties; `Pipeline.Call` is proved equal to it) |
| `Pipelines.FoldAppend` | backend/AI_services/ai_services/preprocessing.py:121-123 | running two blocks of steps is running the first, then the second |
| `Pipelines.RegisteredRunsLast` | backend/AI_services/ai_services/preprocessing.py:76 | a newly registered step runs after all the others |
| `Pipelines.MovesFor` | backend/AI_services/ai_services/preprocessing.py:61-64 | every move targets the given device and names a step; every step with `to` is moved |
| `Pipelines.FirstWithAttribute` | backend/AI_services/ai_services/preprocessing.py:206-208 | the first step, in order, that has the attribute, or none has it |
| `Pipelines.IndexOf` | backend/AI_services/ai_services/processing.py:107-108 | the position of the step with that name, present iff the name is registered |
| `Pipelines.FirstDuplicate` | backend/AI_services/ai_services/preprocessing.py:55-59 | no repeated name is reported iff the names are unique |
| `Pipelines.Pipeline.constructor` | backend/AI_services/ai_services/preprocessing.py:49-53 | an empty registry on the given device |
| `Pipelines.Pipeline.Register` | backend/AI_services/ai_services/preprocessing.py:66-77 | a duplicate raises and changes nothing; otherwise the step goes last and, with `to`, is moved to the pipeline's device |
| `Pipelines.Pipeline.Unregister` | backend/AI_services/ai_services/preprocessing.py:79-90 | an absent name raises; otherwise exactly that step is removed |
| `Pipelines.Pipeline.To` | backend/AI_services/ai_services/preprocessing.py:92-102 | as written: `_device` is set, and every step with `to` is moved to the construction device |
| `Pipelines.Pipeline.ToIntended` | backend/AI_services/ai_services/preprocessing.py:92-102 | corrected: every step with `to` is moved to the requested device |
| `Pipelines.Pipeline.Call` | backend/AI_services/ai_services/preprocessing.py:104-123 | the data passes through the steps in registration order |
| `Pipelines.Pipeline.GetItem` | backend/AI_services/ai_services/preprocessing.py:125-133 | the step under a name, or `KeyError` iff the name is not registered |
| `Pipelines.Pipeline.Length` | backend/AI_services/ai_services/preprocessing.py:167-173 | the number of registered steps |
| `Pipelines.Pipeline.Contains` | backend/AI_services/ai_services/preprocessing.py:175-185 | true iff some step has that name |
| `Pipelines.Pipeline.StepAttribute` | backend/AI_services/ai_services/preprocessing.py:196-209 | the attribute of the first step that has it, else `AttributeError` |
| `Pipelines.Pipeline.StepByName` | backend/AI_services/ai_services/processing.py:106-109 | the step registered under the name, else `AttributeError` |
| `Pipelines.MovesForPrefix` | backend/AI_services/ai_services/preprocessing.py:100-101 | each step of the loop adds at most that step's move |
| `Pipelines.ToIgnoresArgument` | backend/AI_services/ai_services/preprocessing.py:63 | as written, when built for another device, `to(d)` moves no step to `d` |
| `Pipelines.ToIntendedMovesAll` | backend/AI_services/ai_services/preprocessing.py:100-101 | as intended, every step with `to` is moved to the requested device |
| `Pipelines.Create` | backend/AI_services/ai_services/preprocessing.py:31-59 | registers the steps, then the keyword steps; it raises iff a name repeats, naming the first repeat; otherwise it holds all of them, moved to the device |
| `Pipelines.CreateStep` | backend/AI_services/ai_services/preprocessing.py:55-56 | registering a fresh name extends the prefix, still unique |
| `Pipelines.DuplicateExtends` | backend/AI_services/ai_services/preprocessing.py:74-75 | the first failing registration names the first duplicate of the whole list |
| `Pipelines.FirstDuplicateStable` | backend/AI_services/ai_services/processing.py:33-37 | the first duplicate of a prefix is the first duplicate of the whole list |
| `Pipelines.RegisterThenUnregister` | backend/AI_services/ai_services/processing.py:44-53 | unregistering a freshly registered name gives back the registry as it was |
| `Pipelines.DefaultParagraphPipeline` | backend/AI_services/ai_services/preprocessing.py:212-227 | one step `sentence_reg`, no move, on the CPU |
| `Pipelines.DefaultCorefPipeline` | backend/AI_services/ai_services/preprocessing.py:230-251 | one step `coref`, moved to the given device |
| `VectorStore.Lookup` | backend/AI_services/ai_services/vector_storage.py:147 | `dict.get`: the stored value, or `None` iff the id has none |
| `VectorStore.FilteredAppend` | backend/AI_services/ai_services/vector_storage.py:140-149 | filtering distributes over concatenation, so results keep the index's order |
| `VectorStore.FilteredExactly` | backend/AI_services/ai_services/vector_storage.py:140-149 | results are exactly the candidates with a real id and a distance within the threshold, with their metadata |
| `VectorStore.FilteredAllPass` | backend/AI_services/ai_services/vector_storage.py:141-142 | with nothing to drop, every candidate is returned in order |
| `VectorStore.PutAll` | backend/AI_services/ai_services/vector_storage.py:114-115 | the zipped ids become keys; the other keys stay |
| `VectorStore.PutAllStores` | backend/AI_services/ai_services/vector_storage.py:114-115 | an id ends up with the value of its last zipped occurrence |
| `VectorStore.PutAllKeeps` | backend/AI_services/ai_services/vector_storage.py:114-115 | ids not among the zipped ones keep their metadata |
| `VectorStore.RemoveAll` | backend/AI_services/ai_services/vector_storage.py:160-161 | popping the listed ids removes exactly those keys and keeps every other value |
| `VectorStore.IdsOf` | backend/AI_services/ai_services/vector_storage.py:158 | the ids of the index entries, in order |
| `VectorStore.WithoutIds` | backend/AI_services/ai_services/vector_storage.py:159 | `remove_ids` keeps exactly the entries whose ids are not removed |
| `VectorStore.WithoutAbsentIds` | backend/AI_services/ai_services/vector_storage.py:158-159 | removing ids the index lacks changes nothing |
| `VectorStore.VectorStorage.constructor` | backend/AI_services/ai_services/vector_storage.py:37-55 | an empty index and empty metadata |
| `VectorStore.VectorStorage.Train` | backend/AI_services/ai_services/vector_storage.py:57-65 | trains only an untrained index; entries and metadata are kept |
| `VectorStore.VectorStorage.AddDocument` | backend/AI_services/ai_services/vector_storage.py:67-84 | no embedder raises before any change; otherwise the index is trained, gains the embedding and the metadata entry is set |
| `VectorStore.VectorStorage.AddDocuments` | backend/AI_services/ai_services/vector_storage.py:86-115 | no embedder raises; mismatched id count fails after training; otherwise all embeddings are added and the zip of ids and metadata is stored |
| `VectorStore.VectorStorage.Search` | backend/AI_services/ai_services/vector_storage.py:117-150 | no embedder raises; otherwise the filtered candidates |
| `VectorStore.VectorStorage.DeleteDocuments` | backend/AI_services/ai_services/vector_storage.py:152-161 | the listed ids leave the index and the metadata; missing ids are skipped |
| `VectorStore.VectorStorage.DeleteDocument` | backend/AI_services/ai_services/vector_storage.py:163-169 | the same as deleting the one-element list |
| `VectorStore.VectorStorage.Save` | backend/AI_services/ai_services/vector_storage.py:171-179 | the snapshot holds the current index and metadata |
| `VectorStore.VectorStorage.Load` | backend/AI_services/ai_services/vector_storage.py:181-189 | loading replaces, not merges; saving again gives the loaded snapshot |
| `VectorStore.Embedded` | backend/AI_services/ai_services/vector_storage.py:104-113 | one `(id, embedding)` pair per text, in order |
| `Responses.PositionToDict` | backend/AI_services/ai_services/response.py:25-36 | exactly the keys `start`, `end`, `in_original`, with the fields' values |
| `Responses.ResponseToDict` | backend/AI_services/ai_services/response.py:55-67 | exactly the keys `fact`, `is_correct`, `explanation`, `position`, the last being the position's dictionary |
| `Responses.PositionFromDict` | backend/AI_services/ai_services/response.py:16-23 | a dictionary that reads as a position has the keys `start` and `end` |
| `Responses.ResponseFromDict` | backend/AI_services/ai_services/response.py:39-53 | a dictionary that reads as a response has exactly the four response keys |
| `Responses.PositionRoundTrip` | backend/AI_services/ai_services/response.py:32-36 | a position's dictionary reads back as the same position |
| `Responses.ResponseRoundTrip` | backend/AI_services/ai_services/response.py:62-67 | a response's dictionary reads back as the same response |
| `Responses.InOriginalDefault` | backend/AI_services/ai_services/response.py:23 | `in_original` defaults to false |
| `Responses.PositionToDictInjective` | backend/AI_services/ai_services/response.py:25-36 | different positions have different dictionaries |
| `Cleaning.FirstBreak` | backend/AI_services/ai_services/corpus_tools/cleaning.py:31 | the first line boundary, with none before it |
| `Cleaning.SplitLines` | backend/AI_services/ai_services/corpus_tools/cleaning.py:31 | no line holds a line boundary |
| `Cleaning.JoinLines` | backend/AI_services/ai_services/corpus_tools/cleaning.py:39 | `"\n".join(lines)` (`SplitJoinLines` shows `splitlines` reads the lines back) |
| `Cleaning.SplitJoinLines` | backend/AI_services/ai_services/corpus_tools/cleaning.py:39 | splitting `"\n".join(lines)` gives the lines back when none holds a boundary and the last is not empty |
| `Cleaning.FirstBreakAt` | notebooks/corpus_tools/cleaning.py:35 | a line followed by a boundary ends at that boundary |
| `Cleaning.CheckKeywords` | backend/AI_services/ai_services/corpus_tools/cleaning.py:24-28 | true iff some keyword occurs in the text |
| `Cleaning.EmptyLineHasNoKeyword` | backend/AI_services/ai_services/corpus_tools/cleaning.py:15-22 | the adjacent literals make `"GDZ"`, so no keyword is empty and an empty line is kept |
| `Cleaning.IsPageNumber` | backend/AI_services/ai_services/corpus_tools/cleaning.py:36 | the stripped line is a non-empty run of digits or of the Roman-numeral letters, in either case, as the full match after `strip().lower()` demands |
| `Cleaning.KeptLines` | backend/AI_services/ai_services/corpus_tools/cleaning.py:33-38 | the lines the loop appends, in order (`KeptLinesExactly` states which as an iff) |
| `Cleaning.KeptLinesExactly` | backend/AI_services/ai_services/corpus_tools/cleaning.py:33-38 | a line is kept iff it is an input line with no keyword and not a page number |
| `Cleaning.KeptLinesAppend` | backend/AI_services/ai_services/corpus_tools/cleaning.py:33 | the kept lines keep their order |
| `Cleaning.KeptLinesAllKept` | backend/AI_services/ai_services/corpus_tools/cleaning.py:38 | with no header or footer every line is kept |
| `Cleaning.KeptLinesIdempotent` | notebooks/corpus_tools/cleaning.py:34-43 | filtering twice is filtering once |
| `Cleaning.StripHeadersFooters` | backend/AI_services/ai_services/corpus_tools/cleaning.py:30-39 | the kept lines of the split text, joined |
| `Cleaning.Joins` | backend/AI_services/ai_services/corpus_tools/cleaning.py:50 | a line is joined with the next iff it is non-empty, does not end with a sentence ending, and the next line is non-empty and starts in lower case |
| `Cleaning.JoinedLines` | backend/AI_services/ai_services/corpus_tools/cleaning.py:45-54 | the lines the `while` loop appends from the first line on (`JoinedLinesCount`, `JoinedLinesUnchanged` and `JoinsBrokenSentence` state its properties; `JoinLineList` is proved equal to it) |
| `Cleaning.JoinedFrom` | backend/AI_services/ai_services/corpus_tools/cleaning.py:46-54 | the lines the loop appends from index `i` on: a joined pair consumes both lines (`JoinedFromCount` and `JoinedFromUnchanged` state its properties) |
| `Cleaning.JoinedLinesCount` | backend/AI_services/ai_services/corpus_tools/cleaning.py:46-54 | joining never adds lines and at most halves them |
| `Cleaning.JoinedFromCount` | backend/AI_services/ai_services/corpus_tools/cleaning.py:51-52 | a join consumes two lines, so line counts shrink by at most half |
| `Cleaning.JoinedLinesUnchanged` | backend/AI_services/ai_services/corpus_tools/cleaning.py:50 | with no joinable pair the lines are unchanged |
| `Cleaning.JoinedFromUnchanged` | notebooks/corpus_tools/cleaning.py:54 | the same from any line on |
| `Cleaning.JoinsBrokenSentence` | backend/src/AI_services/tests/test_cleaning.py:22-24 | a line broken before a lower-case Cyrillic word is joined with one space |
| `Cleaning.JoinBrokenLines` | backend/AI_services/ai_services/corpus_tools/cleaning.py:42-55 | the joined lines of the split text, joined |
| `Cleaning.JoinLineList` | notebooks/corpus_tools/cleaning.py:47-58 | the while loop computes the joined lines |
| `Cleaning.DropBlanks` | backend/AI_services/ai_services/corpus_tools/cleaning.py:12 | a run of spaces and tabs is dropped from the front, leaving a suffix |
| `Cleaning.Collapse` | backend/AI_services/ai_services/corpus_tools/cleaning.py:58-59 | no tab and no two adjacent spaces remain; empty iff the input is |
| `Cleaning.NonBlankDrop` | backend/AI_services/ai_services/corpus_tools/cleaning.py:12 | dropping blanks keeps every other character |
| `Cleaning.CollapseKeepsNonBlank` | backend/AI_services/ai_services/corpus_tools/cleaning.py:58-59 | collapsing keeps every other character, in order |
| `Cleaning.CollapseFixed` | notebooks/corpus_tools/cleaning.py:62-63 | text with no tab and no double space is left as it is |
| `Cleaning.CollapseIdempotent` | notebooks/corpus_tools/cleaning.py:14 | collapsing twice is collapsing once |
| `Cleaning.FirstDoubleBreak` | backend/AI_services/ai_services/corpus_tools/cleaning.py:13 | the leftmost `\n{2,}` match |
| `Cleaning.NewlinesEnd` | notebooks/corpus_tools/cleaning.py:15 | the match is greedy: it ends at the first non-newline |
| `Cleaning.Pieces` | backend/AI_services/ai_services/corpus_tools/cleaning.py:63 | `re.split` returns at least one piece |
| `Cleaning.Separators` | backend/AI_services/ai_services/corpus_tools/cleaning.py:13 | one separator between pieces, each two or more newlines |
| `Cleaning.PiecesStep` | notebooks/corpus_tools/cleaning.py:67 | the split is the piece before the first run, then the split of the rest |
| `Cleaning.PiecesInterleave` | backend/AI_services/ai_services/corpus_tools/cleaning.py:62-63 | putting the separators back gives the text: splitting loses nothing |
| `Cleaning.PiecesNoDoubleBreak` | backend/AI_services/ai_services/corpus_tools/cleaning.py:13 | no piece holds two newlines in a row |
| `Cleaning.PiecesBoundaries` | notebooks/corpus_tools/cleaning.py:66-67 | separators are maximal runs: no piece after the first starts with a newline, and no piece before the last ends with one |
| `Cleaning.PiecesStart` | notebooks/corpus_tools/cleaning.py:15 | the first piece starts where the text does |
| `Cleaning.KeepMappedFrom` | notebooks/corpus_tools/cleaning.py:67 | every element of the comprehension is the image of an input element |
| `Cleaning.KeepMappedComplete` | backend/AI_services/ai_services/corpus_tools/cleaning.py:63 | every accepted image is in the comprehension |
| `Cleaning.KeepMappedAppend` | backend/AI_services/ai_services/corpus_tools/cleaning.py:62 | the comprehension keeps the order of its input |
| `Cleaning.SplitParagraphs` | backend/AI_services/ai_services/corpus_tools/cleaning.py:62-63 | the stripped pieces of the `\n{2,}` split that are longer than 40 characters, in order (`SplitParagraphsExactly` states it as an iff) |
| `Cleaning.SplitParagraphsExactly` | backend/AI_services/ai_services/corpus_tools/cleaning.py:62-63 | paragraphs are exactly the stripped pieces longer than 40 characters |
| `Cleaning.CleanAndParagraphize` | backend/AI_services/ai_services/corpus_tools/cleaning.py:66-70 | the four stages in order, and every paragraph is longer than 40 characters |
| `Prompts.FindClose` | backend/src/AI_services/ai_services/utils.py:63 | the first closing brace of a field, or the end |
| `Prompts.Prepend` | backend/src/AI_services/ai_services/utils.py:66 | text put before a formatted result; errors pass through |
| `Prompts.Escape` | backend/src/AI_services/ai_services/utils.py:63 | literal text written for `format`, braces doubled, is never shorter than the text; `FormatEscape` shows it formats back |
| `Prompts.FormatEscapeHead` | backend/AI_services/ai_services/utils.py:18 | a doubled brace formats to one brace |
| `Prompts.FormatEscape` | backend/AI_services/ai_services/utils.py:21 | escaped text formats back to itself |
| `Prompts.FormatPart` | backend/src/AI_services/ai_services/utils.py:63 | each part formats to its text |
| `Prompts.Format` | backend/src/AI_services/ai_services/utils.py:63 | `str.format` with the two keyword fields: doubled braces stand for one brace, `{claim}` and `{evidence}` for the arguments, anything else is an error (`FormatTemplate`, `FormatEscape` and `FormatPart` state its properties) |
| `Prompts.FormatTemplate` | backend/src/AI_services/ai_services/utils.py:63 | formatting a template written from parts never fails and reads the rendered text |
| `Prompts.EscapeBraceFree` | backend/AI_services/ai_services/static.py:16-17 | text without braces is its own escape |
| `Prompts.Formatted` | backend/src/AI_services/ai_services/utils.py:61-69 | the prompt a call returns: a string formatted whole, or a copy of the list with only the last message's `content` formatted (`FormattedMessages` and `FormattedMessagesErrors` state its properties) |
| `Prompts.FormattedMessages` | backend/src/AI_services/ai_services/utils.py:61-69 | a list keeps its length; earlier messages are unchanged; the last one only has `content` formatted |
| `Prompts.FormattedMessagesErrors` | backend/src/AI_services/ai_services/utils.py:64-68 | a list fails iff it is empty, its last entry is not a dictionary or lacks `content`, or the content does not format |
| `Prompts.FillEvidenceThenClaim` | backend/AI_services/ai_services/static.py:16-17 | a template of text, the evidence field, text and the claim field fills in both |
| `Prompts.HeadersBraceFree` | backend/src/AI_services/ai_services/static.py:16-17 | the headers of the user template hold no braces |
| `Prompts.UserTemplateFilled` | backend/src/AI_services/ai_services/static.py:13-19 | the default user message reads the facts header, the evidence, the statement header and the claim |
| `Prompts.DefaultPromptFilled` | backend/src/AI_services/ai_services/static.py:1-20 | the default prompt fills the user message and leaves the system message as it is |
| `Prompts.FormattedLast` | backend/AI_services/ai_services/utils.py:19-24 | a list whose last message formats comes back with that content filled |
| `Prompts.FactCheckerPrompt.constructor` | backend/src/AI_services/ai_services/utils.py:33-46 | no base prompt means the default one |
| `Prompts.FactCheckerPrompt.Call` | backend/AI_services/ai_services/utils.py:15-24 | the call's result is the formatted copy, and the base prompt is never changed |
| `Prompts.BuildFactCheckModel` | backend/AI_services/ai_services/utils.py:27-28 | every call raises `NotImplementedError` |
| `Metrics.Label` | metric.py:11 | 1 iff flagged, else 0 |
| `Metrics.ParagraphLabels` | metric.py:11-12 | one label per paragraph, 1 iff it has a suggestion |
| `Metrics.ParagraphLabelsAgree` | metric.py:11-12 | true and predicted labels agree iff both lists are empty or both are not |
| `Metrics.Flagged` | metric.py:34-35 | a sentence is flagged iff some error string occurs in it |
| `Metrics.LabelsFor` | metric.py:32-37 | one label per sentence, from the flag |
| `Metrics.SentenceLabelsAligned` | metric.py:29-37 | one label per sentence of the zipped texts |
| `Metrics.SentenceClassificationLabels` | metric.py:29-37 | the nested loops build both label vectors over the shortest of the three lists |
| `Metrics.SplitCard` | metric.py:55-56 | `|t & p| + |p - t| == |p|` |
| `Metrics.PairCounts` | metric.py:53-57 | one pair's true positives, false positives and false negatives, each list read as a set (`PairCountsTotals` states their totals) |
| `Metrics.PairCountsTotals` | metric.py:53-57 | per pair, `tp + fp` is the distinct predictions and `tp + fn` the distinct truths |
| `Metrics.Tally` | metric.py:51-57 | the counts summed over the first `n` zipped pairs (`TallyTotals`, `PerfectTally` and `TallyIgnoresExtra` state its properties) |
| `Metrics.TallyTotals` | metric.py:51-57 | the totals are the distinct predictions and truths summed over the zip |
| `Metrics.DuplicateCountsOnce` | metric.py:54 | a repeated prediction counts once |
| `Metrics.PerfectTally` | metric.py:51-57 | identical lists give no false positive and no false negative |
| `Metrics.DistinctTotalPositive` | metric.py:53 | a non-empty list adds to the total |
| `Metrics.Ratio` | metric.py:59-60 | zero guard; in `[0, 1]` when the numerator is at most the denominator; 1 when equal |
| `Metrics.F1` | metric.py:61 | zero guard; perfect precision and recall give 1 |
| `Metrics.ScoresOf` | metric.py:59-62 | precision and recall in `[0, 1]` with their guards; no true positive gives F1 0 |
| `Metrics.SuggestionLevelMetrics` | metric.py:47-62 | the loop's counts over the zip, then the scores |
| `Metrics.PerfectScores` | metric.py:59-62 | identical non-trivial predictions score 1, 1, 1 |
| `Metrics.TallyIgnoresExtra` | metric.py:52 | `zip` ignores the longer list's tail |
| `Env.FirstIndexOf` | backend/document_crud/document_crud/app/core/utils/env.py:20 | the first `=`, with none before it |
| `Env.EntryOf` | backend/document_crud/document_crud/app/core/utils/env.py:20 | `line.strip().split('=', 1)`: a key and a value, or one piece when there is no `=` (`EntryOfSplits` states how the pieces rebuild the line) |
| `Env.EntryOfSplits` | backend/document_crud/document_crud/app/core/utils/env.py:20 | `split('=', 1)`: a key with no `=`, `=`, and the value, or the whole line |
| `Env.Put` | backend/document_crud/document_crud/app/core/utils/env.py:19-21 | `dict` sets the key, a later line overwriting |
| `Env.AnyOfIff` | backend/document_crud/document_crud/app/core/utils/env.py:20 | some line has the property iff one at an index does |
| `Env.CollectedIff` | backend/document_crud/document_crud/app/core/utils/env.py:20 | a key is collected iff some line yields it |
| `Env.Kept` | backend/document_crud/document_crud/app/core/utils/env.py:20 | a line takes part iff its stripped text is non-empty and the line as read does not start with `#` |
| `Env.Parse` | backend/document_crud/document_crud/app/core/utils/env.py:17-21 | fails iff some kept line has no `=`; otherwise the keys are those of the kept lines |
| `Env.ParseFailsIff` | backend/document_crud/document_crud/app/core/utils/env.py:19-21 | `dict` raises iff some kept element is not a pair |
| `Env.ParseLast` | backend/document_crud/document_crud/app/core/utils/env.py:20 | each kept line sets its key on the dictionary of the lines before it |
| `Env.ParseKeys` | backend/document_crud/document_crud/app/core/utils/env.py:19-21 | a key is present iff some kept line sets it |
| `Env.ParseLastWins` | backend/document_crud/document_crud/app/core/utils/env.py:19-21 | the last line setting a key gives its value |
| `Env.Missing` | backend/document_crud/document_crud/app/core/utils/env.py:26 | exactly the template keys absent from the environment |
| `Env.MissingInOrder` | backend/document_crud/document_crud/app/core/utils/env.py:26 | missing keys keep the template's order |
| `Env.MatchesTemplate` | backend/document_crud/document_crud/app/core/utils/env.py:14-29 | the template parsed first, then the environment file, then the missing keys reported in template order (`MatchesTemplateCases` states the outcomes as iffs) |
| `Env.MatchesTemplateCases` | backend/document_crud/document_crud/app/core/utils/env.py:14-29 | passes iff both files parse and every template key is set in the environment; a template that does not parse fails first |
| `Env.CheckEnv` | backend/document_crud/document_crud/app/core/utils/env.py:5-12 | a missing file raises `FileNotFoundError` with its path; otherwise the template check decides |
| `Documents.Extension` | backend/src/app/api/services/document.py:65 | the last dot-free piece of the name |
| `Documents.ExtensionIsLastPiece` | backend/src/app/api/services/document.py:65 | the extension is a suffix, preceded by a dot or the whole name |
| `Documents.ExtensionWithoutDot` | backend/src/app/api/services/document.py:65 | a name without a dot is its own extension |
| `Documents.ExtensionAfterDot` | backend/src/app/api/services/document.py:65 | `stem.ext` has extension `ext` |
| `Documents.CheckUpload` | backend/src/app/api/services/document.py:60-69 | a missing or empty name gives 422, then an extension outside the accepted ones gives 400 (`CheckUploadCases` states the three outcomes as iffs) |
| `Documents.CheckUploadCases` | backend/src/app/api/services/document.py:60-69 | passes iff a non-empty name has an accepted extension; a missing name gives 422 before an unsupported one gives 400 |
| `Documents.UploadedDocument` | backend/src/app/api/services/document.py:60-77 | the user's document, titled by the file name, iff the checks pass |
| `Documents.Insert` | backend/src/app/api/services/document.py:150-152 | `content[:at] + token + content[at:]` with Python's slice bounds (`InsertInRange`, `InsertKeepsText` and `InsertThenDelete` state its properties) |
| `Documents.InsertInRange` | backend/src/app/api/services/document.py:150-152 | the token lands at the index between the text before and after |
| `Documents.InsertKeepsText` | backend/src/app/api/services/document.py:150-152 | any index is clamped or counted from the end, and the text stays around the token |
| `Documents.DeleteAsWritten` | backend/src/app/api/services/document.py:178-180 | as written: `content[:char_start] + content[char_end:]` (`DeleteAsWrittenInRange`, `DeleteAsWrittenReversed` and `DeleteAsWrittenDuplicates` state what it does) |
| `Documents.DeleteAsWrittenInRange` | backend/src/app/api/services/document.py:178-180 | as written, ordered bounds remove exactly the range |
| `Documents.DeleteAsWrittenReversed` | backend/src/app/api/services/document.py:178-180 | as written, reversed bounds repeat the text between them |
| `Documents.DeleteAsWrittenDuplicates` | backend/src/app/api/services/document.py:177-180 | deleting from 2 to 0 in `"ab"` yields `"abab"` |
| `Documents.Slice` | backend/src/app/api/services/document.py:178-179 | Python's slice between two bounds is never longer than the text; `DeleteRemovesSlice` shows it is what the corrected deletion cuts |
| `Documents.Delete` | backend/src/app/api/services/document.py:177-180 | corrected: the text with the slice `content[char_start:char_end]` taken out (`DeleteRemovesSlice`, `DeleteAgreesInOrder`, `DeleteEmptyRange` and `InsertThenDelete` state its properties) |
| `Documents.DeleteRemovesSlice` | backend/src/app/api/services/document.py:174-181 | corrected: the slice is cut out, nothing is added, and the text shrinks by its length |
| `Documents.DeleteAgreesInOrder` | backend/src/app/api/services/document.py:178-180 | on ordered bounds the corrected deletion equals the written one |
| `Documents.DeleteEmptyRange` | backend/src/app/api/services/document.py:178-180 | an empty range leaves the text as it was |
| `Documents.InsertThenDelete` | backend/src/app/api/services/document.py:146-181 | deleting an inserted token restores the text |
| `Documents.DocumentTable.constructor` | backend/src/app/api/services/document.py:121 | the table holds the given documents |
| `Documents.DocumentTable.Get` | backend/src/app/api/services/document.py:121-123 | the document, or 404 iff the key is absent |
| `Documents.DocumentTable.InsertToken` | backend/src/app/api/services/document.py:146-153 | 404 before any change; otherwise only that document's content becomes the splice |
| `Documents.DocumentTable.DeleteToken` | backend/src/app/api/services/document.py:174-181 | as written: 404 before any change; otherwise only that document's content becomes the text before `char_start` followed by the text from `char_end` on (`DeleteAsWrittenReversed`: crossed bounds repeat text) |
| `Documents.DocumentTable.DeleteTokenIntended` | backend/src/app/api/services/document.py:177-180 | corrected: 404 before any change; otherwise only that document's content loses the slice `content[char_start:char_end]`, and crossed bounds remove nothing |

## Left out

- The coreference model (`LingMessCoref`), spaCy's sentence splitter and the sentence
  embedder are oracles: their outputs are parameters (`clusters`, `clusterSpans`, the
  sentence lists of `Metrics`, `embedder`).
- FAISS internals: index training, nearest-neighbour search and the on-disk format. The
  index is a list of `(id, vector)` pairs, and `search` receives the candidates FAISS
  would return, so `k` does not appear.
- `pickle`, file I/O and logging: `save`/`load` exchange a snapshot value, and
  `create_env_from_template` only copies a file.
- Reading `ENV_PATH` and the two `.env` files: `Env.CheckEnv` receives the path, whether the
  file exists and the files' lines.
- `tqdm` progress bars, `use_tqdm`, `enable_progress_bar`, `disable_fastcoref_progress_bar`,
  `_set_fastcoref_logger`, and every `__repr__`, `__str__` and `__iter__`: they only display
  or iterate.
- sklearn's `classification_report`: `Metrics` builds the label vectors it receives and
  stops there. `parse_suggestions_column` (JSON decoding) is not part of this model.
- `Metrics.F1`: the bound `f1 <= 1` for precision and recall in `[0, 1]` is not proved, because the nonlinear real arithmetic it needs is not stable for the solver; only the zero guard and the perfect case are stated.
- Unicode: `\w`, `isalnum`, `islower`, `lower` and `\s` are modelled on ASCII, Cyrillic and
  the common whitespace characters, and `\d` on the ASCII digits, not on the full Unicode
  tables.
- `str.format` format specs, conversions, attribute and index access in a field are not
  modelled separately: any field other than `{claim}` or `{evidence}` is an unknown field.
  Braces nested inside a field are not counted: a field ends at its first `}`, so
  `"{claim{}"` is reported as the unknown field `claim{`, where Python reports a missing
  `}`. Both are errors.
- Floating point: Python's floats are modelled as exact reals, and IEEE-754 rounding is
  not modelled. So the `[0, 1]` bounds of `Metrics.Ratio`, `Metrics.F1`, `Metrics.ScoresOf`
  and `Metrics.SuggestionLevelMetrics`, and the `dist > threshold` cut of
  `VectorStore.VectorStorage.Search` and `VectorStore.FilteredExactly`, are proved over
  exact reals.
- `Pipelines.Create`: when a later name repeats, the earlier `register` calls have already
  moved their steps with `.to(device)` before the exception; the failure result does not
  record those moves, since the half-built pipeline is never returned.
- `Coref.TokenizeWithAntecedents`: requires non-empty antecedents. An empty context token
  would add an empty alternative that matches the empty string at every position.
- `Coref.CorefResolver.Call`: requires every predicted cluster to have a mention, as the
  model's clusters always do. The source would raise `IndexError` on an empty one.
- `Coref.CorefResolver.To`: the `hasattr(self.model.model, "to")` guard is not modelled;
  the model is taken to be movable.
- `Documents.UploadedDocument`: the file bytes are taken as already decoded; a failing
  `content.decode()` is not modelled. The accepted extensions are a parameter, since the
  constant that defines them is not part of this model.
- The database layer (DAO calls, sessions) and the web layer: the document table is a map
  from keys to documents, and `create_document`, `delete_document` and
  `update_document_title` are plain DAO calls.
- The fact checker and the validation service are stubs around model calls and are not part
  of this model.
- The repository's `test_cleaning.py` expects the short paragraph "Первый абзац." to be kept
  (lines 39-42). The code keeps only paragraphs longer than 40 characters, and the model
  follows the code.

## Findings

| source | as written | input that shows it | evidently intended | confidence | as-written member | corrected member |
|---|---|---|---|---|---|---|
| backend/AI_services/ai_services/preprocessing.py:92-102 | `to(d)` stores `d` in `_device`, but `_func2device` moves each step to `self.device`, the device given at construction | a pipeline built with `device="cpu"` holding a step with `to`; `p.to("cuda")` moves the step to `"cpu"` (`Pipelines.ToIgnoresArgument`) | every step with `to` is moved to `d` | not executed | `Pipelines.Pipeline.To` | `Pipelines.Pipeline.ToIntended` |
| backend/src/app/api/services/document.py:177-180 | `content[:char_start] + content[char_end:]` | content `"ab"`, `char_start = 2`, `char_end = 0` gives `"abab"` (`Documents.DeleteAsWrittenDuplicates`) | the range is removed, and crossed bounds remove nothing | not executed | `Documents.DeleteAsWritten` | `Documents.Delete` |
