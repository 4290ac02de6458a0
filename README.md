# ENEM quiz generator — a verified model of its core

This project models, in Dafny, the deterministic logic of a generator of
ENEM-style multiple-choice quizzes. The remote services do the creative
work: text embeddings, the chat model and language detection. The model
keeps the code that prepares, indexes, retrieves, checks and scores text
around those services.

- **Corpus export** (`get_indexes.js`, module `CorpusExport`). Each parsed
  `details.json` record becomes a text block. The blocks are grouped per
  discipline and written, under a heading, into one `.txt` file per
  discipline.
- **Chunking and names** (`server/utils/text.ts`, the copies in `index.js`
  and `build_index.js`; modules `Text`, `RegexSplit`, `Js`).
  - `sanitizeText`.
  - `normalizeName`.
  - The three-rule chunker `splitIntoChunks`, which splits on dash lines,
    then on markers, then on blank lines. It includes the ECMAScript
    `String.prototype.split` semantics for regular-expression separators
    with capturing groups.
- **Indexing and retrieval** (`server/services/embeddings.ts`, module
  `Embeddings`).
  - The 1200-character paragraph packer `splitIntoChunksSmart`.
  - The server's `buildIndexFromTxts`.
  - `retrieveContext`: a stable sort by score, the first `k` entries, and a
    blank-line join.
- **The stand-alone index builder** (`build_index.js`, module `BuildIndex`):
  early exits, skipping files with no chunk, and batches of 8 with ids
  `${disc}-${i + j}`.
- **The command-line generator** (`index.js`, module `IndexScript`).
  - Its `sanitizeText` variant.
  - Its cached `buildIndexFromTxts`.
  - `gerarVariasQuestoes`, the loop that keeps a generated question only
    when at least 3 of 5 verification calls confirm its answer.
- **The chat call** (`server/services/llm.ts`, module `Llm`): the `chatJSON`
  retry loop and the extraction of a fenced ```json block.
- **Quiz generation** (`server/services/quiz.ts`, module `Quiz`).
  - The per-area loop of `generateQuiz` and its count filter.
  - The alias lookup `getIndex`.
  - The shape filter on the chat model's answer, and the final `done`
    event.
- **Client scoring** (`web/src/App.tsx`, module `App`): `onAnswer`, the
  `score` tally and the clamp of the per-area count input.

## How the services are modelled

Every service is a parameter of the model:

- **Embedding service** (`Embedder`): a function from a batch of texts to
  vectors or an error. `OneVectorPerInput` states that it returns one vector
  per text.
- **Cosine similarity**: an uninterpreted `Similarity` function onto reals.
- **Chat model** (successive HTTP replies); **question generator and
  verifier** (successive JSON replies): functions of the call number.
- **`JSON.parse`**: a partial parser function.
- **`franc`**: a detector function.
- **Filesystem**: the directory's existence is a boolean and its listing is
  a sequence of (name, content) entries.

Imperative code is modelled as methods with loop invariants, each proved
equal to a function that states what it computes. These include:

- `splitIntoChunksSmart`, both `buildIndexFromTxts` loops and the batch loop;
- the `chatJSON` loop and the `generateQuiz` loop;
- `gerarVariasQuestoes` and its inner count of five votes;
- `processJson`, which builds a block by repeated `+=`, and the grouping in
  `main`;
- the `score` tally.

The properties the code promises are then proved as lemmas about those
functions.

Where the code and what it evidently means to do differ, the model follows
the code and models the intended behaviour beside it:

- **Marker rule.** The chunker's marker rule is evidently meant to split
  before each marker line and keep the marker at the head of its chunk.
  The regular expression (`server/utils/text.ts:18`, repeated at
  `build_index.js:18` and `index.js:51`) has two capturing groups inside
  its look-ahead. So `split` splices the captured marker text into the
  result. For `Titulo:`, `Título:` and `Enunciado:` it splices an
  `undefined`, and the following `trim` throws on it.
  `Text.SplitIntoChunksAsWritten` is the code as written, and both indexer
  scripts are modelled on it: a file with a label marker makes them throw
  (`BuildIndex.LabelFileThrows`), and a `Questão N` line adds spliced
  chunks to the index (`BuildIndex.QuestionFileEntries`).
  `Text.SplitIntoChunks` is the corrected chunker, and
  `BuildIndex.IntendedIndex` is the scripts' build on it. See Findings.
- **Script indexer.** `build_index.js` calls an `embedTexts` that it never
  declares or imports. The script as written (`BuildIndex.BuildIndexAsWritten`)
  throws at the first file that does not come out empty. The error is the
  chunker's TypeError if that file's chunking throws, and the ReferenceError
  if it yields chunks. The embedding call the script evidently means is a
  parameter in `BuildIndex.BuildIndexFromTxts`.

## Model

| member | source | states |
|---|---|---|
| Js.Trim | server/utils/text.ts:3 | `trim` leaves neither end with whitespace, is empty exactly when the text is all whitespace, and returns trimmed text unchanged |
| Js.TrimDropsLeadingSpace | server/utils/text.ts:15 | leading whitespace has no effect on what `trim` returns |
| Js.Utf16Length | server/services/embeddings.ts:50 | a string's JavaScript `length` lies between its number of code points and twice that |
| Js.NatToString | server/services/embeddings.ts:73 | an index is rendered as a non-empty string of decimal digits, one digit exactly for indices below 10 |
| Js.NatToStringInjective | server/services/embeddings.ts:73 | two indices with the same rendering are equal |
| Js.JoinConcat | server/services/embeddings.ts:87 | joining a concatenation of two non-empty lists puts the separator once between their joins |
| Js.Dict.Put | build_index.js:68 | assigning `obj[k] = v` keeps the keys distinct and in step with the values; a new key goes last, an existing key keeps its place, and only `k`'s value changes |
| RegexSplit.MatchHere | server/utils/text.ts:15-22 | every separator match starts at a newline and consumes it; only the marker look-ahead captures anything |
| RegexSplit.DashLineMatch | server/utils/text.ts:15 | a match of `/\n-{3,}\n/` starts with a newline and a dash, is at least five characters long and captures nothing |
| RegexSplit.BlankLineMatch | server/utils/text.ts:22 | a match of `/\n\s*\n/` starts with a newline, is at least two characters long and captures nothing |
| RegexSplit.ParagraphBreakMatch | server/services/embeddings.ts:46 | a match of `/\n\n+/` starts with a newline, is at least two characters long and captures nothing |
| RegexSplit.QuestionMarkerLength | server/utils/text.ts:18 | a `Quest(ã\|a)o\s*\d+` match starts with a `q`, has `ã` or `a` at position 5 and ends on a digit |
| RegexSplit.MarkerCaptures | server/utils/text.ts:18 | the marker look-ahead yields two groups, of which the first, the marker text, always takes part |
| RegexSplit.Segments | server/utils/text.ts:15 | `.map(trim).filter(Boolean)` succeeds exactly when no piece is `undefined` and otherwise throws the `trim` TypeError; on success every piece is trimmed and non-empty, and there are no more pieces than before |
| RegexSplit.TrimmedNonEmpty | server/utils/text.ts:15 | every kept piece is trimmed and non-empty; when no piece trims to "", the result is every piece trimmed, in order |
| RegexSplit.SegmentsOfSomes | server/utils/text.ts:15 | pieces with no `undefined` among them give their trimmed non-empty strings |
| RegexSplit.CaptureFreeSplitHasNoUndefined | server/utils/text.ts:22 | a split on a separator without capturing groups yields no `undefined` piece |
| RegexSplit.SplitOfSpaceIsSpace | server/utils/text.ts:22 | a whitespace-only text splits into whitespace-only pieces, none `undefined` |
| RegexSplit.MarkerBoundaryRejoins | server/utils/text.ts:18 | a split before markers with no capturing group loses nothing: its pieces are all strings, and joined by "\n" they give the text back |
| RegexSplit.DashSplitOfInterleave | server/utils/text.ts:15 | blocks joined by dash lines split back into exactly those blocks, when no block holds a line starting with a dash |
| Text.BreakTagLength | server/utils/text.ts:3 | a match of `<br\s*\/?>` starts with `<`, ends with `>` and is at least four characters long |
| Text.TagClose | server/utils/text.ts:3 | the lazy `.*?>` ends at a `>`, and fails exactly when no `>` comes before the end of the line |
| Text.StripTags | server/utils/text.ts:3 | removing `<.*?>` never lengthens the text |
| Text.StripTagsLeavesNoTag | server/utils/text.ts:3 | after the removal, no `<` is followed by a `>` on the same line |
| Text.StripTagsIdempotent | server/utils/text.ts:3 | removing tags a second time changes nothing |
| Text.TrimKeepsTagFree | server/utils/text.ts:3 | trimming keeps a text free of tags |
| Text.NoAngleUnchanged | server/utils/text.ts:3 | a text without `<` passes both replacements unchanged |
| Text.SanitizeText | server/utils/text.ts:1-4 | `undefined` and "" give ""; every result is trimmed and has no `<` followed by `>` on a line |
| Text.SanitizeDropsInlineBreak | server/utils/text.ts:3 | a `<br>` inside a line is removed like any tag: "x<br>y" gives "xy" |
| Text.SanitizeKeepsLineEndBreak | server/utils/text.ts:3 | a `<br>` at the end of a line becomes a newline: "x<br>\ny" gives "x\n\ny" |
| Text.Decompose | server/utils/text.ts:8 | canonical decomposition of one character gives one or two characters: two are a Latin letter and its combining mark, one is the character itself |
| Text.StripMarks | server/utils/text.ts:9 | no combining mark U+0300–U+036F is left, and nothing is added |
| Text.LowerChar | server/utils/text.ts:10 | lower-casing keeps whitespace as whitespace and marks as marks |
| Text.Lower | server/utils/text.ts:10 | lower-casing works character by character and keeps the length |
| Text.CollapseSpaces | server/utils/text.ts:11 | `.replace(/\s+/g, fill)` leaves no whitespace, and changes nothing in a text without whitespace |
| Text.NormalizeName | server/utils/text.ts:6-12 | a normalised name holds neither whitespace nor combining marks |
| Text.NormalizeNameIdempotent | server/utils/text.ts:6-12 | normalising a normalised name gives it back |
| Text.NormalizeTwoWords | server/utils/text.ts:11 | two words separated by a space normalise to their normal forms joined by "_" |
| Text.AsciiUnchanged | server/utils/text.ts:8-9 | ASCII text is its own decomposition and carries no marks |
| Text.NormalizeHumanities | server/utils/text.ts:6-12 | "Ciências Humanas" normalises to "ciencias_humanas" |
| Text.ChunksOn | server/utils/text.ts:22 | a capture-free split, trimmed and filtered, gives only trimmed non-empty chunks |
| Text.ChunksOnSegments | server/utils/text.ts:15 | a split without capturing groups never throws in the trim-and-filter step |
| Text.SplitIntoChunksAsWritten | server/utils/text.ts:14-24 | as written: the dash chunks when there are several; otherwise only trimmed non-empty chunks; the only error is the `trim` TypeError, and it needs the dash rule to have given at most one chunk |
| Text.SplitIntoChunks | server/utils/text.ts:14-24 | every chunk is trimmed and non-empty |
| Text.SplitIntoChunksRuleOrder | server/utils/text.ts:15-23 | the dash rule decides when it gives several chunks; the marker rule only when the dash rule does not; the blank-line rule only when neither does |
| Text.WhitespaceGivesNoChunks | server/utils/text.ts:22-23 | a whitespace-only text gives no chunks, as written and corrected |
| Text.DashBlocksChunk | server/utils/text.ts:15-16 | blocks joined by dash lines, at least two of them non-blank, come back as exactly those blocks, trimmed, in order, with blank ones dropped |
| Text.NoDashLineOneChunk | server/utils/text.ts:15-16 | a text with no dash line gives at most one dash-rule chunk, so the next rule is tried |
| Text.MarkerChunksRejoin | server/utils/text.ts:17-20 | the corrected marker rule loses nothing: its pieces, joined by "\n", give the text, and its chunks are those pieces trimmed and filtered |
| Text.AsWrittenAgreesWithoutMarkers | server/utils/text.ts:17-21 | where no marker occurs, the chunker as written and the corrected one agree |
| Text.OneMarkerSplit | server/utils/text.ts:18 | as written, a line followed by a marker line splits at the newline, with the captured groups spliced between the two lines |
| Text.OneBoundarySplit | server/utils/text.ts:18 | without capturing groups, the same text splits into just the two lines |
| Text.AsWrittenTakesMarkers | server/utils/text.ts:21 | as written, the marker rule decides when the dash rule gives at most one chunk and the marker split gives several without throwing |
| Text.MarkersDecide | server/utils/text.ts:21 | the corrected chunker returns the marker pieces when the dash rule gives at most one chunk and those pieces are several chunks |
| Text.MarkersDecideAsWritten | server/utils/text.ts:21 | the chunker as written does the same with its own marker split |
| Text.LabelCaptures | server/utils/text.ts:18 | for `Titulo:`, `Título:` or `Enunciado:`, the second group does not take part and is `undefined` |
| Text.LabelMarkerThrows | server/utils/text.ts:18-19 | as written, a line followed by a `Titulo:`, `Título:` or `Enunciado:` line makes the chunker throw the `trim` TypeError |
| Text.UndefinedPieceThrows | server/utils/text.ts:19 | an `undefined` third marker piece makes the chunker throw, once the dash rule gives at most one chunk |
| Text.QuestionPieces | server/utils/text.ts:18 | a `Questão N` marker captures its marker text and its vowel, both trimmed and non-empty |
| Text.QuestionMarkerSplices | server/utils/text.ts:18-20 | as written, "a\nQuestao 1" gives "a", "Questao 1", "a", "Questao 1": the captures become chunks of their own |
| Text.MarkerLineChunks | server/utils/text.ts:18 | corrected: a line followed by a marker line gives the two lines, the marker kept at the head of the second |
| Embeddings.Paragraphs | server/services/embeddings.ts:46 | the paragraphs are trimmed and non-empty |
| Embeddings.SplitIntoChunksSmart | server/services/embeddings.ts:44-59 | the packing loop returns the chunks the function `SmartChunks` defines |
| Embeddings.StepTexts | server/services/embeddings.ts:50-55 | one turn of the loop: `buf` is pushed when it is non-empty and adding the paragraph would pass 1200; otherwise the paragraph is appended after a blank line, or starts `buf` |
| Embeddings.GroupsProperties | server/services/embeddings.ts:49-57 | the chunks hold every paragraph in order; none is empty; a chunk of two or more paragraphs stays within 1200; each chunk was closed because the next paragraph would not fit |
| Embeddings.SmartChunksKeepParagraphs | server/services/embeddings.ts:46-58 | every chunk is non-empty, and the chunks joined by "\n\n" equal the paragraphs joined by "\n\n" |
| Embeddings.SmartChunksBounded | server/services/embeddings.ts:50-54 | only a single-paragraph chunk can pass 1200 characters, and a chunk ends only where adding the next paragraph would pass 1200 |
| Embeddings.ChunkIdsDistinct | server/services/embeddings.ts:73 | entries of one discipline never share an id |
| Embeddings.Entries | server/services/embeddings.ts:73 | entry `i` has id `${disc}-${i}`, the text of chunk `i` and vector `i` |
| Embeddings.TxtFiles | server/services/embeddings.ts:64 | every file kept is named `*.txt` |
| Embeddings.TxtFilesMembers | server/services/embeddings.ts:64 | the filter keeps exactly the entries named `*.txt` |
| Embeddings.BaseName | server/services/embeddings.ts:67 | `basename(file, ".txt")` cuts the suffix whenever the name ends with it, so a file named `.txt` gets the key "" |
| Embeddings.FoldIndex | server/services/embeddings.ts:66-74 | the `indices` object built by the loop is a well-formed dictionary |
| Embeddings.LastStore | server/services/embeddings.ts:73 | the last file stored under a key is found, and no later file stores under it |
| Embeddings.FoldIndexSucceeds | server/services/embeddings.ts:66-74 | the loop completes exactly when no file's embedding throws |
| Embeddings.FoldIndexContents | server/services/embeddings.ts:73 | each key holds what the last file with that key stored |
| Embeddings.EmbedOutcome | server/services/embeddings.ts:72-73 | a file throws exactly when embedding its chunks fails; otherwise it stores its entries under its key |
| Embeddings.ServerIndex | server/services/embeddings.ts:61-77 | a missing directory makes the build throw; a built index is well formed |
| Embeddings.BuildIndexFromTxts | server/services/embeddings.ts:61-77 | the file loop returns what `ServerIndex` specifies |
| Embeddings.IndexFile | server/services/embeddings.ts:67-73 | one iteration computes the file's key, then its entries or the embedding error |
| Embeddings.FoldIndexAt | server/services/embeddings.ts:66-74 | a stored outcome adds its entries under its key, a thrown one ends the loop with its error |
| Embeddings.EmbedIndexSucceeds | server/services/embeddings.ts:66-74 | the index is built exactly when every file's chunks are embedded |
| Embeddings.EmbedIndexKeys | server/services/embeddings.ts:73 | a built index has exactly the files' keys |
| Embeddings.EmbedIndexEntries | server/services/embeddings.ts:73 | key `k` holds the entries of the last file with that key: entry `m` has id `${k}-${m}`, that file's chunk `m` and its vector |
| Embeddings.InsertRanked | server/services/embeddings.ts:84 | inserting a position keeps the positions valid and adds exactly that position |
| Embeddings.InsertRankedSorted | server/services/embeddings.ts:84 | inserting a later position after every entry scoring at least as much keeps the order sorted and stable |
| Embeddings.Ranking | server/services/embeddings.ts:83-84 | the sort yields every position below `n` exactly once |
| Embeddings.RankingSorted | server/services/embeddings.ts:84 | the sorted positions have non-increasing scores, ties in index order |
| Embeddings.RankingIsPermutation | server/services/embeddings.ts:84 | the ranking holds each position once and no other |
| Embeddings.SliceEnd | server/services/embeddings.ts:85 | `slice(0, k)` ends at `min(k, n)`, or `k` from the end for a negative `k` |
| Embeddings.TextsAt | server/services/embeddings.ts:86 | the texts taken are those of the ranked positions, in order |
| Embeddings.Scores | server/services/embeddings.ts:83 | entry `i`'s score is the similarity of the query vector and its vector |
| Embeddings.RetrieveContext | server/services/embeddings.ts:79-87 | a null or empty index gives ""; otherwise an error of the query's embedding is thrown, and an empty answer throws a TypeError |
| Embeddings.TopPositionsRanked | server/services/embeddings.ts:82-85 | `min(k, n)` distinct entries are taken, by non-increasing score with ties in index order; none left out ranks before one taken; `k >= n` takes them all |
| BuildIndex.BatchAt | build_index.js:57 | `chunks.slice(i, i + 8)` holds between 1 and 8 chunks |
| BuildIndex.BatchEntries | build_index.js:59-65 | the entries of a batch starting at `i` have ids `${disc}-${i + j}`, the batch's texts and the returned vectors |
| BuildIndex.EmbedChunks | build_index.js:54-66 | the batch loop returns what `Batched` specifies |
| BuildIndex.BatchesAt | build_index.js:56-57 | batch `b` is the slice from `8b` to the next start or the end: consecutive, in order, without overlap |
| BuildIndex.BatchesCount | build_index.js:56 | there are `ceil(n / 8)` batches |
| BuildIndex.BatchedSucceeds | build_index.js:56-58 | the loop completes exactly when every batch it sends is embedded |
| BuildIndex.BatchedEntries | build_index.js:56-66 | entry `m` has id `${disc}-${m}`, chunk `m` as text and the `m`-th vector returned, contiguously from 0 |
| BuildIndex.IntendedChunks | build_index.js:13-24 | the corrected chunker never throws and gives only trimmed non-empty chunks |
| BuildIndex.FileChunksAt | build_index.js:42-47 | file `i`'s chunking is the chunker applied to its text, in directory order |
| BuildIndex.OutcomeOfFile | build_index.js:42-68 | file `i`'s outcome comes from its own key and chunking, whatever the other files hold |
| BuildIndex.IndexOf | build_index.js:26-74 | for any chunker, a missing directory and a directory without `.txt` files both give `{}`; a built index is well formed |
| BuildIndex.IndexFolds | build_index.js:42-70 | with the directory present, the result is the fold of the files' outcomes in directory order |
| BuildIndex.ScriptIndex | build_index.js:26-74 | the script's build with its own chunker as written: `{}` for a missing directory or no `.txt` file; a built index is well formed |
| BuildIndex.IntendedIndex | build_index.js:26-74 | the same build with the corrected chunker: `{}` in the same two cases; a built index is well formed |
| BuildIndex.BuildIndexFromTxts | build_index.js:26-74 | the script's loop, with its chunker as written and the embedding call it means as a parameter, returns what `ScriptIndex` specifies |
| BuildIndex.IndexScriptFile | build_index.js:43-68 | one iteration computes the key, throws the chunker's error, skips a file without chunks, and otherwise stores the batched entries or throws the embedding error |
| BuildIndex.FoldOutcomesSucceed | build_index.js:42-70 | the fold completes exactly when every chunking succeeds and every file with chunks has all its batches embedded |
| BuildIndex.FoldOutcomesKeys | build_index.js:49-52 | after a complete fold, a key is present exactly when some file with chunks has it |
| BuildIndex.FoldOutcomesEntries | build_index.js:56-68 | after a complete fold, key `k` holds the entries of the last file with chunks and that key |
| BuildIndex.OutcomesSucceed | build_index.js:42-70 | for any chunker, the build completes exactly when every file's chunking succeeds and every file with chunks has all its batches embedded; with the script's chunker, one file whose chunking throws makes the whole build throw |
| BuildIndex.OutcomesKeys | build_index.js:47-52 | after a complete build, a key is present exactly when some file whose chunking gave chunks has it; a file with no chunk gets no key |
| BuildIndex.OutcomesEntries | build_index.js:47-68 | key `k` holds the entries of the last file with chunks and that key: entry `m` has id `${k}-${m}` and that file's chunk `m` as text, so with the script's chunker the spliced marker captures become entries too |
| BuildIndex.IntendedAgreesWithoutMarkers | build_index.js:18 | where no file holds a marker, the script builds exactly what the corrected chunker would |
| BuildIndex.OneTxtFile | build_index.js:33 | a directory holding one `.txt` file lists that file alone |
| BuildIndex.OneFileIndex | build_index.js:42-70 | the build of a one-file directory is that file's outcome alone |
| BuildIndex.LabelFileThrows | build_index.js:47 | a file of a line and then a `Titulo:`, `Título:` or `Enunciado:` line makes the script throw the chunker's TypeError, whatever the embedding service does |
| BuildIndex.MarkerFileIntended | build_index.js:13-24 | with the corrected chunker, a file of a line and then a marker line is stored as those two lines |
| BuildIndex.QuestionFileEntries | build_index.js:47-68 | a file of a line and then a `Questão N` line is stored as four entries: the line, the marker text, the captured vowel and the marker line |
| BuildIndex.StoredAlone | build_index.js:54-68 | a file of at most eight chunks, all embedded, is stored alone under its key with those chunks as texts |
| BuildIndex.OneLineOneChunk | build_index.js:13-24 | a trimmed non-empty text without a line break is one chunk, on both chunkers |
| BuildIndex.UndefinedEmbedTexts | build_index.js:58 | the undeclared `embedTexts` throws on every call |
| BuildIndex.BuildIndexAsWritten | build_index.js:26-74 | the script as written yields a well-formed index whenever it returns |
| BuildIndex.FoldThrowsFirst | build_index.js:42-70 | files skipped up to one that throws make the build throw that file's error |
| BuildIndex.AsWrittenThrowsOnChunks | build_index.js:47-58 | as written, the script throws at the first `.txt` file that does not come out empty: the TypeError when its chunking throws, the ReferenceError when it yields chunks |
| BuildIndex.AsWrittenFailsOnOneFile | build_index.js:58 | a directory holding `matematica.txt` with the text "a" makes the script as written throw the ReferenceError |
| IndexScript.SanitizeTextEveryBreak | index.js:24-27 | `undefined` and "" give ""; every result is trimmed and tag-free |
| IndexScript.EveryBreakReplaced | index.js:26 | every `<br>` becomes a newline, even inside a line: "x<br>y" gives "x\ny" |
| IndexScript.SanitizersDisagreeOnInlineBreak | index.js:26 | on "x<br>y" the server's sanitiser gives "xy" and the script's gives "x\ny" |
| IndexScript.BreakVariantsAgree | index.js:26 | when every `<br>` ends its line, the two replacements agree |
| IndexScript.CachedIndex | index.js:58-110 | an existing cache is returned as parsed, or its syntax error is thrown; otherwise the index is built as the stand-alone builder does, with the same chunker as written (index.js:48-56, 84) |
| IndexScript.BuildIndexFromTxts | index.js:58-110 | the builder returns what `CachedIndex` specifies |
| IndexScript.CacheShortCircuits | index.js:62-65 | with a cache present, neither the directory nor the embedding service changes the result |
| IndexScript.Votes | index.js:203-207 | the confirmations among `n` replies are at most `n` |
| IndexScript.Judge | index.js:201-207 | a candidate's `acertos` is at most 5 |
| IndexScript.CountVotes | index.js:203-207 | the inner loop returns the confirmations `Votes` specifies, or the first error |
| IndexScript.VotesStop | index.js:204-206 | a failed or `null` verification reply ends the count with its error |
| IndexScript.VotesStep | index.js:206 | a reply with a truthy `correta` adds one to `acertos`, any other reply adds nothing |
| IndexScript.CheckCandidate | index.js:201-207 | checking a candidate returns what `Judge` specifies: a `null` candidate throws on `q.resposta_correta`, any other gets five verifier calls counted |
| IndexScript.GerarVariasQuestoes | index.js:197-213 | the generation loop returns what `GatherFrom` specifies |
| IndexScript.GatherStep | index.js:199-210 | a judged candidate is pushed exactly when `acertos >= 3`, and the loop goes on |
| IndexScript.Accepted | index.js:208 | the accepted candidates are at most as many as those generated |
| IndexScript.GatherReturnsAccepted | index.js:198-212 | a run that returns holds the larger of `qtd` and the questions it started with: those, then the accepted candidates in generation order, stopping at the one that reaches `qtd` |
| IndexScript.GerarReturnsQtd | index.js:197-213 | the script returns exactly `qtd` questions (none for `qtd <= 0`), the accepted ones in generation order |
| IndexScript.NothingAskedForNothing | index.js:199 | for `qtd <= 0` the result is `[]` whatever the services do |
| IndexScript.FuelSuffices | index.js:199 | more fuel does not change a run that returned or threw |
| IndexScript.NullCandidateThrows | index.js:204 | a generated `null` makes the script throw before any verification call |
| IndexScript.VerdictTruthy | index.js:206 | `{ correta: b }` counts exactly when `b` |
| IndexScript.ThreeOfFiveAccepted | index.js:208 | three confirmations out of five keep the candidate |
| IndexScript.TwoOfFiveRejected | index.js:208 | two confirmations out of five reject it |
| Llm.BodyStart | server/services/llm.ts:71 | the captured body starts after "```json" and its whitespace |
| Llm.FirstClose | server/services/llm.ts:71 | the lazy group ends where whitespace and "```" follow |
| Llm.FirstCloseFirst | server/services/llm.ts:71 | that end is the first one, and none exists when it is not found |
| Llm.FirstFence | server/services/llm.ts:71 | the match found starts where the regex matches |
| Llm.FirstFenceLeftmost | server/services/llm.ts:71 | the match found is the leftmost one, and none exists when it is not found |
| Llm.ContentOf | server/services/llm.ts:67 | the content is trimmed, "" when absent |
| Llm.RawJsonIsFirstFence | server/services/llm.ts:71-72 | the parsed text is the body of the leftmost complete fence, running to the first closing point, or the whole content when there is no fence |
| Llm.FenceBodyTrimmed | server/services/llm.ts:71 | a fence body has no whitespace at either end |
| Llm.FenceRoundTrip | server/services/llm.ts:71-72 | a trimmed body without backticks, wrapped in a fence, is extracted back |
| Llm.ChatJson | server/services/llm.ts:7-77 | the retry loop returns the outcome and the request count `ChatFrom` specifies |
| Llm.TryOnce | server/services/llm.ts:61-76 | one attempt: an HTTP error is thrown; a parse is returned; a parse failure retries, except on the last attempt, where it throws |
| Llm.LoopStops | server/services/llm.ts:14 | an attempt that ends the call ends the loop after one request |
| Llm.LoopNext | server/services/llm.ts:14 | an attempt that retries costs one request and goes on to the next |
| Llm.LastAttemptStops | server/services/llm.ts:75 | the attempt with `i == maxRetries` never retries |
| Llm.LoopEndsAtFirstStop | server/services/llm.ts:14-77 | the loop ends at the first attempt that does not retry, one request per attempt |
| Llm.ChatJsonNoAttempt | server/services/llm.ts:14 | with `maxRetries < 0` no request is made and the call returns `undefined` |
| Llm.ChatJsonBounded | server/services/llm.ts:14 | between 1 and `maxRetries + 1` requests are made, and the outcome is that of the first attempt not retried |
| Llm.ChatJsonReturnsFirstParse | server/services/llm.ts:69-73 | the call returns the parse of the first answer that parses; every earlier answer failed to parse |
| Llm.ChatJsonHttpErrorNotRetried | server/services/llm.ts:61-69 | an HTTP error is thrown from its attempt and not retried |
| Llm.ChatJsonParseFailure | server/services/llm.ts:74-75 | "Falha ao parsear JSON do modelo" is thrown exactly when the attempt with `i == maxRetries` fails to parse |
| Quiz.AreasListEveryAreaOnce | server/services/quiz.ts:9-16 | `AREAS` lists each of the six areas once |
| Quiz.FindRelated | server/services/quiz.ts:46 | `keys.find` returns the first key that contains, or is contained in, the alias key, and none when no key does |
| Quiz.FindRelatedFirst | server/services/quiz.ts:46 | the first related key is the one found |
| Quiz.ResolveKey | server/services/quiz.ts:45-47 | an alias resolves to its own non-empty list, else to the first related key's list when that key is truthy and its list non-empty, else to nothing; a resolution is never empty |
| Quiz.AliasKeys | server/services/quiz.ts:43-44 | each alias is normalised like an index key |
| Quiz.Resolutions | server/services/quiz.ts:42-48 | each alias is resolved in order |
| Quiz.FirstSomeIsFirst | server/services/quiz.ts:42-49 | the loop returns the first resolution that is a list, and `null` exactly when there is none |
| Quiz.FirstResolvingKey | server/services/quiz.ts:40-50 | `getIndex` returns the non-empty list of the first alias that resolves, and `null` exactly when none does |
| Quiz.GetIndexPrefersExact | server/services/quiz.ts:45 | a non-empty exact match of the first alias wins over every related key (the script's `getIndex` at index.js:130 is the same code) |
| Quiz.FirstRelatedKeyDecides | server/services/quiz.ts:46-47 | when the first related key is "" or has an empty list, no later related key is tried for that alias |
| Quiz.Aliases | server/services/quiz.ts:52-60 | seven aliases are tried for an area, the first of them its name |
| Quiz.Malformed | server/services/quiz.ts:73 | the filter keeps no more items than it was given |
| Quiz.MalformedMembers | server/services/quiz.ts:73 | the filter keeps exactly the items missing `questao`, `opcoes` or `resposta_correta` |
| Quiz.ShapeFilter | server/services/quiz.ts:73-76 | a `null` answer, or an array whose every item has the three fields, is assigned; an array with a malformed item is skipped; any other value throws a TypeError |
| Quiz.SingleObjectAnswerThrows | server/services/quiz.ts:73 | an answer that is a single object, in the shape the prompt shows, makes the generation throw |
| Quiz.AskChat | server/services/quiz.ts:66-71 | the chat call with the default two retries returns a parse or throws, never `undefined` |
| Quiz.Answered | server/services/quiz.ts:66-76 | a thrown chat call fails the iteration after the model was asked |
| Quiz.Step | server/services/quiz.ts:36-76 | an iteration is skipped exactly when the count is not admitted; it fails before asking exactly when retrieval fails; an assigned answer is `null` or a well-shaped array |
| Quiz.EmptyResult | server/services/quiz.ts:26-33 | every area starts with `[]` |
| Quiz.Contexts | server/services/quiz.ts:63 | each area's context is retrieved in the order of `AREAS` |
| Quiz.StepsWith | server/services/quiz.ts:35-77 | each area's iteration is the `Step` for that area |
| Quiz.GenerateQuiz | server/services/quiz.ts:18-80 | `generateQuiz` returns the result and the asked areas of the run; exactly one `done` event is sent, after the loop, and none when the call throws |
| Quiz.QuizOnBuilt | server/services/quiz.ts:25-80 | a failed index build is thrown; otherwise the loop runs on the built index |
| Quiz.QuizOnIndex | server/services/quiz.ts:35-77 | the loop over `AREAS` on a built index returns the result and the asked areas `QuizOver` specifies |
| Quiz.QuizFromIndex | server/services/quiz.ts:35-77 | the loop over `AREAS`, with its iterations planned, returns the result and the asked areas of `RunSteps` over those iterations |
| Quiz.RunStepsAt | server/services/quiz.ts:35-77 | an iteration either throws, ending the loop, or is skipped, or assigns its area and goes on |
| Quiz.AreaIteration | server/services/quiz.ts:36-76 | the loop body is the planned step for its area |
| Quiz.AreaContext | server/services/quiz.ts:52-63 | the index lookup and the context retrieval for an area |
| Quiz.AskArea | server/services/quiz.ts:66-76 | the chat call and the shape filter for an area |
| Quiz.RunStepsCompletes | server/services/quiz.ts:35-77 | the loop completes exactly when no iteration throws, having asked about the areas not skipped, in order |
| Quiz.RunStepsValues | server/services/quiz.ts:76 | each area ends with its assigned answer, or keeps the value it had before |
| Quiz.RunStepsFails | server/services/quiz.ts:35-77 | when an iteration throws, the loop throws the first such error |
| Quiz.RunStepsFailTrace | server/services/quiz.ts:35-77 | when one throws, the areas asked about are those up to the failing one |
| Quiz.AskedByAdmitted | server/services/quiz.ts:36-38 | the areas not skipped are the ones whose count is admitted |
| Quiz.AskedAreas | server/services/quiz.ts:36-38 | the admitted areas are those of the list whose count lies in 1..45 |
| Quiz.AreaPosition | server/services/quiz.ts:9-16 | each area has exactly one position in `AREAS` |
| Quiz.QuizSucceeds | server/services/quiz.ts:35-77 | the loop completes exactly when no area's iteration throws |
| Quiz.QuizAsksAdmittedAreas | server/services/quiz.ts:35-66 | a completed loop asked the chat model about each area with an admitted count once, in the order of `AREAS` |
| Quiz.StepsSkipOnCount | server/services/quiz.ts:36-38 | the iterations skip exactly the areas whose count is not admitted |
| Quiz.QuizThrowsFirstError | server/services/quiz.ts:35-77 | a thrown loop throws the error of the first area whose iteration throws |
| Quiz.QuizValues | server/services/quiz.ts:26-76 | the result has the six area keys, each holding its assigned answer or `[]` |
| Quiz.LoopValues | server/services/quiz.ts:26-76 | when the loop completes, every area holds its final value |
| Quiz.SkippedAreaKeepsEmptyList | server/services/quiz.ts:36-38 | an area whose count is missing, 0, negative or over 45 keeps `[]` and is never asked about: counts are skipped, not clamped |
| Quiz.ReplacedOnlyByWellShaped | server/services/quiz.ts:73-76 | an area's list is replaced only for a count in 1..45, and only by `null` or a list whose every item has the three fields |
| Quiz.StepFinalValue | server/services/quiz.ts:36-76 | what one iteration can leave in its area's key |
| CorpusExport.LanguageLineOnlyForLinguagens | get_indexes.js:44-50 | only a "linguagens" block starts with "Linguagem: …"; every other block starts with an empty line |
| CorpusExport.MissingFieldsNA | get_indexes.js:51-61 | an absent or empty title, statement, introduction or correct answer is written as "N/A"; a present one is written as given |
| CorpusExport.AltLines | get_indexes.js:55-59 | one line per alternative |
| CorpusExport.AltLinesAt | get_indexes.js:57 | line `k` of the alternatives is that alternative's line |
| CorpusExport.AlternativeLines | get_indexes.js:54-61 | "Alternativas:" is followed by one line per alternative, in order, then the answer line; there are none when the field is not an array |
| CorpusExport.AltLineMarksCorrect | get_indexes.js:57 | an alternative's line starts with "  L) text " and ends with "(Correta)" exactly when it is marked correct |
| CorpusExport.BlockEndsWithDashLine | get_indexes.js:61-62 | every block is its stem, then the 43-dash rule as a dash line, then a blank line |
| CorpusExport.ProcessedRecord | get_indexes.js:32-69 | a record is dropped exactly when it failed to parse or has no discipline; a kept one keeps its discipline |
| CorpusExport.ProcessJson | get_indexes.js:32-69 | the block built by repeated `+=` is the one `ProcessedRecord` specifies |
| CorpusExport.WriteAlternatives | get_indexes.js:55-59 | the `forEach` loop appends the alternatives' lines, in order |
| CorpusExport.Kept | get_indexes.js:79 | the kept records are no more than the records |
| CorpusExport.BlocksOf | get_indexes.js:83 | a discipline's blocks are no more than the records |
| CorpusExport.Group | get_indexes.js:77-85 | the grouping has the disciplines as keys in order of first appearance, each holding its blocks in file order |
| CorpusExport.GroupStep | get_indexes.js:80-83 | one more record creates its discipline's list on its first block and then appends its block |
| CorpusExport.BlocksOfAbsent | get_indexes.js:80-82 | a discipline not seen yet has no blocks |
| CorpusExport.FirstsAreTheDisciplines | get_indexes.js:77-85 | the keys are distinct, and a discipline is a key exactly when some kept record has it, that is, when it has a block |
| CorpusExport.DroppedRecords | get_indexes.js:39 | a record without a discipline, or one that failed to parse, leaves no block anywhere |
| CorpusExport.UpperChar | get_indexes.js:92 | upper-casing a character yields a newline exactly when the character is one |
| CorpusExport.Upper | get_indexes.js:92 | upper-casing adds or removes no line break |
| CorpusExport.SafeName | get_indexes.js:89 | the file name holds no whitespace |
| CorpusExport.SafeNameKeepsAccents | get_indexes.js:89 | "Ciências Humanas" is written to "ciências_humanas", whereas its index key is "ciencias_humanas" |
| CorpusExport.StemPlain | get_indexes.js:50-61 | the stem of a record with no line starting with a dash neither starts with a dash, nor has a line that does, nor is blank |
| CorpusExport.JoinClosed | get_indexes.js:92 | the heading and the blocks joined by "\n" interleave the text between rules with the dash lines |
| CorpusExport.FrontsChunks | get_indexes.js:92 | the text between the dash lines trims to the first stem after the heading, then to each further stem |
| CorpusExport.BlocksAreClosedStems | get_indexes.js:61-62 | every block is its stem closed by the dash line and a blank line |
| CorpusExport.ExportedChunks | get_indexes.js:92 | with two or more blocks and no line inside them starting with a dash, the layered chunker splits the file into one chunk per block, the first after the heading, and the chunker as written gives the same |
| CorpusExport.ExportedFileChunks | get_indexes.js:92 | a discipline's file with two or more such records splits, on the dash rule, into one chunk per record: its block up to the answer line, trimmed, on the chunker as written as well |
| App.AnswerKeyInjective | web/src/App.tsx:53 | two questions with the same key `${area}:${idx}` have the same area and index |
| App.OnAnswer | web/src/App.tsx:52-54 | `onAnswer` sets the key of the question to the letter and keeps every other answer |
| App.OnAnswerTouchesOneQuestion | web/src/App.tsx:53 | answering a question leaves the presence and value of every other question's answer unchanged |
| App.Count | web/src/App.tsx:66 | the count of indices below `m` is at most `m` |
| App.CountIsCardinality | web/src/App.tsx:66 | the count is the size of the set of indices counted |
| App.RightIn | web/src/App.tsx:63-68 | an area's right answers are at most its questions |
| App.Letters | web/src/App.tsx:67 | one letter per question |
| App.Score | web/src/App.tsx:56-72 | `correct` is the sum over the areas of their right answers, `total` the number of questions, and `respostas` has the quiz's keys, each holding one list of the right letters |
| App.ScoreArea | web/src/App.tsx:63-68 | the `forEach` callback adds each question to `total`, each right answer to `correct` and each right letter to `all` |
| App.TotalsStep | web/src/App.tsx:63-68 | after one more area, the totals count its right answers and questions too |
| App.RecordedStep | web/src/App.tsx:61-69 | after one more area, `respostas` records its letters under a new key |
| App.RightAtMostQuestions | web/src/App.tsx:57-66 | `0 <= correct <= total` |
| App.RightInCounts | web/src/App.tsx:65-66 | an area's right answers are exactly its questions answered with their non-empty right letter |
| App.UnansweredNeverRight | web/src/App.tsx:66 | questions without a recorded answer are never counted right |
| App.RightAfterAnswer | web/src/App.tsx:53-66 | answering a question with its right letter makes it count, unless that letter is empty, and changes no other question's standing |
| App.ClampCount | web/src/App.tsx:203-206 | a clamped count is never above 45, and never NaN or +∞ |
| App.ClampOnlyFromAbove | web/src/App.tsx:203-206 | counts up to 45 are kept as typed, negative ones included; NaN and larger counts become 45; clamping twice is clamping once |

## Left out

- I/O is not modelled. Reading and writing files and directories,
  `findJsonFiles`, `existsSync`, the cache files both indexers write,
  `console` output and the PDF writer are left out. Directory existence and
  listing, cache presence and file contents are inputs.
- The remote and foreign calls are parameters: the OpenAI and axios
  requests, `embedTexts`, the `@xenova/transformers` pipeline, `franc` and
  `JSON.parse`. Their behaviour is not modelled.
- `cosineSim`, `dot` and `norm` are floating-point arithmetic. Similarity
  is an abstract real-valued function.
- `gerarQuestao` and `corrigirQuestao` in `index.js` are not modelled. They
  are chat calls whose replies are the inputs `gen` and `verify`.
- The `main()` drivers of `index.js` and `get_indexes.js` are not modelled.
  For `get_indexes.js` the model keeps the grouping and the content
  written; the file writes and the script sequencing are left out.
- Express routes, the SSE client map, timers, the browser API and the React
  rendering are not part of this model. This covers `server/index.ts`,
  `server/services/pdf.ts`, `web/src/api.ts` and the rest of `App.tsx`.
- Text.Decompose: canonical decomposition (NFD) is modelled only for the
  Latin-1 letters. Every other character is left as it is.
- Text.LowerChar: `toLowerCase` is modelled on ASCII and Latin-1 letters
  only.
- CorpusExport.UpperChar: `toUpperCase` is modelled on ASCII and Latin-1
  letters only.
- Js.Trim: `trim` and `\s` use the ECMAScript whitespace set. The model
  covers no other Unicode space property.
- Js.Dict.Put: `Object.keys` lists integer-like keys first in JavaScript.
  The model keeps plain insertion order, which is what the non-numeric
  index keys and area names here get.
- IndexScript.GerarVariasQuestoes: the script's loop has no attempt cap. A
  `fuel` bound stands in for that, and a run that runs out of fuel is
  reported as such rather than as divergence.
- CorpusExport.ProcessedRecord: record fields are strings or absent.
  Fields of other JSON types, `null` included, are not modelled, nor is the
  string conversion a template literal applies to them: a `null`
  `alt.letter`, `alt.text` or `context` would be rendered as "null"
  (`get_indexes.js:45`, `get_indexes.js:57`), whereas the `||` fields treat
  it as absent. A read or parse error is only the
  `null` record, not the logged error.
- Quiz.Step: counts are integers. Fractional, `NaN` or non-numeric entries
  in `counts` are not modelled.
- App.ClampCount: `Number(e.target.value)` turns the typed text into a
  number. That parse is not modelled; the clamp starts from the number.
- App.Score: quiz values are arrays of questions, and answers are strings.
  `Object.entries` order is the quiz dictionary's key order.
- Embeddings.OneVectorPerInput: every index builder is modelled for an
  embedding service that answers a batch with one vector per text. The
  source does not check this; a shorter reply would leave `undefined`
  embeddings (`server/services/embeddings.ts:73`) or drop entries
  (`build_index.js:59-65`), which the model does not cover.
- Embeddings.RetrieveContext: `k` is a parameter. The default of 5 is not
  built in.

## Findings

| source | as written | input that shows it | evidently intended | confidence | as-written member | corrected member |
|---|---|---|---|---|---|---|
| server/utils/text.ts:18 | the marker split's look-ahead holds two capturing groups, so `split` splices their captures into the result; for `Titulo:`, `Título:` and `Enunciado:` the second group is `undefined` and the following `.map(s => s.trim())` throws a TypeError (the same regex is at index.js:51 and build_index.js:18, so both indexer scripts throw on such a file) | "a\nTítulo: x" (throws); "a\nQuestao 1" (gives "a", "Questao 1", "a", "Questao 1") | split before each marker line and keep the marker at the head of its chunk: "a\nTítulo: x" gives "a", "Título: x" | not executed | Text.LabelMarkerThrows | Text.MarkerLineChunks |
| build_index.js:58 | `embedTexts` is called but declared and imported nowhere in the script, so a ReferenceError is thrown at the first file whose chunking yields chunks, unless an earlier file's chunking has thrown the TypeError | a directory holding `matematica.txt` with the text "a" | send each batch of 8 chunks to the embedding service and store the returned vectors | not executed | BuildIndex.AsWrittenFailsOnOneFile | BuildIndex.BuildIndexFromTxts |
