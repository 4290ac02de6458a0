/**
 * The stand-alone index builder (build_index.js), whose batched loop index.js
 * repeats: every `.txt` file of the corpus directory is cut by the script's
 * own three-rule `splitIntoChunks`, its chunks are embedded eight at a time,
 * and the entries are stored under the file's normalised base name.
 *
 * The scripts' chunker is modelled as written (`SplitIntoChunksAsWritten`):
 * a marker line can make it throw, and a `Questão N` line splices extra
 * chunks. `IntendedIndex` is the same loop on the corrected chunker.
 *
 * As written, the script also calls `embedTexts` without defining or
 * importing it; `BuildIndexAsWritten` models that, and `BuildIndexFromTxts`
 * takes the embedding service as a parameter, as the script's author intended.
 */
module BuildIndex {
  import opened Wrappers
  import opened Js
  import opened RegexSplit
  import opened Text
  import opened Embeddings

  /** `BATCH`: the most chunks one embedding call receives. */
  const BatchSize: nat := 8

  function Min(a: int, b: int): int {
    if a <= b then a else b
  }

  /** `chunks.slice(i, i + BATCH)` for a start inside `chunks`. */
  function BatchAt(chunks: seq<string>, i: nat): (r: seq<string>)
    requires i < |chunks|
    ensures 1 <= |r| <= BatchSize
  {
    chunks[i..Min(i + BatchSize, |chunks|)]
  }

  /** The entries `vecs.map((v, j) => ({ id: `${disc}-${i + j}`, text: batch[j], embedding: v }))`. */
  function BatchEntries(disc: string, i: nat, batch: seq<string>, vecs: seq<Vector>): (r: seq<IndexedChunk>)
    requires |vecs| == |batch|
    ensures |r| == |batch|
    ensures forall j :: 0 <= j < |r| ==> r[j].id == ChunkId(disc, i + j) && r[j].text == batch[j] && r[j].embedding == vecs[j]
  {
    seq(|vecs|, j requires 0 <= j < |vecs| => IndexedChunk(ChunkId(disc, i + j), batch[j], vecs[j]))
  }

  /** The batches the loop sends to the embedding service, from position `i` on. */
  function Batches(chunks: seq<string>, i: nat): (r: seq<seq<string>>)
    decreases |chunks| - i
  {
    if i >= |chunks| then [] else [BatchAt(chunks, i)] + Batches(chunks, i + BatchSize)
  }

  /** What the batch loop leaves in `embeddings` from position `i` on, or the first error of the service. */
  function Batched(disc: string, chunks: seq<string>, i: nat, embed: Embedder): (r: Result<seq<IndexedChunk>>)
    requires OneVectorPerInput(embed)
    decreases |chunks| - i
  {
    if i >= |chunks| then Success([])
    else
      var batch := BatchAt(chunks, i);
      match embed(batch)
      case Failure(e) => Failure(e)
      case Success(vecs) =>
        match Batched(disc, chunks, i + BatchSize, embed)
        case Failure(e) => Failure(e)
        case Success(rest) => Success(BatchEntries(disc, i, batch, vecs) + rest)
  }

  /** `pre` in front of a successful result. */
  function Prefixed(pre: seq<IndexedChunk>, r: Result<seq<IndexedChunk>>): Result<seq<IndexedChunk>> {
    if r.Success? then Success(pre + r.value) else r
  }

  /** The `for (let i = 0; i < chunks.length; i += BATCH)` loop over one file's chunks. */
  method EmbedChunks(disc: string, chunks: seq<string>, embed: Embedder) returns (r: Result<seq<IndexedChunk>>)
    requires OneVectorPerInput(embed)
    ensures r == Batched(disc, chunks, 0, embed)
  {
    var embeddings: seq<IndexedChunk> := [];
    var i: nat := 0;
    assert Batched(disc, chunks, 0, embed).Success? ==> [] + Batched(disc, chunks, 0, embed).value == Batched(disc, chunks, 0, embed).value;
    while i < |chunks|
      invariant Batched(disc, chunks, 0, embed) == Prefixed(embeddings, Batched(disc, chunks, i, embed))
      decreases |chunks| - i
    {
      var batch := chunks[i..Min(i + BatchSize, |chunks|)];
      var vecs := embed(batch);
      if vecs.Failure? {
        return Failure(vecs.error);
      }
      var next := BatchEntries(disc, i, batch, vecs.value);
      ghost var rest := Batched(disc, chunks, i + BatchSize, embed);
      assert rest.Success? ==> embeddings + (next + rest.value) == (embeddings + next) + rest.value;
      embeddings := embeddings + next;
      i := i + BatchSize;
    }
    assert embeddings + [] == embeddings;
    return Success(embeddings);
  }

  /** Batch `b` starts `b` batch sizes after `i` and runs to the next start or the end: consecutive, in order, without overlap. */
  lemma {:induction false} BatchesAt(chunks: seq<string>, i: nat, b: nat)
    requires b < |Batches(chunks, i)|
    ensures i + BatchSize * b < |chunks|
    ensures Batches(chunks, i)[b] == chunks[i + BatchSize * b..Min(i + BatchSize * b + BatchSize, |chunks|)]
    decreases |chunks| - i
  {
    if b > 0 {
      BatchesAt(chunks, i + BatchSize, b - 1);
    }
  }

  /** There are as many batches as it takes to cover the chunks from `i`, eight at a time. */
  lemma {:induction false} BatchesCount(chunks: seq<string>, i: nat)
    requires i <= |chunks|
    ensures |Batches(chunks, i)| == (|chunks| - i + BatchSize - 1) / BatchSize
    decreases |chunks| - i
  {
    if i < |chunks| {
      if i + BatchSize <= |chunks| {
        BatchesCount(chunks, i + BatchSize);
      }
    }
  }

  /** The loop completes exactly when every batch it sends is embedded. */
  lemma {:induction false} BatchedSucceeds(disc: string, chunks: seq<string>, i: nat, embed: Embedder)
    requires OneVectorPerInput(embed)
    ensures Batched(disc, chunks, i, embed).Success? <==> forall b :: b in Batches(chunks, i) ==> embed(b).Success?
    decreases |chunks| - i
  {
    if i < |chunks| {
      BatchedSucceeds(disc, chunks, i + BatchSize, embed);
    }
  }

  /** The vectors the service returns for the batches from `i` on, concatenated in order. */
  function Vectors(chunks: seq<string>, i: nat, embed: Embedder): seq<Vector>
    decreases |chunks| - i
  {
    if i >= |chunks| then []
    else
      var reply := embed(BatchAt(chunks, i));
      (if reply.Success? then reply.value else []) + Vectors(chunks, i + BatchSize, embed)
  }

  /**
   * Entry `m` covers chunk `i + m`: its id is `${disc}-${i + m}`, its text
   * that chunk, and its vector the `m`-th one the service returned.
   */
  lemma {:induction false} BatchedEntries(disc: string, chunks: seq<string>, i: nat, embed: Embedder)
    requires OneVectorPerInput(embed) && i <= |chunks| && Batched(disc, chunks, i, embed).Success?
    ensures var es := Batched(disc, chunks, i, embed).value;
      && |es| == |chunks| - i == |Vectors(chunks, i, embed)|
      && forall m :: 0 <= m < |es| ==>
           es[m].id == ChunkId(disc, i + m) && es[m].text == chunks[i + m] && es[m].embedding == Vectors(chunks, i, embed)[m]
    decreases |chunks| - i
  {
    if i < |chunks| {
      var batch := BatchAt(chunks, i);
      var vecs := embed(batch).value;
      var head := BatchEntries(disc, i, batch, vecs);
      var j := i + BatchSize;
      var rest := Batched(disc, chunks, j, embed).value;
      var es := Batched(disc, chunks, i, embed).value;
      assert es == head + rest;
      assert Vectors(chunks, i, embed) == vecs + Vectors(chunks, j, embed);
      if j < |chunks| {
        BatchedEntries(disc, chunks, j, embed);
        assert |head| == BatchSize;
      } else {
        assert rest == [] && Vectors(chunks, j, embed) == [];
      }
      forall m | |head| <= m < |es|
        ensures es[m].id == ChunkId(disc, i + m) && es[m].text == chunks[i + m]
      {
        assert es[m] == rest[m - BatchSize];
      }
    }
  }

  // ----- One file, then the directory -----

  /** A chunker: the chunks of a file's text, or the error it throws. */
  type Chunker = string -> Result<seq<string>>

  /** The chunker as intended: the corrected marker rule, which never throws. */
  function IntendedChunks(text: string): (r: Result<seq<string>>)
    ensures r.Success? && forall i :: 0 <= i < |r.value| ==> IsChunk(r.value[i])
  {
    Success(SplitIntoChunks(text))
  }

  /**
   * What the loop body does with a file of key `disc` whose chunking gave
   * `chunked`: throw what the chunker threw, skip the file when there is no
   * chunk, else store its batched entries.
   */
  function ChunkOutcome(disc: string, chunked: Result<seq<string>>, embed: Embedder): (r: FileOutcome)
    requires OneVectorPerInput(embed)
  {
    match chunked
    case Failure(e) => Throw(e)
    case Success(chunks) =>
      if chunks == [] then Skip
      else match Batched(disc, chunks, 0, embed)
        case Failure(e) => Throw(e)
        case Success(es) => Store(disc, es)
  }

  /** The chunking of each file. */
  function FileChunks(files: seq<DirEntry>, chunk: Chunker): (r: seq<Result<seq<string>>>)
    ensures |r| == |files|
    decreases |files|
  {
    if files == [] then [] else [chunk(files[0].content)] + FileChunks(files[1..], chunk)
  }

  lemma {:induction false} FileChunksAt(files: seq<DirEntry>, chunk: Chunker, i: nat)
    requires i < |files|
    ensures FileChunks(files, chunk)[i] == chunk(files[i].content)
    decreases i
  {
    if i > 0 {
      FileChunksAt(files[1..], chunk, i - 1);
    }
  }

  /** The outcome of each file, given each file's key and chunking. */
  function ChunkOutcomes(keys: seq<string>, chunked: seq<Result<seq<string>>>, embed: Embedder): (r: seq<FileOutcome>)
    requires OneVectorPerInput(embed) && |keys| == |chunked|
    ensures |r| == |keys|
    decreases |keys|
  {
    if keys == [] then [] else [ChunkOutcome(keys[0], chunked[0], embed)] + ChunkOutcomes(keys[1..], chunked[1..], embed)
  }

  lemma {:induction false} ChunkOutcomesAt(keys: seq<string>, chunked: seq<Result<seq<string>>>, embed: Embedder, i: nat)
    requires OneVectorPerInput(embed) && |keys| == |chunked| && i < |keys|
    ensures ChunkOutcomes(keys, chunked, embed)[i] == ChunkOutcome(keys[i], chunked[i], embed)
    decreases i
  {
    if i > 0 {
      ChunkOutcomesAt(keys[1..], chunked[1..], embed, i - 1);
    }
  }

  /** The outcome of file `i`, from its name and its text. */
  lemma OutcomeOfFile(files: seq<DirEntry>, chunk: Chunker, embed: Embedder, i: nat)
    requires OneVectorPerInput(embed) && i < |files|
    ensures ChunkOutcomes(FileKeys(files), FileChunks(files, chunk), embed)[i] ==
              ChunkOutcome(DiscOf(files[i].name), chunk(files[i].content), embed)
  {
    FileKeysAt(files, i);
    FileChunksAt(files, chunk, i);
    ChunkOutcomesAt(FileKeys(files), FileChunks(files, chunk), embed, i);
  }

  /** The `indices` the file loop returns (or the error it throws) when each file is cut by `chunk`. */
  function IndexOf(dirExists: bool, entries: seq<DirEntry>, chunk: Chunker, embed: Embedder): (r: Result<Dict<seq<IndexedChunk>>>)
    requires OneVectorPerInput(embed)
    ensures !dirExists || TxtFiles(entries) == [] ==> r == Success(EmptyDict())
    ensures r.Success? ==> r.value.Valid()
  {
    if !dirExists then Success(EmptyDict())
    else
      var files := TxtFiles(entries);
      if files == [] then Success(EmptyDict())
      else FoldIndex(ChunkOutcomes(FileKeys(files), FileChunks(files, chunk), embed), EmptyDict())
  }

  /** With the directory present, the build is the fold of the files' outcomes, none when there is no `.txt` file. */
  lemma IndexFolds(entries: seq<DirEntry>, chunk: Chunker, embed: Embedder)
    requires OneVectorPerInput(embed)
    ensures var files := TxtFiles(entries);
      IndexOf(true, entries, chunk, embed) == FoldIndex(ChunkOutcomes(FileKeys(files), FileChunks(files, chunk), embed), EmptyDict())
  {
  }

  /** What the script's `buildIndexFromTxts` returns (or throws), its own `splitIntoChunks` included. */
  function ScriptIndex(dirExists: bool, entries: seq<DirEntry>, embed: Embedder): (r: Result<Dict<seq<IndexedChunk>>>)
    requires OneVectorPerInput(embed)
    ensures !dirExists || TxtFiles(entries) == [] ==> r == Success(EmptyDict())
    ensures r.Success? ==> r.value.Valid()
  {
    IndexOf(dirExists, entries, SplitIntoChunksAsWritten, embed)
  }

  /** The same loop with the chunker as intended. */
  function IntendedIndex(dirExists: bool, entries: seq<DirEntry>, embed: Embedder): (r: Result<Dict<seq<IndexedChunk>>>)
    requires OneVectorPerInput(embed)
    ensures !dirExists || TxtFiles(entries) == [] ==> r == Success(EmptyDict())
    ensures r.Success? ==> r.value.Valid()
  {
    IndexOf(dirExists, entries, IntendedChunks, embed)
  }

  /**
   * The script's `buildIndexFromTxts`: a missing directory and a directory
   * without `.txt` files both give `{}`; otherwise every file is indexed in
   * directory order. Reading the directory and the files is left to the caller.
   */
  method BuildIndexFromTxts(dirExists: bool, entries: seq<DirEntry>, embed: Embedder)
    returns (r: Result<Dict<seq<IndexedChunk>>>)
    requires OneVectorPerInput(embed)
    ensures r == ScriptIndex(dirExists, entries, embed)
  {
    if !dirExists {
      return Success(EmptyDict());
    }
    var files := TxtFiles(entries);
    if |files| == 0 {
      return Success(EmptyDict());
    }
    ghost var outs := ChunkOutcomes(FileKeys(files), FileChunks(files, SplitIntoChunksAsWritten), embed);
    var indices := EmptyDict<seq<IndexedChunk>>();
    for n := 0 to |files|
      invariant indices.Valid()
      invariant FoldIndex(outs, EmptyDict()) == FoldIndex(outs[n..], indices)
    {
      FoldIndexAt(outs, n, indices);
      OutcomeOfFile(files, SplitIntoChunksAsWritten, embed, n);
      var o := IndexScriptFile(files[n], embed);
      match o
      case Throw(e) =>
        return Failure(e);
      case Skip =>
      case Store(disc, es) =>
        indices := indices.Put(disc, es);
    }
    FoldIndexAt(outs, |files|, indices);
    return Success(indices);
  }

  /** The loop body for one file: the key, the chunks (or the chunker's error), the `continue` on no chunks, and the batch loop. */
  method IndexScriptFile(file: DirEntry, embed: Embedder) returns (o: FileOutcome)
    requires OneVectorPerInput(embed)
    ensures o == ChunkOutcome(DiscOf(file.name), SplitIntoChunksAsWritten(file.content), embed)
  {
    var disc := NormalizeName(BaseName(file.name));
    var chunked := SplitIntoChunksAsWritten(file.content);
    if chunked.Failure? {
      return Throw(chunked.error);
    }
    var chunks := chunked.value;
    if |chunks| == 0 {
      return Skip;
    }
    var embeddings := EmbedChunks(disc, chunks, embed);
    if embeddings.Failure? {
      return Throw(embeddings.error);
    }
    return Store(disc, embeddings.value);
  }

  // ----- What the built index holds -----

  /** Folding the outcomes completes exactly when every chunking succeeds and every file with chunks has all its batches embedded. */
  lemma FoldOutcomesSucceed(keys: seq<string>, chunked: seq<Result<seq<string>>>, embed: Embedder)
    requires OneVectorPerInput(embed) && |keys| == |chunked|
    ensures FoldIndex(ChunkOutcomes(keys, chunked, embed), EmptyDict()).Success? <==>
              forall i :: 0 <= i < |chunked| ==>
                chunked[i].Success? && (chunked[i].value != [] ==> Batched(keys[i], chunked[i].value, 0, embed).Success?)
  {
    var outs := ChunkOutcomes(keys, chunked, embed);
    FoldIndexSucceeds(outs, EmptyDict());
    forall i | 0 <= i < |chunked|
      ensures outs[i].Throw? <==> chunked[i].Failure? || (chunked[i].value != [] && Batched(keys[i], chunked[i].value, 0, embed).Failure?)
    {
      ChunkOutcomesAt(keys, chunked, embed, i);
    }
  }

  /** After a complete fold, a key is present exactly when some file with chunks has it. */
  lemma FoldOutcomesKeys(keys: seq<string>, chunked: seq<Result<seq<string>>>, embed: Embedder)
    requires OneVectorPerInput(embed) && |keys| == |chunked|
    requires FoldIndex(ChunkOutcomes(keys, chunked, embed), EmptyDict()).Success?
    ensures forall k :: k in FoldIndex(ChunkOutcomes(keys, chunked, embed), EmptyDict()).value.vals <==>
              exists i :: 0 <= i < |chunked| && chunked[i].Success? && chunked[i].value != [] && keys[i] == k
  {
    var outs := ChunkOutcomes(keys, chunked, embed);
    FoldIndexSucceeds(outs, EmptyDict());
    FoldIndexContents(outs, EmptyDict());
    forall i | 0 <= i < |outs|
      ensures outs[i].Store? <==> chunked[i].Success? && chunked[i].value != []
      ensures outs[i].Store? ==> outs[i].key == keys[i]
    {
      ChunkOutcomesAt(keys, chunked, embed, i);
    }
  }

  /** After a complete fold, key `k` holds the entries of the last file with chunks and that key. */
  lemma FoldOutcomesEntries(keys: seq<string>, chunked: seq<Result<seq<string>>>, embed: Embedder, k: string)
    requires OneVectorPerInput(embed) && |keys| == |chunked|
    requires FoldIndex(ChunkOutcomes(keys, chunked, embed), EmptyDict()).Success?
    requires k in FoldIndex(ChunkOutcomes(keys, chunked, embed), EmptyDict()).value.vals
    ensures var es := FoldIndex(ChunkOutcomes(keys, chunked, embed), EmptyDict()).value.vals[k];
      exists i ::
        && 0 <= i < |chunked| && chunked[i].Success? && chunked[i].value != [] && keys[i] == k
        && (forall j :: i < j < |chunked| && chunked[j].Success? && chunked[j].value != [] ==> keys[j] != k)
        && |es| == |chunked[i].value|
        && forall m :: 0 <= m < |es| ==> es[m].id == ChunkId(k, m) && es[m].text == chunked[i].value[m]
  {
    var outs := ChunkOutcomes(keys, chunked, embed);
    FoldIndexSucceeds(outs, EmptyDict());
    FoldIndexContents(outs, EmptyDict());
    var i := LastStore(outs, k).value;
    ChunkOutcomesAt(keys, chunked, embed, i);
    BatchedEntries(k, chunked[i].value, 0, embed);
    forall j | i < j < |chunked| && chunked[j].Success? && chunked[j].value != []
      ensures keys[j] != k
    {
      ChunkOutcomesAt(keys, chunked, embed, j);
    }
  }

  /**
   * The build completes exactly when every file's chunking succeeds and every
   * file with chunks has all its batches embedded.
   */
  lemma OutcomesSucceed(entries: seq<DirEntry>, chunk: Chunker, embed: Embedder)
    requires OneVectorPerInput(embed)
    ensures var files := TxtFiles(entries);
      IndexOf(true, entries, chunk, embed).Success? <==>
        forall i :: 0 <= i < |files| ==>
          && chunk(files[i].content).Success?
          && (chunk(files[i].content).value != [] ==> Batched(DiscOf(files[i].name), chunk(files[i].content).value, 0, embed).Success?)
  {
    var files := TxtFiles(entries);
    IndexFolds(entries, chunk, embed);
    FoldOutcomesSucceed(FileKeys(files), FileChunks(files, chunk), embed);
    forall i | 0 <= i < |files| ensures FileKeys(files)[i] == DiscOf(files[i].name) && FileChunks(files, chunk)[i] == chunk(files[i].content) {
      FileKeysAt(files, i);
      FileChunksAt(files, chunk, i);
    }
  }

  /** After a complete build, a key is present exactly when some file with chunks has it: a file with no chunk gets no key. */
  lemma OutcomesKeys(entries: seq<DirEntry>, chunk: Chunker, embed: Embedder)
    requires OneVectorPerInput(embed)
    requires IndexOf(true, entries, chunk, embed).Success?
    ensures var files := TxtFiles(entries);
      forall k :: k in IndexOf(true, entries, chunk, embed).value.vals <==>
        exists i :: 0 <= i < |files| && chunk(files[i].content).Success? && chunk(files[i].content).value != [] && DiscOf(files[i].name) == k
  {
    var files := TxtFiles(entries);
    IndexFolds(entries, chunk, embed);
    FoldOutcomesKeys(FileKeys(files), FileChunks(files, chunk), embed);
    forall i | 0 <= i < |files| ensures FileKeys(files)[i] == DiscOf(files[i].name) && FileChunks(files, chunk)[i] == chunk(files[i].content) {
      FileKeysAt(files, i);
      FileChunksAt(files, chunk, i);
    }
  }

  /**
   * After a complete build, key `k` holds the entries of the last file with
   * chunks and that key: entry `m` has id `${k}-${m}` and chunk `m` as text.
   */
  lemma OutcomesEntries(entries: seq<DirEntry>, chunk: Chunker, embed: Embedder, k: string)
    requires OneVectorPerInput(embed)
    requires IndexOf(true, entries, chunk, embed).Success?
    requires k in IndexOf(true, entries, chunk, embed).value.vals
    ensures var files := TxtFiles(entries);
      var chunked := FileChunks(files, chunk);
      var es := IndexOf(true, entries, chunk, embed).value.vals[k];
      exists i ::
        && 0 <= i < |files| && chunked[i].Success? && chunked[i].value != [] && DiscOf(files[i].name) == k
        && (forall j :: i < j < |files| && chunked[j].Success? && chunked[j].value != [] ==> DiscOf(files[j].name) != k)
        && |es| == |chunked[i].value|
        && forall m :: 0 <= m < |es| ==> es[m].id == ChunkId(k, m) && es[m].text == chunked[i].value[m]
  {
    var files := TxtFiles(entries);
    IndexFolds(entries, chunk, embed);
    FoldOutcomesEntries(FileKeys(files), FileChunks(files, chunk), embed, k);
    forall j | 0 <= j < |files| ensures FileKeys(files)[j] == DiscOf(files[j].name) {
      FileKeysAt(files, j);
    }
  }

  /** Where no file holds a marker, the script builds what the intended chunker would. */
  lemma IntendedAgreesWithoutMarkers(dirExists: bool, entries: seq<DirEntry>, embed: Embedder)
    requires OneVectorPerInput(embed)
    requires forall i, j :: 0 <= i < |TxtFiles(entries)| && 0 <= j < |TxtFiles(entries)[i].content| ==>
               MatchHere(Marker, TxtFiles(entries)[i].content[j..]).None?
    ensures ScriptIndex(dirExists, entries, embed) == IntendedIndex(dirExists, entries, embed)
  {
    var files := TxtFiles(entries);
    forall i | 0 <= i < |files|
      ensures FileChunks(files, SplitIntoChunksAsWritten)[i] == FileChunks(files, IntendedChunks)[i]
    {
      FileChunksAt(files, SplitIntoChunksAsWritten, i);
      FileChunksAt(files, IntendedChunks, i);
      AsWrittenAgreesWithoutMarkers(files[i].content);
    }
    assert FileChunks(files, SplitIntoChunksAsWritten) == FileChunks(files, IntendedChunks);
  }

  // ----- Single files -----

  /** A directory holding one `.txt` file: the script's files are that file. */
  lemma OneTxtFile(f: DirEntry)
    requires EndsWith(f.name, ".txt")
    ensures TxtFiles([f]) == [f]
  {
    assert [f][1..] == [];
  }

  /** The outcome of a directory holding one `.txt` file is that file's outcome alone. */
  lemma OneFileIndex(f: DirEntry, chunk: Chunker, embed: Embedder)
    requires OneVectorPerInput(embed) && EndsWith(f.name, ".txt")
    ensures var o := ChunkOutcome(DiscOf(f.name), chunk(f.content), embed);
      IndexOf(true, [f], chunk, embed) == FoldIndex([o], EmptyDict())
  {
    OneTxtFile(f);
    OutcomeOfFile([f], chunk, embed, 0);
  }

  /**
   * A file of a line `a` and then a `Titulo:`, `Título:` or `Enunciado:`
   * line makes the script throw the chunker's TypeError, whatever the
   * embedding service does: "a\nTítulo: x" does.
   */
  lemma LabelFileThrows(name: string, a: string, u: string, embed: Embedder)
    requires OneVectorPerInput(embed) && EndsWith(name, ".txt")
    requires forall k :: 0 <= k < |a| ==> a[k] != '\n'
    requires forall k :: 0 <= k < |u| ==> u[k] != '\n'
    requires LabelMarker(u)
    ensures ScriptIndex(true, [DirEntry(name, a + "\n" + u)], embed) == Failure(TypeErrorTrim())
  {
    LabelMarkerThrows(a, u);
    OneFileIndex(DirEntry(name, a + "\n" + u), SplitIntoChunksAsWritten, embed);
  }

  /** With the intended chunker, such a file, or one whose second line is a `Questão N` marker, is stored as the two lines. */
  lemma MarkerFileIntended(name: string, a: string, u: string, embed: Embedder)
    requires OneVectorPerInput(embed) && EndsWith(name, ".txt")
    requires forall k :: 0 <= k < |a| ==> a[k] != '\n'
    requires forall k :: 0 <= k < |u| ==> u[k] != '\n'
    requires IsChunk(a) && IsChunk(u) && MarkerCaptures(u).Some?
    requires embed([a, u]).Success?
    ensures var r := IntendedIndex(true, [DirEntry(name, a + "\n" + u)], embed);
      && r.Success? && r.value.keys == [DiscOf(name)]
      && |r.value.vals[DiscOf(name)]| == 2
      && r.value.vals[DiscOf(name)][0].text == a && r.value.vals[DiscOf(name)][1].text == u
  {
    MarkerLineChunks(a, u);
    OneFileIndex(DirEntry(name, a + "\n" + u), IntendedChunks, embed);
    StoredAlone(DiscOf(name), [a, u], embed);
  }

  /**
   * A file of a line `a` and then a `Questão N` line is stored, as written,
   * as four entries: `a`, the marker text, the captured vowel, and the marker
   * line: "a\nQuestao 1" gives "a", "Questao 1", "a", "Questao 1".
   */
  lemma QuestionFileEntries(name: string, a: string, u: string, e: nat, embed: Embedder)
    requires OneVectorPerInput(embed) && EndsWith(name, ".txt")
    requires forall k :: 0 <= k < |a| ==> a[k] != '\n'
    requires forall k :: 0 <= k < |u| ==> u[k] != '\n'
    requires IsChunk(a) && IsChunk(u) && QuestionMarkerLength(u) == Some(e)
    requires embed([a, u[..e], [u[5]], u]).Success?
    ensures var r := ScriptIndex(true, [DirEntry(name, a + "\n" + u)], embed);
      && r.Success? && r.value.keys == [DiscOf(name)]
      && var es := r.value.vals[DiscOf(name)];
         && |es| == 4
         && es[0].text == a && es[1].text == u[..e] && es[2].text == [u[5]] && es[3].text == u
  {
    QuestionMarkerSplices(a, u, e);
    OneFileIndex(DirEntry(name, a + "\n" + u), SplitIntoChunksAsWritten, embed);
    StoredAlone(DiscOf(name), [a, u[..e], [u[5]], u], embed);
  }

  /** A file of at most eight chunks, all embedded, is stored under its key alone with those chunks as texts. */
  lemma StoredAlone(disc: string, chunks: seq<string>, embed: Embedder)
    requires OneVectorPerInput(embed) && 0 < |chunks| <= BatchSize && embed(chunks).Success?
    ensures var r := FoldIndex([ChunkOutcome(disc, Success(chunks), embed)], EmptyDict());
      && r.Success? && r.value.keys == [disc]
      && |r.value.vals[disc]| == |chunks|
      && forall m :: 0 <= m < |chunks| ==> r.value.vals[disc][m].text == chunks[m]
  {
    assert BatchAt(chunks, 0) == chunks;
    var es := BatchEntries(disc, 0, chunks, embed(chunks).value);
    assert Batched(disc, chunks, 0, embed) == Success(es + []);
    assert es + [] == es;
    var o := ChunkOutcome(disc, Success(chunks), embed);
    assert o == Store(disc, es);
    assert [o][1..] == [];
  }

  // ----- The script as written -----

  /** What calling the undeclared `embedTexts` throws. */
  function EmbedTextsNotDefined(): string {
    "ReferenceError: embedTexts is not defined"
  }

  /** The script's `embedTexts(batch)`: every call throws, since the name is bound nowhere in the script. */
  function UndefinedEmbedTexts(): (embed: Embedder)
    ensures OneVectorPerInput(embed)
    ensures forall batch :: embed(batch) == Failure(EmbedTextsNotDefined())
  {
    (batch: seq<string>) => Failure(EmbedTextsNotDefined())
  }

  /** build_index.js as written: its own chunker and its undeclared embedding call. */
  function BuildIndexAsWritten(dirExists: bool, entries: seq<DirEntry>): (r: Result<Dict<seq<IndexedChunk>>>)
    ensures r.Success? ==> r.value.Valid()
  {
    ScriptIndex(dirExists, entries, UndefinedEmbedTexts())
  }

  /** Outcomes that skip up to a throw make the fold throw that error. */
  lemma {:induction false} FoldThrowsFirst(outs: seq<FileOutcome>, acc: Dict<seq<IndexedChunk>>, i: nat)
    requires acc.Valid() && i < |outs| && outs[i].Throw?
    requires forall h :: 0 <= h < i ==> outs[h].Skip?
    ensures FoldIndex(outs, acc) == Failure(outs[i].error)
    decreases i
  {
    if i > 0 {
      assert outs[0].Skip?;
      FoldThrowsFirst(outs[1..], acc, i - 1);
    }
  }

  /**
   * As written, the script throws at the first `.txt` file that does not come
   * out empty: the chunker's TypeError when its chunking throws, and the
   * ReferenceError of `embedTexts` when it yields chunks.
   */
  lemma AsWrittenThrowsOnChunks(entries: seq<DirEntry>, i: nat)
    requires i < |TxtFiles(entries)|
    requires SplitIntoChunksAsWritten(TxtFiles(entries)[i].content) != Success([])
    requires forall h :: 0 <= h < i ==> SplitIntoChunksAsWritten(TxtFiles(entries)[h].content) == Success([])
    ensures BuildIndexAsWritten(true, entries) ==
              Failure(if SplitIntoChunksAsWritten(TxtFiles(entries)[i].content).Failure? then TypeErrorTrim() else EmbedTextsNotDefined())
  {
    var embed := UndefinedEmbedTexts();
    var files := TxtFiles(entries);
    var outs := ChunkOutcomes(FileKeys(files), FileChunks(files, SplitIntoChunksAsWritten), embed);
    forall h | 0 <= h < i
      ensures outs[h].Skip?
    {
      OutcomeOfFile(files, SplitIntoChunksAsWritten, embed, h);
    }
    OutcomeOfFile(files, SplitIntoChunksAsWritten, embed, i);
    FoldThrowsFirst(outs, EmptyDict(), i);
  }

  /** A text without a line break is a single chunk on every rule. */
  lemma OneLineOneChunk(u: string)
    requires u != "" && IsTrimmed(u) && forall k :: 0 <= k < |u| ==> u[k] != '\n'
    ensures SplitIntoChunks(u) == [u]
    ensures SplitIntoChunksAsWritten(u) == Success([u])
  {
    NoNewlineNoCut(DashLine, u);
    NoNewlineNoCut(MarkerBoundary, u);
    NoNewlineNoCut(BlankLine, u);
    ChunksOnSegments(DashLine, u);
    ChunksOnSegments(MarkerBoundary, u);
    ChunksOnSegments(BlankLine, u);
    assert Trim(u) == u;
    var parts := [Some(u)];
    assert parts[1..] == [];
    assert Segments(parts[1..]) == Success([]);
    assert [Trim(u)] + [] == [u];
    assert Segments(parts) == Success([u]);
    NoNewlineNoCut(Marker, u);
  }

  /** A directory holding `matematica.txt` with the text "a" makes the script as written throw the ReferenceError. */
  lemma AsWrittenFailsOnOneFile()
    ensures BuildIndexAsWritten(true, [DirEntry("matematica.txt", "a")]) == Failure(EmbedTextsNotDefined())
  {
    var f := DirEntry("matematica.txt", "a");
    assert f.name[|f.name| - 4..] == ".txt";
    OneTxtFile(f);
    OneLineOneChunk("a");
    AsWrittenThrowsOnChunks([f], 0);
  }
}
