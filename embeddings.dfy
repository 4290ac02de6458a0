/**
 * The server's retrieval index (server/services/embeddings.ts): the
 * length-bounded paragraph packer that cuts a corpus file into chunks, the
 * index assembly that gives every chunk an id and a vector, and the
 * top-k retrieval by similarity score.
 *
 * The embedding service is a function from a batch of texts to either the
 * vectors or an error; cosine similarity is an abstract score function.
 */
module Embeddings {
  import opened Wrappers
  import opened Js
  import opened RegexSplit
  import opened Text

  /** A chunk's text may exceed this only when it is a single paragraph. */
  const MaxChunkLength: nat := 1200

  const ParagraphSeparator: string := "\n\n"

  // ----- splitIntoChunksSmart -----

  /** `text.split(/\n\n+/).map(s => s.trim()).filter(Boolean)`. */
  function Paragraphs(text: string): (r: seq<string>)
    ensures forall i :: 0 <= i < |r| ==> IsChunk(r[i])
  {
    ChunksOn(ParagraphBreak, text)
  }

  /**
   * The packer's state after some paragraphs, with each chunk seen as the
   * paragraphs it holds: `closed` are the chunks already pushed, `open` the
   * paragraphs in `buf`.
   */
  datatype Packing = Packing(closed: seq<seq<string>>, open: seq<string>)

  /** The text of a chunk made of paragraphs `g`. */
  function ChunkText(g: seq<string>): string {
    Join(g, ParagraphSeparator)
  }

  function ChunkTexts(gs: seq<seq<string>>): (r: seq<string>)
    ensures |r| == |gs| && forall i :: 0 <= i < |gs| ==> r[i] == ChunkText(gs[i])
  {
    seq(|gs|, i requires 0 <= i < |gs| => ChunkText(gs[i]))
  }

  /** Appending `p` to a chunk holding `g` would make it longer than the limit. */
  predicate Overflows(g: seq<string>, p: string) {
    Utf16Length(ChunkText(g) + ParagraphSeparator + p) > MaxChunkLength
  }

  /** One turn of the loop body, on paragraph `p`. */
  function Step(st: Packing, p: string): Packing {
    var buf := ChunkText(st.open);
    if Overflows(st.open, p) then
      Packing(if buf != "" then st.closed + [st.open] else st.closed, [p])
    else
      Packing(st.closed, if buf != "" then st.open + [p] else [p])
  }

  /** The state after the loop has run over all of `paras`. */
  function PackAll(paras: seq<string>): Packing
    decreases |paras|
  {
    if paras == [] then Packing([], [])
    else Step(PackAll(paras[..|paras| - 1]), paras[|paras| - 1])
  }

  /** The chunks as groups of paragraphs, the final `buf` pushed when non-empty. */
  function Groups(paras: seq<string>): seq<seq<string>> {
    var st := PackAll(paras);
    if ChunkText(st.open) != "" then st.closed + [st.open] else st.closed
  }

  /** What `splitIntoChunksSmart(text)` returns. */
  function SmartChunks(text: string): seq<string> {
    ChunkTexts(Groups(Paragraphs(text)))
  }

  method SplitIntoChunksSmart(text: string) returns (chunks: seq<string>)
    ensures chunks == SmartChunks(text)
  {
    var para := Paragraphs(text);
    chunks := [];
    var buf := "";
    ghost var st := Packing([], []);
    for i := 0 to |para|
      invariant st == PackAll(para[..i])
      invariant chunks == ChunkTexts(st.closed) && buf == ChunkText(st.open)
    {
      var p := para[i];
      PackAllSnoc(para, i);
      StepTexts(st, p);
      if Utf16Length(buf + "\n\n" + p) > 1200 {
        if buf != "" {
          chunks := chunks + [buf];
        }
        buf := p;
      } else {
        buf := if buf != "" then buf + "\n\n" + p else p;
      }
      st := Step(st, p);
    }
    assert para[..|para|] == para;
    if buf != "" {
      ChunkTextsSnoc(st.closed, st.open);
      chunks := chunks + [buf];
    }
  }

  lemma PackAllSnoc(paras: seq<string>, i: nat)
    requires i < |paras|
    ensures PackAll(paras[..i + 1]) == Step(PackAll(paras[..i]), paras[i])
  {
    assert paras[..i + 1][..i] == paras[..i];
  }

  lemma ChunkTextsSnoc(gs: seq<seq<string>>, g: seq<string>)
    ensures ChunkTexts(gs + [g]) == ChunkTexts(gs) + [ChunkText(g)]
  {
  }

  /** `Step` read on the strings the loop keeps: the pushed chunks and `buf`. */
  lemma StepTexts(st: Packing, p: string)
    ensures var buf := ChunkText(st.open);
      && Overflows(st.open, p) == (Utf16Length(buf + "\n\n" + p) > 1200)
      && ChunkTexts(Step(st, p).closed)
         == (if Overflows(st.open, p) && buf != "" then ChunkTexts(st.closed) + [buf] else ChunkTexts(st.closed))
      && ChunkText(Step(st, p).open)
         == (if Overflows(st.open, p) || buf == "" then p else buf + "\n\n" + p)
  {
    var buf := ChunkText(st.open);
    if Overflows(st.open, p) && buf != "" {
      ChunkTextsSnoc(st.closed, st.open);
    }
    if !Overflows(st.open, p) && buf != "" {
      JoinConcat(st.open, [p], ParagraphSeparator);
    }
  }

  /** The paragraphs of some groups, in order. */
  function Flatten(gs: seq<seq<string>>): seq<string>
    decreases |gs|
  {
    if gs == [] then [] else Flatten(gs[..|gs| - 1]) + gs[|gs| - 1]
  }

  predicate NonEmptyStrings(xs: seq<string>) {
    forall i :: 0 <= i < |xs| ==> xs[i] != ""
  }

  /** What holds of the packer's state after each paragraph. */
  predicate PackingInv(st: Packing, paras: seq<string>) {
    && Covers(st, paras) && Starts(st) && Fits(st)
    && (st.closed != [] ==> st.open != [])
    && Breaks(st)
  }

  /** The closed chunks and the open one hold `paras`, in order. */
  predicate Covers(st: Packing, paras: seq<string>) {
    && Flatten(st.closed) + st.open == paras
    && (st.open == [] <==> paras == [])
  }

  /** Every chunk starts with a non-empty paragraph. */
  predicate Starts(st: Packing) {
    && (forall j :: 0 <= j < |st.closed| ==> st.closed[j] != [] && st.closed[j][0] != "")
    && (st.open != [] ==> st.open[0] != "")
  }

  /** A chunk of two or more paragraphs is within the limit. */
  predicate Fits(st: Packing) {
    && (forall j :: 0 <= j < |st.closed| && |st.closed[j]| >= 2 ==> Utf16Length(ChunkText(st.closed[j])) <= MaxChunkLength)
    && (|st.open| >= 2 ==> Utf16Length(ChunkText(st.open)) <= MaxChunkLength)
  }

  /** A chunk was closed because the next chunk's first paragraph would have overflowed it. */
  predicate Breaks(st: Packing)
    requires Starts(st) && (st.closed != [] ==> st.open != [])
  {
    && (forall j :: 0 <= j < |st.closed| - 1 ==> Overflows(st.closed[j], st.closed[j + 1][0]))
    && (|st.closed| > 0 ==> Overflows(st.closed[|st.closed| - 1], st.open[0]))
  }

  lemma ChunkTextNonEmpty(g: seq<string>)
    requires g != [] && g[0] != ""
    ensures ChunkText(g) != ""
  {
    if |g| > 1 {
      assert ChunkText(g) == g[0] + ParagraphSeparator + ChunkText(g[1..]);
    }
  }

  lemma {:induction false} PackAllInv(paras: seq<string>)
    requires NonEmptyStrings(paras)
    ensures PackingInv(PackAll(paras), paras)
    decreases |paras|
  {
    if paras != [] {
      var init := paras[..|paras| - 1];
      var p := paras[|paras| - 1];
      assert paras == init + [p];
      PackAllInv(init);
      StepKeepsInv(PackAll(init), init, p);
    }
  }

  lemma StepKeepsInv(st: Packing, paras: seq<string>, p: string)
    requires PackingInv(st, paras) && p != ""
    ensures PackingInv(Step(st, p), paras + [p])
  {
    if st.open != [] {
      ChunkTextNonEmpty(st.open);
    } else {
      ClosedEmptyWhenNothingOpen(st, paras);
    }
    if Overflows(st.open, p) {
      CloseKeepsInv(st, paras, p);
    } else {
      ExtendKeepsInv(st, paras, p);
    }
  }

  /** The overflow branch: `buf` is pushed and a new chunk starts with `p`. */
  lemma CloseKeepsInv(st: Packing, paras: seq<string>, p: string)
    requires PackingInv(st, paras) && p != ""
    requires Overflows(st.open, p)
    requires st.open == [] ==> st.closed == []
    ensures PackingInv(Step(st, p), paras + [p])
  {
    if st.open != [] {
      ChunkTextNonEmpty(st.open);
      var next := Packing(st.closed + [st.open], [p]);
      assert Step(st, p) == next;
      CloseCovers(st, paras, p);
      CloseStarts(st, p);
      CloseFits(st, p);
      CloseBreaks(st, p);
    } else {
      assert Step(st, p) == Packing([], [p]);
    }
  }

  lemma CloseCovers(st: Packing, paras: seq<string>, p: string)
    requires Covers(st, paras) && st.open != []
    ensures Covers(Packing(st.closed + [st.open], [p]), paras + [p])
  {
    var c := st.closed + [st.open];
    assert c[..|c| - 1] == st.closed;
  }

  lemma CloseStarts(st: Packing, p: string)
    requires Starts(st) && st.open != [] && p != ""
    ensures Starts(Packing(st.closed + [st.open], [p]))
  {
  }

  lemma CloseFits(st: Packing, p: string)
    requires Fits(st)
    ensures Fits(Packing(st.closed + [st.open], [p]))
  {
  }

  lemma CloseBreaks(st: Packing, p: string)
    requires Starts(st) && st.open != [] && p != "" && Breaks(st) && Overflows(st.open, p)
    ensures Breaks(Packing(st.closed + [st.open], [p]))
  {
    CloseBreaksAll(st);
  }

  /** The fitting branch: `p` joins the open chunk. */
  lemma ExtendKeepsInv(st: Packing, paras: seq<string>, p: string)
    requires PackingInv(st, paras) && p != ""
    requires !Overflows(st.open, p)
    requires st.open == [] ==> st.closed == []
    ensures PackingInv(Step(st, p), paras + [p])
  {
    if st.open != [] {
      ChunkTextNonEmpty(st.open);
      assert Step(st, p) == Packing(st.closed, st.open + [p]);
      ExtendCovers(st, paras, p);
      ExtendFits(st, p);
      assert (st.open + [p])[0] == st.open[0];
    } else {
      assert Step(st, p) == Packing([], [p]);
    }
  }

  lemma ExtendCovers(st: Packing, paras: seq<string>, p: string)
    requires Covers(st, paras) && st.open != []
    ensures Covers(Packing(st.closed, st.open + [p]), paras + [p])
  {
  }

  lemma ExtendFits(st: Packing, p: string)
    requires Fits(st) && st.open != [] && !Overflows(st.open, p)
    ensures Fits(Packing(st.closed, st.open + [p]))
  {
    JoinConcat(st.open, [p], ParagraphSeparator);
  }

  lemma ClosedEmptyWhenNothingOpen(st: Packing, paras: seq<string>)
    requires PackingInv(st, paras) && st.open == []
    ensures st.closed == []
  {
  }

  /**
   * The chunk structure: the chunks hold all paragraphs in order, none is
   * empty, a chunk of two or more paragraphs stays within the limit, and a
   * chunk was closed only because its successor's first paragraph would
   * have pushed it over the limit.
   */
  lemma GroupsProperties(paras: seq<string>)
    requires NonEmptyStrings(paras)
    ensures Flatten(Groups(paras)) == paras
    ensures forall j :: 0 <= j < |Groups(paras)| ==> Groups(paras)[j] != [] && Groups(paras)[j][0] != ""
    ensures forall j :: 0 <= j < |Groups(paras)| && |Groups(paras)[j]| >= 2 ==>
              Utf16Length(ChunkText(Groups(paras)[j])) <= MaxChunkLength
    ensures forall j :: 0 <= j < |Groups(paras)| - 1 ==> Overflows(Groups(paras)[j], Groups(paras)[j + 1][0])
  {
    PackAllInv(paras);
    var st := PackAll(paras);
    if st.open != [] {
      ChunkTextNonEmpty(st.open);
      assert Groups(paras) == st.closed + [st.open];
      ClosedGroups(st, paras);
    } else {
      ClosedEmptyWhenNothingOpen(st, paras);
      assert Groups(paras) == [];
    }
  }

  /** The final state's groups, once the open chunk is pushed, keep the invariant's properties. */
  lemma ClosedGroups(st: Packing, paras: seq<string>)
    requires PackingInv(st, paras) && st.open != []
    ensures var g := st.closed + [st.open];
      && Flatten(g) == paras
      && (forall j :: 0 <= j < |g| ==> g[j] != [] && g[j][0] != "")
      && (forall j :: 0 <= j < |g| && |g[j]| >= 2 ==> Utf16Length(ChunkText(g[j])) <= MaxChunkLength)
      && (forall j :: 0 <= j < |g| - 1 ==> Overflows(g[j], g[j + 1][0]))
  {
    var g := st.closed + [st.open];
    assert g[..|g| - 1] == st.closed;
    CloseBreaksAll(st);
  }

  lemma CloseBreaksAll(st: Packing)
    requires Starts(st) && st.open != [] && Breaks(st)
    ensures var g := st.closed + [st.open];
      forall j :: 0 <= j < |g| - 1 ==> Overflows(g[j], g[j + 1][0])
  {
    var g := st.closed + [st.open];
    forall j | 0 <= j < |g| - 1
      ensures Overflows(g[j], g[j + 1][0])
    {
      assert g[j] == st.closed[j];
      if j + 1 < |st.closed| {
        assert g[j + 1] == st.closed[j + 1];
      } else {
        assert g[j + 1] == st.open;
      }
    }
  }

  /** Joining chunks of non-empty paragraph groups is joining their paragraphs. */
  lemma {:induction false} JoinFlatten(gs: seq<seq<string>>)
    requires forall j :: 0 <= j < |gs| ==> gs[j] != []
    ensures Join(ChunkTexts(gs), ParagraphSeparator) == Join(Flatten(gs), ParagraphSeparator)
    decreases |gs|
  {
    if |gs| > 1 {
      var init := gs[..|gs| - 1];
      var last := gs[|gs| - 1];
      JoinFlatten(init);
      assert ChunkTexts(gs) == ChunkTexts(init) + [ChunkText(last)];
      JoinConcat(ChunkTexts(init), [ChunkText(last)], ParagraphSeparator);
      FlattenNonEmpty(init);
      JoinConcat(Flatten(init), last, ParagraphSeparator);
    } else if |gs| == 1 {
      assert gs[..0] == [];
      assert Flatten(gs) == gs[0];
    }
  }

  lemma {:induction false} FlattenNonEmpty(gs: seq<seq<string>>)
    requires gs != [] && forall j :: 0 <= j < |gs| ==> gs[j] != []
    ensures Flatten(gs) != []
  {
    assert Flatten(gs) == Flatten(gs[..|gs| - 1]) + gs[|gs| - 1];
  }

  /**
   * `splitIntoChunksSmart` loses, reorders and splits no paragraph: its
   * chunks are non-empty and rejoin to the paragraphs joined by a blank line.
   */
  lemma SmartChunksKeepParagraphs(text: string)
    ensures forall i :: 0 <= i < |SmartChunks(text)| ==> SmartChunks(text)[i] != ""
    ensures Join(SmartChunks(text), ParagraphSeparator) == Join(Paragraphs(text), ParagraphSeparator)
  {
    var paras := Paragraphs(text);
    GroupsProperties(paras);
    var gs := Groups(paras);
    forall i | 0 <= i < |gs| {
      ChunkTextNonEmpty(gs[i]);
    }
    JoinFlatten(gs);
  }

  /**
   * The size rule of `splitIntoChunksSmart`: every chunk is a run of
   * consecutive paragraphs; only a single paragraph may exceed the limit;
   * and a chunk ends only where the next paragraph would not have fit.
   */
  lemma SmartChunksBounded(text: string)
    ensures var gs := Groups(Paragraphs(text));
      && Flatten(gs) == Paragraphs(text)
      && SmartChunks(text) == ChunkTexts(gs)
      && (forall j :: 0 <= j < |gs| ==> gs[j] != [])
      && (forall j :: 0 <= j < |gs| && Utf16Length(SmartChunks(text)[j]) > MaxChunkLength ==> |gs[j]| == 1)
      && (forall j :: 0 <= j < |gs| - 1 ==>
            Utf16Length(SmartChunks(text)[j] + ParagraphSeparator + gs[j + 1][0]) > MaxChunkLength)
  {
    GroupsProperties(Paragraphs(text));
  }

  // ----- buildIndexFromTxts -----

  type Vector = seq<real>

  /** The embedding service: the vectors of a batch of texts, or the error it throws. */
  type Embedder = seq<string> -> Result<seq<Vector>>

  /** The service answers every batch it accepts with one vector per text. */
  ghost predicate OneVectorPerInput(embed: Embedder) {
    forall batch :: embed(batch).Success? ==> |embed(batch).value| == |batch|
  }

  datatype IndexedChunk = IndexedChunk(id: string, text: string, embedding: Vector)

  /** `${disc}-${i}`. */
  function ChunkId(disc: string, i: nat): string {
    disc + "-" + NatToString(i)
  }

  /** Two entries of one discipline never share an id. */
  lemma ChunkIdsDistinct(disc: string, i: nat, j: nat)
    requires i != j
    ensures ChunkId(disc, i) != ChunkId(disc, j)
  {
    if ChunkId(disc, i) == ChunkId(disc, j) {
      var n := |disc| + 1;
      assert NatToString(i) == ChunkId(disc, i)[n..];
      assert NatToString(j) == ChunkId(disc, j)[n..];
      NatToStringInjective(i, j);
    }
  }

  /** `chunks.map((t, i) => ({ id: `${disc}-${i}`, text: t, embedding: vecs[i] }))`. */
  function Entries(disc: string, chunks: seq<string>, vecs: seq<Vector>): (r: seq<IndexedChunk>)
    requires |vecs| == |chunks|
    ensures |r| == |chunks|
    ensures forall i :: 0 <= i < |r| ==> r[i].id == ChunkId(disc, i) && r[i].text == chunks[i] && r[i].embedding == vecs[i]
  {
    seq(|chunks|, i requires 0 <= i < |chunks| => IndexedChunk(ChunkId(disc, i), chunks[i], vecs[i]))
  }

  /** A directory entry: its file name and, for a file, its text. */
  datatype DirEntry = DirEntry(name: string, content: string)

  predicate EndsWith(s: string, suffix: string) {
    |suffix| <= |s| && s[|s| - |suffix|..] == suffix
  }

  /** `fs.readdirSync(dir).filter(f => f.endsWith(".txt"))`. */
  function TxtFiles(entries: seq<DirEntry>): (r: seq<DirEntry>)
    ensures forall i :: 0 <= i < |r| ==> EndsWith(r[i].name, ".txt")
    ensures |r| <= |entries|
  {
    if entries == [] then []
    else (if EndsWith(entries[0].name, ".txt") then [entries[0]] else []) + TxtFiles(entries[1..])
  }

  /** The filter keeps exactly the entries named `*.txt`. */
  lemma {:induction false} TxtFilesMembers(entries: seq<DirEntry>)
    ensures forall e :: e in TxtFiles(entries) <==> e in entries && EndsWith(e.name, ".txt")
    decreases |entries|
  {
    if entries != [] {
      TxtFilesMembers(entries[1..]);
      assert entries == [entries[0]] + entries[1..];
    }
  }

  /**
   * `path.basename(file, ".txt")` of a name read from the directory, which holds no `/`:
   * the suffix is cut wherever the name ends with it, so ".txt" itself gives "".
   */
  function BaseName(file: string): (r: string)
    ensures EndsWith(file, ".txt") ==> r + ".txt" == file
    ensures !EndsWith(file, ".txt") ==> r == file
  {
    if EndsWith(file, ".txt") then file[..|file| - 4] else file
  }

  /** The index key of a `.txt` file. */
  function DiscOf(file: string): string
  {
    NormalizeName(BaseName(file))
  }

  /** What the loop body does with one file: store entries under a key, skip the file, or throw. */
  datatype FileOutcome = Store(key: string, entries: seq<IndexedChunk>) | Skip | Throw(error: string)

  /** The `indices` object after the loop has handled `outs` on top of `acc`, or the first error thrown. */
  function FoldIndex(outs: seq<FileOutcome>, acc: Dict<seq<IndexedChunk>>): (r: Result<Dict<seq<IndexedChunk>>>)
    requires acc.Valid()
    ensures r.Success? ==> r.value.Valid()
    decreases |outs|
  {
    if outs == [] then Success(acc)
    else match outs[0]
      case Throw(e) => Failure(e)
      case Skip => FoldIndex(outs[1..], acc)
      case Store(k, es) => FoldIndex(outs[1..], acc.Put(k, es))
  }

  /** The position of the last outcome storing under key `k`. */
  function LastStore(outs: seq<FileOutcome>, k: string): (r: Option<nat>)
    ensures r.Some? ==> r.value < |outs| && outs[r.value] .Store? && outs[r.value].key == k
    ensures r.Some? ==> forall j :: r.value < j < |outs| ==> !(outs[j].Store? && outs[j].key == k)
    ensures r.None? <==> forall j :: 0 <= j < |outs| ==> !(outs[j].Store? && outs[j].key == k)
    decreases |outs|
  {
    if outs == [] then None
    else if outs[|outs| - 1].Store? && outs[|outs| - 1].key == k then Some(|outs| - 1)
    else
      var r := LastStore(outs[..|outs| - 1], k);
      assert forall j :: 0 <= j < |outs| - 1 ==> outs[..|outs| - 1][j] == outs[j];
      r
  }

  predicate NoThrow(outs: seq<FileOutcome>) {
    forall j :: 0 <= j < |outs| ==> !outs[j].Throw?
  }

  /** The loop completes exactly when no file throws. */
  lemma {:induction false} FoldIndexSucceeds(outs: seq<FileOutcome>, acc: Dict<seq<IndexedChunk>>)
    requires acc.Valid()
    ensures FoldIndex(outs, acc).Success? <==> NoThrow(outs)
    decreases |outs|
  {
    if outs != [] {
      assert forall j :: 1 <= j < |outs| ==> outs[1..][j - 1] == outs[j];
      match outs[0]
      case Throw(e) =>
      case Skip => FoldIndexSucceeds(outs[1..], acc);
      case Store(k, es) => FoldIndexSucceeds(outs[1..], acc.Put(k, es));
    }
  }

  /** Each key holds what the last file stored under it; keys no file stored keep their old value. */
  ghost predicate StoredLast(d: Dict<seq<IndexedChunk>>, outs: seq<FileOutcome>, acc: Dict<seq<IndexedChunk>>) {
    forall k ::
      && (k in d.vals <==> k in acc.vals || LastStore(outs, k).Some?)
      && (LastStore(outs, k).Some? ==> d.vals[k] == outs[LastStore(outs, k).value].entries)
      && (LastStore(outs, k).None? && k in acc.vals ==> d.vals[k] == acc.vals[k])
  }

  lemma {:induction false} FoldIndexContents(outs: seq<FileOutcome>, acc: Dict<seq<IndexedChunk>>)
    requires acc.Valid() && FoldIndex(outs, acc).Success?
    ensures StoredLast(FoldIndex(outs, acc).value, outs, acc)
    decreases |outs|
  {
    if outs != [] {
      var rest := outs[1..];
      var d := FoldIndex(outs, acc).value;
      match outs[0]
      case Skip =>
        FoldIndexContents(rest, acc);
        forall k ensures LastStore(outs, k) == ShiftStore(LastStore(rest, k)) {
          LastStoreCons(outs, k);
        }
      case Store(key, es) =>
        var acc' := acc.Put(key, es);
        FoldIndexContents(rest, acc');
        forall k ensures LastStore(rest, k).Some? ==> LastStore(outs, k) == ShiftStore(LastStore(rest, k))
          ensures LastStore(rest, k).None? ==> LastStore(outs, k) == (if k == key then Some(0) else None)
        {
          LastStoreCons(outs, k);
        }
    }
  }

  function ShiftStore(r: Option<nat>): Option<nat> {
    if r.Some? then Some(r.value + 1) else None
  }

  lemma LastStoreCons(outs: seq<FileOutcome>, k: string)
    requires outs != []
    ensures var later := LastStore(outs[1..], k);
      LastStore(outs, k) ==
        if later.Some? then Some(later.value + 1)
        else if outs[0].Store? && outs[0].key == k then Some(0)
        else None
  {
    var later := LastStore(outs[1..], k);
    assert forall j :: 1 <= j < |outs| ==> outs[1..][j - 1] == outs[j];
    if later.None? && !(outs[0].Store? && outs[0].key == k) {
      assert LastStore(outs, k).None?;
    }
  }

  /** What embedding `chunks` contributes under `key`: the entries, or the service's error. */
  function EmbedOutcome(key: string, chunks: seq<string>, embed: Embedder): (r: FileOutcome)
    requires OneVectorPerInput(embed)
    ensures r.Throw? <==> embed(chunks).Failure?
    ensures r.Store? ==> r.key == key && r.entries == Entries(key, chunks, embed(chunks).value)
  {
    match embed(chunks)
    case Failure(e) => Throw(e)
    case Success(vecs) => Store(key, Entries(key, chunks, vecs))
  }

  /** The outcome of each file, given each file's key and chunks. */
  function EmbedOutcomes(keys: seq<string>, chunks: seq<seq<string>>, embed: Embedder): (r: seq<FileOutcome>)
    requires OneVectorPerInput(embed) && |keys| == |chunks|
    ensures |r| == |keys| && forall i :: 0 <= i < |keys| ==> r[i] == EmbedOutcome(keys[i], chunks[i], embed)
  {
    seq(|keys|, i requires 0 <= i < |keys| => EmbedOutcome(keys[i], chunks[i], embed))
  }

  /** The key of each file. */
  function FileKeys(files: seq<DirEntry>): (r: seq<string>)
    ensures |r| == |files|
    decreases |files|
  {
    if files == [] then [] else [DiscOf(files[0].name)] + FileKeys(files[1..])
  }

  lemma {:induction false} FileKeysAt(files: seq<DirEntry>, i: nat)
    requires i < |files|
    ensures FileKeys(files)[i] == DiscOf(files[i].name)
    decreases i
  {
    if i > 0 {
      FileKeysAt(files[1..], i - 1);
    }
  }

  /** The chunks of each file, as the server cuts them. */
  function FileSmartChunks(files: seq<DirEntry>): (r: seq<seq<string>>)
    ensures |r| == |files|
    decreases |files|
  {
    if files == [] then [] else [SmartChunks(files[0].content)] + FileSmartChunks(files[1..])
  }

  lemma {:induction false} FileSmartChunksAt(files: seq<DirEntry>, i: nat)
    requires i < |files|
    ensures FileSmartChunks(files)[i] == SmartChunks(files[i].content)
    decreases i
  {
    if i > 0 {
      FileSmartChunksAt(files[1..], i - 1);
    }
  }

  function ReadDirError(): string {
    "ENOENT"
  }

  /** What the server's `buildIndexFromTxts` returns (or throws). */
  function ServerIndex(dirExists: bool, entries: seq<DirEntry>, embed: Embedder): (r: Result<Dict<seq<IndexedChunk>>>)
    requires OneVectorPerInput(embed)
    ensures !dirExists ==> r == Failure(ReadDirError())
    ensures r.Success? ==> r.value.Valid()
  {
    if !dirExists then Failure(ReadDirError())
    else
      var files := TxtFiles(entries);
      FoldIndex(EmbedOutcomes(FileKeys(files), FileSmartChunks(files), embed), EmptyDict())
  }

  /**
   * The server's `buildIndexFromTxts`: one embedding call per `.txt` file,
   * with all of that file's chunks; a later file with the same key replaces
   * the earlier one's entries. The cache file written at the end is left out.
   */
  method BuildIndexFromTxts(dirExists: bool, entries: seq<DirEntry>, embed: Embedder)
    returns (r: Result<Dict<seq<IndexedChunk>>>)
    requires OneVectorPerInput(embed)
    ensures r == ServerIndex(dirExists, entries, embed)
  {
    if !dirExists {
      return Failure(ReadDirError());
    }
    var files := TxtFiles(entries);
    ghost var outs := EmbedOutcomes(FileKeys(files), FileSmartChunks(files), embed);
    var indices := EmptyDict<seq<IndexedChunk>>();
    for n := 0 to |files|
      invariant indices.Valid()
      invariant FoldIndex(outs, EmptyDict()) == FoldIndex(outs[n..], indices)
    {
      FoldIndexAt(outs, n, indices);
      FileKeysAt(files, n);
      FileSmartChunksAt(files, n);
      var disc, embedded := IndexFile(files[n], embed);
      if embedded.Failure? {
        return Failure(embedded.error);
      }
      indices := indices.Put(disc, embedded.value);
    }
    FoldIndexAt(outs, |files|, indices);
    return Success(indices);
  }

  /** The loop body for one `.txt` file: its key, and its entries or the embedding error. */
  method IndexFile(file: DirEntry, embed: Embedder) returns (disc: string, embedded: Result<seq<IndexedChunk>>)
    requires OneVectorPerInput(embed) && EndsWith(file.name, ".txt")
    ensures var o := EmbedOutcome(DiscOf(file.name), SmartChunks(file.content), embed);
      && disc == DiscOf(file.name)
      && (o.Throw? <==> embedded.Failure?)
      && (o.Throw? ==> embedded.error == o.error)
      && (o.Store? ==> embedded.value == o.entries)
  {
    disc := NormalizeName(BaseName(file.name));
    var chunks := SplitIntoChunksSmart(file.content);
    var vecs := embed(chunks);
    if vecs.Failure? {
      return disc, Failure(vecs.error);
    }
    embedded := Success(Entries(disc, chunks, vecs.value));
  }

  /** The fold at position `n` of `outs`: one outcome handled, or the end. */
  lemma FoldIndexAt(outs: seq<FileOutcome>, n: nat, acc: Dict<seq<IndexedChunk>>)
    requires acc.Valid() && n <= |outs|
    ensures n == |outs| ==> FoldIndex(outs[n..], acc) == Success(acc)
    ensures n < |outs| && outs[n].Throw? ==> FoldIndex(outs[n..], acc) == Failure(outs[n].error)
    ensures n < |outs| && outs[n].Skip? ==> FoldIndex(outs[n..], acc) == FoldIndex(outs[n + 1..], acc)
    ensures n < |outs| && outs[n].Store? ==>
              FoldIndex(outs[n..], acc) == FoldIndex(outs[n + 1..], acc.Put(outs[n].key, outs[n].entries))
  {
    if n < |outs| {
      assert outs[n..][0] == outs[n] && outs[n..][1..] == outs[n + 1..];
    } else {
      assert outs[n..] == [];
    }
  }

  /** Indexing files with keys `keys` and chunks `chunks` completes exactly when every file's chunks are embedded. */
  lemma EmbedIndexSucceeds(keys: seq<string>, chunks: seq<seq<string>>, embed: Embedder)
    requires OneVectorPerInput(embed) && |keys| == |chunks|
    ensures FoldIndex(EmbedOutcomes(keys, chunks, embed), EmptyDict()).Success? <==>
              forall i :: 0 <= i < |keys| ==> embed(chunks[i]).Success?
  {
    var outs := EmbedOutcomes(keys, chunks, embed);
    FoldIndexSucceeds(outs, EmptyDict());
    assert NoThrow(outs) <==> forall i :: 0 <= i < |keys| ==> embed(chunks[i]).Success?;
  }

  /** Then its keys are exactly the files' keys. */
  lemma EmbedIndexKeys(keys: seq<string>, chunks: seq<seq<string>>, embed: Embedder)
    requires OneVectorPerInput(embed) && |keys| == |chunks|
    requires FoldIndex(EmbedOutcomes(keys, chunks, embed), EmptyDict()).Success?
    ensures forall k :: k in FoldIndex(EmbedOutcomes(keys, chunks, embed), EmptyDict()).value.vals <==> k in keys
  {
    var outs := EmbedOutcomes(keys, chunks, embed);
    FoldIndexSucceeds(outs, EmptyDict());
    FoldIndexContents(outs, EmptyDict());
    var d := FoldIndex(outs, EmptyDict()).value;
    forall k ensures k in d.vals <==> k in keys {
      if k in keys {
        var i :| 0 <= i < |keys| && keys[i] == k;
        assert outs[i].Store? && outs[i].key == k;
      }
      if k in d.vals {
        var i := LastStore(outs, k).value;
        assert keys[i] == k;
      }
    }
  }

  /**
   * And key `k` holds the entries of the last file `i` with that key:
   * entry `m` has id `${k}-${m}`, chunk `m` of file `i` as text, and its vector.
   */
  lemma EmbedIndexEntries(keys: seq<string>, chunks: seq<seq<string>>, embed: Embedder, k: string)
    requires OneVectorPerInput(embed) && |keys| == |chunks|
    requires FoldIndex(EmbedOutcomes(keys, chunks, embed), EmptyDict()).Success?
    requires k in FoldIndex(EmbedOutcomes(keys, chunks, embed), EmptyDict()).value.vals
    ensures exists i :: 0 <= i < |keys| && keys[i] == k && (forall j :: i < j < |keys| ==> keys[j] != k)
              && embed(chunks[i]).Success?
              && var es := FoldIndex(EmbedOutcomes(keys, chunks, embed), EmptyDict()).value.vals[k];
              && |es| == |chunks[i]|
              && (forall m :: 0 <= m < |chunks[i]| ==>
                    es[m] == IndexedChunk(ChunkId(k, m), chunks[i][m], embed(chunks[i]).value[m]))
  {
    var outs := EmbedOutcomes(keys, chunks, embed);
    FoldIndexSucceeds(outs, EmptyDict());
    FoldIndexContents(outs, EmptyDict());
    var i := LastStore(outs, k).value;
    assert outs[i].Store?;
    forall j | i < j < |keys| ensures keys[j] != k {
      assert outs[j].Store? && !(outs[j].Store? && outs[j].key == k);
    }
  }

  // ----- retrieveContext -----

  /** `cosineSim`, kept abstract: any score of a query vector against an entry's vector. */
  type Similarity = (Vector, Vector) -> real

  /** Entry `i` sorts before entry `j`: a higher score, or the same score and an earlier position (the sort is stable). */
  predicate RanksBefore(scores: seq<real>, i: nat, j: nat)
    requires i < |scores| && j < |scores|
  {
    scores[i] > scores[j] || (scores[i] == scores[j] && i < j)
  }

  predicate Positions(order: seq<nat>, n: nat) {
    forall a :: 0 <= a < |order| ==> order[a] < n
  }

  predicate RankSorted(scores: seq<real>, order: seq<nat>)
    requires Positions(order, |scores|)
  {
    forall a, b :: 0 <= a < b < |order| ==> RanksBefore(scores, order[a], order[b])
  }

  /** Inserts position `i`, later than every position in `order`, after all entries scoring at least as much. */
  function InsertRanked(order: seq<nat>, i: nat, scores: seq<real>): (r: seq<nat>)
    requires i < |scores| && Positions(order, |scores|)
    ensures Positions(r, |scores|) && multiset(r) == multiset(order) + multiset{i}
    decreases |order|
  {
    if order == [] then [i]
    else if scores[order[0]] < scores[i] then [i] + order
    else
      var rest := InsertRanked(order[1..], i, scores);
      assert order == [order[0]] + order[1..];
      [order[0]] + rest
  }

  lemma {:induction false} InsertRankedSorted(order: seq<nat>, i: nat, scores: seq<real>)
    requires i < |scores| && Positions(order, i)
    requires RankSorted(scores, order)
    ensures RankSorted(scores, InsertRanked(order, i, scores))
    decreases |order|
  {
    if order != [] && scores[order[0]] >= scores[i] {
      var rest := order[1..];
      InsertRankedSorted(rest, i, scores);
      var r := InsertRanked(order, i, scores);
      assert r == [order[0]] + InsertRanked(rest, i, scores);
      forall b | 1 <= b < |r| ensures RanksBefore(scores, r[0], r[b]) {
        assert r[b] in multiset(InsertRanked(rest, i, scores));
        assert r[b] in multiset(rest) || r[b] == i;
        if r[b] != i {
          var c :| 0 <= c < |rest| && rest[c] == r[b];
          assert r[b] == order[c + 1];
        }
      }
    }
  }

  /** `index.map(...).sort((a, b) => b.score - a.score)` as the positions of the entries, in their sorted order. */
  function Ranking(scores: seq<real>, n: nat): (r: seq<nat>)
    requires n <= |scores|
    ensures Positions(r, n)
    ensures |r| == n && multiset(r) == multiset(Range(n))
    decreases n
  {
    if n == 0 then []
    else
      var r := InsertRanked(Ranking(scores, n - 1), n - 1, scores);
      assert Range(n) == Range(n - 1) + [n - 1];
      forall a | 0 <= a < |r| ensures r[a] < n {
        assert r[a] in multiset(r);
        if r[a] != n - 1 {
          assert r[a] in multiset(Ranking(scores, n - 1));
        }
      }
      r
  }

  /** `[0, 1, ..., n - 1]`. */
  function Range(n: nat): (r: seq<nat>)
    ensures |r| == n && forall a :: 0 <= a < n ==> r[a] == a
  {
    seq(n, a => a)
  }

  lemma {:induction false} RankingSorted(scores: seq<real>, n: nat)
    requires n <= |scores|
    ensures RankSorted(scores, Ranking(scores, n))
    decreases n
  {
    if n > 0 {
      RankingSorted(scores, n - 1);
      InsertRankedSorted(Ranking(scores, n - 1), n - 1, scores);
    }
  }

  /** The ranking holds each position exactly once. */
  lemma RankingIsPermutation(scores: seq<real>, n: nat)
    requires n <= |scores|
    ensures forall a, b :: 0 <= a < b < n ==> Ranking(scores, n)[a] != Ranking(scores, n)[b]
    ensures forall x: nat :: x < n <==> x in Ranking(scores, n)
  {
    var r := Ranking(scores, n);
    forall x: nat ensures x < n <==> x in r {
      if x < n {
        assert Range(n)[x] == x;
        assert x in multiset(Range(n));
        assert x in multiset(r);
      }
    }
    RankingSorted(scores, n);
    forall a, b | 0 <= a < b < n ensures r[a] != r[b] {
      assert RanksBefore(scores, r[a], r[b]);
    }
  }

  /** Where `slice(0, k)` ends on an array of length `n`: a negative `k` counts from the end. */
  function SliceEnd(n: nat, k: int): (e: nat)
    ensures e <= n
    ensures k >= 0 ==> e == (if k < n then k else n)
    ensures k < 0 ==> e == (if n + k > 0 then n + k else 0)
  {
    if k < 0 then (if n + k > 0 then n + k else 0) else if k < n then k else n
  }

  function TypeErrorReduce(): string {
    "TypeError: Cannot read properties of undefined (reading 'reduce')"
  }

  /** The positions `retrieveContext` keeps: the first `k` of the ranking. */
  function TopPositions(scores: seq<real>, k: int): (r: seq<nat>)
    ensures Positions(r, |scores|)
  {
    var order := Ranking(scores, |scores|);
    order[..SliceEnd(|order|, k)]
  }

  function TextsAt(index: seq<IndexedChunk>, positions: seq<nat>): (r: seq<string>)
    requires Positions(positions, |index|)
    ensures |r| == |positions| && forall a :: 0 <= a < |r| ==> r[a] == index[positions[a]].text
  {
    seq(|positions|, a requires 0 <= a < |positions| => index[positions[a]].text)
  }

  function Scores(q: Vector, index: seq<IndexedChunk>, sim: Similarity): (r: seq<real>)
    ensures |r| == |index| && forall i :: 0 <= i < |index| ==> r[i] == sim(q, index[i].embedding)
  {
    seq(|index|, i requires 0 <= i < |index| => sim(q, index[i].embedding))
  }

  /**
   * `retrieveContext(query, index, k)`: "" for a null or empty index;
   * otherwise the query is embedded and the texts of the `k` best-scoring
   * entries are joined by a blank line.
   */
  function RetrieveContext(query: string, index: Option<seq<IndexedChunk>>, k: int, embed: Embedder, sim: Similarity)
    : (r: Result<string>)
    ensures index.None? || index.value == [] ==> r == Success("")
    ensures index.Some? && index.value != [] && embed([query]).Failure? ==> r == Failure(embed([query]).error)
    ensures index.Some? && index.value != [] && embed([query]) == Success([]) ==> r == Failure(TypeErrorReduce())
  {
    if index.None? || |index.value| == 0 then Success("")
    else match embed([query])
      case Failure(e) => Failure(e)
      case Success(vs) =>
        if vs == [] then Failure(TypeErrorReduce())
        else
          var scores := Scores(vs[0], index.value, sim);
          Success(Join(TextsAt(index.value, TopPositions(scores, k)), ParagraphSeparator))
  }

  /**
   * The positions taken for `k >= 0`: `min(k, n)` distinct positions, by
   * non-increasing score with ties in index order, and no position left out
   * ranks before one taken; with `k >= n` every position is taken.
   */
  lemma TopPositionsRanked(scores: seq<real>, k: int)
    requires k >= 0
    ensures var top := TopPositions(scores, k);
      && |top| == (if k < |scores| then k else |scores|)
      && (forall a, b :: 0 <= a < b < |top| ==> top[a] != top[b])
      && (forall a, b :: 0 <= a < b < |top| ==> RanksBefore(scores, top[a], top[b]))
      && (forall a, x: nat :: 0 <= a < |top| && x < |scores| && x !in top ==> RanksBefore(scores, top[a], x))
      && (k >= |scores| ==> forall x: nat :: x < |scores| <==> x in top)
  {
    var n := |scores|;
    var order := Ranking(scores, n);
    RankingSorted(scores, n);
    RankingIsPermutation(scores, n);
    var e := SliceEnd(n, k);
    var top := order[..e];
    assert top == TopPositions(scores, k);
    forall a, x: nat | 0 <= a < |top| && x < n && x !in top
      ensures RanksBefore(scores, top[a], x)
    {
      assert x in order;
      var b :| 0 <= b < n && order[b] == x;
    }
    if k >= n {
      assert top == order;
    }
  }
}
