/**
 * `generateQuiz` (server/services/quiz.ts): build the index, then for each
 * ENEM area in a fixed order with a requested count between 1 and 45,
 * look the area's index up by its aliases, retrieve a context from it, ask
 * the chat model for the questions, and keep the answer when every item
 * has a statement, options and an answer key. One `done` progress event is
 * emitted at the end.
 *
 * The chat service is an oracle `chat(area, n, ctx)`: the answers it gives to
 * the attempts of the call whose prompt asks for `n` questions of `area`
 * with context `ctx`.
 */
module Quiz {
  import opened Wrappers
  import opened Js
  import opened Text
  import opened Embeddings
  import opened Llm

  /** The areas of server/types.ts. */
  datatype Area = Matematica | CienciasNatureza | Linguagens | Ingles | Espanhol | CienciasHumanas

  /** The area's name as the application writes it. */
  function AreaName(a: Area): string {
    match a
    case Matematica => "Matem\U{00E1}tica"
    case CienciasNatureza => "Ci\U{00EA}ncias da Natureza"
    case Linguagens => "Linguagens"
    case Ingles => "Ingl\U{00EA}s"
    case Espanhol => "Espanhol"
    case CienciasHumanas => "Ci\U{00EA}ncias Humanas"
  }

  /** `AREAS`: the order in which the areas are generated. */
  const Areas: seq<Area> := [Matematica, CienciasNatureza, Linguagens, Ingles, Espanhol, CienciasHumanas]

  lemma AreasListEveryAreaOnce()
    ensures forall a: Area :: a in Areas
    ensures forall i, j :: 0 <= i < j < |Areas| ==> Areas[i] != Areas[j]
  {
    forall a: Area ensures a in Areas {
      match a
      case Matematica => assert Areas[0] == a;
      case CienciasNatureza => assert Areas[1] == a;
      case Linguagens => assert Areas[2] == a;
      case Ingles => assert Areas[3] == a;
      case Espanhol => assert Areas[4] == a;
      case CienciasHumanas => assert Areas[5] == a;
    }
  }

  // ----- getIndex -----

  /** The `find` predicate: either string contains the other. */
  predicate Related(k: string, key: string) {
    Includes(k, key) || Includes(key, k)
  }

  /** `keys.find(k => k.includes(key) || key.includes(k))`, as a position, from position `j` on. */
  function FindRelated(keys: seq<string>, key: string, j: nat): (r: Option<nat>)
    requires j <= |keys|
    ensures r.Some? ==> j <= r.value < |keys| && Related(keys[r.value], key)
    ensures r.Some? ==> forall h :: j <= h < r.value ==> !Related(keys[h], key)
    ensures r.None? <==> forall h :: j <= h < |keys| ==> !Related(keys[h], key)
    decreases |keys| - j
  {
    if j == |keys| then None
    else if Related(keys[j], key) then Some(j)
    else FindRelated(keys, key, j + 1)
  }

  /** `indices[k]?.length` is truthy: `k` holds a non-empty list. */
  predicate HasEntries(indices: Dict<seq<IndexedChunk>>, k: string) {
    k in indices.vals && indices.vals[k] != []
  }

  /**
   * What one normalised alias `key` resolves to: its own non-empty list;
   * otherwise the list of the first related key when that key is not "" and
   * its list is not empty; otherwise nothing.
   */
  function ResolveKey(indices: Dict<seq<IndexedChunk>>, key: string): (r: Option<seq<IndexedChunk>>)
    ensures HasEntries(indices, key) ==> r == Some(indices.vals[key])
    ensures !HasEntries(indices, key) ==>
              var f := FindRelated(indices.keys, key, 0);
              r == if f.Some? && indices.keys[f.value] != "" && HasEntries(indices, indices.keys[f.value])
                   then Some(indices.vals[indices.keys[f.value]]) else None
    ensures r.Some? ==> r.value != []
  {
    if HasEntries(indices, key) then Some(indices.vals[key])
    else
      var fuzzy := FindRelated(indices.keys, key, 0);
      if fuzzy.Some? && indices.keys[fuzzy.value] != "" && HasEntries(indices, indices.keys[fuzzy.value])
      then Some(indices.vals[indices.keys[fuzzy.value]])
      else None
  }

  /** The normalised alias keys. */
  function AliasKeys(aliases: seq<string>): (r: seq<string>)
    ensures |r| == |aliases| && forall i :: 0 <= i < |aliases| ==> r[i] == NormalizeName(aliases[i])
  {
    seq(|aliases|, i requires 0 <= i < |aliases| => NormalizeName(aliases[i]))
  }

  /** What each normalised key resolves to, in order. */
  function Resolutions(indices: Dict<seq<IndexedChunk>>, keys: seq<string>): (r: seq<Option<seq<IndexedChunk>>>)
    ensures |r| == |keys| && forall i :: 0 <= i < |keys| ==> r[i] == ResolveKey(indices, keys[i])
  {
    seq(|keys|, i requires 0 <= i < |keys| => ResolveKey(indices, keys[i]))
  }

  /** The alias loop: the first of the resolutions that is a list; `None` is `null`. */
  function FirstSome<T>(rs: seq<Option<T>>): Option<T>
    decreases |rs|
  {
    if rs == [] then None
    else if rs[0].Some? then rs[0]
    else FirstSome(rs[1..])
  }

  /** `getIndex(aliases)`. */
  function GetIndex(indices: Dict<seq<IndexedChunk>>, aliases: seq<string>): Option<seq<IndexedChunk>> {
    FirstSome(Resolutions(indices, AliasKeys(aliases)))
  }

  /** The loop returns the first resolution that is a list, and `null` exactly when there is none. */
  lemma {:induction false} FirstSomeIsFirst<T>(rs: seq<Option<T>>)
    ensures FirstSome(rs).None? <==> forall h :: 0 <= h < |rs| ==> rs[h].None?
    ensures FirstSome(rs).Some? ==>
              exists h :: 0 <= h < |rs| && rs[h].Some? && (forall g :: 0 <= g < h ==> rs[g].None?) && FirstSome(rs) == rs[h]
    decreases |rs|
  {
    if rs != [] && rs[0].None? {
      var tail := rs[1..];
      FirstSomeIsFirst(tail);
      assert forall h :: 1 <= h < |rs| ==> rs[h] == tail[h - 1];
      if FirstSome(tail).Some? {
        var h :| 0 <= h < |tail| && tail[h].Some? && (forall g :: 0 <= g < h ==> tail[g].None?) && FirstSome(tail) == tail[h];
        assert rs[h + 1] == tail[h];
      }
    }
  }

  /**
   * Over the normalised keys `keys` of the aliases, `getIndex` returns what
   * the first key that resolves resolves to, a non-empty list, and `null`
   * exactly when none does.
   */
  lemma FirstResolvingKey(indices: Dict<seq<IndexedChunk>>, keys: seq<string>)
    ensures var found := FirstSome(Resolutions(indices, keys));
      && (found.None? <==> forall h :: 0 <= h < |keys| ==> ResolveKey(indices, keys[h]).None?)
      && (found.Some? ==>
            exists h :: 0 <= h < |keys| && ResolveKey(indices, keys[h]).Some?
              && (forall g :: 0 <= g < h ==> ResolveKey(indices, keys[g]).None?)
              && found == ResolveKey(indices, keys[h])
              && found.value != [])
  {
    var rs := Resolutions(indices, keys);
    FirstSomeIsFirst(rs);
    if FirstSome(rs).Some? {
      var h :| 0 <= h < |rs| && rs[h].Some? && (forall g :: 0 <= g < h ==> rs[g].None?) && FirstSome(rs) == rs[h];
      assert rs[h] == ResolveKey(indices, keys[h]);
    }
  }

  /** A non-empty exact match of the first alias wins over every related key. */
  lemma GetIndexPrefersExact(indices: Dict<seq<IndexedChunk>>, aliases: seq<string>)
    requires aliases != [] && HasEntries(indices, NormalizeName(aliases[0]))
    ensures GetIndex(indices, aliases) == Some(indices.vals[NormalizeName(aliases[0])])
  {
    var rs := Resolutions(indices, AliasKeys(aliases));
    assert rs[0] == ResolveKey(indices, NormalizeName(aliases[0]));
  }

  /**
   * The related key is taken from the first position only: when the first
   * related key is "" (falsy) or holds an empty list, a later related key is
   * not tried for this alias.
   */
  lemma FirstRelatedKeyDecides(indices: Dict<seq<IndexedChunk>>, key: string, j: nat)
    requires !HasEntries(indices, key)
    requires j < |indices.keys| && Related(indices.keys[j], key)
    requires forall h :: 0 <= h < j ==> !Related(indices.keys[h], key)
    requires indices.keys[j] == "" || !HasEntries(indices, indices.keys[j])
    ensures ResolveKey(indices, key) == None
  {
    FindRelatedFirst(indices.keys, key, 0, j);
  }

  lemma {:induction false} FindRelatedFirst(keys: seq<string>, key: string, i: nat, j: nat)
    requires i <= j < |keys| && Related(keys[j], key)
    requires forall h :: i <= h < j ==> !Related(keys[h], key)
    ensures FindRelated(keys, key, i) == Some(j)
    decreases j - i
  {
    if i < j {
      FindRelatedFirst(keys, key, i + 1, j);
    }
  }

  /** The aliases tried for an area: its name, then its index key where it has a special one. */
  function Aliases(a: Area): (r: seq<string>)
    ensures |r| == 7 && r[0] == AreaName(a)
  {
    var name := AreaName(a);
    [ name,
      if a == CienciasNatureza then "ciencias-natureza" else name,
      if a == CienciasHumanas then "ciencias-humanas" else name,
      if a == Linguagens then "linguagens" else name,
      if a == Matematica then "matematica" else name,
      if a == Ingles then "ingles" else name,
      if a == Espanhol then "espanhol" else name ]
  }

  // ----- the shape filter -----

  /** `q?.questao && q?.opcoes && q?.resposta_correta` are all truthy. */
  predicate WellShaped(q: Json) {
    MemberTruthy(q, "questao") && MemberTruthy(q, "opcoes") && MemberTruthy(q, "resposta_correta")
  }

  /** `qs.filter(q => !q?.questao || !q?.opcoes || !q?.resposta_correta)`. */
  function Malformed(items: seq<Json>): (r: seq<Json>)
    ensures |r| <= |items|
    decreases |items|
  {
    if items == [] then [] else (if WellShaped(items[0]) then [] else [items[0]]) + Malformed(items[1..])
  }

  /** The filter keeps exactly the items missing a field. */
  lemma {:induction false} MalformedMembers(items: seq<Json>)
    ensures forall q :: q in Malformed(items) <==> q in items && !WellShaped(q)
    ensures |Malformed(items)| > 0 <==> exists i :: 0 <= i < |items| && !WellShaped(items[i])
    decreases |items|
  {
    if items != [] {
      MalformedMembers(items[1..]);
      assert items == [items[0]] + items[1..];
      if !WellShaped(items[0]) {
        assert items[0] in Malformed(items);
      } else if |Malformed(items)| > 0 {
        var i :| 0 <= i < |items[1..]| && !WellShaped(items[1..][i]);
        assert !WellShaped(items[i + 1]);
      }
    }
  }

  function TypeErrorFilter(): string {
    "TypeError: qs.filter is not a function"
  }

  /** What one area's loop iteration does. */
  datatype AreaStep =
    | CountSkipped                       // `continue` on the count
    | Failed(error: string, asked: bool) // the iteration throws, after calling the chat model or before
    | Rejected                           // `continue` on the shape filter
    | Assigned(questions: Json)          // `result[area] = qs`

  /** The shape filter on the parsed answer `qs`. */
  function ShapeFilter(qs: Json): (s: AreaStep)
    ensures s.Assigned? ==> s.questions == qs
    ensures s.Rejected? <==> qs.JArr? && exists i :: 0 <= i < |qs.items| && !WellShaped(qs.items[i])
    ensures s.Assigned? <==> qs.JNull? || (qs.JArr? && forall i :: 0 <= i < |qs.items| ==> WellShaped(qs.items[i]))
    ensures s.Failed? <==> !qs.JNull? && !qs.JArr?
    ensures s.Failed? ==> s.error == TypeErrorFilter() && s.asked
  {
    match qs
    case JNull => Assigned(qs)
    case JArr(items) =>
      MalformedMembers(items);
      if |Malformed(items)| > 0 then Rejected else Assigned(qs)
    case _ => Failed(TypeErrorFilter(), true)
  }

  /** The model answering a single question with one object, as its prompt's JSON format shows, makes the whole generation throw. */
  lemma SingleObjectAnswerThrows(fields: map<string, Json>)
    ensures ShapeFilter(JObj(fields)) == Failed(TypeErrorFilter(), true)
  {
  }

  // ----- one area -----

  /** The answers of the chat service to the call asking for `n` questions of `area` with context `ctx`. */
  type ChatModel = (Area, int, string) -> (nat -> HttpReply)

  /** The services the generation depends on. */
  datatype Services = Services(embed: Embedder, sim: Similarity, chat: ChatModel, parse: Parser)

  /** `counts[area] ?? 0`. */
  function CountOf(counts: map<Area, int>, a: Area): int {
    if a in counts then counts[a] else 0
  }

  /** The count survives `if (!n) continue; if (n > 45 || n < 0) continue`. */
  predicate CountAdmitted(n: int) {
    n != 0 && !(n > 45 || n < 0)
  }

  const MaxQuestionsPerArea: int := 45

  /** The retrieval query of an area. */
  function Query(a: Area): string {
    "quest\U{00F5}es de " + AreaName(a) + " estilo ENEM"
  }

  /** How many entries `retrieveContext` is asked for by default. */
  const ContextSize: int := 5

  /** The context retrieved for area `a`. */
  function Context(indices: Dict<seq<IndexedChunk>>, a: Area, sv: Services): Result<string> {
    RetrieveContext(Query(a), GetIndex(indices, Aliases(a)), ContextSize, sv.embed, sv.sim)
  }

  /** The outcome of `chatJSON` with the default retries for area `a`: a parsed value or an error, never `undefined`. */
  function AskChat(a: Area, n: int, ctx: string, sv: Services): (o: ChatOutcome)
    ensures o.Thrown? || o.Parsed?
  {
    ChatJsonBounded(sv.chat(a, n, ctx), sv.parse, DefaultMaxRetries);
    ChatFrom(0, DefaultMaxRetries, sv.chat(a, n, ctx), sv.parse).0
  }

  /** The rest of the iteration once the chat call has ended with `o`. */
  function Answered(o: ChatOutcome): (s: AreaStep)
    requires o.Thrown? || o.Parsed?
    ensures o.Thrown? ==> s == Failed(o.error, true)
    ensures s.Failed? ==> s.asked
  {
    if o.Thrown? then Failed(o.error, true) else ShapeFilter(o.value)
  }

  /**
   * What the loop body does for area `a`, given the context retrieval's
   * outcome `ctx` (only looked at when the count is admitted).
   */
  function Step(counts: map<Area, int>, a: Area, ctx: Result<string>, sv: Services): (s: AreaStep)
    ensures s == CountSkipped <==> !CountAdmitted(CountOf(counts, a))
    ensures s.Failed? && !s.asked <==> CountAdmitted(CountOf(counts, a)) && ctx.Failure?
    ensures s.Assigned? ==>
              s.questions.JNull? || (s.questions.JArr? && forall i :: 0 <= i < |s.questions.items| ==> WellShaped(s.questions.items[i]))
  {
    var n := CountOf(counts, a);
    if !CountAdmitted(n) then CountSkipped
    else match ctx
      case Failure(e) => Failed(e, false)
      case Success(c) => Answered(AskChat(a, n, c, sv))
  }

  // ----- the loop over the areas -----

  /** A run of the loop: the result or the error thrown, and the areas the chat model was called for, in order. */
  datatype Run = Run(result: Result<map<Area, Json>>, asked: seq<Area>)

  /** The initial `result`: every area holds `[]`. */
  function EmptyResult(): (m: map<Area, Json>)
    ensures forall a: Area :: a in m && m[a] == JArr([])
  {
    AreasListEveryAreaOnce();
    map a: Area | a in Areas :: JArr([])
  }

  /** The loop over `areas`, whose iterations do `steps`, from `result` on; `asked` is the trace so far. */
  function RunSteps(areas: seq<Area>, steps: seq<AreaStep>, result: map<Area, Json>, asked: seq<Area>): Run
    requires |steps| == |areas|
    decreases |areas|
  {
    if areas == [] then Run(Success(result), asked)
    else
      var a := areas[0];
      match steps[0]
      case CountSkipped => RunSteps(areas[1..], steps[1..], result, asked)
      case Rejected => RunSteps(areas[1..], steps[1..], result, asked + [a])
      case Assigned(qs) => RunSteps(areas[1..], steps[1..], result[a := qs], asked + [a])
      case Failed(e, wasAsked) => Run(Failure(e), if wasAsked then asked + [a] else asked)
  }

  /** The contexts retrieved for the areas, in the order of `AREAS`. */
  function Contexts(indices: Dict<seq<IndexedChunk>>, sv: Services): (r: seq<Result<string>>)
    ensures |r| == |Areas| && forall i :: 0 <= i < |Areas| ==> r[i] == Context(indices, Areas[i], sv)
  {
    seq(|Areas|, i requires 0 <= i < |Areas| => Context(indices, Areas[i], sv))
  }

  /** What the iterations over `AREAS` do, given the contexts `ctxs` retrieved for them. */
  function StepsWith(counts: map<Area, int>, sv: Services, ctxs: seq<Result<string>>): (r: seq<AreaStep>)
    requires |ctxs| == |Areas|
    ensures |r| == |Areas| && forall i :: 0 <= i < |Areas| ==> r[i] == Step(counts, Areas[i], ctxs[i], sv)
  {
    seq(|Areas|, i requires 0 <= i < |Areas| => Step(counts, Areas[i], ctxs[i], sv))
  }

  /** The loop over `AREAS` given the contexts retrieved for them. */
  function QuizWith(counts: map<Area, int>, sv: Services, ctxs: seq<Result<string>>): Run
    requires |ctxs| == |Areas|
  {
    RunSteps(Areas, StepsWith(counts, sv, ctxs), EmptyResult(), [])
  }

  /** What `generateQuiz` returns or throws, given the built index. */
  function QuizOver(indices: Dict<seq<IndexedChunk>>, counts: map<Area, int>, sv: Services): Run {
    QuizWith(counts, sv, Contexts(indices, sv))
  }

  /** What `generateQuiz` returns or throws, building the index from the directory `entries` first. */
  function GenerateQuizRun(dirExists: bool, entries: seq<DirEntry>, counts: map<Area, int>, sv: Services): Run
    requires OneVectorPerInput(sv.embed)
  {
    QuizAfter(ServerIndex(dirExists, entries, sv.embed), counts, sv)
  }

  /** The error of building the index, or the loop over `AREAS` on the index built. */
  function QuizAfter(built: Result<Dict<seq<IndexedChunk>>>, counts: map<Area, int>, sv: Services): Run {
    match built
    case Failure(e) => Run(Failure(e), [])
    case Success(indices) => QuizOver(indices, counts, sv)
  }

  /** The single kind of progress event `generateQuiz` emits. */
  datatype ProgressEvent = Done(message: string)

  function DoneEvent(): ProgressEvent {
    Done("Question\U{00E1}rio gerado")
  }

  /**
   * `generateQuiz(apiKey, model, counts, onProgress)`: the result or the
   * error thrown, the areas the chat model was asked about, and the progress
   * events passed to `onProgress`.
   */
  method GenerateQuiz(dirExists: bool, entries: seq<DirEntry>, counts: map<Area, int>, sv: Services)
    returns (r: Result<map<Area, Json>>, asked: seq<Area>, events: seq<ProgressEvent>)
    requires OneVectorPerInput(sv.embed)
    ensures r == GenerateQuizRun(dirExists, entries, counts, sv).result
    ensures asked == GenerateQuizRun(dirExists, entries, counts, sv).asked
    ensures events == if r.Success? then [DoneEvent()] else []
  {
    var built := BuildIndexFromTxts(dirExists, entries, sv.embed);
    r, asked := QuizOnBuilt(built, counts, sv);
    events := if r.Success? then [DoneEvent()] else [];
  }

  /** The rest of `generateQuiz` once `buildIndexFromTxts` has returned `built` or thrown. */
  method QuizOnBuilt(built: Result<Dict<seq<IndexedChunk>>>, counts: map<Area, int>, sv: Services)
    returns (r: Result<map<Area, Json>>, asked: seq<Area>)
    ensures r == QuizAfter(built, counts, sv).result && asked == QuizAfter(built, counts, sv).asked
  {
    if built.Failure? {
      return Failure(built.error), [];
    }
    r, asked := QuizOnIndex(built.value, counts, sv);
  }

  /** The loop over `AREAS` once the index `indices` is built. */
  method QuizOnIndex(indices: Dict<seq<IndexedChunk>>, counts: map<Area, int>, sv: Services)
    returns (r: Result<map<Area, Json>>, asked: seq<Area>)
    ensures r == QuizOver(indices, counts, sv).result && asked == QuizOver(indices, counts, sv).asked
  {
    ghost var ctxs := Contexts(indices, sv);
    r, asked := QuizFromIndex(indices, counts, sv, ctxs, StepsWith(counts, sv, ctxs));
  }

  /** `ctxs` are the contexts the iterations over `AREAS` retrieve from `indices` and `steps` what they do. */
  ghost predicate Planned(indices: Dict<seq<IndexedChunk>>, counts: map<Area, int>, sv: Services,
                          ctxs: seq<Result<string>>, steps: seq<AreaStep>) {
    && |ctxs| == |Areas| && |steps| == |Areas|
    && (forall i {:trigger Context(indices, Areas[i], sv)} :: 0 <= i < |Areas| ==> ctxs[i] == Context(indices, Areas[i], sv))
    && (forall i {:trigger Step(counts, Areas[i], ctxs[i], sv)} :: 0 <= i < |Areas| ==> steps[i] == Step(counts, Areas[i], ctxs[i], sv))
  }

  /**
   * The loop over `AREAS` once the index is built; `ctxs` are the contexts
   * its iterations retrieve and `steps` what they do.
   */
  method QuizFromIndex(indices: Dict<seq<IndexedChunk>>, counts: map<Area, int>, sv: Services,
                       ghost ctxs: seq<Result<string>>, ghost steps: seq<AreaStep>)
    returns (r: Result<map<Area, Json>>, asked: seq<Area>)
    requires Planned(indices, counts, sv, ctxs, steps)
    ensures r == RunSteps(Areas, steps, EmptyResult(), []).result && asked == RunSteps(Areas, steps, EmptyResult(), []).asked
  {
    var areas := Areas;
    ghost var final := RunSteps(areas, steps, EmptyResult(), []);
    var result := EmptyResult();
    asked := [];
    for t := 0 to |areas|
      invariant RunSteps(areas[t..], steps[t..], result, asked).result == final.result
      invariant RunSteps(areas[t..], steps[t..], result, asked).asked == final.asked
    {
      var area := areas[t];
      var step := AreaIteration(indices, counts, t, sv, ctxs, steps);
      RunStepsAt(areas, steps, t, result, asked);
      match step {
        case CountSkipped =>
        case Failed(e, wasAsked) =>
          if wasAsked {
            asked := asked + [area];
          }
          return Failure(e), asked;
        case Rejected =>
          asked := asked + [area];
        case Assigned(qs) =>
          asked := asked + [area];
          result := result[area := qs];
      }
    }
    RunStepsAt(areas, steps, |areas|, result, asked);
    r := Success(result);
  }

  /** The iteration at position `t` of the loop, and the end of the loop. */
  lemma RunStepsAt(areas: seq<Area>, steps: seq<AreaStep>, t: nat, result: map<Area, Json>, asked: seq<Area>)
    requires |steps| == |areas| && t <= |areas|
    ensures var now := RunSteps(areas[t..], steps[t..], result, asked);
      t == |areas| ==> now.result == Success(result) && now.asked == asked
    ensures var now := RunSteps(areas[t..], steps[t..], result, asked);
      t < |areas| && steps[t].Failed? ==>
        now.result == Failure(steps[t].error) && now.asked == if steps[t].asked then asked + [areas[t]] else asked
    ensures t < |areas| && !steps[t].Failed? ==>
      var s, a := steps[t], areas[t];
      RunSteps(areas[t..], steps[t..], result, asked) ==
        RunSteps(areas[t + 1..], steps[t + 1..], if s.Assigned? then result[a := s.questions] else result,
                 if s.CountSkipped? then asked else asked + [a])
  {
    if t < |areas| {
      assert areas[t..][0] == areas[t] && areas[t..][1..] == areas[t + 1..];
      assert steps[t..][0] == steps[t] && steps[t..][1..] == steps[t + 1..];
    } else {
      assert areas[t..] == [] && steps[t..] == [];
    }
  }

  /**
   * The body of the loop for the area at position `t` of `AREAS`: the count
   * filter, the context retrieval, the chat call and the shape filter.
   */
  method AreaIteration(indices: Dict<seq<IndexedChunk>>, counts: map<Area, int>, t: nat, sv: Services,
                       ghost ctxs: seq<Result<string>>, ghost steps: seq<AreaStep>)
    returns (step: AreaStep)
    requires t < |Areas| && Planned(indices, counts, sv, ctxs, steps)
    ensures step == steps[t]
  {
    assert ctxs[t] == Context(indices, Areas[t], sv);
    assert steps[t] == Step(counts, Areas[t], ctxs[t], sv);
    var area := Areas[t];
    var n := CountOf(counts, area);
    if n == 0 {
      return CountSkipped;
    }
    if n > 45 || n < 0 {
      return CountSkipped;
    }
    var ctx := AreaContext(indices, area, sv);
    if ctx.Failure? {
      return Failed(ctx.error, false);
    }
    step := AskArea(area, n, ctx.value, sv);
  }

  /** The index lookup and the context retrieval for `area`. */
  method AreaContext(indices: Dict<seq<IndexedChunk>>, area: Area, sv: Services) returns (ctx: Result<string>)
    ensures ctx == Context(indices, area, sv)
  {
    var idx := GetIndex(indices, Aliases(area));
    ctx := RetrieveContext(Query(area), idx, ContextSize, sv.embed, sv.sim);
  }

  /** The chat call for `n` questions of `area` over `ctx`, and the shape filter on its answer. */
  method AskArea(area: Area, n: int, ctx: string, sv: Services) returns (step: AreaStep)
    ensures step == Answered(AskChat(area, n, ctx, sv))
  {
    var qs, requests := ChatJson(sv.chat(area, n, ctx), sv.parse, DefaultMaxRetries);
    assert qs == AskChat(area, n, ctx, sv);
    if qs.Thrown? {
      return Failed(qs.error, true);
    }
    var answer := qs.value;
    if answer.JArr? {
      if |Malformed(answer.items)| > 0 {
        return Rejected;
      }
    } else if !answer.JNull? {
      return Failed(TypeErrorFilter(), true);
    }
    return Assigned(answer);
  }

  // ----- what the loop guarantees -----

  /** The areas whose iteration calls the chat model, when none throws. */
  function AskedBy(areas: seq<Area>, steps: seq<AreaStep>): (r: seq<Area>)
    requires |steps| == |areas|
    decreases |areas|
  {
    if areas == [] then []
    else (if steps[0].CountSkipped? then [] else [areas[0]]) + AskedBy(areas[1..], steps[1..])
  }

  /** The position of the first iteration that throws. */
  function FirstFailure(steps: seq<AreaStep>): (r: Option<nat>)
    ensures r.Some? ==> r.value < |steps| && steps[r.value].Failed?
    ensures r.Some? ==> forall h :: 0 <= h < r.value ==> !steps[h].Failed?
    ensures r.None? <==> forall h :: 0 <= h < |steps| ==> !steps[h].Failed?
    decreases |steps|
  {
    if steps == [] then None
    else if steps[0].Failed? then Some(0)
    else
      var r := FirstFailure(steps[1..]);
      assert forall h :: 1 <= h < |steps| ==> steps[1..][h - 1] == steps[h];
      if r.Some? then Some(r.value + 1) else None
  }

  /** The loop completes exactly when no iteration throws, and then has asked about the areas not skipped on their count, in order. */
  lemma {:induction false} RunStepsCompletes(areas: seq<Area>, steps: seq<AreaStep>, result: map<Area, Json>, asked: seq<Area>)
    requires |steps| == |areas|
    ensures var run := RunSteps(areas, steps, result, asked);
      && (run.result.Success? <==> FirstFailure(steps).None?)
      && (run.result.Success? ==> run.asked == asked + AskedBy(areas, steps))
    decreases |areas|
  {
    if areas != [] {
      var a := areas[0];
      match steps[0]
      case CountSkipped =>
        RunStepsCompletes(areas[1..], steps[1..], result, asked);
      case Rejected =>
        RunStepsCompletes(areas[1..], steps[1..], result, asked + [a]);
      case Assigned(qs) =>
        RunStepsCompletes(areas[1..], steps[1..], result[a := qs], asked + [a]);
      case Failed(e, wasAsked) =>
    }
  }

  /** The value the loop over distinct areas leaves in each key: the assigned answer, or the value from before. */
  lemma {:induction false} RunStepsValues(areas: seq<Area>, steps: seq<AreaStep>, result: map<Area, Json>, asked: seq<Area>)
    requires |steps| == |areas|
    requires forall i, j :: 0 <= i < j < |areas| ==> areas[i] != areas[j]
    requires RunSteps(areas, steps, result, asked).result.Success?
    ensures var out := RunSteps(areas, steps, result, asked).result.value;
      && (forall a :: a in out <==> a in result || exists i :: 0 <= i < |areas| && areas[i] == a && steps[i].Assigned?)
      && (forall a :: a in result && a !in areas ==> out[a] == result[a])
      && (forall i :: 0 <= i < |areas| && steps[i].Assigned? ==> out[areas[i]] == steps[i].questions)
      && (forall i :: 0 <= i < |areas| && !steps[i].Assigned? && areas[i] in result ==> out[areas[i]] == result[areas[i]])
    decreases |areas|
  {
    if areas != [] {
      var a := areas[0];
      var rest, more := areas[1..], steps[1..];
      assert forall i :: 1 <= i < |areas| ==> rest[i - 1] == areas[i] && more[i - 1] == steps[i];
      assert a !in rest;
      var result' := if steps[0].Assigned? then result[a := steps[0].questions] else result;
      var asked' := if steps[0].CountSkipped? then asked else asked + [a];
      assert RunSteps(areas, steps, result, asked) == RunSteps(rest, more, result', asked');
      RunStepsValues(rest, more, result', asked');
    }
  }

  /**
   * The areas asked about by the iterations up to and including the first
   * that throws: those before it not skipped on their count, then its own
   * area when it threw after the chat call.
   */
  function FailTrace(areas: seq<Area>, steps: seq<AreaStep>): seq<Area>
    requires |steps| == |areas| && FirstFailure(steps).Some?
    decreases |areas|
  {
    if steps[0].Failed? then (if steps[0].asked then [areas[0]] else [])
    else (if steps[0].CountSkipped? then [] else [areas[0]]) + FailTrace(areas[1..], steps[1..])
  }

  /** When some iteration throws, the loop throws the error of the first one that does. */
  lemma {:induction false} RunStepsFails(areas: seq<Area>, steps: seq<AreaStep>, result: map<Area, Json>, asked: seq<Area>)
    requires |steps| == |areas| && FirstFailure(steps).Some?
    ensures RunSteps(areas, steps, result, asked).result == Failure(steps[FirstFailure(steps).value].error)
    decreases |areas|
  {
    if !steps[0].Failed? {
      var a := areas[0];
      FirstFailureTail(steps);
      match steps[0]
      case CountSkipped =>
        RunStepsFails(areas[1..], steps[1..], result, asked);
      case Rejected =>
        RunStepsFails(areas[1..], steps[1..], result, asked + [a]);
      case Assigned(qs) =>
        RunStepsFails(areas[1..], steps[1..], result[a := qs], asked + [a]);
    }
  }

  /** When some iteration throws, the trace of the loop is extended by `FailTrace`. */
  lemma {:induction false} RunStepsFailTrace(areas: seq<Area>, steps: seq<AreaStep>, result: map<Area, Json>, asked: seq<Area>)
    requires |steps| == |areas| && FirstFailure(steps).Some?
    ensures RunSteps(areas, steps, result, asked).asked == asked + FailTrace(areas, steps)
    decreases |areas|
  {
    if !steps[0].Failed? {
      var a := areas[0];
      FirstFailureTail(steps);
      var tail := FailTrace(areas[1..], steps[1..]);
      match steps[0]
      case CountSkipped =>
        RunStepsFailTrace(areas[1..], steps[1..], result, asked);
        assert [] + tail == tail;
      case Rejected =>
        RunStepsFailTrace(areas[1..], steps[1..], result, asked + [a]);
        assert asked + [a] + tail == asked + ([a] + tail);
      case Assigned(qs) =>
        RunStepsFailTrace(areas[1..], steps[1..], result[a := qs], asked + [a]);
        assert asked + [a] + tail == asked + ([a] + tail);
    }
  }

  /** The first failure of a sequence that does not start with one is one further than in its tail. */
  lemma FirstFailureTail(steps: seq<AreaStep>)
    requires FirstFailure(steps).Some? && FirstFailure(steps).value > 0
    ensures FirstFailure(steps[1..]) == Some(FirstFailure(steps).value - 1)
  {
  }

  /** The areas not skipped on their count are the ones whose count is admitted. */
  lemma {:induction false} AskedByAdmitted(areas: seq<Area>, steps: seq<AreaStep>, counts: map<Area, int>)
    requires |steps| == |areas|
    requires forall i :: 0 <= i < |areas| ==> (steps[i].CountSkipped? <==> !CountAdmitted(CountOf(counts, areas[i])))
    ensures AskedBy(areas, steps) == AskedAreas(counts, areas)
    decreases |areas|
  {
    if areas != [] {
      assert forall i :: 1 <= i < |areas| ==> areas[1..][i - 1] == areas[i] && steps[1..][i - 1] == steps[i];
      AskedByAdmitted(areas[1..], steps[1..], counts);
    }
  }

  /** The areas of `areas` whose count is admitted, in order. */
  function AskedAreas(counts: map<Area, int>, areas: seq<Area>): (r: seq<Area>)
    ensures |r| <= |areas|
    ensures forall a :: a in r <==> a in areas && CountAdmitted(CountOf(counts, a))
    decreases |areas|
  {
    if areas == [] then []
    else (if CountAdmitted(CountOf(counts, areas[0])) then [areas[0]] else []) + AskedAreas(counts, areas[1..])
  }

  /** Where area `a` sits in `AREAS`. */
  function AreaPosition(a: Area): (i: nat)
    ensures i < |Areas| && Areas[i] == a
    ensures forall j :: 0 <= j < |Areas| && Areas[j] == a ==> j == i
  {
    match a
    case Matematica => 0
    case CienciasNatureza => 1
    case Linguagens => 2
    case Ingles => 3
    case Espanhol => 4
    case CienciasHumanas => 5
  }

  /** The final value of each area, given what its iteration does: the assigned answer, or `[]` as initialised. */
  function FinalValue(s: AreaStep): Json {
    if s.Assigned? then s.questions else JArr([])
  }

  /** The loop over `AREAS` completes exactly when no area's iteration throws, whatever contexts were retrieved. */
  lemma QuizSucceeds(counts: map<Area, int>, sv: Services, ctxs: seq<Result<string>>)
    requires |ctxs| == |Areas|
    ensures QuizWith(counts, sv, ctxs).result.Success? <==>
      forall i :: 0 <= i < |Areas| ==> !Step(counts, Areas[i], ctxs[i], sv).Failed?
  {
    RunStepsCompletes(Areas, StepsWith(counts, sv, ctxs), EmptyResult(), []);
  }

  /** When it completes, the loop has asked the chat model about each area with an admitted count once, in the order of `AREAS`. */
  lemma QuizAsksAdmittedAreas(counts: map<Area, int>, sv: Services, ctxs: seq<Result<string>>)
    requires |ctxs| == |Areas| && QuizWith(counts, sv, ctxs).result.Success?
    ensures QuizWith(counts, sv, ctxs).asked == AskedAreas(counts, Areas)
  {
    var steps := StepsWith(counts, sv, ctxs);
    RunStepsCompletes(Areas, steps, EmptyResult(), []);
    StepsSkipOnCount(counts, sv, ctxs);
    AskedByAdmitted(Areas, steps, counts);
    assert [] + AskedAreas(counts, Areas) == AskedAreas(counts, Areas);
  }

  /** The iterations skip exactly the areas whose count is not admitted. */
  lemma StepsSkipOnCount(counts: map<Area, int>, sv: Services, ctxs: seq<Result<string>>)
    requires |ctxs| == |Areas|
    ensures var steps := StepsWith(counts, sv, ctxs);
      forall i :: 0 <= i < |Areas| ==> (steps[i].CountSkipped? <==> !CountAdmitted(CountOf(counts, Areas[i])))
  {
    var steps := StepsWith(counts, sv, ctxs);
    forall i | 0 <= i < |Areas|
      ensures steps[i].CountSkipped? <==> !CountAdmitted(CountOf(counts, Areas[i]))
    {
      assert steps[i] == Step(counts, Areas[i], ctxs[i], sv);
    }
  }

  /** When it throws, the loop throws the error of the first area whose iteration throws. */
  lemma QuizThrowsFirstError(counts: map<Area, int>, sv: Services, ctxs: seq<Result<string>>)
    requires |ctxs| == |Areas| && QuizWith(counts, sv, ctxs).result.Failure?
    ensures exists i :: (0 <= i < |Areas| && Step(counts, Areas[i], ctxs[i], sv).Failed?
      && (forall h :: 0 <= h < i ==> !Step(counts, Areas[h], ctxs[h], sv).Failed?)
      && QuizWith(counts, sv, ctxs).result.error == Step(counts, Areas[i], ctxs[i], sv).error)
  {
    var steps := StepsWith(counts, sv, ctxs);
    RunStepsCompletes(Areas, steps, EmptyResult(), []);
    RunStepsFails(Areas, steps, EmptyResult(), []);
    var i := FirstFailure(steps).value;
    assert steps[i] == Step(counts, Areas[i], ctxs[i], sv);
  }

  /**
   * When it completes, the result has the six area keys, each holding the
   * answer assigned to it or `[]`.
   */
  lemma QuizValues(counts: map<Area, int>, sv: Services, ctxs: seq<Result<string>>)
    requires |ctxs| == |Areas| && QuizWith(counts, sv, ctxs).result.Success?
    ensures var out := QuizWith(counts, sv, ctxs).result.value;
      forall a: Area :: a in out && out[a] == FinalValue(Step(counts, a, ctxs[AreaPosition(a)], sv))
  {
    var steps := StepsWith(counts, sv, ctxs);
    LoopValues(steps);
    forall a: Area
      ensures steps[AreaPosition(a)] == Step(counts, a, ctxs[AreaPosition(a)], sv)
    {
    }
  }

  /** When the loop over `AREAS` with iterations `steps` completes, every area holds its final value. */
  lemma LoopValues(steps: seq<AreaStep>)
    requires |steps| == |Areas| && RunSteps(Areas, steps, EmptyResult(), []).result.Success?
    ensures var out := RunSteps(Areas, steps, EmptyResult(), []).result.value;
      forall a: Area :: a in out && out[a] == FinalValue(steps[AreaPosition(a)])
  {
    AreasListEveryAreaOnce();
    RunStepsValues(Areas, steps, EmptyResult(), []);
  }

  /** An area whose count is missing, 0, negative or over 45 keeps its `[]` and is never asked about: counts are skipped, not clamped. */
  lemma SkippedAreaKeepsEmptyList(counts: map<Area, int>, sv: Services, ctxs: seq<Result<string>>, a: Area)
    requires |ctxs| == |Areas| && QuizWith(counts, sv, ctxs).result.Success?
    requires a !in counts || counts[a] == 0 || counts[a] < 0 || counts[a] > MaxQuestionsPerArea
    ensures var out := QuizWith(counts, sv, ctxs).result.value;
      a in out && out[a] == JArr([])
    ensures a !in QuizWith(counts, sv, ctxs).asked
  {
    QuizAsksAdmittedAreas(counts, sv, ctxs);
    QuizValues(counts, sv, ctxs);
    StepFinalValue(counts, a, ctxs[AreaPosition(a)], sv);
  }

  /** An area's list is replaced only for an admitted count and only by `null` or by a list whose every item has all three fields. */
  lemma ReplacedOnlyByWellShaped(counts: map<Area, int>, sv: Services, ctxs: seq<Result<string>>, a: Area)
    requires |ctxs| == |Areas| && QuizWith(counts, sv, ctxs).result.Success?
    ensures var out := QuizWith(counts, sv, ctxs).result.value;
      && a in out
      && (out[a] != JArr([]) ==>
            && 1 <= CountOf(counts, a) <= MaxQuestionsPerArea
            && (out[a].JNull? || (out[a].JArr? && forall i :: 0 <= i < |out[a].items| ==> WellShaped(out[a].items[i]))))
  {
    QuizValues(counts, sv, ctxs);
    StepFinalValue(counts, a, ctxs[AreaPosition(a)], sv);
  }

  /** What an iteration can leave in its area's key. */
  lemma StepFinalValue(counts: map<Area, int>, a: Area, ctx: Result<string>, sv: Services)
    ensures var v := FinalValue(Step(counts, a, ctx, sv));
      !CountAdmitted(CountOf(counts, a)) ==> v == JArr([])
    ensures var v := FinalValue(Step(counts, a, ctx, sv));
      v != JArr([]) ==>
        && 1 <= CountOf(counts, a) <= MaxQuestionsPerArea
        && (v.JNull? || (v.JArr? && forall i :: 0 <= i < |v.items| ==> WellShaped(v.items[i])))
  {
  }
}
