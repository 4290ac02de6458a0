/**
 * The command-line generator (index.js): its own `sanitizeText`, which turns
 * every HTML line break into a newline, its cached index builder, and
 * `gerarVariasQuestoes`, which keeps a generated question only when at
 * least three of five verification calls confirm its answer key.
 *
 * The script's `normalizeName`, `splitIntoChunks` and `getIndex` are the
 * same code as the server's and are modelled once, in `Text` and `Quiz`;
 * its batched index loop is the one of `BuildIndex`.
 */
module IndexScript {
  import opened Wrappers
  import opened Js
  import opened RegexSplit
  import opened Text
  import opened Embeddings
  import BuildIndex
  import Llm

  // ----- sanitizeText -----

  /** The script's `sanitizeText`: `None` stands for `undefined`. */
  function SanitizeTextEveryBreak(text: Option<string>): (r: string)
    ensures text.None? || text.value == "" ==> r == ""
    ensures IsTrimmed(r) && TagFree(r)
  {
    if text.None? || text.value == "" then ""
    else
      var stripped := StripTags(ReplaceBreaks(text.value, false));
      StripTagsLeavesNoTag(ReplaceBreaks(text.value, false));
      TrimKeepsTagFree(stripped);
      Trim(stripped)
  }

  /** A line-break tag in the middle of a line still becomes a newline. */
  lemma EveryBreakReplaced()
    ensures ReplaceBreaks("x<br>y", false) == "x\ny"
    ensures SanitizeTextEveryBreak(Some("x<br>y")) == "x\ny"
  {
    var u := "<br>y";
    assert u[4..] == "y";
    assert LabelAt(u, "<br");
    assert SpaceRunEnd(u, 3) == 3;
    assert BreakTagLength(u) == Some(4);
    NoAngleUnchanged(u[4..], false);
    assert ReplaceBreaks(u, false) == "\ny";
    assert "x<br>y"[1..] == u;
    NoAngleUnchanged("x\ny", false);
    assert IsTrimmed("x\ny");
  }

  /** Where the two scripts' sanitisers differ: the server drops the inline tag, this one breaks the line. */
  lemma SanitizersDisagreeOnInlineBreak()
    ensures SanitizeText(Some("x<br>y")) == "xy"
    ensures SanitizeTextEveryBreak(Some("x<br>y")) == "x\ny"
  {
    SanitizeDropsInlineBreak();
    EveryBreakReplaced();
  }

  /** Every line-break tag is followed by a newline or the end of the text. */
  predicate BreaksAtLineEnds(s: string) {
    forall i :: 0 <= i < |s| && BreakTagLength(s[i..]).Some? ==>
      var n := BreakTagLength(s[i..]).value;
      i + n == |s| || s[i + n] == '\n'
  }

  /** When every line-break tag ends its line, the two replacements agree. */
  lemma {:induction false} BreakVariantsAgree(s: string)
    requires BreaksAtLineEnds(s)
    ensures ReplaceBreaks(s, true) == ReplaceBreaks(s, false)
    decreases |s|
  {
    if s != [] {
      var n := BreakTagLength(s);
      assert s[0..] == s;
      var k := if n.Some? then n.value else 1;
      forall i | 0 <= i < |s[k..]| && BreakTagLength(s[k..][i..]).Some?
        ensures var m := BreakTagLength(s[k..][i..]).value; i + m == |s[k..]| || s[k..][i + m] == '\n'
      {
        assert s[k..][i..] == s[k + i..];
      }
      BreakVariantsAgree(s[k..]);
    }
  }

  // ----- buildIndexFromTxts with its cache -----

  /** What the script's builder returns: the parsed cache file, or a freshly built index. */
  datatype LoadedIndex = Cached(json: Json) | Built(indices: Dict<seq<IndexedChunk>>)

  /** What `JSON.parse` throws on a cache file that is not JSON. */
  function CacheSyntaxError(): string {
    "SyntaxError"
  }

  /**
   * The script's `buildIndexFromTxts`: `cache` is the cache file's text when
   * it exists, `parse` stands for `JSON.parse`.
   */
  function CachedIndex(cache: Option<string>, parse: Llm.Parser, dirExists: bool, entries: seq<DirEntry>, embed: Embedder)
    : (r: Result<LoadedIndex>)
    requires OneVectorPerInput(embed)
    ensures cache.Some? ==> (r.Success? <==> parse(cache.value).Some?)
    ensures cache.Some? && r.Success? ==> r.value == Cached(parse(cache.value).value)
    ensures cache.None? ==> (r.Success? <==> BuildIndex.ScriptIndex(dirExists, entries, embed).Success?)
    ensures cache.None? && r.Success? ==> r.value == Built(BuildIndex.ScriptIndex(dirExists, entries, embed).value)
  {
    if cache.Some? then
      match parse(cache.value)
      case None => Failure(CacheSyntaxError())
      case Some(j) => Success(Cached(j))
    else
      match BuildIndex.ScriptIndex(dirExists, entries, embed)
      case Failure(e) => Failure(e)
      case Success(d) => Success(Built(d))
  }

  /** The builder: the cache, when present, is returned as parsed; otherwise the index is built. Writing the cache is left out. */
  method BuildIndexFromTxts(cache: Option<string>, parse: Llm.Parser, dirExists: bool, entries: seq<DirEntry>, embed: Embedder)
    returns (r: Result<LoadedIndex>)
    requires OneVectorPerInput(embed)
    ensures r == CachedIndex(cache, parse, dirExists, entries, embed)
  {
    if cache.Some? {
      var j := parse(cache.value);
      if j.None? {
        return Failure(CacheSyntaxError());
      }
      return Success(Cached(j.value));
    }
    var built := BuildIndex.BuildIndexFromTxts(dirExists, entries, embed);
    if built.Failure? {
      return Failure(built.error);
    }
    return Success(Built(built.value));
  }

  /** With a cache present, neither the directory nor the embedding service has any say. */
  lemma CacheShortCircuits(cache: string, parse: Llm.Parser, dir1: bool, entries1: seq<DirEntry>, embed1: Embedder,
                           dir2: bool, entries2: seq<DirEntry>, embed2: Embedder)
    requires OneVectorPerInput(embed1) && OneVectorPerInput(embed2)
    ensures CachedIndex(Some(cache), parse, dir1, entries1, embed1) == CachedIndex(Some(cache), parse, dir2, entries2, embed2)
  {
  }

  // ----- gerarVariasQuestoes -----

  /** The parsed reply of each successive call of one kind, or what that call throws. */
  type Replies = nat -> Result<Json>

  /** Verification calls per candidate. */
  const Checks: nat := 5

  /** Confirmations a candidate needs to be kept. */
  const Majority: nat := 3

  /** What reading a property of `null` throws. */
  function NullRead(property: string): string {
    "TypeError: Cannot read properties of null (reading '" + property + "')"
  }

  /** The confirmations among the `n` verification replies from call `v` on, or the first error. */
  function Votes(v: nat, n: nat, verify: Replies): (r: Result<nat>)
    ensures r.Success? ==> r.value <= n
    decreases n
  {
    if n == 0 then Success(0)
    else match verify(v)
      case Failure(e) => Failure(e)
      case Success(reply) =>
        if reply.JNull? then Failure(NullRead("correta"))
        else match Votes(v + 1, n - 1, verify)
          case Failure(e) => Failure(e)
          case Success(k) => Success(k + if MemberTruthy(reply, "correta") then 1 else 0)
  }

  /** The `acertos` of candidate `t`, which is checked by verifier calls `5t` to `5t + 4`. */
  function Judge(q: Json, t: nat, verify: Replies): (r: Result<nat>)
    ensures r.Success? ==> r.value <= Checks
  {
    if q.JNull? then Failure(NullRead("resposta_correta")) else Votes(Checks * t, Checks, verify)
  }

  /** The `acertos` of each candidate, by candidate and position. */
  type Judges = (Json, nat) -> Result<nat>

  /** The judge the script applies: five verifier calls per candidate, in turn. */
  function JudgeWith(verify: Replies): Judges {
    (q: Json, t: nat) => Judge(q, t, verify)
  }

  /** How a run of `gerarVariasQuestoes` ends: with its questions, with a thrown error, or out of fuel. */
  datatype Gathered = Questions(qs: seq<Json>) | Thrown(error: string) | OutOfFuel

  /** The `while` loop from `qs` on, with `t` candidates generated so far and `fuel` more allowed. */
  function GatherFrom(qs: seq<Json>, t: nat, qtd: int, fuel: nat, gen: Replies, judge: Judges): (r: Gathered)
    decreases fuel
  {
    if |qs| >= qtd then Questions(qs)
    else if fuel == 0 then OutOfFuel
    else match gen(t)
      case Failure(e) => Thrown(e)
      case Success(q) =>
        match judge(q, t)
        case Failure(e) => Thrown(e)
        case Success(k) => GatherFrom(if k >= Majority then qs + [q] else qs, t + 1, qtd, fuel - 1, gen, judge)
  }

  /**
   * `gerarVariasQuestoes(area, qtd)`: `gen` gives the successive generated
   * questions, `verify` the successive verdicts; `fuel` bounds the number
   * of candidates, which the script does not.
   */
  method GerarVariasQuestoes(qtd: int, fuel: nat, gen: Replies, verify: Replies) returns (out: Gathered)
    ensures out == GatherFrom([], 0, qtd, fuel, gen, JudgeWith(verify))
  {
    ghost var judge := JudgeWith(verify);
    var qs: seq<Json> := [];
    var t: nat := 0;
    var left := fuel;
    while |qs| < qtd
      invariant GatherFrom([], 0, qtd, fuel, gen, judge) == GatherFrom(qs, t, qtd, left, gen, judge)
      decreases left
    {
      if left == 0 {
        return OutOfFuel;
      }
      var q := gen(t);
      if q.Failure? {
        return Thrown(q.error);
      }
      var acertos := CheckCandidate(q.value, t, verify);
      assert judge(q.value, t) == acertos;
      if acertos.Failure? {
        return Thrown(acertos.error);
      }
      GatherStep(qs, t, qtd, left, gen, judge);
      if acertos.value >= Majority {
        qs := qs + [q.value];
      }
      t := t + 1;
      left := left - 1;
    }
    return Questions(qs);
  }

  /** One candidate generated and judged without an error: the loop goes on with the next one. */
  lemma GatherStep(qs: seq<Json>, t: nat, qtd: int, fuel: nat, gen: Replies, judge: Judges)
    requires |qs| < qtd && fuel > 0 && gen(t).Success? && judge(gen(t).value, t).Success?
    ensures GatherFrom(qs, t, qtd, fuel, gen, judge)
         == GatherFrom(if judge(gen(t).value, t).value >= Majority then qs + [gen(t).value] else qs,
                       t + 1, qtd, fuel - 1, gen, judge)
  {
  }

  /** `k` in front of a successful count. */
  function Plus(k: nat, r: Result<nat>): Result<nat> {
    if r.Success? then Success(k + r.value) else r
  }

  /** Checking candidate `t`: its answer key must not be null, then five verifier calls are counted. */
  method CheckCandidate(q: Json, t: nat, verify: Replies) returns (acertos: Result<nat>)
    ensures acertos == Judge(q, t, verify)
  {
    if q.JNull? {
      return Failure(NullRead("resposta_correta"));
    }
    acertos := CountVotes(Checks * t, Checks, verify);
  }

  /** The inner `for (let i = 0; i < 5; i++)` loop, over `n` verifier calls from call `v` on. */
  method CountVotes(v: nat, n: nat, verify: Replies) returns (r: Result<nat>)
    ensures r == Votes(v, n, verify)
  {
    var count: nat := 0;
    for i := 0 to n
      invariant Votes(v, n, verify) == Plus(count, Votes(v + i, n - i, verify))
    {
      var reply := verify(v + i);
      if reply.Failure? || reply.value.JNull? {
        VotesStop(count, v + i, n - i, verify);
        return Failure(if reply.Failure? then reply.error else NullRead("correta"));
      }
      VotesStep(count, v + i, n - i, verify);
      count := count + if MemberTruthy(reply.value, "correta") then 1 else 0;
    }
    assert Votes(v + n, 0, verify) == Success(0);
    return Success(count);
  }

  /** A failed or null reply at `v` ends the count with its error. */
  lemma VotesStop(k: nat, v: nat, n: nat, verify: Replies)
    requires n > 0 && (verify(v).Failure? || verify(v).value.JNull?)
    ensures Plus(k, Votes(v, n, verify))
         == Failure(if verify(v).Failure? then verify(v).error else NullRead("correta"))
  {
  }

  /** One confirmation counted: the reply at `v` moves from the pending votes into the count. */
  lemma VotesStep(k: nat, v: nat, n: nat, verify: Replies)
    requires n > 0 && verify(v).Success? && !verify(v).value.JNull?
    ensures Plus(k, Votes(v, n, verify))
         == Plus(k + (if MemberTruthy(verify(v).value, "correta") then 1 else 0), Votes(v + 1, n - 1, verify))
  {
  }

  // ----- What a completed run holds -----

  /** Candidate `c` is generated, checked, and confirmed at least three times. */
  predicate AcceptedAt(c: nat, gen: Replies, judge: Judges) {
    gen(c).Success? && judge(gen(c).value, c).Success? && judge(gen(c).value, c).value >= Majority
  }

  /** The accepted candidates among `t` to `t + n - 1`, in the order they were generated. */
  function Accepted(t: nat, n: nat, gen: Replies, judge: Judges): (r: seq<Json>)
    ensures |r| <= n
    decreases n
  {
    if n == 0 then []
    else (if AcceptedAt(t, gen, judge) then [gen(t).value] else []) + Accepted(t + 1, n - 1, gen, judge)
  }

  /** Candidates `t` to `t + n - 1` were generated and checked without an error. */
  predicate Judged(t: nat, n: nat, gen: Replies, judge: Judges) {
    forall c :: t <= c < t + n ==> gen(c).Success? && judge(gen(c).value, c).Success?
  }

  lemma AcceptedStep(t: nat, n: nat, gen: Replies, judge: Judges)
    requires n > 0
    ensures Accepted(t, n, gen, judge) ==
              (if AcceptedAt(t, gen, judge) then [gen(t).value] else []) + Accepted(t + 1, n - 1, gen, judge)
  {
  }

  /**
   * A run that returns has exactly `qtd` questions (none when `qtd` is not
   * positive): the accepted candidates in generation order, the run stopping
   * with the candidate that brings the count to `qtd`.
   */
  lemma {:induction false} GatherReturnsAccepted(qs: seq<Json>, t: nat, qtd: int, fuel: nat, gen: Replies, judge: Judges)
    requires GatherFrom(qs, t, qtd, fuel, gen, judge).Questions?
    ensures var out := GatherFrom(qs, t, qtd, fuel, gen, judge).qs;
      && |out| == (if |qs| >= qtd then |qs| else qtd)
      && exists n: nat :: n <= fuel && Judged(t, n, gen, judge) && out == qs + Accepted(t, n, gen, judge)
           && (n == 0 || |qs| + |Accepted(t, n - 1, gen, judge)| < qtd)
    decreases fuel
  {
    var out := GatherFrom(qs, t, qtd, fuel, gen, judge).qs;
    if |qs| >= qtd {
      assert out == qs + Accepted(t, 0, gen, judge);
      assert Judged(t, 0, gen, judge);
    } else {
      var q := gen(t).value;
      var k := judge(q, t).value;
      var qs' := if k >= Majority then qs + [q] else qs;
      GatherReturnsAccepted(qs', t + 1, qtd, fuel - 1, gen, judge);
      var n: nat :| n <= fuel - 1 && Judged(t + 1, n, gen, judge) && out == qs' + Accepted(t + 1, n, gen, judge)
               && (n == 0 || |qs'| + |Accepted(t + 1, n - 1, gen, judge)| < qtd);
      AcceptedStep(t, n + 1, gen, judge);
      assert out == qs + Accepted(t, n + 1, gen, judge);
      if n > 0 {
        AcceptedStep(t, n, gen, judge);
      }
      assert |qs| + |Accepted(t, n, gen, judge)| < qtd;
      assert Judged(t, n + 1, gen, judge);
    }
  }

  /** The script returns exactly `qtd` questions, the accepted candidates in the order they were generated. */
  lemma GerarReturnsQtd(qtd: int, fuel: nat, gen: Replies, judge: Judges)
    requires GatherFrom([], 0, qtd, fuel, gen, judge).Questions?
    ensures var out := GatherFrom([], 0, qtd, fuel, gen, judge).qs;
      && |out| == (if qtd <= 0 then 0 else qtd)
      && exists n: nat :: Judged(0, n, gen, judge) && out == Accepted(0, n, gen, judge)
  {
    GatherReturnsAccepted([], 0, qtd, fuel, gen, judge);
    var out := GatherFrom([], 0, qtd, fuel, gen, judge).qs;
    var n: nat :| n <= fuel && Judged(0, n, gen, judge) && out == [] + Accepted(0, n, gen, judge);
    assert out == Accepted(0, n, gen, judge);
  }

  /** For `qtd` not positive nothing is generated: the result is `[]` whatever the services do. */
  lemma NothingAskedForNothing(qtd: int, fuel: nat, gen: Replies, judge: Judges)
    requires qtd <= 0
    ensures GatherFrom([], 0, qtd, fuel, gen, judge) == Questions([])
  {
  }

  /** More fuel does not change a run that returned or threw. */
  lemma {:induction false} FuelSuffices(qs: seq<Json>, t: nat, qtd: int, fuel: nat, more: nat, gen: Replies, judge: Judges)
    requires fuel <= more && !GatherFrom(qs, t, qtd, fuel, gen, judge).OutOfFuel?
    ensures GatherFrom(qs, t, qtd, more, gen, judge) == GatherFrom(qs, t, qtd, fuel, gen, judge)
    decreases fuel
  {
    if |qs| < qtd && gen(t).Success? && judge(gen(t).value, t).Success? {
      var q := gen(t).value;
      var k := judge(q, t).value;
      FuelSuffices(if k >= Majority then qs + [q] else qs, t + 1, qtd, fuel - 1, more - 1, gen, judge);
    }
  }

  /** A generated `null` makes the script throw before any verification call. */
  lemma NullCandidateThrows(qtd: int, fuel: nat, gen: Replies, verify: Replies)
    requires qtd > 0 && fuel > 0 && gen(0) == Success(JNull)
    ensures GatherFrom([], 0, qtd, fuel, gen, JudgeWith(verify)) == Thrown(NullRead("resposta_correta"))
  {
  }

  // ----- The majority gate on concrete verdicts -----

  /** A verdict `{ "correta": b }`. */
  function Verdict(b: bool): Json {
    JObj(map["correta" := JBool(b)])
  }

  /** Verifier replies giving the verdicts `bs` in turn, then failing. */
  function Verdicts(bs: seq<bool>): Replies {
    (v: nat) => if v < |bs| then Success(Verdict(bs[v])) else Failure("no reply")
  }

  lemma VerdictTruthy(b: bool)
    ensures MemberTruthy(Verdict(b), "correta") == b
  {
    assert Member(Verdict(b), "correta") == Some(JBool(b));
  }

  /** Three confirmations out of five keep the candidate. */
  lemma ThreeOfFiveAccepted()
    ensures Judge(JObj(map[]), 0, Verdicts([true, false, true, false, true])) == Success(3)
    ensures AcceptedAt(0, (c: nat) => Success(JObj(map[])), JudgeWith(Verdicts([true, false, true, false, true])))
  {
    VerdictTruthy(true);
    VerdictTruthy(false);
    var verify := Verdicts([true, false, true, false, true]);
    assert Votes(5, 0, verify) == Success(0);
    assert Votes(4, 1, verify) == Success(1);
    assert Votes(3, 2, verify) == Success(1);
    assert Votes(2, 3, verify) == Success(2);
    assert Votes(1, 4, verify) == Success(2);
    assert Votes(0, 5, verify) == Success(3);
  }

  /** Two confirmations out of five reject it. */
  lemma TwoOfFiveRejected()
    ensures Judge(JObj(map[]), 0, Verdicts([false, true, false, true, false])) == Success(2)
    ensures !AcceptedAt(0, (c: nat) => Success(JObj(map[])), JudgeWith(Verdicts([false, true, false, true, false])))
  {
    VerdictTruthy(true);
    VerdictTruthy(false);
    var verify := Verdicts([false, true, false, true, false]);
    assert Votes(5, 0, verify) == Success(0);
    assert Votes(4, 1, verify) == Success(0);
    assert Votes(3, 2, verify) == Success(1);
    assert Votes(2, 3, verify) == Success(1);
    assert Votes(1, 4, verify) == Success(2);
    assert Votes(0, 5, verify) == Success(2);
  }
}
