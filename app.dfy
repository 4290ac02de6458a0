/**
 * The quiz page's own logic: recording an answer, tallying the score over
 * the quiz received from the server, and the clamp on the per-area count
 * typed into the form.
 */
module App {
  import opened Js

  /** A question as the page receives it; only `respostaCorreta` takes part in the score. */
  datatype Questao = Questao(questao: string, opcoes: seq<string>, respostaCorreta: string)

  /** The quiz: the question list of each area, in the order the areas arrived. */
  type Quiz = Dict<seq<Questao>>

  /** The recorded answers, by answer key. */
  type Answers = map<string, string>

  // ----- Recording an answer -----

  /** The key `${area}:${idx}` of question `idx` of `area`. */
  function AnswerKey(area: string, idx: nat): string {
    area + ":" + NatToString(idx)
  }

  /** The ':' before the index is the last one in the key, as the index is all digits. */
  lemma LastColon(area: string, idx: nat)
    ensures var s := AnswerKey(area, idx);
      s[|area|] == ':' && forall k :: |area| < k < |s| ==> s[k] != ':'
  {
    var s, d := AnswerKey(area, idx), NatToString(idx);
    assert forall k :: |area| < k < |s| ==> s[k] == d[k - |area| - 1];
  }

  /** Different questions have different answer keys, whatever the area names hold. */
  lemma AnswerKeyInjective(a: string, i: nat, b: string, j: nat)
    requires AnswerKey(a, i) == AnswerKey(b, j)
    ensures a == b && i == j
  {
    var s := AnswerKey(a, i);
    LastColon(a, i);
    LastColon(b, j);
    assert |a| == |b|;
    assert a == s[..|a|] == b;
    assert NatToString(i) == s[|a| + 1..] == NatToString(j);
    NatToStringInjective(i, j);
  }

  /** `onAnswer(area, idx, alt)`: the spread of the previous answers with one key set. */
  function OnAnswer(answers: Answers, area: string, idx: nat, alt: string): (r: Answers)
    ensures r.Keys == answers.Keys + {AnswerKey(area, idx)}
    ensures r[AnswerKey(area, idx)] == alt
    ensures forall k :: k in answers && k != AnswerKey(area, idx) ==> r[k] == answers[k]
  {
    answers[AnswerKey(area, idx) := alt]
  }

  /** Answering one question leaves the answer of every other question as it was. */
  lemma OnAnswerTouchesOneQuestion(answers: Answers, area: string, idx: nat, alt: string, other: string, j: nat)
    requires other != area || j != idx
    ensures var r := OnAnswer(answers, area, idx, alt);
      (AnswerKey(other, j) in r <==> AnswerKey(other, j) in answers)
      && (AnswerKey(other, j) in answers ==> r[AnswerKey(other, j)] == answers[AnswerKey(other, j)])
  {
    if AnswerKey(other, j) == AnswerKey(area, idx) {
      AnswerKeyInjective(other, j, area, idx);
    }
  }

  // ----- The score -----

  /** `ans && ans === q.resposta_correta`: a recorded, non-empty answer equal to the right letter. */
  predicate Right(answers: Answers, area: string, i: nat, q: Questao) {
    var k := AnswerKey(area, i);
    k in answers && answers[k] != "" && answers[k] == q.respostaCorreta
  }

  /** Which indices of the questions `qs` of `area` are answered right. */
  function RightAt(answers: Answers, area: string, qs: seq<Questao>): nat -> bool {
    (i: nat) => i < |qs| && Right(answers, area, i, qs[i])
  }

  /** How many of the indices below `m` satisfy `ok`. */
  function Count(ok: nat -> bool, m: nat): (n: nat)
    ensures n <= m
  {
    if m == 0 then 0 else Count(ok, m - 1) + (if ok(m - 1) then 1 else 0)
  }

  /** The right answers among the questions `qs` of `area`. */
  function RightIn(area: string, qs: seq<Questao>, answers: Answers): (n: nat)
    ensures n <= |qs|
  {
    Count(RightAt(answers, area, qs), |qs|)
  }

  /** The right letters of `qs`, in question order. */
  function Letters(qs: seq<Questao>): (ls: seq<string>)
    ensures |ls| == |qs|
  {
    if qs == [] then [] else Letters(qs[..|qs| - 1]) + [qs[|qs| - 1].respostaCorreta]
  }

  /** The right answers over the areas `areas`. */
  function RightOver(areas: seq<string>, quiz: map<string, seq<Questao>>, answers: Answers): nat
    requires forall a :: a in areas ==> a in quiz
  {
    if areas == [] then 0
    else
      var last := areas[|areas| - 1];
      RightOver(areas[..|areas| - 1], quiz, answers) + RightIn(last, quiz[last], answers)
  }

  /** The number of questions over the areas `areas`. */
  function QuestionsOver(areas: seq<string>, quiz: map<string, seq<Questao>>): nat
    requires forall a :: a in areas ==> a in quiz
  {
    if areas == [] then 0
    else
      var last := areas[|areas| - 1];
      QuestionsOver(areas[..|areas| - 1], quiz) + |quiz[last]|
  }

  /**
   * The `score` memo: `correct` counts the right answers, `total` the
   * questions, and `respostas` holds, under each area, one list of its right
   * letters.
   */
  method Score(quiz: Quiz, answers: Answers) returns (correct: nat, total: nat, respostas: Dict<seq<seq<string>>>)
    requires quiz.Valid()
    ensures correct == RightOver(quiz.keys, quiz.vals, answers)
    ensures total == QuestionsOver(quiz.keys, quiz.vals)
    ensures respostas.Valid() && respostas.keys == quiz.keys
    ensures forall a :: a in respostas.vals ==> respostas.vals[a] == [Letters(quiz.vals[a])]
  {
    correct, total := 0, 0;
    respostas := EmptyDict();
    for j := 0 to |quiz.keys|
      invariant Totals(quiz, answers, j, correct, total)
      invariant Recorded(quiz, j, respostas)
    {
      var area := quiz.keys[j];
      ghost var c0, t0, r0 := correct, total, respostas;
      respostas := respostas.Put(area, []);
      var all;
      correct, total, all := ScoreArea(area, quiz.vals[area], answers, correct, total);
      respostas := respostas.Put(area, respostas.vals[area] + [all]);
      TotalsStep(quiz, answers, j, c0, t0, correct, total);
      RecordedStep(quiz, j, r0, respostas);
    }
    TallyDone(quiz, answers, correct, total, respostas);
  }

  /** The running totals after the first `j` areas. */
  ghost predicate Totals(quiz: Quiz, answers: Answers, j: nat, correct: nat, total: nat)
    requires quiz.Valid()
  {
    && j <= |quiz.keys|
    && correct == RightOver(quiz.keys[..j], quiz.vals, answers)
    && total == QuestionsOver(quiz.keys[..j], quiz.vals)
  }

  /** `respostas` after the first `j` areas: one entry per area, in quiz order. */
  ghost predicate Recorded(quiz: Quiz, j: nat, respostas: Dict<seq<seq<string>>>)
    requires quiz.Valid()
  {
    && j <= |quiz.keys|
    && respostas.Valid() && respostas.keys == quiz.keys[..j]
    && forall a :: a in respostas.vals ==> respostas.vals[a] == [Letters(quiz.vals[a])]
  }

  /** Area `j` adds its right answers and its questions to the totals. */
  lemma TotalsStep(quiz: Quiz, answers: Answers, j: nat, correct: nat, total: nat, correct': nat, total': nat)
    requires quiz.Valid() && j < |quiz.keys| && Totals(quiz, answers, j, correct, total)
    requires correct' == correct + RightIn(quiz.keys[j], quiz.vals[quiz.keys[j]], answers)
    requires total' == total + |quiz.vals[quiz.keys[j]]|
    ensures Totals(quiz, answers, j + 1, correct', total')
  {
    OverSnoc(quiz.keys, j, quiz.vals, answers);
  }

  /** Area `j`'s letters are recorded under a new key, after the earlier areas. */
  lemma RecordedStep(quiz: Quiz, j: nat, respostas: Dict<seq<seq<string>>>, respostas': Dict<seq<seq<string>>>)
    requires quiz.Valid() && j < |quiz.keys| && Recorded(quiz, j, respostas)
    requires var area := quiz.keys[j];
      var r := respostas.Put(area, []);
      respostas' == r.Put(area, r.vals[area] + [Letters(quiz.vals[area])])
    ensures Recorded(quiz, j + 1, respostas')
  {
    FreshKey(quiz.keys, j, respostas);
    RecordStep(quiz, j, respostas);
  }

  /** All areas tallied. */
  lemma TallyDone(quiz: Quiz, answers: Answers, correct: nat, total: nat, respostas: Dict<seq<seq<string>>>)
    requires quiz.Valid() && Totals(quiz, answers, |quiz.keys|, correct, total) && Recorded(quiz, |quiz.keys|, respostas)
    ensures correct == RightOver(quiz.keys, quiz.vals, answers)
    ensures total == QuestionsOver(quiz.keys, quiz.vals)
    ensures respostas.Valid() && respostas.keys == quiz.keys
    ensures forall a :: a in respostas.vals ==> respostas.vals[a] == [Letters(quiz.vals[a])]
  {
    assert quiz.keys[..|quiz.keys|] == quiz.keys;
  }

  /** One more area on the running totals. */
  lemma OverSnoc(keys: seq<string>, j: nat, quiz: map<string, seq<Questao>>, answers: Answers)
    requires j < |keys| && forall a :: a in keys ==> a in quiz
    ensures RightOver(keys[..j + 1], quiz, answers) == RightOver(keys[..j], quiz, answers) + RightIn(keys[j], quiz[keys[j]], answers)
    ensures QuestionsOver(keys[..j + 1], quiz) == QuestionsOver(keys[..j], quiz) + |quiz[keys[j]]|
  {
    assert keys[..j + 1][..j] == keys[..j];
    assert keys[..j + 1][j] == keys[j];
  }

  /** Keys are distinct, so key `j` is not among the first `j`. */
  lemma FreshKey<V>(keys: seq<string>, j: nat, d: Dict<V>)
    requires j < |keys| && (forall i, k :: 0 <= i < k < |keys| ==> keys[i] != keys[k])
    requires d.Valid() && d.keys == keys[..j]
    ensures keys[j] !in d.vals
  {
    forall m | 0 <= m < j
      ensures d.keys[m] != keys[j]
    {
    }
  }

  /** Recording area `j`'s letters keeps the record in step with the quiz. */
  lemma RecordStep(quiz: Quiz, j: nat, respostas: Dict<seq<seq<string>>>)
    requires quiz.Valid() && j < |quiz.keys| && quiz.keys[j] !in respostas.vals
    requires respostas.Valid() && respostas.keys == quiz.keys[..j]
    requires forall a :: a in respostas.vals ==> respostas.vals[a] == [Letters(quiz.vals[a])]
    ensures var area := quiz.keys[j];
      var r := respostas.Put(area, []);
      var r' := r.Put(area, r.vals[area] + [Letters(quiz.vals[area])]);
      && r'.Valid() && r'.keys == quiz.keys[..j + 1]
      && forall a :: a in r'.vals ==> r'.vals[a] == [Letters(quiz.vals[a])]
  {
    assert quiz.keys[..j + 1] == quiz.keys[..j] + [quiz.keys[j]];
  }

  /** The `qs.forEach` callback over one area: count each question, and each right answer, and collect the letters. */
  method ScoreArea(area: string, qs: seq<Questao>, answers: Answers, correct0: nat, total0: nat)
    returns (correct: nat, total: nat, all: seq<string>)
    ensures correct == correct0 + RightIn(area, qs, answers)
    ensures total == total0 + |qs|
    ensures all == Letters(qs)
  {
    correct, total, all := correct0, total0, [];
    ghost var ok := RightAt(answers, area, qs);
    for i := 0 to |qs|
      invariant correct == correct0 + Count(ok, i)
      invariant total == total0 + i
      invariant all == Letters(qs[..i])
    {
      assert qs[..i + 1][..i] == qs[..i];
      total := total + 1;
      var ans := AnswerKey(area, i);
      if ans in answers && answers[ans] != "" && answers[ans] == qs[i].respostaCorreta {
        correct := correct + 1;
      }
      all := all + [qs[i].respostaCorreta];
    }
    assert qs[..|qs|] == qs;
  }

  /** `0 <= correct <= total`. */
  lemma {:induction false} RightAtMostQuestions(areas: seq<string>, quiz: map<string, seq<Questao>>, answers: Answers)
    requires forall a :: a in areas ==> a in quiz
    ensures RightOver(areas, quiz, answers) <= QuestionsOver(areas, quiz)
  {
    if areas != [] {
      RightAtMostQuestions(areas[..|areas| - 1], quiz, answers);
    }
  }

  lemma {:induction false} CountIsCardinality(ok: nat -> bool, m: nat)
    ensures Count(ok, m) == |set i: nat | i < m && ok(i)|
  {
    if m > 0 {
      CountIsCardinality(ok, m - 1);
      var before := set i: nat | i < m - 1 && ok(i);
      var after := set i: nat | i < m && ok(i);
      if ok(m - 1) {
        assert after == before + {m - 1};
        assert m - 1 !in before;
      } else {
        assert after == before;
      }
    }
  }

  lemma {:induction false} CountNone(ok: nat -> bool, m: nat)
    requires forall i: nat :: i < m ==> !ok(i)
    ensures Count(ok, m) == 0
  {
    if m > 0 {
      CountNone(ok, m - 1);
    }
  }

  /** The right answers of an area are exactly the questions answered with their right, non-empty letter. */
  lemma RightInCounts(area: string, qs: seq<Questao>, answers: Answers)
    ensures RightIn(area, qs, answers) == |set i: nat | i < |qs| && Right(answers, area, i, qs[i])|
  {
    var ok := RightAt(answers, area, qs);
    CountIsCardinality(ok, |qs|);
    assert (set i: nat | i < |qs| && ok(i)) == set i: nat | i < |qs| && Right(answers, area, i, qs[i]);
  }

  /** A question with no recorded answer is never counted right. */
  lemma UnansweredNeverRight(area: string, qs: seq<Questao>, answers: Answers)
    requires forall i: nat :: i < |qs| ==> AnswerKey(area, i) !in answers
    ensures RightIn(area, qs, answers) == 0
  {
    CountNone(RightAt(answers, area, qs), |qs|);
  }

  /**
   * Answering question `idx` of `area` with its right letter makes it count,
   * unless that letter is empty, and changes no other question's standing.
   */
  lemma RightAfterAnswer(answers: Answers, area: string, idx: nat, q: Questao, other: string, j: nat, p: Questao)
    requires other != area || j != idx
    ensures Right(OnAnswer(answers, area, idx, q.respostaCorreta), area, idx, q) <==> q.respostaCorreta != ""
    ensures Right(OnAnswer(answers, area, idx, q.respostaCorreta), other, j, p) <==> Right(answers, other, j, p)
  {
    OnAnswerTouchesOneQuestion(answers, area, idx, q.respostaCorreta, other, j);
  }

  // ----- The count input -----

  /** A JavaScript number as `Number(e.target.value)` can give it. */
  datatype Number = Finite(x: real) | NaN | PosInfinity | NegInfinity

  /** `Number(v) <= 45 ? Number(v) : 45`: the count never exceeds 45. */
  function ClampCount(n: Number): (r: Number)
    ensures r.Finite? ==> r.x <= 45.0
    ensures r.Finite? || r.NegInfinity?
  {
    if (n.Finite? && n.x <= 45.0) || n.NegInfinity? then n else Finite(45.0)
  }

  /**
   * Counts up to 45 are kept as typed, negative ones included; larger ones,
   * and NaN, for which the comparison fails, become 45; clamping twice is
   * clamping once.
   */
  lemma ClampOnlyFromAbove(n: Number)
    ensures (n.Finite? && n.x <= 45.0) || n.NegInfinity? ==> ClampCount(n) == n
    ensures n.NaN? || n.PosInfinity? || (n.Finite? && n.x > 45.0) ==> ClampCount(n) == Finite(45.0)
    ensures ClampCount(ClampCount(n)) == ClampCount(n)
  {
  }
}
