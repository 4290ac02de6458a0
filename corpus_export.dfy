/**
 * The corpus exporter: one text block per ENEM question record, the blocks
 * grouped per discipline, and one text file per discipline. Every block
 * closes with a dash line and a blank line, which is what the chunker's
 * first rule splits on.
 */
module CorpusExport {
  import opened Wrappers
  import opened Js
  import opened RegexSplit
  import opened Text
  import Embeddings

  // ----- Records -----

  /** One entry of a record's `alternatives` array; `isCorrect` is the truthiness of its field. */
  datatype Alternative = Alternative(letter: Option<string>, text: Option<string>, isCorrect: bool)

  /**
   * The fields of a parsed `details.json` that the exporter reads. `None` is
   * an absent field; `alternatives` is also `None` when the field is not an
   * array. A field holding `null` is not modelled.
   */
  datatype Details = Details(
    discipline: Option<string>,
    title: Option<string>,
    context: Option<string>,
    alternativesIntroduction: Option<string>,
    correctAlternative: Option<string>,
    alternatives: Option<seq<Alternative>>)

  /** `discipline` is truthy. */
  predicate HasDiscipline(d: Details) {
    d.discipline.Some? && d.discipline.value != ""
  }

  /** The language detector (`franc`): a language code for a text. */
  type Detector = string -> string

  /** How a template literal renders a field: an absent one as "undefined". */
  function Shown(o: Option<string>): string {
    if o.Some? then o.value else "undefined"
  }

  /** `${field || "N/A"}`. */
  function OrNA(o: Option<string>): string {
    if o.Some? && o.value != "" then o.value else "N/A"
  }

  /** `allLangs[code]`: the three languages the exporter names. */
  function LanguageName(code: string): Option<string> {
    if code == "eng" then Some("Inglês")
    else if code == "spa" then Some("Espanhol")
    else if code == "por" then Some("Português")
    else None
  }

  /** The value of `language` when the block is written: detected only for "linguagens", else still "". */
  function Language(d: Details, detect: Detector): Option<string>
    requires HasDiscipline(d)
  {
    if d.discipline.value == "linguagens" then
      LanguageName(detect(Shown(d.context) + Shown(d.alternativesIntroduction)))
    else Some("")
  }

  // ----- The block of one record -----

  /** The rule of 43 dashes that closes every block. */
  const Rule: string := "-------------------------------------------"

  /** The rule between the newline that ends the answer line and the one after it. */
  function DashLine(): string {
    "\n" + Rule + "\n"
  }

  function LanguageLine(discipline: string, language: Option<string>): string {
    if discipline == "linguagens" then "Linguagem: " + Shown(language) else ""
  }

  /** The five lines before the alternatives. */
  function Header(d: Details, language: Option<string>): seq<string>
    requires HasDiscipline(d)
  {
    [ LanguageLine(d.discipline.value, language),
      "Título: " + OrNA(d.title),
      "Enunciado: " + OrNA(d.context),
      "Introdução das Alternativas: " + OrNA(d.alternativesIntroduction),
      "Alternativas:" ]
  }

  function AltLine(a: Alternative): string {
    "  " + Shown(a.letter) + ") " + Shown(a.text) + " " + (if a.isCorrect then "(Correta)" else "")
  }

  function AltLines(alts: seq<Alternative>): (ls: seq<string>)
    ensures |ls| == |alts|
  {
    if alts == [] then [] else AltLines(alts[..|alts| - 1]) + [AltLine(alts[|alts| - 1])]
  }

  lemma {:induction false} AltLinesAt(alts: seq<Alternative>, k: nat)
    requires k < |alts|
    ensures AltLines(alts)[k] == AltLine(alts[k])
  {
    if k < |alts| - 1 {
      AltLinesAt(alts[..|alts| - 1], k);
    }
  }

  /** The alternatives written: none unless the field is an array. */
  function Listed(d: Details): seq<Alternative> {
    if d.alternatives.Some? then d.alternatives.value else []
  }

  function AnswerLine(d: Details): string {
    "Resposta Correta: " + OrNA(d.correctAlternative)
  }

  /** The lines of a block, each of which the block ends with a newline. */
  function Lines(d: Details, language: Option<string>): seq<string>
    requires HasDiscipline(d)
  {
    Header(d, language) + AltLines(Listed(d)) + [AnswerLine(d), Rule, ""]
  }

  /** Each line followed by a newline, as repeated `block += line + "\n"` builds it. */
  function Unlines(ls: seq<string>): string {
    if ls == [] then "" else Unlines(ls[..|ls| - 1]) + ls[|ls| - 1] + "\n"
  }

  function Block(d: Details, language: Option<string>): string
    requires HasDiscipline(d)
  {
    Unlines(Lines(d, language))
  }

  /** The block up to the end of the answer line, before its newline. */
  function Stem(d: Details, language: Option<string>): string
    requires HasDiscipline(d)
  {
    Unlines(Header(d, language) + AltLines(Listed(d))) + AnswerLine(d)
  }

  /** What `processJson` returns: the discipline and its block. */
  datatype Processed = Processed(discipline: string, block: string)

  /**
   * `processJson(file)` for a record `rec`, `None` when reading or parsing
   * failed. A record without a discipline gives `undefined`, a failure
   * `null`; both are `None` here, and both are dropped by the grouping.
   */
  function ProcessedRecord(rec: Option<Details>, detect: Detector): (r: Option<Processed>)
    ensures r.None? <==> rec.None? || !HasDiscipline(rec.value)
    ensures r.Some? ==> r.value.discipline == rec.value.discipline.value
  {
    if rec.None? || !HasDiscipline(rec.value) then None
    else
      var d := rec.value;
      Some(Processed(d.discipline.value, Block(d, Language(d, detect))))
  }

  lemma UnlinesSnoc(ls: seq<string>, l: string)
    ensures Unlines(ls + [l]) == Unlines(ls) + l + "\n"
  {
    assert (ls + [l])[..|ls|] == ls;
  }

  /** `processJson`: the block is built by appending one line at a time. */
  method ProcessJson(rec: Option<Details>, detect: Detector) returns (r: Option<Processed>)
    ensures r == ProcessedRecord(rec, detect)
  {
    if rec.None? {
      return None;
    }
    var d := rec.value;
    if d.discipline.None? || d.discipline.value == "" {
      return None;
    }
    var discipline := d.discipline.value;
    var language: Option<string> := Some("");
    if discipline == "linguagens" {
      language := LanguageName(detect(Shown(d.context) + Shown(d.alternativesIntroduction)));
    }
    ghost var lines: seq<string> := [];
    var block := "";
    var line := LanguageLine(discipline, language);
    UnlinesSnoc(lines, line);
    block, lines := block + line + "\n", lines + [line];
    line := "Título: " + OrNA(d.title);
    UnlinesSnoc(lines, line);
    block, lines := block + line + "\n", lines + [line];
    line := "Enunciado: " + OrNA(d.context);
    UnlinesSnoc(lines, line);
    block, lines := block + line + "\n", lines + [line];
    line := "Introdução das Alternativas: " + OrNA(d.alternativesIntroduction);
    UnlinesSnoc(lines, line);
    block, lines := block + line + "\n", lines + [line];
    line := "Alternativas:";
    UnlinesSnoc(lines, line);
    block, lines := block + line + "\n", lines + [line];
    FiveAppended(lines);
    if d.alternatives.Some? {
      block := WriteAlternatives(block, lines, d.alternatives.value);
    } else {
      assert lines + AltLines([]) == lines;
    }
    lines := lines + AltLines(Listed(d));
    ghost var body := lines;
    line := "Resposta Correta: " + OrNA(d.correctAlternative);
    UnlinesSnoc(lines, line);
    block, lines := block + line + "\n", lines + [line];
    UnlinesSnoc(lines, Rule);
    UnlinesSnoc(lines + [Rule], "");
    BlankLineAppended(block + Rule);
    ThreeAppended(body, line, Rule, "");
    block := block + Rule + "\n\n";
    return Some(Processed(discipline, block));
  }

  lemma FiveAppended(lines: seq<string>)
    requires |lines| == 5
    ensures lines == [lines[0], lines[1], lines[2], lines[3], lines[4]]
  {
  }

  /** The `alternatives.forEach` loop: one line per alternative, in order. */
  method WriteAlternatives(block: string, ghost lines: seq<string>, alts: seq<Alternative>) returns (out: string)
    requires block == Unlines(lines)
    ensures out == Unlines(lines + AltLines(alts))
  {
    out := block;
    ghost var done := lines;
    assert alts[..0] == [] && lines + AltLines([]) == lines;
    for i := 0 to |alts|
      invariant done == lines + AltLines(alts[..i])
      invariant out == Unlines(done)
    {
      var line := AltLine(alts[i]);
      UnlinesSnoc(done, line);
      TakeOneMore(alts, i);
      AltLinesSnoc(lines, alts[..i], alts[i]);
      out, done := out + line + "\n", done + [line];
    }
    assert alts[..|alts|] == alts;
  }

  lemma TakeOneMore<T>(s: seq<T>, i: nat)
    requires i < |s|
    ensures s[..i + 1] == s[..i] + [s[i]]
  {
  }

  lemma AltLinesSnoc(lines: seq<string>, alts: seq<Alternative>, a: Alternative)
    ensures lines + AltLines(alts + [a]) == lines + AltLines(alts) + [AltLine(a)]
  {
    assert (alts + [a])[..|alts|] == alts;
  }

  lemma ThreeAppended(xs: seq<string>, a: string, b: string, c: string)
    ensures xs + [a] + [b] + [c] == xs + [a, b, c]
  {
  }

  /** Appending "\n\n" ends the line and adds an empty one. */
  lemma BlankLineAppended(s: string)
    ensures s + "\n\n" == s + "\n" + "" + "\n"
  {
    assert s + "\n" + "" == s + "\n";
  }

  // ----- What a block says -----

  /** Only a "linguagens" block has a "Linguagem: …" first line; any other starts with an empty line. */
  lemma LanguageLineOnlyForLinguagens(d: Details, language: Option<string>)
    requires HasDiscipline(d)
    ensures Lines(d, language)[0] == "" <==> d.discipline.value != "linguagens"
    ensures d.discipline.value == "linguagens" ==>
              Lines(d, language)[0] == "Linguagem: " + Shown(language)
  {
  }

  /** An absent or empty title, statement, introduction or answer is written as "N/A". */
  lemma MissingFieldsNA(d: Details, language: Option<string>)
    requires HasDiscipline(d)
    ensures var ls := Lines(d, language);
      && ((d.title.None? || d.title.value == "") ==> ls[1] == "Título: N/A")
      && ((d.context.None? || d.context.value == "") ==> ls[2] == "Enunciado: N/A")
      && ((d.alternativesIntroduction.None? || d.alternativesIntroduction.value == "") ==>
            ls[3] == "Introdução das Alternativas: N/A")
      && ((d.correctAlternative.None? || d.correctAlternative.value == "") ==>
            ls[|ls| - 3] == "Resposta Correta: N/A")
    ensures var ls := Lines(d, language);
      && (d.title.Some? && d.title.value != "" ==> ls[1] == "Título: " + d.title.value)
      && (d.correctAlternative.Some? && d.correctAlternative.value != "" ==>
            ls[|ls| - 3] == "Resposta Correta: " + d.correctAlternative.value)
  {
  }

  /**
   * Between "Alternativas:" and the answer line there is one line per
   * alternative, in order, and none when the field is not an array.
   */
  lemma AlternativeLines(d: Details, language: Option<string>)
    requires HasDiscipline(d)
    ensures var ls := Lines(d, language);
      && |ls| == 8 + |Listed(d)|
      && ls[4] == "Alternativas:"
      && (forall k :: 0 <= k < |Listed(d)| ==> ls[5 + k] == AltLine(Listed(d)[k]))
    ensures d.alternatives.None? ==> |Lines(d, language)| == 8
  {
    var ls := Lines(d, language);
    forall k | 0 <= k < |Listed(d)|
      ensures ls[5 + k] == AltLine(Listed(d)[k])
    {
      AltLinesAt(Listed(d), k);
      assert ls[5 + k] == AltLines(Listed(d))[k];
    }
  }

  /** An alternative's line starts with "  L) text " and ends with "(Correta)" exactly when it is marked correct. */
  lemma AltLineMarksCorrect(a: Alternative)
    ensures Embeddings.EndsWith(AltLine(a), "(Correta)") <==> a.isCorrect
    ensures AltLine(a)[..|"  " + Shown(a.letter) + ") " + Shown(a.text) + " "|]
         == "  " + Shown(a.letter) + ") " + Shown(a.text) + " "
  {
    var front := "  " + Shown(a.letter) + ") " + Shown(a.text) + " ";
    var mark := if a.isCorrect then "(Correta)" else "";
    assert AltLine(a) == front + mark;
    assert (front + mark)[..|front|] == front;
    if !a.isCorrect {
      assert AltLine(a) == front;
      assert front[|front| - 1] == ' ';
      assert "(Correta)"[8] == ')';
    }
  }

  /** Every block ends with the dash line and a blank line: its stem, the 43-dash rule, an empty line. */
  lemma BlockEndsWithDashLine(d: Details, language: Option<string>)
    requires HasDiscipline(d)
    ensures Block(d, language) == Stem(d, language) + DashLine() + "\n"
    ensures IsDashLine(DashLine())
    ensures var ls := Lines(d, language); ls[|ls| - 2] == Rule && ls[|ls| - 1] == ""
  {
    var body := Header(d, language) + AltLines(Listed(d));
    ThreeAppended(body, AnswerLine(d), Rule, "");
    UnlinesSnoc(body, AnswerLine(d));
    UnlinesSnoc(body + [AnswerLine(d)], Rule);
    UnlinesSnoc(body + [AnswerLine(d)] + [Rule], "");
    Regrouped(Unlines(body) + AnswerLine(d), Rule);
    RuleIsDashLine();
  }

  /** The newline that ends the answer line starts the dash line. */
  lemma Regrouped(s: string, rule: string)
    ensures s + "\n" + rule + "\n" + "" + "\n" == s + ("\n" + rule + "\n") + "\n"
  {
    assert s + "\n" + rule + "\n" + "" == s + "\n" + rule + "\n";
    assert s + "\n" + rule + "\n" == s + ("\n" + rule + "\n");
  }

  lemma RuleIsDashLine()
    ensures IsDashLine(DashLine())
  {
    assert |Rule| == 43;
    assert forall i :: 0 <= i < |Rule| ==> Rule[i] == '-';
    assert forall i :: 1 <= i < 44 ==> DashLine()[i] == Rule[i - 1];
  }

  // ----- Grouping per discipline -----

  /** The records `processJson` kept, in file order. */
  function Kept(rs: seq<Option<Processed>>): (ps: seq<Processed>)
    ensures |ps| <= |rs|
  {
    if rs == [] then []
    else
      var last := rs[|rs| - 1];
      Kept(rs[..|rs| - 1]) + (if last.Some? then [last.value] else [])
  }

  /** The disciplines of `ps` in order of first appearance. */
  function Firsts(ps: seq<Processed>): (ds: seq<string>)
  {
    if ps == [] then []
    else
      var ds := Firsts(ps[..|ps| - 1]);
      if ps[|ps| - 1].discipline in ds then ds else ds + [ps[|ps| - 1].discipline]
  }

  /** The blocks of discipline `d`, in file order. */
  function BlocksOf(ps: seq<Processed>, d: string): (bs: seq<string>)
    ensures |bs| <= |ps|
  {
    if ps == [] then []
    else
      var last := ps[|ps| - 1];
      BlocksOf(ps[..|ps| - 1], d) + (if last.discipline == d then [last.block] else [])
  }

  /** `grouped` holds, for the kept records `ps`, each discipline's blocks under keys in order of first appearance. */
  ghost predicate Grouping(grouped: Dict<seq<string>>, ps: seq<Processed>) {
    && grouped.Valid()
    && grouped.keys == Firsts(ps)
    && forall d :: d in grouped.vals ==> grouped.vals[d] == BlocksOf(ps, d)
  }

  /**
   * The `files.forEach` loop of `main`: a kept record's block is appended to
   * its discipline's list, which is created, as the next key, on the
   * discipline's first block.
   */
  method Group(rs: seq<Option<Processed>>) returns (grouped: Dict<seq<string>>)
    ensures grouped.Valid()
    ensures grouped.keys == Firsts(Kept(rs))
    ensures forall d :: d in grouped.vals ==> grouped.vals[d] == BlocksOf(Kept(rs), d)
  {
    grouped := EmptyDict();
    for i := 0 to |rs|
      invariant Grouping(grouped, Kept(rs[..i]))
    {
      assert rs[..i + 1][..i] == rs[..i];
      var result := rs[i];
      assert Kept(rs[..i + 1]) == Kept(rs[..i]) + (if result.Some? then [result.value] else []);
      if result.Some? {
        var p := result.value;
        ghost var before := grouped;
        if p.discipline !in grouped.vals {
          grouped := grouped.Put(p.discipline, []);
        }
        grouped := grouped.Put(p.discipline, grouped.vals[p.discipline] + [p.block]);
        GroupStep(before, Kept(rs[..i]), p);
      } else {
        assert Kept(rs[..i]) + [] == Kept(rs[..i]);
      }
    }
    assert rs[..|rs|] == rs;
  }

  /** One more kept record: its block goes last in its discipline's list. */
  lemma GroupStep(grouped: Dict<seq<string>>, ps: seq<Processed>, p: Processed)
    requires Grouping(grouped, ps)
    ensures var g := if p.discipline in grouped.vals then grouped else grouped.Put(p.discipline, []);
      Grouping(g.Put(p.discipline, g.vals[p.discipline] + [p.block]), ps + [p])
  {
    assert (ps + [p])[..|ps|] == ps;
    if p.discipline !in grouped.vals {
      BlocksOfAbsent(ps, p.discipline);
    }
  }

  /** A discipline that has not appeared yet has no blocks. */
  lemma {:induction false} BlocksOfAbsent(ps: seq<Processed>, d: string)
    requires d !in Firsts(ps)
    ensures BlocksOf(ps, d) == []
  {
    if ps != [] {
      BlocksOfAbsent(ps[..|ps| - 1], d);
    }
  }

  /**
   * The grouping keeps every discipline once, in order of first appearance,
   * and a discipline is a key exactly when some kept record has it.
   */
  lemma {:induction false} FirstsAreTheDisciplines(ps: seq<Processed>)
    ensures forall i, j :: 0 <= i < j < |Firsts(ps)| ==> Firsts(ps)[i] != Firsts(ps)[j]
    ensures forall d :: d in Firsts(ps) <==> exists i :: 0 <= i < |ps| && ps[i].discipline == d
    ensures forall d :: d in Firsts(ps) <==> BlocksOf(ps, d) != []
  {
    if ps != [] {
      var init := ps[..|ps| - 1];
      FirstsAreTheDisciplines(init);
      forall d
        ensures d in Firsts(ps) <==> exists i :: 0 <= i < |ps| && ps[i].discipline == d
      {
        if d in Firsts(init) {
          var i :| 0 <= i < |init| && init[i].discipline == d;
          assert ps[i] == init[i];
        }
        if exists i :: 0 <= i < |ps| && ps[i].discipline == d {
          var i :| 0 <= i < |ps| && ps[i].discipline == d;
          if i < |init| {
            assert init[i] == ps[i];
          }
        }
      }
    }
  }

  /** Records without a discipline, and records that failed to parse, leave no block anywhere. */
  lemma DroppedRecords(rs: seq<Option<Processed>>, rec: Option<Details>, detect: Detector)
    requires rec.None? || !HasDiscipline(rec.value)
    ensures Kept(rs + [ProcessedRecord(rec, detect)]) == Kept(rs)
  {
    assert (rs + [ProcessedRecord(rec, detect)])[..|rs|] == rs;
  }

  // ----- The files written -----

  /** `toUpperCase` of one ASCII or Latin-1 character. */
  function UpperChar(c: char): (r: string)
    ensures '\n' in r <==> c == '\n'
  {
    if 'a' <= c <= 'z' || ('\U{00E0}' <= c <= '\U{00FE}' && c != '\U{00F7}') then [(c as int - 0x20) as char]
    else if c == '\U{00DF}' then "SS"
    else if c == '\U{00FF}' then "\U{0178}"
    else if c == '\U{00B5}' then "\U{039C}"
    else [c]
  }

  function Upper(s: string): (r: string)
    ensures '\n' in r <==> '\n' in s
  {
    if s == [] then [] else UpperChar(s[0]) + Upper(s[1..])
  }

  /** `discipline.replace(/\s+/g, "_").toLowerCase()`: unlike the index key, accents are kept. */
  function SafeName(discipline: string): (r: string)
    ensures NoSpace(r)
  {
    Lower(CollapseSpaces(discipline, "_"))
  }

  /** The file name of a discipline. */
  function FileName(discipline: string): string {
    SafeName(discipline) + ".txt"
  }

  function Heading(discipline: string): string {
    "===== " + Upper(discipline) + " =====\n\n"
  }

  /** The content written for a discipline: the heading, then its blocks joined by "\n". */
  function Content(discipline: string, blocks: seq<string>): string {
    Heading(discipline) + Join(blocks, "\n")
  }

  /** The humanities file keeps its accent, where the index key drops it. */
  lemma SafeNameKeepsAccents()
    ensures SafeName("Ciências Humanas") == "ciências_humanas"
    ensures NormalizeName("Ciências Humanas") == "ciencias_humanas"
  {
    HumanitiesPieces();
    CollapseTwoWords("Ciências", "Humanas");
    LowerTwoWords("Ciências", "Humanas");
    LowerHumanities();
    NormalizeHumanities("Ciências Humanas");
  }

  lemma LowerTwoWords(a: string, b: string)
    ensures Lower(a + "_" + b) == Lower(a) + "_" + Lower(b)
  {
    LowerConcat(a + "_", b);
    LowerConcat(a, "_");
  }

  lemma LowerHumanities()
    ensures Lower("Ciências") + "_" + Lower("Humanas") == "ciências_humanas"
  {
    assert Lower("Ciências") == "ciências";
    assert Lower("Humanas") == "humanas";
  }

  // ----- The written files split back into their blocks -----

  /** No line after the first of `a + b` starts with a dash when none of `a` or `b` does and the seam is safe. */
  lemma Glue(a: string, b: string)
    requires NoNewlineDash(a) && NoNewlineDash(b)
    requires a == [] || b == [] || a[|a| - 1] != '\n' || b[0] != '-'
    ensures NoNewlineDash(a + b)
  {
    var s := a + b;
    forall i | 0 <= i < |s| - 1
      ensures !(s[i] == '\n' && s[i + 1] == '-')
    {
      if i < |a| - 1 {
        assert s[i] == a[i] && s[i + 1] == a[i + 1];
      } else if i >= |a| {
        assert s[i] == b[i - |a|] && s[i + 1] == b[i + 1 - |a|];
      }
    }
  }

  /** A line that neither starts with a dash nor has a line inside it that does. */
  predicate LinePlain(l: string) {
    NoNewlineDash(l) && (l == [] || l[0] != '-')
  }

  /** Lines of which no one starts with a dash give a text of which no line starts with a dash. */
  lemma {:induction false} UnlinesPlain(ls: seq<string>)
    requires forall j :: 0 <= j < |ls| ==> LinePlain(ls[j])
    ensures NoNewlineDash(Unlines(ls))
    ensures ls != [] ==> Unlines(ls) != [] && Unlines(ls)[0] != '-' && Unlines(ls)[|Unlines(ls)| - 1] == '\n'
  {
    if ls != [] {
      var init, l := ls[..|ls| - 1], ls[|ls| - 1];
      UnlinesPlain(init);
      var u := Unlines(init);
      Glue(u, l);
      Glue(u + l, "\n");
      if init == [] {
        assert u + l + "\n" == l + "\n";
      } else {
        assert (u + l + "\n")[0] == u[0];
      }
    }
  }

  /** A field whose every line after the first does not start with a dash. */
  predicate PlainField(o: Option<string>) {
    o.None? || NoNewlineDash(o.value)
  }

  /** No field of the record, and not the language name, has a line starting with a dash. */
  predicate Plain(d: Details, language: Option<string>) {
    && PlainField(d.title) && PlainField(d.context) && PlainField(d.alternativesIntroduction)
    && PlainField(d.correctAlternative) && PlainField(language)
    && forall k :: 0 <= k < |Listed(d)| ==> PlainField(Listed(d)[k].letter) && PlainField(Listed(d)[k].text)
  }

  lemma ShownPlain(o: Option<string>)
    requires PlainField(o)
    ensures NoNewlineDash(Shown(o)) && NoNewlineDash(OrNA(o))
  {
  }

  /** A fixed label followed by a field. */
  lemma LabelledPlain(prefix: string, field: string)
    requires prefix != [] && prefix[0] != '-' && prefix[|prefix| - 1] != '\n' && '\n' !in prefix
    requires NoNewlineDash(field)
    ensures LinePlain(prefix + field)
  {
    Glue(prefix, field);
    assert (prefix + field)[0] == prefix[0];
  }

  lemma AltLinePlain(a: Alternative)
    requires PlainField(a.letter) && PlainField(a.text)
    ensures LinePlain(AltLine(a))
  {
    ShownPlain(a.letter);
    ShownPlain(a.text);
    var l, t := Shown(a.letter), Shown(a.text);
    LabelledPlain("  ", l);
    Glue("  " + l, ") ");
    Glue("  " + l + ") ", t);
    Glue("  " + l + ") " + t, " ");
    Glue("  " + l + ") " + t + " ", if a.isCorrect then "(Correta)" else "");
  }

  lemma {:induction false} AltLinesPlain(alts: seq<Alternative>)
    requires forall k :: 0 <= k < |alts| ==> PlainField(alts[k].letter) && PlainField(alts[k].text)
    ensures forall j :: 0 <= j < |alts| ==> LinePlain(AltLines(alts)[j])
  {
    forall j | 0 <= j < |alts|
      ensures LinePlain(AltLines(alts)[j])
    {
      AltLinesAt(alts, j);
      AltLinePlain(alts[j]);
    }
  }

  lemma HeaderPlain(d: Details, language: Option<string>)
    requires HasDiscipline(d) && Plain(d, language)
    ensures forall j :: 0 <= j < 5 ==> LinePlain(Header(d, language)[j])
  {
    ShownPlain(language);
    ShownPlain(d.title);
    ShownPlain(d.context);
    ShownPlain(d.alternativesIntroduction);
    if d.discipline.value == "linguagens" {
      LabelledPlain("Linguagem: ", Shown(language));
    }
    LabelledPlain("Título: ", OrNA(d.title));
    LabelledPlain("Enunciado: ", OrNA(d.context));
    LabelledPlain("Introdução das Alternativas: ", OrNA(d.alternativesIntroduction));
  }

  /** The stem of a plain record neither starts with a dash nor has a line that does, and is not blank. */
  lemma StemPlain(d: Details, language: Option<string>)
    requires HasDiscipline(d) && Plain(d, language)
    ensures var s := Stem(d, language); NoNewlineDash(s) && s != [] && s[0] != '-' && Trim(s) != ""
  {
    var h, alts := Header(d, language), AltLines(Listed(d));
    HeaderPlain(d, language);
    AltLinesPlain(Listed(d));
    var ls := h + alts;
    assert forall j :: 0 <= j < |ls| ==> LinePlain(ls[j]) by {
      forall j | 0 <= j < |ls|
        ensures LinePlain(ls[j])
      {
        if j >= 5 {
          assert ls[j] == alts[j - 5];
        }
      }
    }
    UnlinesPlain(ls);
    var u := Unlines(ls);
    ShownPlain(d.correctAlternative);
    LabelledPlain("Resposta Correta: ", OrNA(d.correctAlternative));
    Glue(u, AnswerLine(d));
    var s := u + AnswerLine(d);
    assert s[0] == u[0];
    assert s[|u|] == 'R';
    assert !AllSpace(s);
  }

  /** The stems closed by the dash line and a blank line, as every block is. */
  function Closed(stems: seq<string>): (bs: seq<string>)
    ensures |bs| == |stems|
  {
    if stems == [] then [] else [stems[0] + DashLine() + "\n"] + Closed(stems[1..])
  }

  /** The text between the dash lines of a file: heading and first stem, each further stem after the blank lines, the last newline. */
  function Fronts(p: string, stems: seq<string>): (r: seq<string>)
    requires stems != []
    ensures |r| == |stems| + 1
    decreases |stems|
  {
    [p + stems[0]] + (if |stems| == 1 then ["\n"] else Fronts("\n\n", stems[1..]))
  }

  function DashLines(n: nat): (r: seq<string>)
    ensures |r| == n
  {
    if n == 0 then [] else [DashLine()] + DashLines(n - 1)
  }

  lemma {:induction false} DashLinesAreDashLines(n: nat)
    ensures forall i :: 0 <= i < n ==> IsDashLine(DashLines(n)[i])
  {
    RuleIsDashLine();
    if n > 0 {
      DashLinesAreDashLines(n - 1);
      assert forall i :: 1 <= i < n ==> DashLines(n)[i] == DashLines(n - 1)[i - 1];
    }
  }

  lemma Regroup(p: string, s: string, line: string, rest: string)
    ensures p + (s + line + "\n" + "\n" + rest) == (p + s) + line + ("\n\n" + rest)
  {
    assert s + line + "\n" + "\n" + rest == s + line + ("\n\n" + rest);
  }

  lemma RegroupLast(p: string, s: string, line: string)
    ensures p + (s + line + "\n") == (p + s) + line + "\n"
  {
  }

  /** A prefix and the closed stems joined by "\n" interleave the fronts with the dash lines. */
  lemma {:induction false} JoinClosed(p: string, stems: seq<string>)
    requires stems != []
    ensures p + Join(Closed(stems), "\n") == Interleave(Fronts(p, stems), DashLines(|stems|))
    decreases |stems|
  {
    var line := DashLine();
    var cs, fs, ls := Closed(stems), Fronts(p, stems), DashLines(|stems|);
    assert cs[0] == stems[0] + line + "\n";
    assert fs[0] == p + stems[0] && ls[0] == line;
    if |stems| == 1 {
      assert fs[1..] == ["\n"] && ls[1..] == [];
      RegroupLast(p, stems[0], line);
    } else {
      assert cs[1..] == Closed(stems[1..]);
      assert fs[1..] == Fronts("\n\n", stems[1..]);
      assert ls[1..] == DashLines(|stems| - 1);
      JoinClosed("\n\n", stems[1..]);
      Regroup(p, stems[0], line, Join(cs[1..], "\n"));
    }
  }

  lemma {:induction false} FrontsChunks(p: string, stems: seq<string>)
    requires stems != [] && Trim(p + stems[0]) != ""
    requires forall i :: 1 <= i < |stems| ==> Trim(stems[i]) != ""
    ensures var r := TrimmedNonEmpty(Fronts(p, stems));
      && |r| == |stems| && r[0] == Trim(p + stems[0])
      && forall i :: 1 <= i < |stems| ==> r[i] == Trim(stems[i])
    decreases |stems|
  {
    var fs := Fronts(p, stems);
    assert fs[1..] == if |stems| == 1 then ["\n"] else Fronts("\n\n", stems[1..]);
    if |stems| == 1 {
      assert Trim("\n") == "";
      assert ["\n"][1..] == [];
    } else {
      TrimDropsLeadingSpace("\n\n", stems[1]);
      FrontsChunks("\n\n", stems[1..]);
    }
  }

  lemma {:induction false} FrontsPlain(p: string, stems: seq<string>)
    requires stems != [] && NoNewlineDash(p + stems[0])
    requires forall i :: 1 <= i < |stems| ==> LinePlain(stems[i])
    ensures forall i :: 0 <= i < |Fronts(p, stems)| ==> NoNewlineDash(Fronts(p, stems)[i])
    decreases |stems|
  {
    var fs := Fronts(p, stems);
    if |stems| > 1 {
      Glue("\n\n", stems[1]);
      FrontsPlain("\n\n", stems[1..]);
      assert forall i :: 1 <= i < |fs| ==> fs[i] == Fronts("\n\n", stems[1..])[i - 1];
    }
  }

  lemma HeadingPlain(discipline: string, stem: string)
    requires '\n' !in discipline && LinePlain(stem)
    ensures NoNewlineDash(Heading(discipline) + stem) && Trim(Heading(discipline) + stem) != ""
  {
    var u := Upper(discipline);
    Glue("===== ", u);
    Glue("===== " + u, " =====\n\n");
    Glue(Heading(discipline), stem);
    assert (Heading(discipline) + stem)[0] == '=';
  }

  /**
   * A discipline's file, split by the chunker: with at least two blocks and
   * no line inside a block starting with a dash, the dash rule applies and
   * gives one chunk per block, the first prefixed by the heading. The marker
   * rule is never reached, so the chunker as written gives the same.
   */
  lemma ExportedChunks(discipline: string, stems: seq<string>)
    requires '\n' !in discipline && |stems| >= 2
    requires forall i :: 0 <= i < |stems| ==> LinePlain(stems[i]) && Trim(stems[i]) != ""
    ensures var r := SplitIntoChunks(Content(discipline, Closed(stems)));
      && |r| == |stems| && r[0] == Trim(Heading(discipline) + stems[0])
      && forall i :: 1 <= i < |stems| ==> r[i] == Trim(stems[i])
    ensures SplitIntoChunksAsWritten(Content(discipline, Closed(stems))) == Success(SplitIntoChunks(Content(discipline, Closed(stems))))
  {
    var h := Heading(discipline);
    JoinClosed(h, stems);
    HeadingPlain(discipline, stems[0]);
    FrontsPlain(h, stems);
    FrontsChunks(h, stems);
    DashLinesAreDashLines(|stems|);
    DashBlocksChunk(Fronts(h, stems), DashLines(|stems|));
  }

  /** The blocks of records with their languages. */
  function Blocks(ds: seq<Details>, languages: seq<Option<string>>): (bs: seq<string>)
    requires |ds| == |languages| && forall i :: 0 <= i < |ds| ==> HasDiscipline(ds[i])
    ensures |bs| == |ds|
  {
    if ds == [] then [] else [Block(ds[0], languages[0])] + Blocks(ds[1..], languages[1..])
  }

  function Stems(ds: seq<Details>, languages: seq<Option<string>>): (ss: seq<string>)
    requires |ds| == |languages| && forall i :: 0 <= i < |ds| ==> HasDiscipline(ds[i])
    ensures |ss| == |ds|
  {
    if ds == [] then [] else [Stem(ds[0], languages[0])] + Stems(ds[1..], languages[1..])
  }

  lemma {:induction false} BlocksAreClosedStems(ds: seq<Details>, languages: seq<Option<string>>)
    requires |ds| == |languages| && forall i :: 0 <= i < |ds| ==> HasDiscipline(ds[i])
    ensures Blocks(ds, languages) == Closed(Stems(ds, languages))
    ensures forall i :: 0 <= i < |ds| ==> Stems(ds, languages)[i] == Stem(ds[i], languages[i])
  {
    if ds != [] {
      BlockEndsWithDashLine(ds[0], languages[0]);
      BlocksAreClosedStems(ds[1..], languages[1..]);
      var ss := Stems(ds, languages);
      assert ss[1..] == Stems(ds[1..], languages[1..]);
      forall i | 1 <= i < |ds|
        ensures ss[i] == Stem(ds[i], languages[i])
      {
        assert ss[i] == ss[1..][i - 1];
        assert ds[1..][i - 1] == ds[i] && languages[1..][i - 1] == languages[i];
      }
    }
  }

  /**
   * The file written for a discipline with at least two plain records splits,
   * on its dash lines, into one chunk per record: the record's block up to its
   * answer line, trimmed, the first one after the heading, on the chunker as
   * written as well.
   */
  lemma ExportedFileChunks(discipline: string, ds: seq<Details>, languages: seq<Option<string>>)
    requires '\n' !in discipline && |ds| == |languages| >= 2
    requires forall i :: 0 <= i < |ds| ==> HasDiscipline(ds[i]) && Plain(ds[i], languages[i])
    ensures var r := SplitIntoChunks(Content(discipline, Blocks(ds, languages)));
      && |r| == |ds| && r[0] == Trim(Heading(discipline) + Stem(ds[0], languages[0]))
      && forall i :: 1 <= i < |ds| ==> r[i] == Trim(Stem(ds[i], languages[i]))
    ensures SplitIntoChunksAsWritten(Content(discipline, Blocks(ds, languages))) == Success(SplitIntoChunks(Content(discipline, Blocks(ds, languages))))
  {
    BlocksAreClosedStems(ds, languages);
    var ss := Stems(ds, languages);
    forall i | 0 <= i < |ds|
      ensures LinePlain(ss[i]) && Trim(ss[i]) != ""
    {
      StemPlain(ds[i], languages[i]);
    }
    ExportedChunks(discipline, ss);
  }
}
