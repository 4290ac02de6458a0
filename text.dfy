/**
 * The server's text utilities (server/utils/text.ts): `sanitizeText`, which
 * turns HTML line breaks into newlines and strips tags, `normalizeName`,
 * which turns a discipline or area name into an index key, and the layered
 * chunker `splitIntoChunks`.
 */
module Text {
  import opened Wrappers
  import opened Js
  import opened RegexSplit

  // ----- sanitizeText -----

  /** Length of a case-insensitive match of `<br\s*\/?>` at the start of `t`, if any. */
  function BreakTagLength(t: string): (r: Option<nat>)
    ensures r.Some? ==> 4 <= r.value <= |t| && t[0] == '<' && t[r.value - 1] == '>'
  {
    if LabelAt(t, "<br") then
      assert CiCharEq(t[0], '<');
      var w := SpaceRunEnd(t, 3);
      if w < |t| && t[w] == '>' then Some(w + 1)
      else if w + 1 < |t| && t[w] == '/' && t[w + 1] == '>' then Some(w + 2)
      else None
    else None
  }

  /**
   * The global replacement of line-break tags by "\n". With `atLineEnd` a tag
   * is replaced only when a newline or the end of the text follows it (the
   * look-ahead `(?=\n|$)`); without it every line-break tag is replaced.
   */
  function ReplaceBreaks(s: string, atLineEnd: bool): (r: string)
    decreases |s|
  {
    if s == [] then []
    else
      var n := BreakTagLength(s);
      if n.Some? && (!atLineEnd || n.value == |s| || s[n.value] == '\n') then "\n" + ReplaceBreaks(s[n.value..], atLineEnd)
      else [s[0]] + ReplaceBreaks(s[1..], atLineEnd)
  }

  /** No '>' before the end of the current line (a line terminator or the end of the text). */
  predicate OpenLine(t: string)
    decreases |t|
  {
    t == [] || IsLineTerminator(t[0]) || (t[0] != '>' && OpenLine(t[1..]))
  }

  /** No '<' is followed by a '>' on the same line: nothing `<.*?>` could match is left. */
  predicate TagFree(s: string)
    decreases |s|
  {
    s == [] || ((s[0] == '<' ==> OpenLine(s[1..])) && TagFree(s[1..]))
  }

  /** Where the lazy `.*?>` after a '<' ends in `u`: the first '>' when no line terminator comes before it. */
  function TagClose(u: string): (r: Option<nat>)
    ensures r.Some? ==> r.value < |u| && u[r.value] == '>'
    ensures r.None? <==> OpenLine(u)
    decreases |u|
  {
    if u == [] then None
    else if u[0] == '>' then Some(0)
    else if IsLineTerminator(u[0]) then None
    else
      var c := TagClose(u[1..]);
      if c.Some? then Some(c.value + 1) else None
  }

  /** The global removal of `<.*?>`. */
  function StripTags(s: string): (r: string)
    ensures |r| <= |s|
    decreases |s|
  {
    if s == [] then []
    else if s[0] == '<' && TagClose(s[1..]).Some? then StripTags(s[TagClose(s[1..]).value + 2..])
    else [s[0]] + StripTags(s[1..])
  }

  /** `sanitizeText(text)`: `None` stands for `undefined`. */
  function SanitizeText(text: Option<string>): (r: string)
    ensures text.None? || text.value == "" ==> r == ""
    ensures IsTrimmed(r) && TagFree(r)
  {
    if text.None? || text.value == "" then ""
    else
      var stripped := StripTags(ReplaceBreaks(text.value, true));
      StripTagsLeavesNoTag(ReplaceBreaks(text.value, true));
      TrimKeepsTagFree(stripped);
      Trim(stripped)
  }

  /** Behind a line terminator at the front nothing of the current line is left to close a tag. */
  lemma StripTagsOnLaterLines(t: string)
    requires t != [] && IsLineTerminator(t[0])
    ensures OpenLine(StripTags(t))
  {
    assert StripTags(t) == [t[0]] + StripTags(t[1..]);
  }

  /** What follows a kept '<' on its line stays free of '>' once tags are removed. */
  lemma {:induction false} StripTagsKeepsOpenLine(t: string)
    requires OpenLine(t)
    ensures OpenLine(StripTags(t))
    decreases |t|
  {
    if t == [] {
    } else if IsLineTerminator(t[0]) {
      StripTagsOnLaterLines(t);
    } else {
      assert t[0] != '>' && OpenLine(t[1..]);
      assert StripTags(t) == [t[0]] + StripTags(t[1..]);
      StripTagsKeepsOpenLine(t[1..]);
    }
  }

  /** After `<.*?>` has been removed everywhere, no '<' has a '>' after it on the same line. */
  lemma {:induction false} StripTagsLeavesNoTag(s: string)
    ensures TagFree(StripTags(s))
    decreases |s|
  {
    if s != [] {
      if s[0] == '<' && TagClose(s[1..]).Some? {
        StripTagsLeavesNoTag(s[TagClose(s[1..]).value + 2..]);
      } else {
        var r := StripTags(s);
        assert r == [s[0]] + StripTags(s[1..]);
        StripTagsLeavesNoTag(s[1..]);
        assert r[1..] == StripTags(s[1..]);
        if s[0] == '<' {
          StripTagsKeepsOpenLine(s[1..]);
        }
      }
    }
  }

  /** Removing tags a second time changes nothing. */
  lemma {:induction false} StripTagsIdempotent(s: string)
    ensures StripTags(StripTags(s)) == StripTags(s)
  {
    StripTagsLeavesNoTag(s);
    TagFreeKept(StripTags(s));
  }

  lemma {:induction false} TagFreeKept(s: string)
    requires TagFree(s)
    ensures StripTags(s) == s
    decreases |s|
  {
    if s != [] {
      TagFreeKept(s[1..]);
    }
  }

  lemma {:induction false} OpenLineDropLast(t: string)
    requires t != [] && OpenLine(t)
    ensures OpenLine(t[..|t| - 1])
    decreases |t|
  {
    if |t| > 1 && !IsLineTerminator(t[0]) {
      assert t[..|t| - 1][1..] == t[1..][..|t| - 2];
      OpenLineDropLast(t[1..]);
    }
  }

  lemma {:induction false} TagFreeDropLast(s: string)
    requires s != [] && TagFree(s)
    ensures TagFree(s[..|s| - 1])
    decreases |s|
  {
    if |s| > 1 {
      var d := s[..|s| - 1];
      assert d[1..] == s[1..][..|s| - 2];
      TagFreeDropLast(s[1..]);
      if s[0] == '<' {
        OpenLineDropLast(s[1..]);
      }
    }
  }

  /** `trim` only removes characters at the ends, so it keeps a text free of tags. */
  lemma {:induction false} TrimKeepsTagFree(s: string)
    requires TagFree(s)
    ensures TagFree(Trim(s))
    decreases |s|
  {
    if |s| > 0 && IsSpace(s[0]) {
      TrimKeepsTagFree(s[1..]);
    } else if |s| > 0 && IsSpace(s[|s| - 1]) {
      TagFreeDropLast(s);
      TrimKeepsTagFree(s[..|s| - 1]);
    }
  }

  /** Text without '<' passes both replacements unchanged. */
  lemma {:induction false} NoAngleUnchanged(s: string, atLineEnd: bool)
    requires forall i :: 0 <= i < |s| ==> s[i] != '<'
    ensures ReplaceBreaks(s, atLineEnd) == s && StripTags(s) == s
    decreases |s|
  {
    if s != [] {
      NoAngleUnchanged(s[1..], atLineEnd);
      assert s == [s[0]] + s[1..];
    }
  }

  lemma InlineBreakKept()
    ensures ReplaceBreaks("x<br>y", true) == "x<br>y"
  {
    var s := "x<br>y";
    var u := s[1..];
    assert u == "<br>y" && u[4..] == "y";
    assert LabelAt(u, "<br");
    assert SpaceRunEnd(u, 3) == 3;
    assert BreakTagLength(u) == Some(4);
    NoAngleUnchanged(u[1..], true);
    assert ReplaceBreaks(u, true) == [u[0]] + u[1..];
    assert ReplaceBreaks(u, true) == u;
  }

  lemma InlineBreakStripped()
    ensures StripTags("x<br>y") == "xy"
  {
    var u := "<br>y";
    assert u[1..] == "br>y" && u[1..][1..] == "r>y" && u[1..][1..][1..] == ">y";
    assert TagClose(u[1..]) == Some(2);
    assert u[4..] == "y";
    NoAngleUnchanged(u[4..], true);
    assert StripTags(u) == "y";
    assert "x<br>y"[1..] == u;
  }

  /** `sanitizeText` once the two replacements are known. */
  lemma SanitizeFrom(s: string, t: string, u: string)
    requires s != "" && ReplaceBreaks(s, true) == t && StripTags(t) == u && IsTrimmed(u)
    ensures SanitizeText(Some(s)) == u
  {
  }

  /** A line-break tag followed by more of the same line is removed like any other tag. */
  lemma SanitizeDropsInlineBreak()
    ensures SanitizeText(Some("x<br>y")) == "xy"
  {
    InlineBreakKept();
    InlineBreakStripped();
    SanitizeFrom("x<br>y", "x<br>y", "xy");
  }

  lemma LineEndBreakReplaced()
    ensures ReplaceBreaks("x<br>\ny", true) == "x\n\ny"
    ensures StripTags("x\n\ny") == "x\n\ny"
  {
    var u := "<br>\ny";
    assert u[4..] == "\ny";
    assert LabelAt(u, "<br");
    assert SpaceRunEnd(u, 3) == 3;
    assert BreakTagLength(u) == Some(4);
    NoAngleUnchanged(u[4..], true);
    assert ReplaceBreaks(u, true) == "\n\ny";
    assert "x<br>\ny"[1..] == u;
    NoAngleUnchanged("x\n\ny", true);
  }

  /** A line-break tag at the end of a line becomes a newline. */
  lemma SanitizeKeepsLineEndBreak()
    ensures SanitizeText(Some("x<br>\ny")) == "x\n\ny"
  {
    LineEndBreakReplaced();
    SanitizeFrom("x<br>\ny", "x\n\ny", "x\n\ny");
  }

  // ----- normalizeName -----

  /** The combining diacritical marks U+0300..U+036F that `normalizeName` removes. */
  predicate IsMark(c: char) {
    '\U{0300}' <= c <= '\U{036F}'
  }

  /** Base letter and combining mark of an upper-case Latin-1 letter with a canonical decomposition, by code point. */
  function UpperDecomposition(k: int): (r: Option<(char, char)>)
    ensures r.Some? ==> 'A' <= r.value.0 <= 'Z' && IsMark(r.value.1)
  {
    if 0xC0 <= k <= 0xC5 then Some(('A', ['\U{0300}', '\U{0301}', '\U{0302}', '\U{0303}', '\U{0308}', '\U{030A}'][k - 0xC0]))
    else if k == 0xC7 then Some(('C', '\U{0327}'))
    else if 0xC8 <= k <= 0xCB then Some(('E', ['\U{0300}', '\U{0301}', '\U{0302}', '\U{0308}'][k - 0xC8]))
    else if 0xCC <= k <= 0xCF then Some(('I', ['\U{0300}', '\U{0301}', '\U{0302}', '\U{0308}'][k - 0xCC]))
    else if k == 0xD1 then Some(('N', '\U{0303}'))
    else if 0xD2 <= k <= 0xD6 then Some(('O', ['\U{0300}', '\U{0301}', '\U{0302}', '\U{0303}', '\U{0308}'][k - 0xD2]))
    else if 0xD9 <= k <= 0xDC then Some(('U', ['\U{0300}', '\U{0301}', '\U{0302}', '\U{0308}'][k - 0xD9]))
    else if k == 0xDD then Some(('Y', '\U{0301}'))
    else None
  }

  /**
   * Canonical decomposition (NFD) of one character, for the Latin-1 letters:
   * a precomposed letter becomes its base letter followed by its mark; every
   * other character is left as it is.
   */
  function Decompose(c: char): (r: string)
    ensures 1 <= |r| <= 2
    ensures |r| == 2 ==> 'a' <= r[0] <= 'z' || 'A' <= r[0] <= 'Z'
    ensures |r| == 2 ==> IsMark(r[1])
    ensures |r| == 1 ==> r[0] == c
  {
    var n := c as int;
    if n < 0xC0 then [c]
    else if n == 0xFF then ['y', '\U{0308}']
    else if 0xE0 <= n <= 0xFD && UpperDecomposition(n - 0x20).Some? then
      var bm := UpperDecomposition(n - 0x20).value;
      [(bm.0 as int + 0x20) as char, bm.1]
    else if UpperDecomposition(n).Some? then
      var bm := UpperDecomposition(n).value;
      [bm.0, bm.1]
    else [c]
  }

  predicate NoSpace(s: string) {
    forall i :: 0 <= i < |s| ==> !IsSpace(s[i])
  }

  function Nfd(s: string): (r: string)
    ensures |s| <= |r|
    ensures NoSpace(s) ==> NoSpace(r)
  {
    if s == [] then [] else Decompose(s[0]) + Nfd(s[1..])
  }

  /** `.replace(/[\u0300-\u036f]/g, "")`. */
  function StripMarks(s: string): (r: string)
    ensures forall i :: 0 <= i < |r| ==> !IsMark(r[i])
    ensures |r| <= |s|
    ensures NoSpace(s) ==> NoSpace(r)
  {
    if s == [] then []
    else if IsMark(s[0]) then StripMarks(s[1..])
    else [s[0]] + StripMarks(s[1..])
  }

  /** `toLowerCase` on ASCII and Latin-1 letters. */
  function LowerChar(c: char): (r: char)
    ensures IsSpace(r) <==> IsSpace(c)
    ensures IsMark(r) <==> IsMark(c)
  {
    if 'A' <= c <= 'Z' || ('\U{00C0}' <= c <= '\U{00DE}' && c != '\U{00D7}') then (c as int + 0x20) as char else c
  }

  function Lower(s: string): (r: string)
    ensures |r| == |s| && forall i :: 0 <= i < |s| ==> r[i] == LowerChar(s[i])
  {
    seq(|s|, i requires 0 <= i < |s| => LowerChar(s[i]))
  }

  /** `.replace(/\s+/g, fill)`: every maximal run of whitespace becomes `fill`. */
  function CollapseSpaces(s: string, fill: string): (r: string)
    requires forall i :: 0 <= i < |fill| ==> !IsSpace(fill[i])
    ensures (forall i :: 0 <= i < |s| ==> !IsSpace(s[i])) ==> r == s
    ensures forall i :: 0 <= i < |r| ==> !IsSpace(r[i])
    decreases |s|
  {
    if s == [] then []
    else if IsSpace(s[0]) then fill + CollapseSpaces(s[SpaceRunEnd(s, 0)..], fill)
    else [s[0]] + CollapseSpaces(s[1..], fill)
  }

  /** `normalizeName(name)`: drop accents, lower-case, and turn whitespace runs into "_". */
  function NormalizeName(name: string): (r: string)
    ensures forall i :: 0 <= i < |r| ==> !IsSpace(r[i]) && !IsMark(r[i])
  {
    var lowered := FoldChars(name);
    CollapseKeepsNoMarks(lowered);
    CollapseSpaces(lowered, "_")
  }

  /** The character-wise stages of `normalizeName`: decompose, drop the marks, lower-case. */
  function FoldChars(name: string): (r: string)
    ensures forall i :: 0 <= i < |r| ==> !IsMark(r[i])
    ensures NoSpace(name) ==> NoSpace(r)
  {
    Lower(StripMarks(Nfd(name)))
  }

  lemma {:induction false} CollapseKeepsNoMarks(s: string)
    requires forall i :: 0 <= i < |s| ==> !IsMark(s[i])
    ensures forall i :: 0 <= i < |CollapseSpaces(s, "_")| ==> !IsMark(CollapseSpaces(s, "_")[i])
    decreases |s|
  {
    if s != [] {
      if IsSpace(s[0]) {
        CollapseKeepsNoMarks(s[SpaceRunEnd(s, 0)..]);
      } else {
        CollapseKeepsNoMarks(s[1..]);
      }
    }
  }

  /** A character every stage of `normalizeName` leaves alone. */
  predicate Settled(c: char) {
    !IsSpace(c) && !IsMark(c) && Decompose(c) == [c] && LowerChar(c) == c
  }

  /** A character that is not a mark and has no decomposition lower-cases to a settled character, unless it is whitespace. */
  lemma LowerSettles(c: char)
    requires !IsMark(c) && Decompose(c) == [c] && !IsSpace(c)
    ensures Settled(LowerChar(c))
  {
  }

  lemma {:induction false} NfdNoMarksBase(s: string)
    ensures forall i :: 0 <= i < |StripMarks(Nfd(s))| ==> Decompose(StripMarks(Nfd(s))[i]) == [StripMarks(Nfd(s))[i]]
    decreases |s|
  {
    if s != [] {
      NfdNoMarksBase(s[1..]);
      var d := Decompose(s[0]);
      StripMarksConcat(d, Nfd(s[1..]));
      assert Nfd(s) == d + Nfd(s[1..]);
      if |d| == 2 {
        assert d == [d[0]] + [d[1]];
        StripMarksConcat([d[0]], [d[1]]);
        assert StripMarks(d) == [d[0]];
      } else {
        DecomposeFixed(s[0]);
      }
    }
  }

  /** Decomposition reaches a fixed point in one step. */
  lemma DecomposeFixed(c: char)
    requires Decompose(c) == [c]
    ensures Decompose(Decompose(c)[0]) == [Decompose(c)[0]]
  {
  }

  lemma {:induction false} StripMarksConcat(a: string, b: string)
    ensures StripMarks(a + b) == StripMarks(a) + StripMarks(b)
    decreases |a|
  {
    if a == [] {
      assert a + b == b;
    } else {
      assert (a + b)[0] == a[0] && (a + b)[1..] == a[1..] + b;
      StripMarksConcat(a[1..], b);
    }
  }

  lemma {:induction false} NormalizedSettled(name: string)
    ensures forall i :: 0 <= i < |NormalizeName(name)| ==> Settled(NormalizeName(name)[i])
  {
    var marked := StripMarks(Nfd(name));
    NfdNoMarksBase(name);
    var lowered := Lower(marked);
    CollapseSettles(lowered, marked);
  }

  lemma {:induction false} CollapseSettles(lowered: string, marked: string)
    requires |lowered| == |marked|
    requires forall i :: 0 <= i < |marked| ==> !IsMark(marked[i]) && Decompose(marked[i]) == [marked[i]] && lowered[i] == LowerChar(marked[i])
    ensures forall i :: 0 <= i < |CollapseSpaces(lowered, "_")| ==> Settled(CollapseSpaces(lowered, "_")[i])
    decreases |lowered|
  {
    if lowered != [] {
      if IsSpace(lowered[0]) {
        var e := SpaceRunEnd(lowered, 0);
        CollapseSettles(lowered[e..], marked[e..]);
      } else {
        LowerSettles(marked[0]);
        CollapseSettles(lowered[1..], marked[1..]);
      }
    }
  }

  lemma {:induction false} SettledFixed(s: string)
    requires forall i :: 0 <= i < |s| ==> Settled(s[i])
    ensures Nfd(s) == s && StripMarks(s) == s && Lower(s) == s
    decreases |s|
  {
    if s != [] {
      SettledFixed(s[1..]);
      assert s == [s[0]] + s[1..];
    }
  }

  /** A normalised name is its own normal form, so normalising an index key again finds the same key. */
  lemma NormalizeNameIdempotent(name: string)
    ensures NormalizeName(NormalizeName(name)) == NormalizeName(name)
  {
    var r := NormalizeName(name);
    NormalizedSettled(name);
    SettledFixed(r);
  }

  lemma {:induction false} NfdConcat(a: string, b: string)
    ensures Nfd(a + b) == Nfd(a) + Nfd(b)
    decreases |a|
  {
    if a == [] {
      assert a + b == b;
    } else {
      assert (a + b)[0] == a[0] && (a + b)[1..] == a[1..] + b;
      NfdConcat(a[1..], b);
    }
  }

  /** ASCII text is its own decomposition and carries no marks. */
  lemma {:induction false} AsciiUnchanged(s: string)
    requires forall i :: 0 <= i < |s| ==> s[i] < '\U{0080}'
    ensures Nfd(s) == s && StripMarks(s) == s
    decreases |s|
  {
    if s != [] {
      AsciiUnchanged(s[1..]);
      assert s == [s[0]] + s[1..];
    }
  }

  lemma {:induction false} CollapseAfterWord(a: string, b: string, fill: string)
    requires forall i :: 0 <= i < |fill| ==> !IsSpace(fill[i])
    requires forall i :: 0 <= i < |a| ==> !IsSpace(a[i])
    ensures CollapseSpaces(a + b, fill) == a + CollapseSpaces(b, fill)
    decreases |a|
  {
    if a == [] {
      assert a + b == b;
    } else {
      assert (a + b)[0] == a[0] && (a + b)[1..] == a[1..] + b;
      CollapseAfterWord(a[1..], b, fill);
    }
  }

  lemma LowerConcat(a: string, b: string)
    ensures Lower(a + b) == Lower(a) + Lower(b)
  {
  }

  /** Decomposition, mark removal and lower-casing work character by character. */
  lemma {:induction false} FoldCharsConcat(a: string, b: string)
    ensures FoldChars(a + b) == FoldChars(a) + FoldChars(b)
  {
    NfdConcat(a, b);
    StripMarksConcat(Nfd(a), Nfd(b));
    LowerConcat(StripMarks(Nfd(a)), StripMarks(Nfd(b)));
  }

  /** Two words separated by one space normalise to their normal forms joined by "_". */
  lemma NormalizeTwoWords(a: string, b: string)
    requires NoSpace(a) && NoSpace(b)
    ensures NormalizeName(a + " " + b) == NormalizeName(a) + "_" + NormalizeName(b)
  {
    FoldTwoWords(a, b);
    CollapseTwoWords(FoldChars(a), FoldChars(b));
  }

  lemma FoldTwoWords(a: string, b: string)
    ensures FoldChars(a + " " + b) == FoldChars(a) + " " + FoldChars(b)
  {
    assert a + " " + b == a + (" " + b);
    FoldCharsConcat(a, " " + b);
    FoldCharsConcat(" ", b);
    assert FoldChars(" ") == " ";
  }

  lemma CollapseTwoWords(la: string, lb: string)
    requires NoSpace(la) && NoSpace(lb)
    ensures CollapseSpaces(la + " " + lb, "_") == la + "_" + lb
  {
    assert la + " " + lb == la + (" " + lb);
    CollapseAfterWord(la, " " + lb, "_");
    assert SpaceRunEnd(" " + lb, 0) == 1 by {
      assert SpaceRunEnd(" " + lb, 1) == 1;
    }
    assert (" " + lb)[1..] == lb;
  }

  lemma FoldAscii(s: string)
    requires forall i :: 0 <= i < |s| ==> s[i] < '\U{0080}'
    ensures FoldChars(s) == Lower(s)
  {
    AsciiUnchanged(s);
  }

  lemma FoldCircumflexE(c: string)
    requires c == "\U{00EA}"
    ensures FoldChars(c) == "e"
  {
    assert Decompose(c[0]) == "e\U{0302}";
    assert Nfd(c) == "e\U{0302}";
    var d := "e\U{0302}";
    assert d == Nfd(c);
    assert d[1..][1..] == [];
    assert StripMarks(d[1..]) == [];
    assert StripMarks(d) == "e";
  }

  lemma FoldCiencias(w: string)
    requires w == "Ciências"
    ensures FoldChars(w) == "ciencias"
  {
    var a, c, b := "Ci", "\U{00EA}", "ncias";
    CienciasPieces();
    FoldCharsConcat(a, c + b);
    FoldCharsConcat(c, b);
    FoldCi(a);
    FoldCircumflexE(c);
    FoldNcias(b);
  }

  lemma CienciasPieces()
    ensures "Ci" + ("\U{00EA}" + "ncias") == "Ciências"
    ensures "ci" + ("e" + "ncias") == "ciencias"
  {
  }

  lemma FoldCi(w: string)
    requires w == "Ci"
    ensures FoldChars(w) == "ci"
  {
    FoldAscii(w);
    assert Lower(w) == "ci";
  }

  lemma FoldNcias(w: string)
    requires w == "ncias"
    ensures FoldChars(w) == "ncias"
  {
    FoldAscii(w);
    assert Lower(w) == "ncias";
  }

  lemma FoldHumanas(w: string)
    requires w == "Humanas"
    ensures FoldChars(w) == "humanas"
  {
    FoldAscii(w);
    assert Lower(w) == "humanas";
  }

  /** The area name used for the humanities index. */
  lemma NormalizeHumanities(name: string)
    requires name == "Ciências Humanas"
    ensures NormalizeName(name) == "ciencias_humanas"
  {
    var a, b := "Ciências", "Humanas";
    HumanitiesPieces();
    FoldCiencias(a);
    FoldHumanas(b);
    NormalizeOneWord(a);
    NormalizeOneWord(b);
    NormalizeTwoWords(a, b);
  }

  lemma HumanitiesPieces()
    ensures "Ciências" + " " + "Humanas" == "Ciências Humanas"
    ensures "ciencias" + "_" + "humanas" == "ciencias_humanas"
    ensures NoSpace("Ciências") && NoSpace("Humanas")
  {
  }

  /** A word without whitespace normalises to its folded characters. */
  lemma NormalizeOneWord(w: string)
    requires NoSpace(w)
    ensures NormalizeName(w) == FoldChars(w)
  {
  }

  // ----- splitIntoChunks -----

  /** `text.split(sep).map(s => s.trim()).filter(Boolean)` for a separator without capturing groups, which never throws. */
  function ChunksOn(sep: Separator, text: string): (r: seq<string>)
    requires sep != Marker
    ensures forall i :: 0 <= i < |r| ==> IsChunk(r[i])
  {
    var parts := JsSplit(sep, text);
    CaptureFreeSplitHasNoUndefined(sep, text, 0);
    assert Somes(Values(parts)) == parts;
    SegmentsOfSomes(Values(parts));
    TrimmedNonEmpty(Values(parts))
  }

  /** A split without capturing groups never throws: its chunks are what trimming and filtering its pieces gives. */
  lemma ChunksOnSegments(sep: Separator, text: string)
    requires sep != Marker
    ensures Segments(JsSplit(sep, text)) == Success(ChunksOn(sep, text))
  {
    var parts := JsSplit(sep, text);
    CaptureFreeSplitHasNoUndefined(sep, text, 0);
    assert Somes(Values(parts)) == parts;
    SegmentsOfSomes(Values(parts));
  }

  /**
   * `splitIntoChunks` as the code is written: the marker split carries two
   * capturing groups, so it splices "Questão 1" and "ã" into the result as
   * pieces of their own, and for the other three markers it splices
   * `undefined`, on which the following `trim` throws.
   */
  function SplitIntoChunksAsWritten(text: string): (r: Result<seq<string>>)
    ensures r.Success? ==> forall i :: 0 <= i < |r.value| ==> IsChunk(r.value[i])
    ensures r.Failure? ==> r.error == TypeErrorTrim() && |ChunksOn(DashLine, text)| <= 1
    ensures |ChunksOn(DashLine, text)| > 1 ==> r == Success(ChunksOn(DashLine, text))
  {
    ChunksOnSegments(DashLine, text);
    var byDashes := Segments(JsSplit(DashLine, text));
    if byDashes.Failure? then byDashes
    else if |byDashes.value| > 1 then byDashes
    else
      var byMarkers := Segments(JsSplit(Marker, text));
      if byMarkers.Failure? then byMarkers
      else if |byMarkers.value| > 1 then byMarkers
      else Segments(JsSplit(BlankLine, text))
  }

  /**
   * `splitIntoChunks` with the marker split cutting before each marker and
   * keeping the marker at the head of the next chunk, as the three-rule
   * chunking is meant to work.
   */
  function SplitIntoChunks(text: string): (r: seq<string>)
    ensures forall i :: 0 <= i < |r| ==> IsChunk(r[i])
  {
    var byDashes := ChunksOn(DashLine, text);
    if |byDashes| > 1 then byDashes
    else
      var byMarkers := ChunksOn(MarkerBoundary, text);
      if |byMarkers| > 1 then byMarkers
      else ChunksOn(BlankLine, text)
  }

  /** Which rule decides: dashes when they give several chunks, markers only when dashes do not, blank lines only when neither does. */
  lemma SplitIntoChunksRuleOrder(text: string)
    ensures |ChunksOn(DashLine, text)| > 1 ==> SplitIntoChunks(text) == ChunksOn(DashLine, text)
    ensures |ChunksOn(DashLine, text)| <= 1 && |ChunksOn(MarkerBoundary, text)| > 1 ==>
              SplitIntoChunks(text) == ChunksOn(MarkerBoundary, text)
    ensures |ChunksOn(DashLine, text)| <= 1 && |ChunksOn(MarkerBoundary, text)| <= 1 ==>
              SplitIntoChunks(text) == ChunksOn(BlankLine, text)
  {
  }

  /** The marker rule loses nothing: its chunks are the trimmed non-empty pieces of a cut of the text at newlines. */
  lemma MarkerChunksRejoin(text: string)
    ensures forall i :: 0 <= i < |JsSplit(MarkerBoundary, text)| ==> JsSplit(MarkerBoundary, text)[i].Some?
    ensures Join(Values(JsSplit(MarkerBoundary, text)), "\n") == text
    ensures ChunksOn(MarkerBoundary, text) == TrimmedNonEmpty(Values(JsSplit(MarkerBoundary, text)))
  {
    MarkerBoundaryRejoins(text, 0);
    var parts := JsSplit(MarkerBoundary, text);
    assert Somes(Values(parts)) == parts;
    SegmentsOfSomes(Values(parts));
  }

  lemma {:induction false} SegmentsOfSpaceSplit(sep: Separator, text: string)
    requires AllSpace(text)
    ensures Segments(JsSplit(sep, text)) == Success([])
  {
    SplitOfSpaceIsSpace(sep, text, 0);
    SegmentsOfSpace(JsSplit(sep, text));
  }

  /** A text of whitespace only gives no chunks, on both versions. */
  lemma WhitespaceGivesNoChunks(text: string)
    requires AllSpace(text)
    ensures SplitIntoChunks(text) == []
    ensures SplitIntoChunksAsWritten(text) == Success([])
  {
    SegmentsOfSpaceSplit(DashLine, text);
    SegmentsOfSpaceSplit(Marker, text);
    SegmentsOfSpaceSplit(MarkerBoundary, text);
    SegmentsOfSpaceSplit(BlankLine, text);
    ChunksOnSegments(DashLine, text);
    ChunksOnSegments(MarkerBoundary, text);
    ChunksOnSegments(BlankLine, text);
  }

  /**
   * Blocks joined by dash lines, at least two of them not blank, come back as
   * exactly those blocks, trimmed, blank ones dropped, in order, provided no
   * line inside a block starts with a dash.
   */
  lemma DashBlocksChunk(bs: seq<string>, ls: seq<string>)
    requires |bs| == |ls| + 1
    requires forall i :: 0 <= i < |ls| ==> IsDashLine(ls[i])
    requires forall i :: 0 <= i < |bs| ==> NoNewlineDash(bs[i])
    requires |TrimmedNonEmpty(bs)| > 1
    ensures SplitIntoChunks(Interleave(bs, ls)) == TrimmedNonEmpty(bs)
    ensures SplitIntoChunksAsWritten(Interleave(bs, ls)) == Success(TrimmedNonEmpty(bs))
  {
    DashSplitOfInterleave(bs, ls);
    SegmentsOfSomes(bs);
    ChunksOnSegments(DashLine, Interleave(bs, ls));
  }

  /** Where no marker occurs, the two marker splits agree and so do the two chunkers. */
  lemma {:induction false} AsWrittenAgreesWithoutMarkers(text: string)
    requires forall j :: 0 <= j < |text| ==> MatchHere(Marker, text[j..]).None?
    ensures SplitIntoChunksAsWritten(text) == Success(SplitIntoChunks(text))
  {
    forall j | 0 <= j < |text| ensures MatchHere(MarkerBoundary, text[j..]).None? {
      assert MatchHere(Marker, text[j..]).None?;
    }
    SkipNoMatch(Marker, text, 0, |text|);
    SkipNoMatch(MarkerBoundary, text, 0, |text|);
    assert JsSplit(Marker, text) == JsSplit(MarkerBoundary, text);
    ChunksOnSegments(DashLine, text);
    ChunksOnSegments(MarkerBoundary, text);
    ChunksOnSegments(BlankLine, text);
  }

  // ----- Texts with one marker -----

  /** With no newline in the text no separator can match, so the split is the whole text. */
  lemma {:induction false} NoNewlineNoCut(sep: Separator, u: string)
    requires forall k :: 0 <= k < |u| ==> u[k] != '\n'
    ensures JsSplit(sep, u) == [Some(u)]
  {
    forall j | 0 <= j < |u| ensures MatchHere(sep, u[j..]).None? {
      assert u[j..][0] == u[j];
    }
    SkipNoMatch(sep, u, 0, |u|);
  }

  /** The first match of the split, at `i`, cuts off the text before it. */
  lemma {:induction false} FirstCut(sep: Separator, u: string, i: nat, m: SepMatch)
    requires i < |u|
    requires forall j :: 0 <= j < i ==> MatchHere(sep, u[j..]).None?
    requires MatchHere(sep, u[i..]) == Some(m)
    ensures JsSplit(sep, u) == [Some(u[..i])] + m.captures + SplitAt(sep, u[i + m.len..], 0)
  {
    SkipNoMatch(sep, u, 0, i);
    SplitAtCut(sep, u, i, m);
  }

  /**
   * A line `a`, then a line `u` that starts with a marker: the marker split
   * cuts at the newline and splices in the groups the look-ahead captured.
   */
  lemma OneMarkerSplit(a: string, u: string)
    requires forall k :: 0 <= k < |a| ==> a[k] != '\n'
    requires forall k :: 0 <= k < |u| ==> u[k] != '\n'
    requires MarkerCaptures(u).Some?
    ensures JsSplit(Marker, a + "\n" + u) == [Some(a)] + MarkerCaptures(u).value + [Some(u)]
  {
    var text := a + "\n" + u;
    LineCut(a, u);
    forall j | 0 <= j < |a| ensures MatchHere(Marker, text[j..]).None? {
      assert text[j..][0] == a[j];
    }
    NoNewlineNoCut(Marker, u);
    FirstCut(Marker, text, |a|, SepMatch(1, MarkerCaptures(u).value));
  }

  /** The same line under the corrected look-ahead: it cuts at the newline and captures nothing. */
  lemma OneBoundarySplit(a: string, u: string)
    requires forall k :: 0 <= k < |a| ==> a[k] != '\n'
    requires forall k :: 0 <= k < |u| ==> u[k] != '\n'
    requires MarkerCaptures(u).Some?
    ensures JsSplit(MarkerBoundary, a + "\n" + u) == [Some(a), Some(u)]
  {
    var text := a + "\n" + u;
    LineCut(a, u);
    forall j | 0 <= j < |a| ensures MatchHere(MarkerBoundary, text[j..]).None? {
      assert text[j..][0] == a[j];
    }
    NoNewlineNoCut(MarkerBoundary, u);
    FirstCut(MarkerBoundary, text, |a|, SepMatch(1, []));
  }

  lemma LineCut(a: string, u: string)
    ensures var text := a + "\n" + u;
      && text[|a|..] == "\n" + u && ("\n" + u)[1..] == u && text[..|a|] == a && text[|a| + 1..] == u
  {
  }

  /** A text with no dash line has at most one dash-rule chunk. */
  lemma NoDashLineOneChunk(text: string)
    requires NoNewlineDash(text)
    ensures |ChunksOn(DashLine, text)| <= 1
  {
    LastBlock(text);
    ChunksOnSegments(DashLine, text);
  }

  /** Pieces that are already chunks all survive the trim-and-filter step unchanged. */
  lemma {:induction false} ChunksKept(xs: seq<string>)
    requires forall i :: 0 <= i < |xs| ==> IsChunk(xs[i])
    ensures Segments(Somes(xs)) == Success(xs)
  {
    SegmentsOfSomes(xs);
    var r := TrimmedNonEmpty(xs);
    assert forall i :: 0 <= i < |xs| ==> Trim(xs[i]) == xs[i] && Trim(xs[i]) != "";
    assert |r| == |xs|;
    assert forall i :: 0 <= i < |xs| ==> r[i] == xs[i];
    assert r == xs;
  }

  /** As written, the marker rule decides when the dash rule gives at most one chunk and the marker split does not throw. */
  lemma AsWrittenTakesMarkers(text: string, chunks: seq<string>)
    requires |ChunksOn(DashLine, text)| <= 1
    requires Segments(JsSplit(Marker, text)) == Success(chunks) && |chunks| > 1
    ensures SplitIntoChunksAsWritten(text) == Success(chunks)
  {
    ChunksOnSegments(DashLine, text);
  }

  /** A line of text with a newline only where the marker line starts has no dash line. */
  lemma {:induction false} OneNewlineNoDash(a: string, u: string)
    requires forall k :: 0 <= k < |a| ==> a[k] != '\n'
    requires forall k :: 0 <= k < |u| ==> u[k] != '\n'
    requires u == [] || u[0] != '-'
    ensures NoNewlineDash(a + "\n" + u)
  {
    var text := a + "\n" + u;
    forall i | 0 <= i < |text| - 1 ensures !(text[i] == '\n' && text[i + 1] == '-') {
      if i < |a| {
        assert text[i] == a[i];
      } else if i == |a| {
        assert text[i + 1] == u[0];
      } else {
        assert text[i] == u[i - |a| - 1];
      }
    }
  }

  /** The label markers: `Titulo:`, `Título:` or `Enunciado:`, in any case. */
  predicate LabelMarker(u: string) {
    LabelAt(u, "titulo:") || LabelAt(u, "t\U{00ED}tulo:") || LabelAt(u, "enunciado:")
  }

  /** A line `a`, then a marker line `u`: the dash rule gives at most one chunk. */
  lemma MarkerLineNoDash(a: string, u: string)
    requires forall k :: 0 <= k < |a| ==> a[k] != '\n'
    requires forall k :: 0 <= k < |u| ==> u[k] != '\n'
    requires MarkerCaptures(u).Some?
    ensures |ChunksOn(DashLine, a + "\n" + u)| <= 1
  {
    assert CiCharEq(u[0], 'q') || CiCharEq(u[0], 't') || CiCharEq(u[0], 'e');
    OneNewlineNoDash(a, u);
    NoDashLineOneChunk(a + "\n" + u);
  }

  /** The corrected chunker takes the marker rule's pieces when the dash rule gives at most one chunk and they are several chunks already. */
  lemma MarkersDecide(text: string, xs: seq<string>)
    requires |ChunksOn(DashLine, text)| <= 1
    requires JsSplit(MarkerBoundary, text) == Somes(xs)
    requires |xs| > 1 && forall i :: 0 <= i < |xs| ==> IsChunk(xs[i])
    ensures SplitIntoChunks(text) == xs
  {
    ChunksKept(xs);
  }

  /** As written, the chunker takes the marker split's pieces under the same conditions. */
  lemma MarkersDecideAsWritten(text: string, xs: seq<string>)
    requires |ChunksOn(DashLine, text)| <= 1
    requires JsSplit(Marker, text) == Somes(xs)
    requires |xs| > 1 && forall i :: 0 <= i < |xs| ==> IsChunk(xs[i])
    ensures SplitIntoChunksAsWritten(text) == Success(xs)
  {
    ChunksKept(xs);
    AsWrittenTakesMarkers(text, xs);
  }

  /**
   * As written, the marker split throws on a `Titulo:`, `Título:` or
   * `Enunciado:` marker: the second capturing group does not take part,
   * `split` puts `undefined` into the result, and `trim` is called on it.
   * For instance "a\nTítulo: x" throws.
   */
  lemma {:induction false} LabelMarkerThrows(a: string, u: string)
    requires forall k :: 0 <= k < |a| ==> a[k] != '\n'
    requires forall k :: 0 <= k < |u| ==> u[k] != '\n'
    requires LabelMarker(u)
    ensures SplitIntoChunksAsWritten(a + "\n" + u) == Failure(TypeErrorTrim())
  {
    LabelCaptures(u);
    MarkerLineNoDash(a, u);
    OneMarkerSplit(a, u);
    UndefinedPieceThrows(a + "\n" + u);
  }

  /** A label marker takes part in the first group only. */
  lemma LabelCaptures(u: string)
    requires LabelMarker(u)
    ensures MarkerCaptures(u).Some? && |MarkerCaptures(u).value| == 2 && MarkerCaptures(u).value[1].None?
  {
    assert CiCharEq(u[0], 't') || CiCharEq(u[0], 'e');
    assert !LabelAt(u, "quest");
  }

  /** A marker split whose third piece is `undefined` makes the chunker throw once the dash rule gives at most one chunk. */
  lemma UndefinedPieceThrows(text: string)
    requires |ChunksOn(DashLine, text)| <= 1
    requires |JsSplit(Marker, text)| > 2 && JsSplit(Marker, text)[2].None?
    ensures SplitIntoChunksAsWritten(text) == Failure(TypeErrorTrim())
  {
    ChunksOnSegments(DashLine, text);
  }

  /** The corrected marker split keeps the marker at the head of its chunk: "a\nTítulo: x" gives "a" and "Título: x". */
  lemma {:induction false} MarkerLineChunks(a: string, u: string)
    requires forall k :: 0 <= k < |a| ==> a[k] != '\n'
    requires forall k :: 0 <= k < |u| ==> u[k] != '\n'
    requires IsChunk(a) && IsChunk(u)
    requires MarkerCaptures(u).Some?
    ensures SplitIntoChunks(a + "\n" + u) == [a, u]
  {
    MarkerLineNoDash(a, u);
    OneBoundarySplit(a, u);
    assert Somes([a, u]) == [Some(a), Some(u)];
    MarkersDecide(a + "\n" + u, [a, u]);
  }

  /**
   * As written, a `Questão N` marker adds the marker text and the captured
   * vowel as chunks of their own in front of the marked chunk:
   * "a\nQuestao 1" gives "a", "Questao 1", "a", "Questao 1".
   */
  lemma {:induction false} QuestionMarkerSplices(a: string, u: string, e: nat)
    requires forall k :: 0 <= k < |a| ==> a[k] != '\n'
    requires forall k :: 0 <= k < |u| ==> u[k] != '\n'
    requires IsChunk(a) && IsChunk(u)
    requires QuestionMarkerLength(u) == Some(e)
    ensures SplitIntoChunksAsWritten(a + "\n" + u) == Success([a, u[..e], [u[5]], u])
  {
    QuestionPieces(u, e);
    MarkerLineNoDash(a, u);
    OneMarkerSplit(a, u);
    var xs := [a, u[..e], [u[5]], u];
    assert Somes(xs) == [Some(a)] + MarkerCaptures(u).value + [Some(u)];
    MarkersDecideAsWritten(a + "\n" + u, xs);
  }

  /** The two groups a `Questão N` marker captures are non-empty trimmed strings. */
  lemma QuestionPieces(u: string, e: nat)
    requires QuestionMarkerLength(u) == Some(e)
    ensures u[0] != '-'
    ensures MarkerCaptures(u) == Some([Some(u[..e]), Some([u[5]])])
    ensures IsChunk(u[..e]) && IsChunk([u[5]])
  {
  }
}
