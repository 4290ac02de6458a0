/**
 * `String.prototype.split(regex)` for the separator regexes the corpus
 * chunkers use, following the ECMAScript @@split algorithm: scan for a
 * sticky match at each position, cut the text before the match, splice the
 * match's capturing groups into the result (a group that did not take part
 * is `undefined`, here `None`), and resume after the match.
 */
module RegexSplit {
  import opened Wrappers
  import opened Js

  /** The separators, by their regex in the source. */
  datatype Separator =
    | DashLine        // /\n-{3,}\n/
    | Marker          // /\n(?=(Quest(ã|a)o\s*\d+|Titulo:|Título:|Enunciado:))/gi
    | MarkerBoundary  // the same split points with non-capturing groups
    | BlankLine       // /\n\s*\n/
    | ParagraphBreak  // /\n\n+/

  /** A match at the current position: how many characters it consumes and its captures. */
  datatype SepMatch = SepMatch(len: nat, captures: seq<Option<string>>)

  /** Number of '-' characters from position `i` on. */
  function DashRun(t: string, i: nat): (d: nat)
    requires i <= |t|
    ensures i + d <= |t|
    ensures forall k :: i <= k < i + d ==> t[k] == '-'
    ensures i + d < |t| ==> t[i + d] != '-'
    decreases |t| - i
  {
    if i < |t| && t[i] == '-' then 1 + DashRun(t, i + 1) else 0
  }

  /** End of the maximal run of whitespace starting at `i`. */
  function SpaceRunEnd(t: string, i: nat): (e: nat)
    requires i <= |t|
    ensures i <= e <= |t|
    ensures forall k :: i <= k < e ==> IsSpace(t[k])
    ensures e < |t| ==> !IsSpace(t[e])
    decreases |t| - i
  {
    if i < |t| && IsSpace(t[i]) then SpaceRunEnd(t, i + 1) else i
  }

  /** End of the maximal run of '\n' starting at `i`. */
  function NewlineRunEnd(t: string, i: nat): (e: nat)
    requires i <= |t|
    ensures i <= e <= |t|
    ensures forall k :: i <= k < e ==> t[k] == '\n'
    ensures e < |t| ==> t[e] != '\n'
    decreases |t| - i
  {
    if i < |t| && t[i] == '\n' then NewlineRunEnd(t, i + 1) else i
  }

  /** End of the maximal run of ASCII digits starting at `i`. */
  function DigitRunEnd(t: string, i: nat): (e: nat)
    requires i <= |t|
    ensures i <= e <= |t|
    ensures forall k :: i <= k < e ==> IsDigit(t[k])
    ensures e < |t| ==> !IsDigit(t[e])
    decreases |t| - i
  {
    if i < |t| && IsDigit(t[i]) then DigitRunEnd(t, i + 1) else i
  }

  /** The last '\n' in t[lo..hi], if any. */
  function LastNewline(t: string, lo: nat, hi: nat): (r: Option<nat>)
    requires lo <= hi <= |t|
    ensures r.Some? ==> lo <= r.value < hi && t[r.value] == '\n'
    ensures r.Some? ==> forall k :: r.value < k < hi ==> t[k] != '\n'
    ensures r.None? ==> forall k :: lo <= k < hi ==> t[k] != '\n'
    decreases hi - lo
  {
    if hi == lo then None
    else if t[hi - 1] == '\n' then Some(hi - 1)
    else LastNewline(t, lo, hi - 1)
  }

  /** Case-insensitive comparison of a text character with a lower-case pattern character (the `i` flag without `u`). */
  predicate CiCharEq(c: char, p: char) {
    c == p
    || ('a' <= p <= 'z' && c as int == p as int - 32)
    || (p == 'ã' && c == 'Ã')
    || (p == 'í' && c == 'Í')
  }

  /** `word` matches case-insensitively at the start of `u`. */
  predicate LabelAt(u: string, word: string) {
    |u| >= |word| && forall i :: 0 <= i < |word| ==> CiCharEq(u[i], word[i])
  }

  /** Length of a match of `Quest(ã|a)o\s*\d+` at the start of `u`, if any (greedy, as the regex engine takes it). */
  function QuestionMarkerLength(u: string): (r: Option<nat>)
    ensures r.Some? ==> 7 < r.value <= |u| && IsDigit(u[r.value - 1])
    ensures r.Some? ==> CiCharEq(u[0], 'q') && (CiCharEq(u[5], '\U{00E3}') || CiCharEq(u[5], 'a'))
  {
    if LabelAt(u, "quest") && |u| >= 7 && (CiCharEq(u[5], 'ã') || CiCharEq(u[5], 'a')) && CiCharEq(u[6], 'o') then
      var w := SpaceRunEnd(u, 7);
      var e := DigitRunEnd(u, w);
      if e > w then Some(e) else None
    else None
  }

  /**
   * The capturing groups of the marker look-ahead at the start of `u`:
   * group 1 is the marker text, group 2 the `ã`/`a` of `Questão`, and
   * `undefined` for the other three markers.
   */
  function MarkerCaptures(u: string): (r: Option<seq<Option<string>>>)
    ensures r.Some? ==> |r.value| == 2 && r.value[0].Some?
  {
    match QuestionMarkerLength(u)
    case Some(e) => Some([Some(u[..e]), Some([u[5]])])
    case None =>
      if LabelAt(u, "titulo:") || LabelAt(u, "título:") then Some([Some(u[..7]), None])
      else if LabelAt(u, "enunciado:") then Some([Some(u[..10]), None])
      else None
  }

  /** /\n-{3,}\n/ at the start of `t`: the dash run is greedy and must be closed by '\n'. */
  function DashLineMatch(t: string): (r: Option<SepMatch>)
    ensures r.Some? ==> 5 <= r.value.len <= |t| && t[0] == '\n' && t[1] == '-' && r.value.captures == []
  {
    if t == [] || t[0] != '\n' then None
    else
      var d := DashRun(t, 1);
      if d >= 3 && 1 + d < |t| && t[1 + d] == '\n' then Some(SepMatch(d + 2, [])) else None
  }

  /** /\n\s*\n/ at the start of `t`: `\s*` backs off to the last '\n' of the whitespace run. */
  function BlankLineMatch(t: string): (r: Option<SepMatch>)
    ensures r.Some? ==> 2 <= r.value.len <= |t| && t[0] == '\n' && r.value.captures == []
  {
    if t == [] || t[0] != '\n' then None
    else
      var l := LastNewline(t, 1, SpaceRunEnd(t, 1));
      if l.Some? then Some(SepMatch(l.value + 1, [])) else None
  }

  /** /\n\n+/ at the start of `t`: the whole run of newlines. */
  function ParagraphBreakMatch(t: string): (r: Option<SepMatch>)
    ensures r.Some? ==> 2 <= r.value.len <= |t| && t[0] == '\n' && r.value.captures == []
  {
    if |t| > 1 && t[0] == '\n' && t[1] == '\n' then Some(SepMatch(NewlineRunEnd(t, 1), [])) else None
  }

  /** The marker look-ahead at the start of `t`: it consumes only the '\n'; `withGroups` says whether the groups capture. */
  function MarkerMatch(t: string, withGroups: bool): (r: Option<SepMatch>)
    ensures r.Some? ==> r.value.len == 1 <= |t| && t[0] == '\n'
    ensures r.Some? && !withGroups ==> r.value.captures == []
  {
    if t == [] || t[0] != '\n' then None
    else
      var caps := MarkerCaptures(t[1..]);
      if caps.None? then None
      else if withGroups then Some(SepMatch(1, caps.value))
      else Some(SepMatch(1, []))
  }

  /** A sticky match of `sep` at the start of `t`. Every separator starts with '\n' and consumes at least it. */
  function MatchHere(sep: Separator, t: string): (r: Option<SepMatch>)
    ensures r.Some? ==> 0 < r.value.len <= |t| && t[0] == '\n'
    ensures r.Some? && sep != Marker ==> r.value.captures == []
  {
    match sep
    case DashLine => DashLineMatch(t)
    case Marker => MarkerMatch(t, true)
    case MarkerBoundary => MarkerMatch(t, false)
    case BlankLine => BlankLineMatch(t)
    case ParagraphBreak => ParagraphBreakMatch(t)
  }

  /**
   * The @@split loop over `u`, the text after the last cut, looking for a
   * match at position `i` of it. None of the separators looks behind the
   * current position or uses an anchor, so a match depends only on the text
   * from that position on.
   */
  function SplitAt(sep: Separator, u: string, i: nat): (r: seq<Option<string>>)
    requires i <= |u|
    ensures r != []
    decreases |u|, |u| - i
  {
    if i == |u| then [Some(u)]
    else match MatchHere(sep, u[i..])
      case None => SplitAt(sep, u, i + 1)
      case Some(m) => [Some(u[..i])] + m.captures + SplitAt(sep, u[i + m.len..], 0)
  }

  /** `s.split(sep)`. */
  function JsSplit(sep: Separator, s: string): seq<Option<string>> {
    SplitAt(sep, s, 0)
  }

  predicate IsChunk(c: string) {
    c != "" && IsTrimmed(c)
  }

  function TypeErrorTrim(): string {
    "TypeError: Cannot read properties of undefined (reading 'trim')"
  }

  /**
   * `.map(s => s.trim()).filter(Boolean)`: the map throws on an `undefined`
   * element; otherwise every element is trimmed and empty ones are dropped.
   */
  function Segments(parts: seq<Option<string>>): (r: Result<seq<string>>)
    ensures r.Success? <==> forall i :: 0 <= i < |parts| ==> parts[i].Some?
    ensures r.Failure? ==> r.error == TypeErrorTrim()
    ensures r.Success? ==> forall i :: 0 <= i < |r.value| ==> IsChunk(r.value[i])
    ensures r.Success? ==> |r.value| <= |parts|
  {
    if parts == [] then Success([])
    else match parts[0]
      case None => Failure(TypeErrorTrim())
      case Some(x) =>
        var rest := Segments(parts[1..]);
        assert forall i :: 1 <= i < |parts| ==> parts[i] == parts[1..][i - 1];
        if rest.Failure? then rest
        else if Trim(x) == "" then rest
        else Success([Trim(x)] + rest.value)
  }

  /** Every element present: the strings themselves. */
  function Somes(xs: seq<string>): (r: seq<Option<string>>)
    ensures |r| == |xs| && forall i :: 0 <= i < |xs| ==> r[i] == Some(xs[i])
  {
    seq(|xs|, i requires 0 <= i < |xs| => Some(xs[i]))
  }

  /** The trimmed, non-empty strings of `xs`, in order. */
  function TrimmedNonEmpty(xs: seq<string>): (r: seq<string>)
    ensures forall i :: 0 <= i < |r| ==> IsChunk(r[i])
    ensures (forall i :: 0 <= i < |xs| ==> Trim(xs[i]) != "") ==>
              |r| == |xs| && forall i :: 0 <= i < |xs| ==> r[i] == Trim(xs[i])
  {
    if xs == [] then []
    else
      var rest := TrimmedNonEmpty(xs[1..]);
      assert forall i :: 1 <= i < |xs| ==> xs[i] == xs[1..][i - 1];
      if Trim(xs[0]) == "" then rest else [Trim(xs[0])] + rest
  }

  lemma {:induction false} SegmentsOfSomes(xs: seq<string>)
    ensures Segments(Somes(xs)) == Success(TrimmedNonEmpty(xs))
  {
    if xs != [] {
      assert Somes(xs)[1..] == Somes(xs[1..]);
      SegmentsOfSomes(xs[1..]);
    }
  }

  /** A separator other than the marker look-ahead has no capturing groups, so every piece is a string. */
  lemma {:induction false} CaptureFreeSplitHasNoUndefined(sep: Separator, u: string, i: nat)
    requires sep != Marker
    requires i <= |u|
    ensures forall k :: 0 <= k < |SplitAt(sep, u, i)| ==> SplitAt(sep, u, i)[k].Some?
    decreases |u|, |u| - i
  {
    if i < |u| {
      match MatchHere(sep, u[i..])
      case None => CaptureFreeSplitHasNoUndefined(sep, u, i + 1);
      case Some(m) => CaptureFreeSplitHasNoUndefined(sep, u[i + m.len..], 0);
    }
  }

  /** Pieces that are all present and all whitespace. */
  predicate SpacePieces(parts: seq<Option<string>>) {
    forall i :: 0 <= i < |parts| ==> parts[i].Some? && AllSpace(parts[i].value)
  }

  /** A text of whitespace only splits into whitespace-only pieces, none of them `undefined`. */
  lemma {:induction false} SplitOfSpaceIsSpace(sep: Separator, u: string, i: nat)
    requires AllSpace(u)
    requires i <= |u|
    ensures SpacePieces(SplitAt(sep, u, i))
    decreases |u|, |u| - i
  {
    if i < |u| {
      SpaceMatch(sep, u, i);
      match MatchHere(sep, u[i..])
      case None => SplitOfSpaceIsSpace(sep, u, i + 1);
      case Some(m) =>
        var rest := SplitAt(sep, u[i + m.len..], 0);
        SplitOfSpaceIsSpace(sep, u[i + m.len..], 0);
        SpaceFront(u[..i], rest);
        assert SplitAt(sep, u, i) == [Some(u[..i])] + rest;
    }
  }

  /** In a whitespace text a separator match captures nothing, and both sides of it are whitespace. */
  lemma SpaceMatch(sep: Separator, u: string, i: nat)
    requires AllSpace(u) && i < |u|
    ensures MatchHere(sep, u[i..]).Some? ==>
              MatchHere(sep, u[i..]).value.captures == [] && AllSpace(u[..i]) && AllSpace(u[i + MatchHere(sep, u[i..]).value.len..])
  {
    var t := u[i..];
    assert MarkerCaptures(t[1..]).None? by {
      if |t| > 1 {
        assert IsSpace(t[1..][0]);
      }
    }
  }

  lemma SpaceFront(x: string, rest: seq<Option<string>>)
    requires AllSpace(x) && SpacePieces(rest)
    ensures SpacePieces([Some(x)] + rest)
  {
    var parts := [Some(x)] + rest;
    forall k | 0 <= k < |parts| ensures parts[k].Some? && AllSpace(parts[k].value) {
      if k > 0 {
        assert parts[k] == rest[k - 1];
      }
    }
  }

  lemma {:induction false} SegmentsOfSpace(parts: seq<Option<string>>)
    requires SpacePieces(parts)
    ensures Segments(parts) == Success([])
  {
    if parts != [] {
      SegmentsOfSpace(parts[1..]);
    }
  }

  /** Positions `i` up to `j` where no match starts are skipped over. */
  lemma {:induction false} SkipNoMatch(sep: Separator, u: string, i: nat, j: nat)
    requires i <= j <= |u|
    requires forall k :: i <= k < j ==> MatchHere(sep, u[k..]).None?
    ensures SplitAt(sep, u, i) == SplitAt(sep, u, j)
    decreases j - i
  {
    if i < j {
      SkipNoMatch(sep, u, i + 1, j);
    }
  }

  /** Splitting with the non-capturing marker look-ahead loses nothing: joining the pieces with "\n" gives the text back. */
  lemma {:induction false} MarkerBoundaryRejoins(u: string, i: nat)
    requires i <= |u|
    ensures forall k :: 0 <= k < |SplitAt(MarkerBoundary, u, i)| ==> SplitAt(MarkerBoundary, u, i)[k].Some?
    ensures Join(Values(SplitAt(MarkerBoundary, u, i)), "\n") == u
    decreases |u|, |u| - i
  {
    CaptureFreeSplitHasNoUndefined(MarkerBoundary, u, i);
    if i < |u| {
      var mm := MatchHere(MarkerBoundary, u[i..]);
      if mm.None? {
        MarkerBoundaryRejoins(u, i + 1);
      } else {
        var v := u[i + 1..];
        MarkerBoundaryRejoins(v, 0);
        MarkerBoundaryCut(u, i, v);
      }
    }
  }

  /** A marker boundary at `i` cuts `u` there and swallows the newline; the text is the two sides joined by it. */
  lemma MarkerBoundaryCut(u: string, i: nat, v: string)
    requires i < |u| && MatchHere(MarkerBoundary, u[i..]).Some? && v == u[i + 1..]
    requires forall k :: 0 <= k < |SplitAt(MarkerBoundary, v, 0)| ==> SplitAt(MarkerBoundary, v, 0)[k].Some?
    requires Join(Values(SplitAt(MarkerBoundary, v, 0)), "\n") == v
    ensures SplitAt(MarkerBoundary, u, i) == [Some(u[..i])] + SplitAt(MarkerBoundary, v, 0)
    ensures forall k :: 0 <= k < |SplitAt(MarkerBoundary, u, i)| ==> SplitAt(MarkerBoundary, u, i)[k].Some?
    ensures Join(Values(SplitAt(MarkerBoundary, u, i)), "\n") == u
  {
    MarkerBoundaryStep(u, i);
    JoinFront(u[..i], SplitAt(MarkerBoundary, v, 0), v);
  }

  /** One step of the marker-boundary split: the piece before the newline, then the split of what follows it. */
  lemma MarkerBoundaryStep(u: string, i: nat)
    requires i < |u| && MatchHere(MarkerBoundary, u[i..]).Some?
    ensures SplitAt(MarkerBoundary, u, i) == [Some(u[..i])] + SplitAt(MarkerBoundary, u[i + 1..], 0)
    ensures u == u[..i] + "\n" + u[i + 1..]
  {
    var m := MatchHere(MarkerBoundary, u[i..]).value;
    assert m.len == 1 && m.captures == [];
    assert u[i] == u[i..][0];
  }

  /** A match at `i` cuts the text there: the piece before it, the groups it captured, then the split of the rest. */
  lemma SplitAtCut(sep: Separator, u: string, i: nat, m: SepMatch)
    requires i < |u| && MatchHere(sep, u[i..]) == Some(m)
    ensures SplitAt(sep, u, i) == [Some(u[..i])] + m.captures + SplitAt(sep, u[i + m.len..], 0)
  {
  }

  /** A piece put in front of present pieces joins in front of their text, with a newline between. */
  lemma JoinFront(x: string, rest: seq<Option<string>>, v: string)
    requires rest != [] && forall k :: 0 <= k < |rest| ==> rest[k].Some?
    requires Join(Values(rest), "\n") == v
    ensures forall k :: 0 <= k < |[Some(x)] + rest| ==> ([Some(x)] + rest)[k].Some?
    ensures Join(Values([Some(x)] + rest), "\n") == x + "\n" + v
  {
    var vs := Values([Some(x)] + rest);
    assert vs[1..] == Values(rest);
  }

  /** The strings of pieces that are all present. */
  function Values(parts: seq<Option<string>>): (r: seq<string>)
    requires forall i :: 0 <= i < |parts| ==> parts[i].Some?
    ensures |r| == |parts| && forall i :: 0 <= i < |parts| ==> r[i] == parts[i].value
  {
    seq(|parts|, i requires 0 <= i < |parts| => parts[i].value)
  }

  // ----- Texts built from blocks and dash lines -----

  /** A line of three or more dashes between two newlines: what /\n-{3,}\n/ matches. */
  predicate IsDashLine(l: string) {
    |l| >= 5 && l[0] == '\n' && l[|l| - 1] == '\n' && forall i :: 1 <= i < |l| - 1 ==> l[i] == '-'
  }

  /** No line of `b` after the first starts with a dash, so no dash line can start inside `b`. */
  predicate NoNewlineDash(b: string) {
    forall i :: 0 <= i < |b| - 1 ==> !(b[i] == '\n' && b[i + 1] == '-')
  }

  /** bs[0] + ls[0] + bs[1] + ... + ls[n-2] + bs[n-1]. */
  function Interleave(bs: seq<string>, ls: seq<string>): string
    requires |bs| == |ls| + 1
  {
    if |bs| == 1 then bs[0] else bs[0] + ls[0] + Interleave(bs[1..], ls[1..])
  }

  lemma {:induction false} DashLineMatches(l: string, rest: string)
    requires IsDashLine(l)
    ensures MatchHere(DashLine, l + rest) == Some(SepMatch(|l|, []))
  {
    var t := l + rest;
    assert t[0] == '\n' && t[|l| - 1] == '\n';
    DashRunCounts(t, 1, |l| - 1);
  }

  lemma {:induction false} DashRunCounts(t: string, i: nat, e: nat)
    requires i <= e < |t|
    requires forall k :: i <= k < e ==> t[k] == '-'
    requires t[e] != '-'
    ensures DashRun(t, i) == e - i
    decreases e - i
  {
    if i < e {
      DashRunCounts(t, i + 1, e);
    }
  }

  /** No dash line starts inside a block that is followed by a newline or by nothing. */
  lemma {:induction false} NoDashMatchInBlock(b: string, tail: string, j: nat)
    requires NoNewlineDash(b)
    requires tail == [] || tail[0] == '\n'
    requires j < |b|
    ensures MatchHere(DashLine, (b + tail)[j..]).None?
  {
    var t := (b + tail)[j..];
    assert t[0] == b[j];
    if j + 1 < |b| {
      assert t[1] == b[j + 1];
    } else if |t| >= 2 {
      assert t[1] == tail[0];
    }
  }

  /** A block with no dash line inside it, followed by a dash line, is cut off as one piece. */
  lemma {:induction false} BlockThenDashLine(b: string, l: string, rest: string)
    requires NoNewlineDash(b) && IsDashLine(l)
    ensures JsSplit(DashLine, b + l + rest) == [Some(b)] + JsSplit(DashLine, rest)
  {
    var u := b + l + rest;
    assert u == b + (l + rest);
    forall j | 0 <= j < |b| ensures MatchHere(DashLine, u[j..]).None? {
      NoDashMatchInBlock(b, l + rest, j);
    }
    SkipNoMatch(DashLine, u, 0, |b|);
    assert u[|b|..] == l + rest;
    DashLineMatches(l, rest);
    assert u[..|b|] == b;
    assert u[|b| + |l|..] == rest;
  }

  /** A last block with no dash line inside it is one piece. */
  lemma {:induction false} LastBlock(b: string)
    requires NoNewlineDash(b)
    ensures JsSplit(DashLine, b) == [Some(b)]
  {
    assert b == b + [];
    forall j | 0 <= j < |b| ensures MatchHere(DashLine, b[j..]).None? {
      NoDashMatchInBlock(b, [], j);
    }
    SkipNoMatch(DashLine, b, 0, |b|);
  }

  /**
   * Splitting blocks joined by dash lines on /\n-{3,}\n/ gives back exactly
   * the blocks, in order, when no block holds a line that starts with a dash.
   */
  lemma {:induction false} DashSplitOfInterleave(bs: seq<string>, ls: seq<string>)
    requires |bs| == |ls| + 1
    requires forall i :: 0 <= i < |ls| ==> IsDashLine(ls[i])
    requires forall i :: 0 <= i < |bs| ==> NoNewlineDash(bs[i])
    ensures JsSplit(DashLine, Interleave(bs, ls)) == Somes(bs)
    decreases |bs|
  {
    if |bs| == 1 {
      LastBlock(bs[0]);
    } else {
      var rest := Interleave(bs[1..], ls[1..]);
      assert Interleave(bs, ls) == bs[0] + ls[0] + rest;
      BlockThenDashLine(bs[0], ls[0], rest);
      DashSplitOfInterleave(bs[1..], ls[1..]);
      assert Somes(bs) == [Some(bs[0])] + Somes(bs[1..]);
    }
  }
}
