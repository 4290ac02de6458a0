/**
 * The pieces of the JavaScript runtime that the application's string and
 * object code relies on: the `\s`/`trim` whitespace class, `String.prototype
 * .trim`, UTF-16 `.length`, `Array.prototype.join`, decimal rendering of
 * indices, `includes`, JSON values with their truthiness, and plain objects
 * as insertion-ordered dictionaries.
 */
module Js {
  import opened Wrappers

  /** ECMAScript WhiteSpace and LineTerminator code points: the class `\s` and what `trim` removes. */
  predicate IsSpace(c: char) {
    c == '\t' || c == '\n' || c == '\U{000B}' || c == '\U{000C}' || c == '\r' || c == ' '
    || c == '\U{00A0}' || c == '\U{1680}' || ('\U{2000}' <= c <= '\U{200A}')
    || c == '\U{2028}' || c == '\U{2029}' || c == '\U{202F}' || c == '\U{205F}'
    || c == '\U{3000}' || c == '\U{FEFF}'
  }

  /** The characters the regex `.` does not match. */
  predicate IsLineTerminator(c: char) {
    c == '\n' || c == '\r' || c == '\U{2028}' || c == '\U{2029}'
  }

  predicate IsDigit(c: char) {
    '0' <= c <= '9'
  }

  predicate AllSpace(s: string) {
    forall i :: 0 <= i < |s| ==> IsSpace(s[i])
  }

  /** Neither end of `s` is whitespace. */
  predicate IsTrimmed(s: string) {
    s == [] || (!IsSpace(s[0]) && !IsSpace(s[|s| - 1]))
  }

  /** `String.prototype.trim`. */
  function Trim(s: string): (r: string)
    ensures IsTrimmed(r)
    ensures r == [] <==> AllSpace(s)
    ensures IsTrimmed(s) ==> r == s
    ensures |r| <= |s|
    decreases |s|
  {
    if |s| > 0 && IsSpace(s[0]) then
      assert AllSpace(s) <==> AllSpace(s[1..]);
      Trim(s[1..])
    else if |s| > 0 && IsSpace(s[|s| - 1]) then
      assert AllSpace(s) <==> AllSpace(s[..|s| - 1]);
      Trim(s[..|s| - 1])
    else s
  }

  /** Leading whitespace does not survive `trim`. */
  lemma {:induction false} TrimDropsLeadingSpace(ws: string, b: string)
    requires AllSpace(ws)
    ensures Trim(ws + b) == Trim(b)
    decreases |ws|
  {
    if ws == [] {
      assert ws + b == b;
    } else {
      var s := ws + b;
      assert s[0] == ws[0] && s[1..] == ws[1..] + b;
      assert Trim(s) == Trim(s[1..]);
      TrimDropsLeadingSpace(ws[1..], b);
    }
  }

  /** Trailing whitespace does not survive `trim`. */
  lemma {:induction false} TrimDropsTrailingSpace(a: string, ws: string)
    requires AllSpace(ws)
    requires a == [] || !IsSpace(a[0])
    ensures Trim(a + ws) == Trim(a)
    decreases |ws|
  {
    if ws == [] {
      assert a + ws == a;
    } else {
      var s := a + ws;
      assert s[..|s| - 1] == a + ws[..|ws| - 1];
      if a == [] {
        assert s == ws;
        assert Trim(s) == [];
      } else {
        assert s[0] == a[0] && s[|s| - 1] == ws[|ws| - 1];
        assert Trim(s) == Trim(s[..|s| - 1]);
        TrimDropsTrailingSpace(a, ws[..|ws| - 1]);
      }
    }
  }

  /** The length JavaScript reports: UTF-16 code units, two for a code point above U+FFFF. */
  function Utf16Length(s: string): (n: nat)
    ensures |s| <= n <= 2 * |s|
  {
    if s == [] then 0 else (if s[0] > '\U{FFFF}' then 2 else 1) + Utf16Length(s[1..])
  }

  lemma {:induction false} Utf16LengthConcat(a: string, b: string)
    ensures Utf16Length(a + b) == Utf16Length(a) + Utf16Length(b)
    decreases |a|
  {
    if a == [] {
      assert a + b == b;
    } else {
      assert (a + b)[0] == a[0] && (a + b)[1..] == a[1..] + b;
      Utf16LengthConcat(a[1..], b);
    }
  }

  /** `Array.prototype.join(sep)` on an array of strings. */
  function Join(parts: seq<string>, sep: string): string {
    if parts == [] then "" else if |parts| == 1 then parts[0] else parts[0] + sep + Join(parts[1..], sep)
  }

  lemma {:induction false} JoinConcat(a: seq<string>, b: seq<string>, sep: string)
    requires a != [] && b != []
    ensures Join(a + b, sep) == Join(a, sep) + sep + Join(b, sep)
    decreases |a|
  {
    if |a| == 1 {
      assert (a + b)[1..] == b;
    } else {
      assert (a + b)[1..] == a[1..] + b;
      JoinConcat(a[1..], b, sep);
    }
  }

  /** `String.prototype.includes`: `t` occurs in `s`. */
  predicate Includes(s: string, t: string) {
    exists i :: 0 <= i <= |s| - |t| && OccursAt(s, t, i)
  }

  predicate OccursAt(s: string, t: string, i: int) {
    0 <= i <= |s| - |t| && s[i..i + |t|] == t
  }

  function DigitChar(d: nat): (c: char)
    requires d < 10
    ensures IsDigit(c)
  {
    ['0', '1', '2', '3', '4', '5', '6', '7', '8', '9'][d]
  }

  /** Decimal rendering of a non-negative integer, as a template literal writes it. */
  function NatToString(n: nat): (r: string)
    ensures r != []
    ensures forall i :: 0 <= i < |r| ==> IsDigit(r[i])
    ensures n < 10 <==> |r| == 1
  {
    if n < 10 then [DigitChar(n)] else NatToString(n / 10) + [DigitChar(n % 10)]
  }

  /** Different indices render differently, so ids and answer keys built from them never collide. */
  lemma {:induction false} NatToStringInjective(m: nat, n: nat)
    requires NatToString(m) == NatToString(n)
    ensures m == n
    decreases m
  {
    var rm, rn := NatToString(m), NatToString(n);
    if m < 10 || n < 10 {
      assert |rm| == 1 && |rn| == 1;
      assert m < 10 && n < 10;
      assert DigitChar(m) == rm[0] == rn[0] == DigitChar(n);
    } else {
      assert rm[|rm| - 1] == DigitChar(m % 10) && rn[|rn| - 1] == DigitChar(n % 10);
      assert rm[..|rm| - 1] == NatToString(m / 10);
      assert rn[..|rn| - 1] == NatToString(n / 10);
      NatToStringInjective(m / 10, n / 10);
    }
  }

  /** A value `JSON.parse` can return. Object member order is not observable in this model. */
  datatype Json =
    | JNull
    | JBool(b: bool)
    | JNum(n: real)
    | JStr(s: string)
    | JArr(items: seq<Json>)
    | JObj(fields: map<string, Json>)

  /** JavaScript truthiness of a JSON value (NaN cannot come out of `JSON.parse`). */
  predicate Truthy(j: Json) {
    match j
    case JNull => false
    case JBool(b) => b
    case JNum(n) => n != 0.0
    case JStr(s) => s != ""
    case _ => true
  }

  /** `j?.name` for an application-defined member name; `None` is `undefined`. */
  function Member(j: Json, name: string): (r: Option<Json>)
    ensures r.Some? ==> j.JObj? && name in j.fields
  {
    if j.JObj? && name in j.fields then Some(j.fields[name]) else None
  }

  /** Truthiness of `j?.name`. */
  predicate MemberTruthy(j: Json, name: string) {
    var m := Member(j, name);
    m.Some? && Truthy(m.value)
  }

  /**
   * A plain JavaScript object used as a dictionary: `keys` is `Object.keys`
   * (insertion order), `vals` the key/value pairs.
   */
  datatype Dict<V> = Dict(keys: seq<string>, vals: map<string, V>) {

    ghost predicate Valid() {
      && (forall i, j :: 0 <= i < j < |keys| ==> keys[i] != keys[j])
      && (forall k :: k in vals <==> k in keys)
    }

    /** `obj[k] = v`: a new key goes last, an existing key keeps its place. */
    function Put(k: string, v: V): (d: Dict<V>)
      requires Valid()
      ensures d.Valid()
      ensures d.vals == vals[k := v]
      ensures k in vals ==> d.keys == keys
      ensures k !in vals ==> d.keys == keys + [k]
    {
      if k in vals then Dict(keys, vals[k := v]) else Dict(keys + [k], vals[k := v])
    }
  }

  function EmptyDict<V>(): (d: Dict<V>)
    ensures d.Valid() && d.keys == [] && d.vals == map[]
  {
    Dict([], map[])
  }
}
