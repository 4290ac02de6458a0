/**
 * `chatJSON` (server/services/llm.ts): ask the chat-completion service for
 * a JSON answer, pull the JSON out of a ```json fence when the answer has
 * one, and ask again, up to `maxRetries` more times, while the text does not
 * parse.
 *
 * The HTTP call is an oracle `reply(i)`: the service's answer to attempt
 * `i`. `JSON.parse` is an oracle `parse` that gives no value for a syntax
 * error. The request payload is not modelled.
 */
module Llm {
  import opened Wrappers
  import opened Js
  import opened RegexSplit

  /** What `axios.post` gives for one attempt. */
  datatype HttpReply =
    | HttpError(message: string)      // the request itself throws
    | NoChoices                       // `resp.data.choices` is missing
    | Answer(content: Option<string>) // the first choice's message content, if any

  type Parser = string -> Option<Json>

  /** The default of the `maxRetries` parameter: three attempts in all. */
  const DefaultMaxRetries: int := 2

  /** What a call of `chatJSON` ends with. */
  datatype ChatOutcome = Parsed(value: Json) | Thrown(error: string) | Undefined

  function ParseFailure(): string {
    "Falha ao parsear JSON do modelo"
  }

  function TypeErrorChoices(): string {
    "TypeError: Cannot read properties of undefined (reading '0')"
  }

  // ----- the fence regex /```json\s*([\s\S]*?)\s*```/i -----

  /** "```json", case-insensitively, starts at `i`. */
  predicate OpensFence(t: string, i: nat) {
    && i + 7 <= |t|
    && t[i] == '`' && t[i + 1] == '`' && t[i + 2] == '`'
    && (t[i + 3] == 'j' || t[i + 3] == 'J') && (t[i + 4] == 's' || t[i + 4] == 'S')
    && (t[i + 5] == 'o' || t[i + 5] == 'O') && (t[i + 6] == 'n' || t[i + 6] == 'N')
  }

  /** Where the captured body starts: after the opener and the whitespace the greedy `\s*` takes. */
  function BodyStart(t: string, i: nat): (b: nat)
    requires OpensFence(t, i)
    ensures i + 7 <= b <= |t|
  {
    SpaceRunEnd(t, i + 7)
  }

  /** The body may end at `g`: whitespace then "```" follows. */
  predicate ClosesAt(t: string, g: nat) {
    g <= |t| && var p := SpaceRunEnd(t, g); p + 3 <= |t| && t[p] == '`' && t[p + 1] == '`' && t[p + 2] == '`'
  }

  /** The lazy group: the first end at or after `g` where the fence closes. */
  function FirstClose(t: string, g: nat): (r: Option<nat>)
    requires g <= |t|
    ensures r.Some? ==> g <= r.value <= |t| && ClosesAt(t, r.value)
    decreases |t| - g
  {
    if ClosesAt(t, g) then Some(g)
    else if g == |t| then None
    else FirstClose(t, g + 1)
  }

  /** The end found is the first one: the fence closes nowhere before it, and nowhere at all when none is found. */
  lemma {:induction false} FirstCloseFirst(t: string, g: nat)
    requires g <= |t|
    ensures FirstClose(t, g).Some? ==> forall h :: g <= h < FirstClose(t, g).value ==> !ClosesAt(t, h)
    ensures FirstClose(t, g).None? ==> forall h :: g <= h <= |t| ==> !ClosesAt(t, h)
    decreases |t| - g
  {
    if !ClosesAt(t, g) && g < |t| {
      FirstCloseFirst(t, g + 1);
    }
  }

  /** The captured body of a match starting at `i`, if the regex matches there. */
  function FenceAt(t: string, i: nat): Option<string>
    requires i <= |t|
  {
    if !OpensFence(t, i) then None
    else match FirstClose(t, BodyStart(t, i))
      case None => None
      case Some(g) => Some(t[BodyStart(t, i)..g])
  }

  /** Where the leftmost match at or after `i` starts. */
  function FirstFence(t: string, i: nat): (r: Option<nat>)
    requires i <= |t|
    ensures r.Some? ==> i <= r.value <= |t| && FenceAt(t, r.value).Some?
    decreases |t| - i
  {
    if FenceAt(t, i).Some? then Some(i)
    else if i == |t| then None
    else FirstFence(t, i + 1)
  }

  /** The match found is the leftmost one: the regex matches nowhere before it, and nowhere at all when none is found. */
  lemma {:induction false} FirstFenceLeftmost(t: string, i: nat)
    requires i <= |t|
    ensures FirstFence(t, i).Some? ==> forall h :: i <= h < FirstFence(t, i).value ==> FenceAt(t, h).None?
    ensures FirstFence(t, i).None? ==> forall h :: i <= h <= |t| ==> FenceAt(t, h).None?
    decreases |t| - i
  {
    if FenceAt(t, i).None? && i < |t| {
      FirstFenceLeftmost(t, i + 1);
    }
  }

  /**
   * `const raw = match ? match[1] : content`: the body of the leftmost
   * complete fence, else the whole content.
   */
  function RawJson(content: string): string {
    match FirstFence(content, 0)
    case Some(i) => FenceAt(content, i).value
    case None => content
  }

  /** `resp.data.choices[0]?.message?.content?.trim() || ""`. */
  function ContentOf(content: Option<string>): (r: string)
    ensures IsTrimmed(r)
  {
    if content.Some? then Trim(content.value) else ""
  }

  /**
   * The text that is parsed is the body of the leftmost ```json fence when one
   * is complete: it starts right after the opener and its whitespace and ends
   * at the first place where whitespace and "```" follow; with no complete
   * fence it is the whole content.
   */
  lemma RawJsonIsFirstFence(t: string)
    ensures (forall i :: 0 <= i <= |t| ==> FenceAt(t, i).None?) ==> RawJson(t) == t
    ensures (exists i :: 0 <= i <= |t| && FenceAt(t, i).Some?) ==>
      exists i, g :: 0 <= i <= |t| && OpensFence(t, i) && BodyStart(t, i) <= g <= |t|
        && RawJson(t) == t[BodyStart(t, i)..g]
        && ClosesAt(t, g)
        && (forall h :: BodyStart(t, i) <= h < g ==> !ClosesAt(t, h))
        && (forall j :: 0 <= j < i ==> FenceAt(t, j).None?)
  {
    var r := FirstFence(t, 0);
    FirstFenceLeftmost(t, 0);
    if r.Some? {
      var i := r.value;
      FirstCloseFirst(t, BodyStart(t, i));
      var g := FirstClose(t, BodyStart(t, i)).value;
      assert RawJson(t) == t[BodyStart(t, i)..g];
    }
  }

  /** The body has no whitespace at either end: the first `\s*` is greedy and the group lazy. */
  lemma FenceBodyTrimmed(t: string, i: nat)
    requires i <= |t| && FenceAt(t, i).Some?
    ensures IsTrimmed(FenceAt(t, i).value)
  {
    var b := BodyStart(t, i);
    var g := FirstClose(t, b).value;
    FirstCloseFirst(t, b);
    var body := t[b..g];
    if body != [] {
      assert !IsSpace(body[0]);
      if IsSpace(t[g - 1]) {
        assert SpaceRunEnd(t, g - 1) == SpaceRunEnd(t, g);
        assert ClosesAt(t, g - 1);
        assert false;
      }
    }
  }

  /** Wrapping a trimmed body without backticks in a fence and extracting it gives the body back. */
  lemma FenceRoundTrip(body: string, t: string)
    requires IsTrimmed(body) && forall k :: 0 <= k < |body| ==> body[k] != '`'
    requires t == "```json\n" + body + "\n```"
    ensures RawJson(t) == body
  {
    assert t[..8] == "```json\n";
    assert OpensFence(t, 0);
    var n := |body|;
    assert t[8..8 + n] == body;
    assert t[8 + n] == '\n' && t[9 + n..] == "```";
    if n == 0 {
      assert t[7] == '\n' && t[8] == '\n';
      assert SpaceRunEnd(t, 9) == 9;
      assert SpaceRunEnd(t, 8) == 9;
      assert BodyStart(t, 0) == 9;
      assert ClosesAt(t, 9);
      assert FirstClose(t, 9) == Some(9);
      assert t[9..9] == body;
    } else {
      assert !IsSpace(t[8]);
      assert SpaceRunEnd(t, 8) == 8;
      assert BodyStart(t, 0) == 8;
      assert SpaceRunEnd(t, 8 + n) == 9 + n by {
        assert SpaceRunEnd(t, 9 + n) == 9 + n;
      }
      assert ClosesAt(t, 8 + n);
      forall h | 8 <= h < 8 + n ensures !ClosesAt(t, h) {
        if IsSpace(t[h]) {
          var p := SpaceRunEnd(t, h);
          assert p < 8 + n by {
            assert !IsSpace(t[7 + n]);
          }
          assert t[p] != '`';
        } else {
          assert SpaceRunEnd(t, h) == h && t[h] != '`';
        }
      }
      FirstCloseIs(t, 8, 8 + n);
      assert FirstClose(t, BodyStart(t, 0)) == Some(8 + n);
    }
    assert FenceAt(t, 0) == Some(body);
  }

  lemma {:induction false} FirstCloseIs(t: string, g: nat, e: nat)
    requires g <= e <= |t| && ClosesAt(t, e)
    requires forall h :: g <= h < e ==> !ClosesAt(t, h)
    ensures FirstClose(t, g) == Some(e)
    decreases e - g
  {
    if g < e {
      FirstCloseIs(t, g + 1, e);
    }
  }

  // ----- the retry loop -----

  /** What attempt `i` yields: `Some(outcome)` when the call ends there, `None` when it retries. */
  function Attempt(i: int, maxRetries: int, reply: HttpReply, parse: Parser): Option<ChatOutcome> {
    match reply
    case HttpError(e) => Some(Thrown(e))
    case NoChoices => Some(Thrown(TypeErrorChoices()))
    case Answer(c) =>
      match parse(RawJson(ContentOf(c)))
      case Some(j) => Some(Parsed(j))
      case None => if i == maxRetries then Some(Thrown(ParseFailure())) else None
  }

  /** What each attempt yields, for the replies `reply` and the parser `parse`. */
  function Attempts(maxRetries: int, reply: nat -> HttpReply, parse: Parser): nat -> Option<ChatOutcome> {
    (b: nat) => Attempt(b, maxRetries, reply(b), parse)
  }

  /**
   * The loop `for (let i = 0; i <= last; i++)` from attempt `i` on, given
   * what each attempt yields: the outcome and how many requests it sends.
   */
  function LoopFrom(i: nat, last: int, attempt: nat -> Option<ChatOutcome>): (r: (ChatOutcome, nat))
    decreases last - i
  {
    if i > last then (Undefined, 0)
    else match attempt(i)
      case Some(o) => (o, 1)
      case None =>
        var (o, n) := LoopFrom(i + 1, last, attempt);
        (o, n + 1)
  }

  /** The outcome of the loop from attempt `i` on, and how many requests it makes. */
  function ChatFrom(i: nat, maxRetries: int, reply: nat -> HttpReply, parse: Parser): (ChatOutcome, nat) {
    LoopFrom(i, maxRetries, Attempts(maxRetries, reply, parse))
  }

  /** `chatJSON(client, model, system, user, maxRetries)`: the outcome and the number of requests sent. */
  method ChatJson(reply: nat -> HttpReply, parse: Parser, maxRetries: int) returns (r: ChatOutcome, requests: nat)
    ensures r == ChatFrom(0, maxRetries, reply, parse).0 && requests == ChatFrom(0, maxRetries, reply, parse).1
  {
    ghost var attempt := Attempts(maxRetries, reply, parse);
    ghost var total := LoopFrom(0, maxRetries, attempt);
    requests := 0;
    var i := 0;
    while i <= maxRetries
      invariant 0 <= i && requests == i
      invariant LoopFrom(i, maxRetries, attempt).0 == total.0
      invariant LoopFrom(i, maxRetries, attempt).1 + i == total.1
      decreases maxRetries - i
    {
      var outcome := TryOnce(i, maxRetries, reply(i), parse);
      assert attempt(i) == outcome;
      requests := requests + 1;
      if outcome.Some? {
        LoopStops(i, maxRetries, attempt, outcome.value);
        return outcome.value, requests;
      }
      LoopNext(i, maxRetries, attempt);
      i := i + 1;
    }
    r := Undefined;
  }

  /** One pass of the loop body: the request's reply, then the parse of its content, its fence body or the whole text. */
  method TryOnce(i: int, maxRetries: int, resp: HttpReply, parse: Parser) returns (outcome: Option<ChatOutcome>)
    ensures outcome == Attempt(i, maxRetries, resp, parse)
  {
    match resp {
      case HttpError(e) =>
        return Some(Thrown(e));
      case NoChoices =>
        return Some(Thrown(TypeErrorChoices()));
      case Answer(c) =>
        var content := if c.Some? then Trim(c.value) else "";
        var parsed := parse(RawJson(content));
        if parsed.Some? {
          return Some(Parsed(parsed.value));
        }
        if i == maxRetries {
          return Some(Thrown(ParseFailure()));
        }
        return None;
    }
  }

  lemma LoopStops(i: nat, last: int, attempt: nat -> Option<ChatOutcome>, o: ChatOutcome)
    requires i <= last && attempt(i) == Some(o)
    ensures LoopFrom(i, last, attempt).0 == o && LoopFrom(i, last, attempt).1 == 1
  {
  }

  lemma LoopNext(i: nat, last: int, attempt: nat -> Option<ChatOutcome>)
    requires i <= last && attempt(i).None?
    ensures LoopFrom(i, last, attempt).0 == LoopFrom(i + 1, last, attempt).0
    ensures LoopFrom(i, last, attempt).1 == LoopFrom(i + 1, last, attempt).1 + 1
  {
  }

  /** Every attempt before `a` parsed nothing and asked again. */
  predicate RetriedBefore(a: nat, maxRetries: int, reply: nat -> HttpReply, parse: Parser) {
    forall b: nat :: b < a ==> Attempt(b, maxRetries, reply(b), parse).None?
  }

  /** The attempt with `i == maxRetries` never asks again. */
  lemma LastAttemptStops(maxRetries: int, reply: HttpReply, parse: Parser)
    ensures Attempt(maxRetries, maxRetries, reply, parse).Some?
  {
  }

  /**
   * When the last attempt does not ask again, the loop from attempt `i` ends
   * at the first attempt that does not ask again, after one request per
   * attempt, with that attempt's outcome.
   */
  lemma {:induction false} LoopEndsAtFirstStop(i: nat, last: nat, attempt: nat -> Option<ChatOutcome>)
    requires i <= last && attempt(last).Some?
    ensures var n := LoopFrom(i, last, attempt).1;
      && 1 <= n <= last - i + 1
      && attempt(i + n - 1) == Some(LoopFrom(i, last, attempt).0)
      && forall b :: i <= b < i + n - 1 ==> attempt(b).None?
    decreases last - i
  {
    if attempt(i).None? {
      LoopNext(i, last, attempt);
      LoopEndsAtFirstStop(i + 1, last, attempt);
    } else {
      LoopStops(i, last, attempt, attempt(i).value);
    }
  }

  /** With `maxRetries < 0` the loop body never runs and the call returns `undefined`. */
  lemma ChatJsonNoAttempt(reply: nat -> HttpReply, parse: Parser, maxRetries: int)
    requires maxRetries < 0
    ensures ChatFrom(0, maxRetries, reply, parse) == (Undefined, 0)
  {
  }

  /**
   * `chatJSON` sends between 1 and `maxRetries + 1` requests, one per
   * attempt, and returns a value or throws at the first attempt that does not
   * ask again; every earlier attempt parsed nothing.
   */
  lemma ChatJsonBounded(reply: nat -> HttpReply, parse: Parser, maxRetries: int)
    requires maxRetries >= 0
    ensures var (o, n) := ChatFrom(0, maxRetries, reply, parse);
      && 1 <= n <= maxRetries + 1 && o != Undefined
      && Attempt(n - 1, maxRetries, reply(n - 1), parse) == Some(o)
      && RetriedBefore(n - 1, maxRetries, reply, parse)
  {
    var attempt := Attempts(maxRetries, reply, parse);
    LastAttemptStops(maxRetries, reply(maxRetries), parse);
    assert attempt(maxRetries) == Attempt(maxRetries, maxRetries, reply(maxRetries), parse);
    LoopEndsAtFirstStop(0, maxRetries, attempt);
    var n := ChatFrom(0, maxRetries, reply, parse).1;
    forall b: nat | b < n - 1 ensures Attempt(b, maxRetries, reply(b), parse).None? {
      assert attempt(b) == Attempt(b, maxRetries, reply(b), parse);
    }
    assert attempt(n - 1) == Attempt(n - 1, maxRetries, reply(n - 1), parse);
  }

  /** It returns the parse of the first answer that parses, and nothing else. */
  lemma ChatJsonReturnsFirstParse(reply: nat -> HttpReply, parse: Parser, maxRetries: int)
    requires maxRetries >= 0
    ensures var (o, n) := ChatFrom(0, maxRetries, reply, parse);
      && n >= 1
      && (o.Parsed? <==> reply(n - 1).Answer? && parse(RawJson(ContentOf(reply(n - 1).content))).Some?)
      && (o.Parsed? ==> parse(RawJson(ContentOf(reply(n - 1).content))) == Some(o.value))
      && forall a: nat :: a < n - 1 ==> reply(a).Answer? && parse(RawJson(ContentOf(reply(a).content))).None?
  {
    ChatJsonBounded(reply, parse, maxRetries);
  }

  /** An HTTP error is thrown from the attempt it happens in and is not retried. */
  lemma ChatJsonHttpErrorNotRetried(reply: nat -> HttpReply, parse: Parser, maxRetries: int)
    requires maxRetries >= 0
    ensures var (o, n) := ChatFrom(0, maxRetries, reply, parse);
      forall a: nat :: a < n && reply(a).HttpError? ==> a == n - 1 && o == Thrown(reply(a).message)
  {
    ChatJsonBounded(reply, parse, maxRetries);
  }

  /** The parse failure is thrown exactly when the attempt with `i == maxRetries` is reached and fails to parse. */
  lemma ChatJsonParseFailure(reply: nat -> HttpReply, parse: Parser, maxRetries: int)
    requires maxRetries >= 0
    ensures var (o, n) := ChatFrom(0, maxRetries, reply, parse);
      && n >= 1
      && (o.Thrown? && reply(n - 1).Answer? <==>
            n == maxRetries + 1 && reply(maxRetries).Answer?
            && parse(RawJson(ContentOf(reply(maxRetries).content))).None?)
      && (o.Thrown? && reply(n - 1).Answer? ==> o.error == ParseFailure())
  {
    ChatJsonBounded(reply, parse, maxRetries);
  }
}
