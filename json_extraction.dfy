/** The choice of the JSON text inside the model's free-form reply, as `generateItineraryWithNvidia`
    makes it: the capture of the fenced pattern /```(?:json)?\s*(\{[\s\S]*?\})\s*```/ when that
    pattern matches anywhere, otherwise the capture of the bare pattern /(\{[\s\S]*\})/, otherwise
    the error "No JSON data found in response". The candidate is then handed to JSON.parse, which
    is not part of this model.

    Each pattern is defined declaratively (`FencedMatch`, `BareMatch`: the positions at which the
    pattern can match) and the scanning functions are proved to pick the match a JavaScript
    regular expression picks: the leftmost start, then the fewest characters for the lazy `*?`
    and the most for the greedy `*`. */
module JsonExtraction {
  import opened Wrappers
  import opened Text

  const NoJsonFound: string := "No JSON data found in response"

  /** Three backticks start at index `i`. */
  predicate FenceAt(s: string, i: int) {
    0 <= i && i + 3 <= |s| && s[i] == '`' && s[i + 1] == '`' && s[i + 2] == '`'
  }

  /** The tag `json` starts at index `i`. */
  predicate JsonTagAt(s: string, i: int) {
    0 <= i && i + 4 <= |s| && s[i] == 'j' && s[i + 1] == 's' && s[i + 2] == 'o' && s[i + 3] == 'n'
  }

  /** `s[i..j]` is white space only. */
  predicate WsSpan(s: string, i: int, j: int) {
    0 <= i <= j <= |s| && forall k :: i <= k < j ==> IsWs(s[k])
  }

  /** One way for /```(?:json)?\s*(\{[\s\S]*?\})\s*```/ to match: a fence at `p`, a `json` tag when
      `tag` is 4 (none when it is 0), white space up to the opening brace at `q`, anything up to
      the closing brace at `e`, white space up to the closing fence at `f`. The capture is
      `s[q..e + 1]`. */
  predicate FencedMatch(s: string, p: int, tag: int, q: int, e: int, f: int) {
    && FenceAt(s, p)
    && (tag == 0 || (tag == 4 && JsonTagAt(s, p + 3)))
    && WsSpan(s, p + 3 + tag, q)
    && q < e
    && WsSpan(s, e + 1, f)
    && s[q] == '{'
    && s[e] == '}'
    && FenceAt(s, f)
  }

  /** One way for /(\{[\s\S]*\})/ to match: an opening brace at `i` and a closing brace at `j`. */
  predicate BareMatch(s: string, i: int, j: int) {
    0 <= i < j < |s| && s[i] == '{' && s[j] == '}'
  }

  // ---------------------------------------------------------------------------
  // the fenced pattern

  /** Where the white space that starts at `i` ends: what greedy `\s*` consumes. */
  function SkipWs(s: string, i: nat): (j: nat)
    requires i <= |s|
    ensures WsSpan(s, i, j)
    ensures j < |s| ==> !IsWs(s[j])
    decreases |s| - i
  {
    if i < |s| && IsWs(s[i]) then SkipWs(s, i + 1) else i
  }

  /** Greedy `\s*` followed by a non-space can only stop at the end of the white space. */
  lemma SkipWsUnique(s: string, i: nat, j: nat)
    requires WsSpan(s, i, j)
    requires j < |s| ==> !IsWs(s[j])
    ensures SkipWs(s, i) == j
  {
  }

  /** The tag length the pattern consumes after a fence at `p`: `(?:json)?` is greedy. */
  function TagAfter(s: string, p: nat): (tag: nat)
    requires FenceAt(s, p)
    ensures p + 3 + tag <= |s|
  {
    if JsonTagAt(s, p + 3) then 4 else 0
  }

  /** The opening brace that a match starting with the fence at `p` must use, if there is one. */
  function OpenBraceAfter(s: string, p: nat): (r: Option<nat>)
    requires FenceAt(s, p)
    ensures r.Some? ==> WsSpan(s, p + 3 + TagAfter(s, p), r.value) && r.value < |s| && s[r.value] == '{'
  {
    var q := SkipWs(s, p + 3 + TagAfter(s, p));
    if q < |s| && s[q] == '{' then Some(q) else None
  }

  /** A match starting at `p` has no choice about its tag or its opening brace: the ones
      `TagAfter` and `OpenBraceAfter` give. */
  lemma OpenBraceForced(s: string, p: nat, tag: int, q: int, e: int, f: int)
    requires FencedMatch(s, p, tag, q, e, f)
    ensures tag == TagAfter(s, p) && OpenBraceAfter(s, p) == Some(q)
  {
    assert tag == TagAfter(s, p);
    SkipWsUnique(s, p + 3 + tag, q);
  }

  /** A closing brace at `e` followed by white space and a fence. */
  predicate ClosesFence(s: string, e: int) {
    0 <= e < |s| && s[e] == '}' && FenceAt(s, SkipWs(s, e + 1))
  }

  /** A closing brace in a match always has that shape, and its closing fence is the one after
      the white space that follows it. */
  lemma CloseForced(s: string, p: int, tag: int, q: int, e: int, f: int)
    requires FencedMatch(s, p, tag, q, e, f)
    ensures ClosesFence(s, e) && SkipWs(s, e + 1) == f
  {
    SkipWsUnique(s, e + 1, f);
  }

  /** The first brace at or after `from` that closes a fence: what the lazy `[\s\S]*?\}` settles on. */
  function FirstClose(s: string, from: nat): (r: Option<nat>)
    ensures r.Some? ==> from <= r.value && ClosesFence(s, r.value)
    ensures r.Some? ==> forall k :: from <= k < r.value ==> !ClosesFence(s, k)
    ensures r.None? ==> forall k :: from <= k ==> !ClosesFence(s, k)
    decreases |s| - from
  {
    if from >= |s| then None
    else if ClosesFence(s, from) then Some(from)
    else FirstClose(s, from + 1)
  }

  /** The positions of a match of the fenced pattern, and its capture `s[open..close + 1]`. */
  datatype FencedSpan = FencedSpan(start: nat, tag: nat, open: nat, close: nat, end: nat)

  /** The match of the fenced pattern that starts at `p`, if any, with the shortest capture. */
  function FencedAt(s: string, p: nat): (r: Option<FencedSpan>)
    ensures r.Some? ==>
      (r.value.start == p && FencedMatch(s, p, r.value.tag, r.value.open, r.value.close, r.value.end))
  {
    if !FenceAt(s, p) then None
    else match OpenBraceAfter(s, p)
      case None => None
      case Some(q) =>
        match FirstClose(s, q + 1)
        case None => None
        case Some(e) =>
          SkipWsUnique(s, e + 1, SkipWs(s, e + 1));
          Some(FencedSpan(p, TagAfter(s, p), q, e, SkipWs(s, e + 1)))
  }

  /** `FencedAt` finds a match at `p` whenever there is one, and none has a shorter capture. */
  lemma FencedAtComplete(s: string, p: nat, tag: int, q: int, e: int, f: int)
    requires FencedMatch(s, p, tag, q, e, f)
    ensures FencedAt(s, p).Some?
    ensures FencedAt(s, p).value.open == q && FencedAt(s, p).value.close <= e
  {
    OpenBraceForced(s, p, tag, q, e, f);
    CloseForced(s, p, tag, q, e, f);
    assert ClosesFence(s, e);
  }

  /** The leftmost match of the fenced pattern at or after `from`: `String.prototype.match` tries
      each start in turn and keeps the first that matches. */
  function FirstFenced(s: string, from: nat): (r: Option<FencedSpan>)
    ensures r.Some? ==>
      (from <= r.value.start
       && FencedMatch(s, r.value.start, r.value.tag, r.value.open, r.value.close, r.value.end))
    decreases |s| - from
  {
    if from >= |s| then None
    else match FencedAt(s, from)
      case Some(m) => Some(m)
      case None => FirstFenced(s, from + 1)
  }

  /** `FirstFenced` is the leftmost match and, among the matches at its start, the one with the
      shortest capture; when it finds nothing, the fenced pattern does not match at all. */
  lemma {:induction false} FirstFencedIsLeftmostShortest(s: string, from: nat, p: int, tag: int, q: int, e: int, f: int)
    requires from <= p
    requires FencedMatch(s, p, tag, q, e, f)
    ensures FirstFenced(s, from).Some?
    ensures FirstFenced(s, from).value.start < p
      || (FirstFenced(s, from).value.start == p && FirstFenced(s, from).value.open == q
          && FirstFenced(s, from).value.close <= e)
    decreases |s| - from
  {
    if from == p {
      FencedAtComplete(s, p, tag, q, e, f);
    } else if FencedAt(s, from).None? {
      FirstFencedIsLeftmostShortest(s, from + 1, p, tag, q, e, f);
    }
  }

  // ---------------------------------------------------------------------------
  // the bare pattern

  /** The first index at or after `from` that holds `c`. */
  function FirstIndexOf(s: string, c: char, from: nat): (r: Option<nat>)
    ensures r.Some? ==> from <= r.value < |s| && s[r.value] == c
    ensures r.Some? ==> forall k :: from <= k < r.value ==> s[k] != c
    ensures r.None? ==> forall k :: from <= k < |s| ==> s[k] != c
    decreases |s| - from
  {
    if from >= |s| then None
    else if s[from] == c then Some(from)
    else FirstIndexOf(s, c, from + 1)
  }

  /** The last index before `upto` that holds `c`. */
  function LastIndexOf(s: string, c: char, upto: nat): (r: Option<nat>)
    requires upto <= |s|
    ensures r.Some? ==> r.value < upto && s[r.value] == c
    ensures r.Some? ==> forall k :: r.value < k < upto ==> s[k] != c
    ensures r.None? ==> forall k :: 0 <= k < upto ==> s[k] != c
  {
    if upto == 0 then None
    else if s[upto - 1] == c then Some(upto - 1)
    else LastIndexOf(s, c, upto - 1)
  }

  /** The match of /(\{[\s\S]*\})/: the leftmost opening brace that has a closing brace after it
      and, greedily, the last closing brace. It runs from the first `{` of `s` to the last `}`. */
  function BareSpan(s: string): (r: Option<(nat, nat)>)
    ensures r.Some? ==> BareMatch(s, r.value.0, r.value.1)
    ensures r.Some? ==> forall i, j :: BareMatch(s, i, j) ==> r.value.0 <= i && j <= r.value.1
    ensures r.None? ==> forall i, j :: !BareMatch(s, i, j)
  {
    match (FirstIndexOf(s, '{', 0), LastIndexOf(s, '}', |s|))
    case (Some(i), Some(j)) => if i < j then Some((i, j)) else None
    case _ => None
  }

  // ---------------------------------------------------------------------------
  // the extraction

  /** The text the capture group of a fenced match holds, from its opening through its closing
      brace. */
  function Capture(s: string, m: FencedSpan): (r: string)
    requires m.open <= m.close < |s|
    ensures |r| == m.close + 1 - m.open
    ensures forall k :: 0 <= k < |r| ==> r[k] == s[m.open + k]
  {
    s[m.open..m.close + 1]
  }

  /** The JSON text to parse: the fenced capture if the fenced pattern matches, else the bare
      capture, else the error "No JSON data found in response". Every candidate begins with `{`
      and ends with `}`; the extraction fails exactly when no `}` follows a `{`. */
  function ExtractJson(s: string): (r: Result<string, string>)
    ensures r.Success? ==> |r.value| >= 2 && r.value[0] == '{' && r.value[|r.value| - 1] == '}'
    ensures r.Failure? ==> r.error == NoJsonFound
    ensures r.Failure? <==> forall i, j :: !BareMatch(s, i, j)
  {
    match FirstFenced(s, 0)
    case Some(m) =>
      assert BareMatch(s, m.open, m.close);
      Success(Capture(s, m))
    case None =>
      match BareSpan(s)
      case Some((i, j)) => Success(s[i..j + 1])
      case None => Failure(NoJsonFound)
  }

  /** Fenced precedence: when the fenced pattern matches anywhere, the candidate is the capture of
      its leftmost, shortest match, whatever the bare pattern would have found. */
  lemma FencedTakesPrecedence(s: string, p: nat, tag: int, q: int, e: int, f: int)
    requires FencedMatch(s, p, tag, q, e, f)
    ensures var m := FirstFenced(s, 0);
      && m.Some?
      && FencedMatch(s, m.value.start, m.value.tag, m.value.open, m.value.close, m.value.end)
      && (m.value.start < p || (m.value.start == p && m.value.open == q && m.value.close <= e))
      && ExtractJson(s) == Success(Capture(s, m.value))
  {
    FirstFencedIsLeftmostShortest(s, 0, p, tag, q, e, f);
  }

  /** Without a fenced match, the candidate runs from the first `{` through the last `}`. */
  lemma BareFromFirstOpenToLastClose(s: string, i: nat, j: nat)
    requires forall p, tag, q, e, f :: !FencedMatch(s, p, tag, q, e, f)
    requires BareMatch(s, i, j)
    requires forall k :: 0 <= k < i ==> s[k] != '{'
    requires forall k :: j < k < |s| ==> s[k] != '}'
    ensures ExtractJson(s) == Success(s[i..j + 1])
  {
    assert FirstFenced(s, 0).None?;
    var b := BareSpan(s).value;
    assert b.0 <= i && j <= b.1;
    assert s[b.0] == '{' && s[b.1] == '}';
  }

  /** A reply whose first backticks open a block tagged `json` holding one object yields that
      object, whatever text comes before the block. */
  lemma FencedBlockExtracted(intro: string, obj: string)
    requires forall k :: 0 <= k < |intro| ==> intro[k] != '`'
    requires 2 <= |obj| && obj[0] == '{' && obj[|obj| - 1] == '}'
    requires forall k :: 0 <= k < |obj| - 1 ==> obj[k] != '}'
    ensures ExtractJson(intro + "```json\n" + obj + "\n```") == Success(obj)
  {
    var s := intro + "```json\n" + obj + "\n```";
    var n := |intro|;
    var q, e := n + 8, n + 8 + |obj| - 1;
    assert forall k :: 0 <= k < n ==> s[k] == intro[k];
    assert forall k :: q <= k <= e ==> s[k] == obj[k - q];
    assert s[n..q] == "```json\n";
    assert s[e + 1..] == "\n```";
    assert FencedMatch(s, n, 4, q, e, e + 2);
    FencedTakesPrecedence(s, n, 4, q, e, e + 2);
    assert Capture(s, FirstFenced(s, 0).value) == obj;
  }

  /** "Here you go:" followed by a fenced `json` block yields the object in the block. */
  lemma FencedExample()
    ensures ExtractJson("Here you go:\n" + "```json\n" + "{\"a\":1}" + "\n```") == Success("{\"a\":1}")
  {
    FencedBlockExtracted("Here you go:\n", "{\"a\":1}");
  }

  /** A reply without braces yields the "No JSON data found" error. */
  lemma NoBracesExample()
    ensures ExtractJson("no braces here") == Failure(NoJsonFound)
  {
    var s := "no braces here";
    assert forall k :: 0 <= k < |s| ==> s[k] != '{';
  }

  /** Two objects without a fence yield one span from the first `{` to the last `}`, holding both
      objects and the text between them (which JSON.parse then rejects). */
  lemma TwoObjectsExample()
    ensures ExtractJson("prefix " + "{\"a\":1} suffix {\"b\":2}") == Success("{\"a\":1} suffix {\"b\":2}")
  {
    var pre, obj := "prefix ", "{\"a\":1} suffix {\"b\":2}";
    var s := pre + obj;
    assert s[7..|s|] == obj;
    assert forall k :: 0 <= k < |s| ==> s[k] != '`';
    BareFromFirstOpenToLastClose(s, 7, |s| - 1);
  }
}
