/** String primitives that the itinerary code takes from JavaScript: white space as `\s` and
    `String.prototype.trim` see it, `trim`, `split` on one character, `join`, and the decimal
    rendering that a template literal gives an integral number. */
module Text {

  /** JavaScript white space: the characters `\s` matches and `trim` removes (WhiteSpace and
      LineTerminator of the ECMAScript grammar). */
  predicate IsWs(c: char) {
    || c == '\t' || c == '\n' || c == '\U{000B}' || c == '\U{000C}' || c == '\r' || c == ' '
    || c == '\U{00A0}' || c == '\U{1680}' || ('\U{2000}' <= c <= '\U{200A}')
    || c == '\U{2028}' || c == '\U{2029}' || c == '\U{202F}' || c == '\U{205F}'
    || c == '\U{3000}' || c == '\U{FEFF}'
  }

  predicate AllWs(s: string) {
    forall k :: 0 <= k < |s| ==> IsWs(s[k])
  }

  /** `t` occurs in `s` starting at index `i`. */
  predicate OccursAt(s: string, t: string, i: int) {
    0 <= i && i + |t| <= |s| && s[i..i + |t|] == t
  }

  /** `s.includes(t)`. */
  ghost predicate Contains(s: string, t: string) {
    exists i :: OccursAt(s, t, i)
  }

  // ---------------------------------------------------------------------------
  // trim

  /** The number of white-space characters `trim` removes from the front of `s`. */
  function LeadingWs(s: string): (n: nat)
    ensures n <= |s|
    ensures forall k :: 0 <= k < n ==> IsWs(s[k])
    ensures n < |s| ==> !IsWs(s[n])
  {
    if s != [] && IsWs(s[0]) then 1 + LeadingWs(s[1..]) else 0
  }

  /** Where the trailing white space of `s` begins, looking no further left than `lo`. */
  function TrailingWsFrom(s: string, lo: nat): (e: nat)
    requires lo <= |s|
    ensures lo <= e <= |s|
    ensures forall k :: e <= k < |s| ==> IsWs(s[k])
    ensures e > lo ==> !IsWs(s[e - 1])
    decreases |s|
  {
    if |s| > lo && IsWs(s[|s| - 1]) then TrailingWsFrom(s[..|s| - 1], lo) else |s|
  }

  /** `s.trim()`: the part of `s` between its leading and its trailing white space. It is empty
      exactly when `s` is all white space, and otherwise begins and ends with a non-space. */
  function Trim(s: string): (r: string)
    ensures r == [] <==> AllWs(s)
    ensures r != [] ==> !IsWs(r[0]) && !IsWs(r[|r| - 1])
    ensures LeadingWs(s) + |r| <= |s| && r == s[LeadingWs(s)..LeadingWs(s) + |r|]
    ensures AllWs(s[..LeadingWs(s)]) && AllWs(s[LeadingWs(s) + |r|..])
  {
    var lo := LeadingWs(s);
    var hi := TrailingWsFrom(s, lo);
    assert AllWs(s[hi..]);
    s[lo..hi]
  }

  /** `trim` is determined by where the white space ends and starts again: any split of `s` into
      white space, a part that begins and ends with a non-space (or is empty), and white space
      has that part as its trimmed form. */
  lemma TrimUnique(s: string, lo: nat, hi: nat)
    requires lo <= hi <= |s|
    requires forall k :: 0 <= k < lo ==> IsWs(s[k])
    requires forall k :: hi <= k < |s| ==> IsWs(s[k])
    requires lo < hi ==> !IsWs(s[lo]) && !IsWs(s[hi - 1])
    ensures Trim(s) == s[lo..hi]
  {
    if lo == hi {
      assert AllWs(s) by {
        forall k | 0 <= k < |s| ensures IsWs(s[k]) {
          if k >= lo { assert k >= hi; }
        }
      }
    } else {
      assert LeadingWs(s) == lo;
      var e := TrailingWsFrom(s, lo);
      assert !IsWs(s[hi - 1]) && !IsWs(s[e - 1]);
    }
  }

  /** A string that already begins and ends with a non-space is left alone by `trim`. */
  lemma TrimOfTrimmed(s: string)
    requires s == [] || (!IsWs(s[0]) && !IsWs(s[|s| - 1]))
    ensures Trim(s) == s
  {
    TrimUnique(s, 0, |s|);
  }

  /** `trim` is idempotent. */
  lemma TrimIdempotent(s: string)
    ensures Trim(Trim(s)) == Trim(s)
  {
    TrimOfTrimmed(Trim(s));
  }

  /** White space before a white-space prefix of `s` gives a longer white-space prefix. */
  lemma WsPrefixAppend(w: string, s: string, lo: nat)
    requires AllWs(w) && lo <= |s|
    requires forall k :: 0 <= k < lo ==> IsWs(s[k])
    ensures forall k :: 0 <= k < |w| + lo ==> IsWs((w + s)[k])
  {
    forall k | 0 <= k < |w| + lo ensures IsWs((w + s)[k]) {
      if k < |w| {
        assert (w + s)[k] == w[k];
      } else {
        assert (w + s)[k] == s[k - |w|];
      }
    }
  }

  /** A white-space suffix of `s` stays one when something is put before `s`. */
  lemma WsSuffixAppend(w: string, s: string, hi: nat)
    requires hi <= |s|
    requires forall k :: hi <= k < |s| ==> IsWs(s[k])
    ensures forall k :: |w| + hi <= k < |w + s| ==> IsWs((w + s)[k])
  {
    forall k | |w| + hi <= k < |w + s| ensures IsWs((w + s)[k]) {
      assert (w + s)[k] == s[k - |w|];
    }
  }

  /** The part of `s` between `lo` and `hi` sits `|w|` places further right in `w + s`. */
  lemma PartAfterPrefix(w: string, s: string, lo: nat, hi: nat)
    requires lo <= hi <= |s|
    ensures (w + s)[|w| + lo..|w| + hi] == s[lo..hi]
    ensures lo < hi ==> (w + s)[|w| + lo] == s[lo] && (w + s)[|w| + hi - 1] == s[hi - 1]
  {
    forall k | 0 <= k < hi - lo ensures (w + s)[|w| + lo..|w| + hi][k] == s[lo..hi][k] {
      assert (w + s)[|w| + lo + k] == s[lo + k];
    }
  }

  /** White space put before `s` leaves the part between its leading and trailing white space
      as the trimmed form. */
  lemma TrimOfPaddedPart(w: string, s: string, lo: nat, hi: nat, r: string)
    requires AllWs(w) && lo <= hi <= |s| && r == s[lo..hi]
    requires forall k :: 0 <= k < lo ==> IsWs(s[k])
    requires forall k :: hi <= k < |s| ==> IsWs(s[k])
    requires r != [] ==> !IsWs(r[0]) && !IsWs(r[|r| - 1])
    ensures Trim(w + s) == r
  {
    WsPrefixAppend(w, s, lo);
    WsSuffixAppend(w, s, hi);
    PartAfterPrefix(w, s, lo, hi);
    TrimUnique(w + s, |w| + lo, |w| + hi);
  }

  /** Leading white space does not change what `trim` returns. */
  lemma TrimAfterWs(w: string, s: string)
    requires AllWs(w)
    ensures Trim(w + s) == Trim(s)
  {
    var lo := LeadingWs(s);
    var r := Trim(s);
    var hi := lo + |r|;
    assert forall k :: hi <= k < |s| ==> IsWs(s[k]) by {
      forall k | hi <= k < |s| ensures IsWs(s[k]) {
        assert s[k] == s[hi..][k - hi];
      }
    }
    TrimOfPaddedPart(w, s, lo, hi, r);
  }

  // ---------------------------------------------------------------------------
  // split and join

  /** `xs.join(sep)`. */
  function Join(xs: seq<string>, sep: string): string {
    if |xs| == 0 then []
    else if |xs| == 1 then xs[0]
    else xs[0] + sep + Join(xs[1..], sep)
  }

  /** `s.split(sep)` for a one-character separator: the pieces between separators, left to right.
      There is always at least one piece (`"".split(",")` is `[""]`) and no piece holds the
      separator; `JoinSplit` shows that joining the pieces back gives `s`. */
  function Split(s: string, sep: char): (r: seq<string>)
    ensures |r| >= 1
    ensures forall i :: 0 <= i < |r| ==> sep !in r[i]
  {
    if s == [] then [[]]
    else
      var rest := Split(s[1..], sep);
      if s[0] == sep then [[]] + rest
      else [[s[0]] + rest[0]] + rest[1..]
  }

  /** Joining the pieces of `s` with the separator gives `s` back: `split` loses nothing. */
  lemma {:induction false} JoinSplit(s: string, sep: char)
    ensures Join(Split(s, sep), [sep]) == s
  {
    if s != [] {
      JoinSplit(s[1..], sep);
      var rest := Split(s[1..], sep);
      var r := Split(s, sep);
      if s[0] == sep {
        assert r[1..] == rest;
        assert Join(r, [sep]) == [] + [sep] + Join(rest, [sep]);
        assert s == [sep] + s[1..];
      } else {
        assert r[1..] == rest[1..];
        if |rest| > 1 {
          assert rest == [rest[0]] + rest[1..];
          assert Join(rest, [sep]) == rest[0] + [sep] + Join(rest[1..], [sep]);
        }
        assert Join(r, [sep]) == [s[0]] + Join(rest, [sep]);
        assert s == [s[0]] + s[1..];
      }
    }
  }

  /** Joining with one more element appended (the order `join` keeps). */
  lemma {:induction false} JoinSnoc(xs: seq<string>, x: string, sep: string)
    requires |xs| >= 1
    ensures Join(xs + [x], sep) == Join(xs, sep) + sep + x
  {
    if |xs| == 1 {
      assert xs + [x] == [xs[0], x];
    } else {
      assert (xs + [x])[1..] == xs[1..] + [x];
      JoinSnoc(xs[1..], x, sep);
    }
  }

  /** A string without the separator splits into itself. */
  lemma {:induction false} SplitWithoutSep(s: string, sep: char)
    requires sep !in s
    ensures Split(s, sep) == [s]
  {
    if s != [] {
      assert s[0] != sep && sep !in s[1..];
      SplitWithoutSep(s[1..], sep);
      assert s == [s[0]] + s[1..];
    }
  }

  /** The pieces of a non-empty string: a new empty piece before the pieces of the rest when it
      starts with the separator, otherwise its first character put in front of the rest's first
      piece. */
  lemma SplitUnfold(s: string, sep: char)
    requires s != []
    ensures var rest := Split(s[1..], sep);
      Split(s, sep) == if s[0] == sep then [[]] + rest else [[s[0]] + rest[0]] + rest[1..]
  {
  }

  /** Putting a character in front of the first piece commutes with appending more pieces. */
  lemma PushFrontAppend(c: char, ra: seq<string>, rb: seq<string>)
    requires |ra| >= 1
    ensures [[c] + (ra + rb)[0]] + (ra + rb)[1..] == ([[c] + ra[0]] + ra[1..]) + rb
  {
    assert (ra + rb)[1..] == ra[1..] + rb;
  }

  /** One step of `SplitAppend`, for a string that starts with the separator. */
  lemma SplitAppendSepStep(a: string, b: string, sep: char)
    requires a != [] && a[0] == sep
    requires Split(a[1..] + [sep] + b, sep) == Split(a[1..], sep) + Split(b, sep)
    ensures Split(a + [sep] + b, sep) == Split(a, sep) + Split(b, sep)
  {
    var x := a + [sep] + b;
    assert x[0] == a[0] && x[1..] == a[1..] + [sep] + b;
    var ra, rb := Split(a[1..], sep), Split(b, sep);
    var e: string := [];
    calc {
      Split(x, sep);
      { SplitUnfold(x, sep); }
      [e] + (ra + rb);
      ([e] + ra) + rb;
      { SplitUnfold(a, sep); }
      Split(a, sep) + rb;
    }
  }

  /** One step of `SplitAppend`, for a string that starts with another character. */
  lemma SplitAppendOtherStep(a: string, b: string, sep: char)
    requires a != [] && a[0] != sep
    requires Split(a[1..] + [sep] + b, sep) == Split(a[1..], sep) + Split(b, sep)
    ensures Split(a + [sep] + b, sep) == Split(a, sep) + Split(b, sep)
  {
    var x := a + [sep] + b;
    assert x[0] == a[0] && x[1..] == a[1..] + [sep] + b;
    var ra, rb := Split(a[1..], sep), Split(b, sep);
    calc {
      Split(x, sep);
      { SplitUnfold(x, sep); }
      [[a[0]] + (ra + rb)[0]] + (ra + rb)[1..];
      { PushFrontAppend(a[0], ra, rb); }
      ([[a[0]] + ra[0]] + ra[1..]) + rb;
      { SplitUnfold(a, sep); }
      Split(a, sep) + rb;
    }
  }

  /** Splitting distributes over a separator: the pieces of `a`, then the pieces of `b`. */
  lemma {:induction false} SplitAppend(a: string, b: string, sep: char)
    ensures Split(a + [sep] + b, sep) == Split(a, sep) + Split(b, sep)
  {
    if a == [] {
      var x := a + [sep] + b;
      assert x[0] == sep && x[1..] == b;
      SplitUnfold(x, sep);
    } else {
      SplitAppend(a[1..], b, sep);
      if a[0] == sep {
        SplitAppendSepStep(a, b, sep);
      } else {
        SplitAppendOtherStep(a, b, sep);
      }
    }
  }

  /** Splitting undoes joining when no piece holds the separator: `split` and `join` are inverse. */
  lemma {:induction false} SplitJoin(xs: seq<string>, sep: char)
    requires |xs| >= 1
    requires forall i :: 0 <= i < |xs| ==> sep !in xs[i]
    ensures Split(Join(xs, [sep]), sep) == xs
  {
    if |xs| == 1 {
      SplitWithoutSep(xs[0], sep);
    } else {
      SplitWithoutSep(xs[0], sep);
      SplitJoin(xs[1..], sep);
      assert Join(xs, [sep]) == xs[0] + [sep] + Join(xs[1..], [sep]);
      SplitAppend(xs[0], Join(xs[1..], [sep]), sep);
      assert xs == [xs[0]] + xs[1..];
    }
  }

  // ---------------------------------------------------------------------------
  // decimal rendering of integers

  predicate IsDigit(c: char) {
    '0' <= c <= '9'
  }

  function Digit(d: nat): (c: char)
    requires d < 10
    ensures IsDigit(c)
  {
    ('0' as int + d) as char
  }

  function DigitValue(c: char): (d: nat)
    requires IsDigit(c)
    ensures d < 10
  {
    c as int - '0' as int
  }

  /** The decimal digits of `n`, most significant first, without leading zeros. */
  function NatToDecimal(n: nat): (r: string)
    ensures |r| >= 1
    ensures forall i :: 0 <= i < |r| ==> IsDigit(r[i])
    ensures r[0] == '0' ==> n == 0
    decreases n
  {
    if n < 10 then [Digit(n)] else NatToDecimal(n / 10) + [Digit(n % 10)]
  }

  /** The value of a string of decimal digits. */
  function DecimalToNat(s: string): nat
    requires forall i :: 0 <= i < |s| ==> IsDigit(s[i])
  {
    if s == [] then 0 else 10 * DecimalToNat(s[..|s| - 1]) + DigitValue(s[|s| - 1])
  }

  /** Reading the digits back gives the number: the rendering loses nothing. */
  lemma {:induction false} NatDecimalRoundTrip(n: nat)
    ensures DecimalToNat(NatToDecimal(n)) == n
    decreases n
  {
    if n >= 10 {
      var r := NatToDecimal(n);
      assert r[..|r| - 1] == NatToDecimal(n / 10);
      NatDecimalRoundTrip(n / 10);
    }
  }

  /** How a template literal renders an integral number: an optional minus sign, then the digits. */
  function IntToDecimal(n: int): (r: string)
    ensures |r| >= 1
    ensures r[0] == '-' <==> n < 0
    ensures forall i :: (if n < 0 then 1 else 0) <= i < |r| ==> IsDigit(r[i])
  {
    if n < 0 then "-" + NatToDecimal(-n) else NatToDecimal(n)
  }

  /** The integer a rendered number stands for. */
  function DecimalToInt(s: string): int
    requires |s| >= 1
    requires forall i :: (if s[0] == '-' then 1 else 0) <= i < |s| ==> IsDigit(s[i])
  {
    if s[0] == '-' then 0 - DecimalToNat(s[1..]) else DecimalToNat(s)
  }

  /** Rendering an integer and reading it back gives the integer: distinct numbers render
      differently, so the number in a prompt identifies the request's number. */
  lemma IntDecimalRoundTrip(n: int)
    ensures DecimalToInt(IntToDecimal(n)) == n
  {
    if n < 0 {
      assert IntToDecimal(n)[1..] == NatToDecimal(-n);
      NatDecimalRoundTrip(-n);
    } else {
      NatDecimalRoundTrip(n);
    }
  }
}
