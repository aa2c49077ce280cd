/** Shared vocabulary of the model: optional values, results with errors,
    the real-number clamps the prototypes use everywhere, sums and means,
    and the few string operations (ASCII lower-casing, whitespace stripping). */
module Common {

  datatype Option<T> = None | Some(value: T)

  datatype Result<T, E> = Ok(value: T) | Err(error: E)

  /** `x if x is not None else d`, the idiom behind `dict.get(key, default)`. */
  function OrElse<T>(o: Option<T>, d: T): T
  {
    match o
    case Some(v) => v
    case None => d
  }

  /** Python's `min(a, b)` on two floats. */
  function Min(a: real, b: real): (r: real)
    ensures r <= a && r <= b
    ensures r == a || r == b
  {
    if b < a then b else a
  }

  /** Python's `max(a, b)` on two floats. */
  function Max(a: real, b: real): (r: real)
    ensures r >= a && r >= b
    ensures r == a || r == b
  {
    if b > a then b else a
  }

  /** The idiom `max(lo, min(hi, x))`. */
  function Clamp(lo: real, hi: real, x: real): (r: real)
    requires lo <= hi
    ensures lo <= r <= hi
    ensures lo <= x <= hi ==> r == x
    ensures x < lo ==> r == lo
    ensures x > hi ==> r == hi
  {
    Max(lo, Min(hi, x))
  }

  function Abs(x: real): (r: real)
    ensures r >= 0.0
    ensures r == x || r == -x
  {
    if x < 0.0 then -x else x
  }

  function IntAbs(x: int): (r: nat)
    ensures r == x || r == -x
  {
    if x < 0 then -x else x
  }

  /** The difference b - a times a non-negative k keeps the sign of the
      difference, strictly when both are non-zero; a zero difference gives
      zero for any k. */
  lemma DifferenceTimesSign(a: real, b: real, k: real)
    ensures 0.0 <= k && a <= b ==> 0.0 <= (b - a) * k
    ensures 0.0 <= k && b <= a ==> (b - a) * k <= 0.0
    ensures 0.0 < k && a < b ==> 0.0 < (b - a) * k
    ensures 0.0 < k && b < a ==> (b - a) * k < 0.0
    ensures a == b ==> (b - a) * k == 0.0
  {
    if a == b {
      assert k * (b - a) == 0.0;
    }
    if 0.0 <= k && a <= b {
      assert k * (b - a) >= 0.0;
    }
    if 0.0 <= k && b <= a {
      assert k * (b - a) <= 0.0;
    }
    if 0.0 < k && a < b {
      assert k * (b - a) > 0.0;
    }
    if 0.0 < k && b < a {
      assert k * (b - a) < 0.0;
    }
  }

  /** A fraction k <= 1 of the difference b - a is no larger in size than
      the difference itself. */
  lemma DifferenceTimesFraction(a: real, b: real, k: real)
    requires k <= 1.0
    ensures a <= b ==> (b - a) * k <= b - a
    ensures b <= a ==> b - a <= (b - a) * k
  {
    if a <= b {
      assert (b - a) * (1.0 - k) >= 0.0;
    } else {
      assert (b - a) * (1.0 - k) <= 0.0;
    }
    assert (b - a) - (b - a) * k == (b - a) * (1.0 - k);
  }

  /** A step from a that neither overshoots b nor moves away from it stays
      between a and b. */
  lemma StepWithin(a: real, b: real, step: real)
    requires a <= b ==> 0.0 <= step <= b - a
    requires b < a ==> b - a <= step <= 0.0
    ensures Min(a, b) <= a + step <= Max(a, b)
  {
  }

  /** Moving from a towards b by a fraction k in [0, 1] stays between them. */
  lemma PartialStepBetween(a: real, b: real, k: real)
    requires 0.0 <= k <= 1.0
    ensures Min(a, b) <= a + (b - a) * k <= Max(a, b)
  {
    DifferenceTimesSign(a, b, k);
    DifferenceTimesFraction(a, b, k);
    StepWithin(a, b, (b - a) * k);
  }

  /** Left-to-right sum, as an accumulator loop computes it. */
  function Sum(s: seq<real>): real
  {
    if s == [] then 0.0 else Sum(s[..|s| - 1]) + s[|s| - 1]
  }

  lemma SumAppend(s: seq<real>, x: real)
    ensures Sum(s + [x]) == Sum(s) + x
  {
    assert (s + [x])[..|s|] == s;
  }

  /** `sum(xs) / len(xs) if xs else fallback`. */
  function MeanOr(s: seq<real>, fallback: real): real
  {
    if |s| > 0 then Sum(s) / (|s| as real) else fallback
  }

  /** Whitespace as Python's `str.strip()` and regex `\s` see it, restricted to ASCII. */
  predicate IsSpace(c: char)
  {
    var n := c as int;
    n == 32 || 9 <= n <= 13 || 28 <= n <= 31
  }

  /** The first index at or after i that does not hold whitespace (|s| when
      there is none). */
  function SkipSpaces(s: string, i: nat): (k: nat)
    requires i <= |s|
    ensures i <= k <= |s|
    ensures forall j :: i <= j < k ==> IsSpace(s[j])
    ensures k < |s| ==> !IsSpace(s[k])
    decreases |s| - i
  {
    if i < |s| && IsSpace(s[i]) then SkipSpaces(s, i + 1) else i
  }

  /** The end of s[lo..hi] once its trailing whitespace is dropped. */
  function BackOverSpaces(s: string, lo: nat, hi: nat): (k: nat)
    requires lo <= hi <= |s|
    ensures lo <= k <= hi
    ensures forall j :: k <= j < hi ==> IsSpace(s[j])
    ensures lo < k ==> !IsSpace(s[k - 1])
    decreases hi - lo
  {
    if lo < hi && IsSpace(s[hi - 1]) then BackOverSpaces(s, lo, hi - 1) else hi
  }

  /** Where `str.strip()` cuts: everything before the first bound and from
      the second on is whitespace, and the kept part neither starts nor
      ends with it. */
  function StripBounds(s: string): (b: (nat, nat))
    ensures b.0 <= b.1 <= |s|
    ensures forall i :: 0 <= i < b.0 ==> IsSpace(s[i])
    ensures forall i :: b.1 <= i < |s| ==> IsSpace(s[i])
    ensures b.0 < b.1 ==> !IsSpace(s[b.0]) && !IsSpace(s[b.1 - 1])
  {
    var lo := SkipSpaces(s, 0);
    (lo, BackOverSpaces(s, lo, |s|))
  }

  /** Python's `str.strip()` with no argument. */
  function Strip(s: string): (r: string)
    ensures r == [] || (!IsSpace(r[0]) && !IsSpace(r[|r| - 1]))
    ensures r == s[StripBounds(s).0..StripBounds(s).1]
  {
    var b := StripBounds(s);
    s[b.0..b.1]
  }

  function LowerChar(c: char): char
  {
    if 'A' <= c <= 'Z' then (c as int + 32) as char else c
  }

  /** Python's `str.lower()`, restricted to ASCII letters. */
  function Lower(s: string): (r: string)
    ensures |r| == |s|
    ensures forall i :: 0 <= i < |s| ==> r[i] == LowerChar(s[i])
  {
    if s == [] then [] else [LowerChar(s[0])] + Lower(s[1..])
  }
}
