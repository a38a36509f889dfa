/** Converting computed quotas to 32-bit integers (common/quota_math.go, lines 52-117). A float is a real, an
infinity or not a number. */
module QuotaMath {
  import opened Options
  import opened Rounding

  datatype Float = Finite(r: real) | PlusInfinity | MinusInfinity | NaN

  datatype Clamp = Overflow | Underflow | NotANumber

  const MAX: int := 2147483647
  const MIN: int := -2147483648

  /** `saturateQuota`. */
  function Saturate(v: Float): (int, Option<Clamp>) {
    match v
    case NaN => (0, Some(NotANumber))
    case PlusInfinity => (MAX, Some(Overflow))
    case MinusInfinity => (MIN, Some(Underflow))
    case Finite(r) =>
      if r >= MAX as real then (MAX, Some(Overflow))
      else if r <= MIN as real then (MIN, Some(Underflow))
      else (Truncate(r), None)
  }

  function Rounded(v: Float): Float { if v.Finite? then Finite(RoundHalfAway(v.r) as real) else v }

  function FromFloat(v: Float): (int, Option<Clamp>) { Saturate(v) }

  function Round(v: Float): (int, Option<Clamp>) { Saturate(Rounded(v)) }

  /** Decimals are finite; they are rounded before the conversion. */
  function FromDecimal(d: real): (int, Option<Clamp>) { Saturate(Finite(RoundHalfAway(d) as real)) }

  /** The order of floats other than NaN. */
  predicate AtMost(v: Float, w: Float) {
    v.MinusInfinity? || w.PlusInfinity? || (v.Finite? && w.Finite? && v.r <= w.r)
  }

  lemma TruncateMonotone(x: real, y: real)
    requires x <= y
    ensures Truncate(x) <= Truncate(y)
  {
    TruncateFacts(x);
    TruncateFacts(y);
  }

  lemma TruncateInteger(n: int)
    ensures Truncate(n as real) == n
  {
    TruncateFacts(n as real);
  }

  /** Every conversion fits in 32 bits and is monotone, so a larger charge never becomes a smaller one. */
  lemma ConversionsAreMonotone(v: Float, w: Float)
    requires AtMost(v, w)
    ensures MIN <= FromFloat(v).0 <= FromFloat(w).0 <= MAX
    ensures MIN <= Round(v).0 <= Round(w).0 <= MAX
  {
    SaturateMonotone(v, w);
    if v.Finite? && w.Finite? { RoundMonotone(v.r, w.r); }
    SaturateMonotone(Rounded(v), Rounded(w));
  }

  lemma SaturateMonotone(v: Float, w: Float)
    requires AtMost(v, w)
    ensures MIN <= Saturate(v).0 <= Saturate(w).0 <= MAX
  {
    if v.Finite? { TruncateFacts(v.r); }
    if w.Finite? { TruncateFacts(w.r); }
    if v.Finite? && w.Finite? { TruncateMonotone(v.r, w.r); }
  }

  /** A conversion is flagged exactly when its input is not a number or reaches a bound; rounding reaches a bound from
      half below it on. */
  lemma FlaggedIff(v: Float)
    ensures FromFloat(v).1.Some? <==> v.NaN? || AtMost(Finite(MAX as real), v) || AtMost(v, Finite(MIN as real))
    ensures Round(v).1.Some? <==> v.NaN? || AtMost(Finite(MAX as real - 0.5), v) || AtMost(v, Finite(MIN as real + 0.5))
  {
    if v.Finite? {
      RoundThreshold(v.r, MAX);
      RoundThreshold(-v.r, -MIN);
    }
  }

  /** What a flagged conversion yields: zero for NaN, and the bound that was reached, each under its own name. */
  lemma ClampedValue(v: Float)
    ensures FromFloat(v) == (0, Some(NotANumber)) <==> v.NaN?
    ensures FromFloat(v) == (2147483647, Some(Overflow)) <==> AtMost(Finite(2147483647.0), v) && !v.NaN?
    ensures FromFloat(v) == (-2147483648, Some(Underflow)) <==> AtMost(v, Finite(-2147483648.0)) && !v.NaN?
    ensures Round(v) == (0, Some(NotANumber)) <==> v.NaN?
    ensures Round(v) == (2147483647, Some(Overflow)) <==> AtMost(Finite(2147483646.5), v) && !v.NaN?
    ensures Round(v) == (-2147483648, Some(Underflow)) <==> AtMost(v, Finite(-2147483647.5)) && !v.NaN?
  {
    if v.Finite? {
      RoundThreshold(v.r, MAX);
      RoundThreshold(-v.r, -MIN);
    }
  }

  /** Unflagged truncation drops the fraction. */
  lemma TruncationIsFaithful(r: real)
    ensures FromFloat(Finite(r)).1.None? ==>
              var n := FromFloat(Finite(r)).0 as real; if r >= 0.0 then n <= r < n + 1.0 else n - 1.0 < r <= n
  {
    TruncateFacts(r);
  }

  /** Unflagged rounding is to the nearest integer, half away from zero, and odd; truncation and rounding differ by at
      most one; decimals convert as floats do. */
  lemma RoundingIsFaithful(r: real)
    ensures Round(Finite(r)).1.None? ==> Abs(Round(Finite(r)).0 as real - r) <= 0.5
    ensures Round(Finite(r)).1.None? && Abs(Round(Finite(r)).0 as real - r) == 0.5 ==> Abs(Round(Finite(r)).0 as real) > Abs(r)
    ensures Round(Finite(r)).1.None? && Round(Finite(-r)).1.None? ==> Round(Finite(-r)).0 == -Round(Finite(r)).0
    ensures -1 <= Round(Finite(r)).0 - FromFloat(Finite(r)).0 <= 1
    ensures FromDecimal(r) == Round(Finite(r))
  {
    var n := RoundHalfAway(r);
    RoundIsNearest(r);
    TruncateInteger(n);
    TruncateInteger(-n);
    TruncateFacts(r);
    RoundThreshold(r, MAX);
    RoundThreshold(-r, -MIN);
  }

  /** Rounding reaches a positive integer from half below it on. */
  lemma RoundThreshold(r: real, n: int)
    requires n > 0
    ensures RoundHalfAway(r) >= n <==> r >= n as real - 0.5
    ensures RoundHalfAway(-r) == -RoundHalfAway(r)
  {
    RoundIsNearest(r);
    var y := if r >= 0.0 then r + 0.5 else -r + 0.5;
    assert y.Floor as real <= y < y.Floor as real + 1.0;
  }

  /** A charge stays a charge and a credit stays a credit. */
  lemma SignsArePreserved(v: Float)
    requires !v.NaN?
    ensures AtMost(Finite(0.0), v) ==> FromFloat(v).0 >= 0 && Round(v).0 >= 0
    ensures AtMost(v, Finite(0.0)) ==> FromFloat(v).0 <= 0 && Round(v).0 <= 0
  {
    assert Saturate(Finite(0.0)) == (0, None) && Rounded(Finite(0.0)) == Finite(0.0) by {
      TruncateInteger(0);
      RoundIsNearest(0.0);
    }
    if AtMost(Finite(0.0), v) { ConversionsAreMonotone(Finite(0.0), v); }
    if AtMost(v, Finite(0.0)) { ConversionsAreMonotone(v, Finite(0.0)); }
  }
}
