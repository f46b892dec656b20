/** backend/agents/reflector.py: clamping, averaging and rounding the scores, over exact reals. */
module Reflector {
  import opened Options

  const QUALITY_THRESHOLD: real := 0.85

  datatype Dimension = Completeness | Accuracy | Quality | Efficiency | FormatScore | Other(name: string)

  const DIMENSIONS := [Completeness, Accuracy, Quality, Efficiency, FormatScore]

  /** The reflection dict, with float() already applied to its numbers. */
  datatype Reflection = Reflection(quality: Option<real>, dims: map<Dimension, real>, pass: Option<bool>)

  function Clamp(x: real): real {
    if x < 0.0 then 0.0 else if x > 1.0 then 1.0 else x
  }

  /** Clamping gives the number of [0, 1] that is nearest. */
  lemma ClampIsNearest(x: real, y: real)
    requires 0.0 <= y <= 1.0
    ensures 0.0 <= Clamp(x) <= 1.0
    ensures (if Clamp(x) <= x then x - Clamp(x) else Clamp(x) - x) <= if y <= x then x - y else y - x
  {
  }

  function Score(dims: map<Dimension, real>, d: Dimension): real {
    if d in dims then dims[d] else 0.0
  }

  function RoundHalfEven(y: real): int {
    var low := y.Floor;
    var rest := y - low as real;
    if rest < 0.5 || (rest == 0.5 && low % 2 == 0) then low else low + 1
  }

  /** round(x, 4) on an exact real. */
  function Round4(x: real): real {
    RoundHalfEven(x * 10000.0) as real / 10000.0
  }

  /** The mean of the five clamped dimensions. */
  function Mean(dims: map<Dimension, real>): real {
    (Clamp(Score(dims, Completeness)) + Clamp(Score(dims, Accuracy)) + Clamp(Score(dims, Quality))
     + Clamp(Score(dims, Efficiency)) + Clamp(Score(dims, FormatScore))) / 5.0
  }

  /** The five dimensions clamped, defaulting to 0; any other key is left alone. */
  function Clamped(dims: map<Dimension, real>): map<Dimension, real> {
    dims[Completeness := Clamp(Score(dims, Completeness))][Accuracy := Clamp(Score(dims, Accuracy))]
        [Quality := Clamp(Score(dims, Quality))][Efficiency := Clamp(Score(dims, Efficiency))]
        [FormatScore := Clamp(Score(dims, FormatScore))]
  }

  predicate AnyPositive(dims: map<Dimension, real>) {
    || Score(dims, Completeness) > 0.0 || Score(dims, Accuracy) > 0.0 || Score(dims, Quality) > 0.0
    || Score(dims, Efficiency) > 0.0 || Score(dims, FormatScore) > 0.0
  }

  function FinalQuality(r: Reflection): real {
    if AnyPositive(r.dims) then Round4(Mean(r.dims)) else Clamp(if r.quality.Some? then r.quality.value else 0.0)
  }

  /** What _validate_reflection leaves in the dict. */
  function Validated(r: Reflection): Reflection {
    Reflection(Some(FinalQuality(r)),
               Clamped(r.dims),
               Some(FinalQuality(r) >= QUALITY_THRESHOLD))
  }

  /** The dict after the loop has clamped the first n dimensions. */
  ghost function ClampedFirst(dims: map<Dimension, real>, n: nat): map<Dimension, real>
    requires n <= |DIMENSIONS|
  {
    if n == 0 then dims else ClampedFirst(dims, n - 1)[DIMENSIONS[n - 1] := Clamp(Score(dims, DIMENSIONS[n - 1]))]
  }

  lemma {:induction false} ClampedFirstElsewhere(dims: map<Dimension, real>, n: nat, d: Dimension)
    requires n <= |DIMENSIONS| && d !in DIMENSIONS[..n]
    ensures Score(ClampedFirst(dims, n), d) == Score(dims, d)
  {
    if n == 0 {
    } else {
      assert DIMENSIONS[n - 1] in DIMENSIONS[..n];
      assert forall e :: e in DIMENSIONS[..n - 1] ==> e in DIMENSIONS[..n];
      ClampedFirstElsewhere(dims, n - 1, d);
    }
  }

  lemma ClampedNext(dims: map<Dimension, real>, n: nat)
    requires n < |DIMENSIONS|
    ensures Score(ClampedFirst(dims, n), DIMENSIONS[n]) == Score(dims, DIMENSIONS[n])
  {
    assert DIMENSIONS[n] !in DIMENSIONS[..n];
    ClampedFirstElsewhere(dims, n, DIMENSIONS[n]);
  }

  lemma ClampedAll(dims: map<Dimension, real>)
    ensures ClampedFirst(dims, |DIMENSIONS|) == Clamped(dims)
  {
    assert ClampedFirst(dims, 1) == dims[Completeness := Clamp(Score(dims, Completeness))];
    assert ClampedFirst(dims, 2) == ClampedFirst(dims, 1)[Accuracy := Clamp(Score(dims, Accuracy))];
    assert ClampedFirst(dims, 3) == ClampedFirst(dims, 2)[Quality := Clamp(Score(dims, Quality))];
    assert ClampedFirst(dims, 4) == ClampedFirst(dims, 3)[Efficiency := Clamp(Score(dims, Efficiency))];
    assert ClampedFirst(dims, 5) == ClampedFirst(dims, 4)[FormatScore := Clamp(Score(dims, FormatScore))];
  }

  /** The dict as _validate_reflection rewrites it in place. */
  class ReflectionRecord {
    var quality: Option<real>
    var dims: map<Dimension, real>
    var pass: Option<bool>

    function Value(): Reflection
      reads this
    {
      Reflection(quality, dims, pass)
    }

    constructor (r: Reflection)
      ensures Value() == r
    {
      quality, dims, pass := r.quality, r.dims, r.pass;
    }

    /** The clamping loop over the five dimensions. */
    method ClampDimensions()
      modifies this`dims
      ensures dims == Clamped(old(dims))
    {
      for i := 0 to |DIMENSIONS|
        invariant dims == ClampedFirst(old(dims), i)
      {
        ClampedNext(old(dims), i);
        dims := dims[DIMENSIONS[i] := Clamp(Score(dims, DIMENSIONS[i]))];
      }
      ClampedAll(old(dims));
    }

    method Validate()
      modifies this
      ensures Value() == Validated(old(Value()))
    {
      var score := if quality.Some? then quality.value else 0.0;
      quality := Some(Clamp(score));
      ghost var given := dims;
      ClampDimensions();
      ClampedScores(given);
      if dims[Completeness] > 0.0 || dims[Accuracy] > 0.0 || dims[Quality] > 0.0
         || dims[Efficiency] > 0.0 || dims[FormatScore] > 0.0 {
        var total := dims[Completeness] + dims[Accuracy] + dims[Quality] + dims[Efficiency] + dims[FormatScore];
        quality := Some(Round4(total / 5.0));
      }
      pass := Some(quality.value >= QUALITY_THRESHOLD);
    }
  }

  function Distance(y: real, n: int): real {
    if y >= n as real then y - n as real else n as real - y
  }

  /** The rounded value is a nearest integer, and the even one of two equally near. */
  lemma RoundIsNearest(y: real, n: int)
    ensures Distance(y, RoundHalfEven(y)) <= Distance(y, n)
    ensures Distance(y, RoundHalfEven(y)) == Distance(y, n) && n != RoundHalfEven(y) ==> RoundHalfEven(y) % 2 == 0
  {
    if n < y.Floor {
      assert n as real <= y.Floor as real - 1.0;
    } else if n > y.Floor + 1 {
      assert n as real >= y.Floor as real + 2.0;
    }
  }

  lemma RoundMonotone(x: real, y: real)
    requires x <= y
    ensures RoundHalfEven(x) <= RoundHalfEven(y)
  {
  }

  lemma Round4Monotone(x: real, y: real)
    requires x <= y
    ensures Round4(x) <= Round4(y)
  {
    RoundMonotone(x * 10000.0, y * 10000.0);
  }

  lemma MeanInRange(dims: map<Dimension, real>)
    ensures 0.0 <= Mean(dims) <= 1.0
  {
  }

  lemma Round4InRange(x: real)
    requires 0.0 <= x <= 1.0
    ensures 0.0 <= Round4(x) <= 1.0
  {
    Round4Monotone(0.0, x);
    Round4Monotone(x, 1.0);
  }

  /** The quality score and all five dimensions end in [0, 1], and pass means the threshold is met. */
  lemma ScoresInRange(r: Reflection)
    ensures Validated(r).quality.Some? && 0.0 <= Validated(r).quality.value <= 1.0
    ensures forall d: Dimension :: !d.Other? ==> d in Validated(r).dims && 0.0 <= Validated(r).dims[d] <= 1.0
    ensures Validated(r).pass == Some(Validated(r).quality.value >= QUALITY_THRESHOLD)
  {
    MeanInRange(r.dims);
    Round4InRange(Mean(r.dims));
  }

  lemma ClampedScores(dims: map<Dimension, real>)
    ensures Clamped(dims).Keys >= {Completeness, Accuracy, Quality, Efficiency, FormatScore}
    ensures forall d: Dimension :: !d.Other? ==> Score(Clamped(dims), d) == Clamp(Score(dims, d))
    ensures Mean(Clamped(dims)) == Mean(dims) && Clamped(Clamped(dims)) == Clamped(dims)
    ensures AnyPositive(Clamped(dims)) <==> AnyPositive(dims)
  {
  }

  /** Validating a validated reflection changes nothing. */
  lemma ValidatedIdempotent(r: Reflection)
    ensures Validated(Validated(r)) == Validated(r)
  {
    ClampedScores(r.dims);
    ScoresInRange(r);
  }

  lemma ClampMonotone(x: real, y: real)
    requires x <= y
    ensures Clamp(x) <= Clamp(y)
  {
  }

  lemma MeanMonotone(a: map<Dimension, real>, b: map<Dimension, real>)
    requires forall d: Dimension :: !d.Other? ==> Score(a, d) <= Score(b, d)
    ensures Mean(a) <= Mean(b)
  {
    forall d: Dimension | !d.Other?
      ensures Clamp(Score(a, d)) <= Clamp(Score(b, d))
    {
      ClampMonotone(Score(a, d), Score(b, d));
    }
  }

  /** Once some dimension is positive, raising dimensions never lowers the score. */
  lemma MonotoneInDimensions(r: Reflection, s: Reflection)
    requires AnyPositive(r.dims)
    requires forall d: Dimension :: !d.Other? ==> Score(r.dims, d) <= Score(s.dims, d)
    ensures Validated(r).quality.value <= Validated(s).quality.value
  {
    assert AnyPositive(s.dims);
    MeanMonotone(r.dims, s.dims);
    Round4Monotone(Mean(r.dims), Mean(s.dims));
  }

  /** With a positive dimension the gate is a threshold on the exact mean; the tie at 0.84995
      rounds to the even 0.85 and passes. */
  lemma PassIffMean(r: Reflection)
    requires AnyPositive(r.dims)
    ensures Validated(r).pass == Some(true) <==> Mean(r.dims) >= 0.84995
  {
    RoundReaches(Mean(r.dims) * 10000.0);
  }

  lemma RoundReaches(y: real)
    ensures RoundHalfEven(y) >= 8500 <==> y >= 8499.5
  {
    RoundMonotone(8499.5, if y >= 8499.5 then y else 8499.5);
    assert RoundHalfEven(8499.5) == 8500;
  }

  /** The score the model claims for itself is ignored exactly when some dimension is positive. */
  lemma ClaimIgnoredIff(r: Reflection)
    ensures (forall q :: FinalQuality(r.(quality := q)) == FinalQuality(r)) <==> AnyPositive(r.dims)
  {
    if !AnyPositive(r.dims) {
      assert FinalQuality(r.(quality := Some(0.0))) == 0.0;
      assert FinalQuality(r.(quality := Some(1.0))) == 1.0;
    }
  }
}
