/** The gate of the loop in terms of the scores the reflector is given. */
module QualityGates {
  import opened Options
  import opened RunLoop
  import opened Reflector

  /** v is x brought into [0, 1]. */
  predicate Brought(x: real, v: real) {
    0.0 <= v <= 1.0 && (x <= 0.0 ==> v == 0.0) && (x >= 1.0 ==> v == 1.0) && (0.0 <= x <= 1.0 ==> v == x)
  }

  /** The score given for a dimension, zero if there is none. */
  function Given(dims: map<Dimension, real>, d: Dimension): real {
    if d in dims then dims[d] else 0.0
  }

  predicate SomePositive(dims: map<Dimension, real>) {
    || Given(dims, Completeness) > 0.0 || Given(dims, Accuracy) > 0.0 || Given(dims, Quality) > 0.0
    || Given(dims, Efficiency) > 0.0 || Given(dims, FormatScore) > 0.0
  }

  /** v1 to v5 are the five scores given, each brought into [0, 1]. */
  predicate FiveScores(dims: map<Dimension, real>, v1: real, v2: real, v3: real, v4: real, v5: real) {
    && Brought(Given(dims, Completeness), v1) && Brought(Given(dims, Accuracy), v2) && Brought(Given(dims, Quality), v3)
    && Brought(Given(dims, Efficiency), v4) && Brought(Given(dims, FormatScore), v5)
  }

  /** The reflection clears the gate: with a positive score, the five scores add up to at least
      5 * 0.84995; otherwise the claimed score, brought into [0, 1], is at least 0.85. */
  ghost predicate Clears(r: Reflection) {
    if SomePositive(r.dims) then
      exists v1, v2, v3, v4, v5 :: FiveScores(r.dims, v1, v2, v3, v4, v5) && v1 + v2 + v3 + v4 + v5 >= 4.24975
    else
      r.quality.Some? && r.quality.value >= 0.85
  }

  lemma FiveScoresAre(dims: map<Dimension, real>, v1: real, v2: real, v3: real, v4: real, v5: real)
    requires FiveScores(dims, v1, v2, v3, v4, v5)
    ensures Mean(dims) == (v1 + v2 + v3 + v4 + v5) / 5.0
  {
  }

  /** The validated score reaches the threshold exactly when the reflection clears the gate. */
  lemma ClearsIff(r: Reflection)
    ensures Validated(r).quality.value >= 0.85 <==> Clears(r)
  {
    if AnyPositive(r.dims) {
      PassIffMean(r);
      var v1, v2, v3 := Clamp(Given(r.dims, Completeness)), Clamp(Given(r.dims, Accuracy)), Clamp(Given(r.dims, Quality));
      var v4, v5 := Clamp(Given(r.dims, Efficiency)), Clamp(Given(r.dims, FormatScore));
      assert FiveScores(r.dims, v1, v2, v3, v4, v5);
      FiveScoresAre(r.dims, v1, v2, v3, v4, v5);
      if w1, w2, w3, w4, w5 :| FiveScores(r.dims, w1, w2, w3, w4, w5) && w1 + w2 + w3 + w4 + w5 >= 4.24975 {
        FiveScoresAre(r.dims, w1, w2, w3, w4, w5);
      }
    }
  }

  /** q is k ten-thousandths, and no further than half of one from a fifth of sum. */
  predicate IsRounded(q: real, sum: real, k: int) {
    k as real == q * 10000.0 && -0.5 <= k as real - sum * 2000.0 <= 0.5
  }

  ghost predicate IsRoundedMean(q: real, sum: real) {
    exists k :: IsRounded(q, sum, k)
  }

  /** The score is the nearest multiple of 0.0001 to the exact mean of the five scores, if one is
      positive, and otherwise the claimed score, zero if there is none, brought into [0, 1]. */
  lemma ScoreIs(r: Reflection, v1: real, v2: real, v3: real, v4: real, v5: real)
    requires FiveScores(r.dims, v1, v2, v3, v4, v5)
    ensures var q := Validated(r).quality.value;
            if SomePositive(r.dims) then
              IsRoundedMean(q, v1 + v2 + v3 + v4 + v5)
            else Brought(if r.quality.Some? then r.quality.value else 0.0, q)
  {
    FiveScoresAre(r.dims, v1, v2, v3, v4, v5);
    if SomePositive(r.dims) {
      var y := (v1 + v2 + v3 + v4 + v5) * 2000.0;
      assert Mean(r.dims) * 10000.0 == y;
      NearestWithinHalf(y);
      assert Validated(r).quality.value * 10000.0 == RoundHalfEven(y) as real;
      assert IsRounded(Validated(r).quality.value, v1 + v2 + v3 + v4 + v5, RoundHalfEven(y));
    }
  }

  lemma NearestWithinHalf(y: real)
    ensures -0.5 <= RoundHalfEven(y) as real - y <= 0.5
  {
  }

  /** After the reflector the run goes to the output node if the reflection clears the gate or the
      iteration is the last, and to the planner otherwise. */
  lemma ReflectStepRoutes(c: Config, a: Action)
    requires Enabled(c, a) && a.Reflect?
    ensures Next(c, a).node == if Clears(a.raw) || c.state.iteration >= Bound(c.state) then AtOutput else AtPlanner
  {
    ClearsIff(a.raw);
  }

  /** The last reflection in acts, if there is one, clears the gate. */
  ghost predicate LastClears(acts: seq<Action>) {
    if acts == [] then false
    else if acts[|acts| - 1].Reflect? then Clears(acts[|acts| - 1].raw)
    else LastClears(acts[..|acts| - 1])
  }

  lemma ScoreStep(c: Config, a: Action)
    requires Enabled(c, a)
    ensures Next(c, a).state.quality >= 0.85 <==> if a.Reflect? then Clears(a.raw) else c.state.quality >= 0.85
  {
    if a.Reflect? {
      ClearsIff(a.raw);
    }
  }

  /** The score in the state reaches the threshold exactly when the last reflection cleared the gate. */
  lemma {:induction false} ScoreIsLast(maxIterations: int, acts: seq<Action>)
    requires IsRun(Initial(maxIterations), acts)
    ensures After(Initial(maxIterations), acts).state.quality >= 0.85 <==> LastClears(acts)
  {
    if acts == [] {
    } else {
      var n := |acts| - 1;
      ScoreIsLast(maxIterations, acts[..n]);
      ScoreStep(After(Initial(maxIterations), acts[..n]), acts[n]);
    }
  }

  /** A run that reaches END carries no disclaimer exactly when its last reflection cleared the gate;
      and otherwise it was stopped by a repeated plan or by the iteration limit. */
  lemma {:induction false} EndsClearIff(maxIterations: int, acts: seq<Action>)
    requires IsRun(Initial(maxIterations), acts) && Bound(InitialState(maxIterations)) > 0
    requires After(Initial(maxIterations), acts).node == AtEnd
    ensures var s := After(Initial(maxIterations), acts).state;
            && (s.disclaimer == NoDisclaimer <==> LastClears(acts))
            && (s.disclaimer == MaxIterationsReached ==> s.iteration == Bound(s))
  {
    QualityGate(maxIterations, acts);
    ScoreIsLast(maxIterations, acts);
  }
}
