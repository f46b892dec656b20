/** The loop detector over whole runs: which repeated plans it catches. */
module RepeatedPlans {
  import opened Options
  import opened Sequences
  import opened TaskPlan
  import opened LoopDetector
  import opened RunLoop
  import P = Planner

  /** The planner node asks the detector: it is below the hard cap and has a plan. */
  ghost predicate Asks(c: Config, a: Action) {
    c.node.AtPlanner? && a.Plan? && c.state.iteration < Bound(c.state) && Plans(a.reply)
  }

  ghost function PlanOf(a: Action): seq<Task>
    requires a.Plan? && Plans(a.reply)
  {
    P.ConvertAll(a.reply.raw.items)
  }

  /** The set of the session after the run of acts, if the detector alone changes it. */
  ghost function Recorded(before: set<PlanKey>, c: Config, acts: seq<Action>): set<PlanKey>
    requires IsRun(c, acts)
  {
    if acts == [] then
      before
    else
      var n := |acts| - 1;
      var recorded := Recorded(before, c, acts[..n]);
      if Asks(After(c, acts[..n]), acts[n]) then Check(recorded, PlanOf(acts[n])).1 else recorded
  }

  /** Every verdict in the run is the one a working detector gives. */
  ghost predicate Detected(before: set<PlanKey>, c: Config, acts: seq<Action>)
    requires IsRun(c, acts)
  {
    if acts == [] then
      true
    else
      var n := |acts| - 1;
      && Detected(before, c, acts[..n])
      && (Asks(After(c, acts[..n]), acts[n]) ==>
            acts[n].verdict == Check(Recorded(before, c, acts[..n]), PlanOf(acts[n])).0)
  }

  /** Step k of acts is a planner step that asks the detector about a plan with this hash. */
  ghost predicate AsksAt(c: Config, acts: seq<Action>, k: nat, key: PlanKey) {
    && k < |acts| && IsRun(c, acts[..k]) && Asks(After(c, acts[..k]), acts[k])
    && PlanHash(PlanOf(acts[k])) == Some(key)
  }

  ghost predicate Asked(c: Config, acts: seq<Action>, key: PlanKey) {
    exists k :: AsksAt(c, acts, k, key)
  }

  lemma AskedSnoc(c: Config, acts: seq<Action>, key: PlanKey)
    requires acts != []
    ensures Asked(c, acts, key) <==> Asked(c, acts[..|acts| - 1], key) || AsksAt(c, acts, |acts| - 1, key)
  {
    var n := |acts| - 1;
    if k: nat :| AsksAt(c, acts[..n], k, key) {
      AsksLonger(c, acts, k, key);
    }
    if k: nat :| AsksAt(c, acts, k, key) && k != n {
      AsksLonger(c, acts, k, key);
    }
  }

  lemma AsksLonger(c: Config, acts: seq<Action>, k: nat, key: PlanKey)
    requires k < |acts| - 1
    ensures AsksAt(c, acts, k, key) <==> AsksAt(c, acts[..|acts| - 1], k, key)
  {
    assert acts[..|acts| - 1][..k] == acts[..k];
  }

  /** The set holds what it held before and the hash of every plan asked about. */
  lemma {:induction false} RecordedIff(before: set<PlanKey>, c: Config, acts: seq<Action>, key: PlanKey)
    requires IsRun(c, acts)
    ensures key in Recorded(before, c, acts) <==> key in before || Asked(c, acts, key)
  {
    if acts == [] {
    } else {
      RecordedIff(before, c, acts[..|acts| - 1], key);
      AskedSnoc(c, acts, key);
    }
  }

  // ----- Which repeated plans end a run -----

  /** Steps j and k of acts ask the detector about one task each, and the tasks are alike. */
  ghost predicate Repeats(c: Config, acts: seq<Action>, j: nat, k: nat) {
    && j < k < |acts| && IsRun(c, acts[..j]) && IsRun(c, acts[..k])
    && Asks(After(c, acts[..j]), acts[j]) && Asks(After(c, acts[..k]), acts[k])
    && Alike(PlanOf(acts[j]), PlanOf(acts[k]))
  }

  ghost predicate Repeated(c: Config, acts: seq<Action>) {
    exists j, k :: Repeats(c, acts, j, k)
  }

  ghost predicate RepeatsEarlier(c: Config, acts: seq<Action>, k: nat) {
    exists j :: Repeats(c, acts, j, k)
  }

  ghost predicate RepeatsLast(c: Config, acts: seq<Action>) {
    acts != [] && RepeatsEarlier(c, acts, |acts| - 1)
  }

  lemma RepeatsLonger(c: Config, acts: seq<Action>, j: nat, k: nat)
    requires k < |acts| - 1
    ensures Repeats(c, acts, j, k) <==> Repeats(c, acts[..|acts| - 1], j, k)
  {
    if j < k {
      assert acts[..|acts| - 1][..k] == acts[..k] && acts[..|acts| - 1][..j] == acts[..j];
    }
  }

  lemma RepeatedSnoc(c: Config, acts: seq<Action>)
    requires acts != []
    ensures Repeated(c, acts) <==> Repeated(c, acts[..|acts| - 1]) || RepeatsLast(c, acts)
  {
    var n := |acts| - 1;
    if j: nat, k: nat :| Repeats(c, acts[..n], j, k) {
      RepeatsLonger(c, acts, j, k);
    }
    if j: nat, k: nat :| Repeats(c, acts, j, k) && k != n {
      RepeatsLonger(c, acts, j, k);
    }
  }

  /** A step that does not ask neither starts nor ends a loop. */
  lemma LoopUnchanged(c: Config, a: Action)
    requires ControlInv(c) && Enabled(c, a) && !Asks(c, a)
    ensures Next(c, a).state.disclaimer == LoopDetected <==> c.state.disclaimer == LoopDetected
  {
  }

  lemma LoopByVerdict(c: Config, a: Action)
    requires ControlInv(c) && Enabled(c, a) && Asks(c, a)
    ensures c.state.disclaimer != LoopDetected
    ensures Next(c, a).state.disclaimer == LoopDetected <==> a.verdict == SeenBefore
  {
  }

  /** For a run that started with an empty set, an asked plan is recorded exactly if it repeats. */
  lemma RecordedMeansRepeat(c: Config, acts: seq<Action>)
    requires IsRun(c, acts) && acts != [] && Asks(After(c, acts[..|acts| - 1]), acts[|acts| - 1])
    ensures RepeatsLast(c, acts) <==>
              PlanHash(PlanOf(acts[|acts| - 1])).Some?
              && Asked(c, acts[..|acts| - 1], PlanHash(PlanOf(acts[|acts| - 1])).value)
  {
    var n := |acts| - 1;
    var plan := PlanOf(acts[n]);
    if j: nat :| Repeats(c, acts, j, n) {
      RepeatsAsks(c, acts, j);
    }
    if PlanHash(plan).Some? && Asked(c, acts[..n], PlanHash(plan).value) {
      var j: nat :| AsksAt(c, acts[..n], j, PlanHash(plan).value);
      RepeatsAsks(c, acts, j);
    }
  }

  lemma RepeatsAsks(c: Config, acts: seq<Action>, j: nat)
    requires IsRun(c, acts) && j < |acts| - 1 && Asks(After(c, acts[..|acts| - 1]), acts[|acts| - 1])
    ensures var n, plan := |acts| - 1, PlanOf(acts[|acts| - 1]);
            Repeats(c, acts, j, n) <==> PlanHash(plan).Some? && AsksAt(c, acts[..n], j, PlanHash(plan).value)
  {
    var n := |acts| - 1;
    assert acts[..n][..j] == acts[..j];
    if IsRun(c, acts[..j]) && Asks(After(c, acts[..j]), acts[j]) {
      SameHashIff(PlanOf(acts[j]), PlanOf(acts[n]));
    }
  }

  /** With a working detector and a set that is empty at the start, a run is marked loop_detected
      exactly when it has planned a single task twice, tool hints aside. A repeated plan of two or
      more tasks is never caught. */
  lemma {:induction false} LoopDetectedIff(maxIterations: int, acts: seq<Action>)
    requires IsRun(Initial(maxIterations), acts) && Bound(InitialState(maxIterations)) > 0
    requires Detected({}, Initial(maxIterations), acts)
    ensures After(Initial(maxIterations), acts).state.disclaimer == LoopDetected <==> Repeated(Initial(maxIterations), acts)
  {
    var c := Initial(maxIterations);
    if acts == [] {
    } else {
      var n := |acts| - 1;
      LoopDetectedIff(maxIterations, acts[..n]);
      ControlHolds(maxIterations, acts[..n]);
      RepeatedSnoc(c, acts);
      if Asks(After(c, acts[..n]), acts[n]) {
        LoopByVerdict(After(c, acts[..n]), acts[n]);
        RecordedMeansRepeat(c, acts);
        VerdictMeansAsked(c, acts);
      } else {
        LoopUnchanged(After(c, acts[..n]), acts[n]);
      }
    }
  }

  lemma VerdictMeansAsked(c: Config, acts: seq<Action>)
    requires IsRun(c, acts) && acts != [] && Detected({}, c, acts)
    requires Asks(After(c, acts[..|acts| - 1]), acts[|acts| - 1])
    ensures acts[|acts| - 1].verdict == SeenBefore <==>
              PlanHash(PlanOf(acts[|acts| - 1])).Some?
              && Asked(c, acts[..|acts| - 1], PlanHash(PlanOf(acts[|acts| - 1])).value)
  {
    var n := |acts| - 1;
    if PlanHash(PlanOf(acts[n])).Some? {
      RecordedIff({}, c, acts[..n], PlanHash(PlanOf(acts[n])).value);
    }
  }

  lemma IterationKept(c: Config, a: Action)
    requires Enabled(c, a)
    ensures Next(c, a).state.iteration == c.state.iteration + if a.Plan? then 1 else 0
  {
  }

  lemma {:induction false} IterationStarted(maxIterations: int, acts: seq<Action>)
    requires IsRun(Initial(maxIterations), acts)
    ensures After(Initial(maxIterations), acts).state.iteration >= if acts == [] then 0 else 1
  {
    if acts == [] {
    } else {
      var n := |acts| - 1;
      IterationStarted(maxIterations, acts[..n]);
      IterationKept(After(Initial(maxIterations), acts[..n]), acts[n]);
    }
  }

  /** Such a run is never marked loop_detected in its first iteration. */
  lemma {:induction false} FirstPlanIsNew(maxIterations: int, acts: seq<Action>)
    requires IsRun(Initial(maxIterations), acts) && Bound(InitialState(maxIterations)) > 0
    requires Detected({}, Initial(maxIterations), acts)
    requires After(Initial(maxIterations), acts).state.disclaimer == LoopDetected
    ensures After(Initial(maxIterations), acts).state.iteration >= 2
  {
    if acts == [] {
    } else {
      var n := |acts| - 1;
      var c := After(Initial(maxIterations), acts[..n]);
      ControlHolds(maxIterations, acts[..n]);
      IterationKept(c, acts[n]);
      IterationStarted(maxIterations, acts[..n]);
      if Asks(c, acts[n]) {
        LoopByVerdict(c, acts[n]);
      } else {
        LoopUnchanged(c, acts[n]);
        FirstPlanIsNew(maxIterations, acts[..n]);
      }
    }
  }
}
