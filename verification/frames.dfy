/** backend/api/ws/run.py: the translation of graph events into WebSocket frames. */
module Frames {
  import opened RunLoop
  import F = Reflector

  datatype Agent = Planner | Researcher | Executor | Verifier | Reflector

  /** The graph's event stream: starts and ends of the agent nodes, the end of the output node,
      and everything else the engine reports. */
  datatype Event = Start(agent: Agent) | Complete(agent: Agent, quality: real) | OutputComplete | Foreign

  datatype Frame =
    | AgentStart(agent: Agent, iteration: nat)
    | AgentComplete(agent: Agent)
    | QualityScore(score: real, iteration: nat)
    | Replan(iteration: nat)
    | DoneFrame
    | ErrorFrame

  /** How the event stream ends: normally, or with an exception. */
  datatype Ending = Exhausted | Raised

  /** The frames sent for one event, when iteration is the planner starts so far, this event included. */
  function FramesFor(e: Event, iteration: nat): seq<Frame> {
    match e
    case Start(a) => [AgentStart(a, iteration)]
    case Complete(a, quality) =>
      (if a.Reflector? then [QualityScore(quality, iteration)]
       else if a.Planner? && iteration > 1 then [Replan(iteration)]
       else []) + [AgentComplete(a)]
    case OutputComplete => []
    case Foreign => []
  }

  function PlannerStarts(events: seq<Event>): nat {
    if events == [] then 0
    else PlannerStarts(events[..|events| - 1]) + if events[|events| - 1] == Start(Planner) then 1 else 0
  }

  /** The frames of a whole event stream, before the closing one. */
  function FramesOf(events: seq<Event>): seq<Frame> {
    if events == [] then [] else FramesOf(events[..|events| - 1]) + FramesFor(events[|events| - 1], PlannerStarts(events))
  }

  /** _run_graph, with every send and database write succeeding. */
  method RunGraph(events: seq<Event>, ending: Ending) returns (sent: seq<Frame>)
    ensures sent == FramesOf(events) + [if ending.Raised? then ErrorFrame else DoneFrame]
  {
    var currentIteration := 0;
    sent := [];
    for i := 0 to |events|
      invariant currentIteration == PlannerStarts(events[..i])
      invariant sent == FramesOf(events[..i])
    {
      var e := events[i];
      assert events[..i + 1][..i] == events[..i];
      if e.Start? {
        if e.agent == Planner {
          currentIteration := currentIteration + 1;
        }
        sent := sent + [AgentStart(e.agent, currentIteration)];
      } else if e.Complete? {
        if e.agent == Reflector {
          sent := sent + [QualityScore(e.quality, currentIteration)];
        } else if e.agent == Planner && currentIteration > 1 {
          sent := sent + [Replan(currentIteration)];
        }
        sent := sent + [AgentComplete(e.agent)];
      }
    }
    assert events[..|events|] == events;
    if ending.Raised? {
      sent := sent + [ErrorFrame];
      return;
    }
    sent := sent + [DoneFrame];
  }

  // ----- The events of a run -----

  function AgentAt(n: Node): Agent
    requires n.AtPlanner? || Running(n)
  {
    match n
    case AtPlanner => Planner
    case AtResearcher => Researcher
    case AtExecutor => Executor
    case AtVerifier => Verifier
    case AtReflector => Reflector
  }

  /** What one step of the loop reports: a start, and an end unless the node raised. */
  ghost function StepEvents(c: Config, a: Action): seq<Event>
    requires Enabled(c, a)
  {
    if c.node.AtOutput? then [OutputComplete]
    else [Start(AgentAt(c.node))] + if Raises(a) then [] else [Complete(AgentAt(c.node), Next(c, a).state.quality)]
  }

  ghost function RunEvents(c: Config, acts: seq<Action>): seq<Event>
    requires IsRun(c, acts)
  {
    if acts == [] then
      []
    else
      var n := |acts| - 1;
      RunEvents(c, acts[..n]) + StepEvents(After(c, acts[..n]), acts[n])
  }

  /** The events the translator reacts to. */
  function Relevant(events: seq<Event>): seq<Event> {
    if events == [] then []
    else Relevant(events[..|events| - 1]) + if events[|events| - 1].Foreign? then [] else [events[|events| - 1]]
  }

  lemma FramesSnoc(events: seq<Event>, e: Event)
    ensures PlannerStarts(events + [e]) == PlannerStarts(events) + if e == Start(Planner) then 1 else 0
    ensures FramesOf(events + [e]) == FramesOf(events) + FramesFor(e, PlannerStarts(events + [e]))
  {
    assert (events + [e])[..|events|] == events;
  }

  /** Other engine events, wherever they fall, change nothing on the wire. */
  lemma {:induction false} ForeignEventsIgnored(events: seq<Event>)
    ensures FramesOf(events) == FramesOf(Relevant(events)) && PlannerStarts(events) == PlannerStarts(Relevant(events))
  {
    if events == [] {
    } else {
      var n := |events| - 1;
      ForeignEventsIgnored(events[..n]);
      assert events == events[..n] + [events[n]];
      SameFramesSnoc(events[..n], Relevant(events[..n]), events[n]);
    }
  }

  lemma SameFramesSnoc(a: seq<Event>, b: seq<Event>, e: Event)
    requires FramesOf(a) == FramesOf(b) && PlannerStarts(a) == PlannerStarts(b)
    ensures var kept := b + if e.Foreign? then [] else [e];
            FramesOf(a + [e]) == FramesOf(kept) && PlannerStarts(a + [e]) == PlannerStarts(kept)
  {
    FramesSnoc(a, e);
    if e.Foreign? {
      assert b + [] == b;
    } else {
      FramesSnoc(b, e);
    }
  }

  // ----- The grammar -----

  /** The states of an automaton for well-formed frame sequences. Between(a, i, _): agent a has
      completed in iteration i. Within(a, i): agent a has started. Announced(a, i, _): the extra frame
      of the reflector or of a replanning planner has been sent. The score is the reflector's. */
  datatype Phase =
    | Ready
    | Between(last: Agent, iteration: nat, score: real)
    | Within(agent: Agent, iteration: nat)
    | Announced(agent: Agent, iteration: nat, score: real)
    | Closed
    | Rejected

  function Follows(a: Agent): Agent {
    match a
    case Planner => Researcher
    case Researcher => Executor
    case Executor => Verifier
    case Verifier => Reflector
    case Reflector => Planner
  }

  /** The quality gate, as a reader of the frames can apply it. */
  predicate GateOpen(bound: int, i: nat, score: real) {
    score >= F.QUALITY_THRESHOLD || i >= bound
  }

  function Advance(bound: int, p: Phase, f: Frame): Phase {
    match p
    case Ready => if f == AgentStart(Planner, 1) then Within(Planner, 1) else Rejected
    case Between(Reflector, i, score) =>
      if GateOpen(bound, i, score) then (if f.DoneFrame? then Closed else Rejected)
      else if f == AgentStart(Planner, i + 1) then Within(Planner, i + 1) else Rejected
    case Between(last, i, _) =>
      if f == AgentStart(Follows(last), i) then Within(Follows(last), i)
      else if f.DoneFrame? && last.Planner? then Closed
      else Rejected
    case Within(a, i) =>
      var extra := a.Reflector? || (a.Planner? && i > 1);
      if a.Reflector? && f.QualityScore? && f.iteration == i && 0.0 <= f.score <= 1.0 then Announced(a, i, f.score)
      else if a.Planner? && i > 1 && f == Replan(i) then Announced(a, i, 0.0)
      else if !extra && f == AgentComplete(a) then Between(a, i, 0.0)
      else if !a.Planner? && f.ErrorFrame? then Closed
      else Rejected
    case Announced(a, i, score) => if f == AgentComplete(a) then Between(a, i, score) else Rejected
    case Closed => Rejected
    case Rejected => Rejected
  }

  function Parse(bound: int, frames: seq<Frame>): Phase {
    if frames == [] then Ready else Advance(bound, Parse(bound, frames[..|frames| - 1]), frames[|frames| - 1])
  }

  lemma ParseSnoc(bound: int, frames: seq<Frame>, f: Frame)
    ensures Parse(bound, frames + [f]) == Advance(bound, Parse(bound, frames), f)
  {
    assert (frames + [f])[..|frames|] == frames;
  }

  /** Where the automaton stands when the loop is at configuration c. */
  ghost predicate Matches(p: Phase, c: Config, starts: nat) {
    && c.state.iteration >= 0
    && (c.node != Crashed ==> starts == c.state.iteration)
    && match c.node
       case AtPlanner => p == if c.state.iteration == 0 then Ready else Between(Reflector, starts, c.state.quality)
       case AtResearcher => p == Between(Planner, starts, 0.0)
       case AtExecutor => p == Between(Researcher, starts, 0.0)
       case AtVerifier => p == Between(Executor, starts, 0.0)
       case AtReflector => p == Between(Verifier, starts, 0.0)
       case AtOutput => p == if c.state.disclaimer == NoDisclaimer then Between(Reflector, starts, c.state.quality)
                             else Between(Planner, starts, 0.0)
       case AtEnd =>
         if c.state.disclaimer == LoopDetected then p == Between(Planner, starts, 0.0)
         else p == Between(Reflector, starts, c.state.quality) && GateOpen(Bound(c.state), starts, c.state.quality)
       case Crashed => p.Within? && !p.agent.Planner? && p.iteration == starts
  }

  /** Starting the current node's agent is what the automaton expects. */
  lemma StartAccepted(p: Phase, c: Config, starts: nat)
    requires Matches(p, c, starts) && ControlInv(c) && (c.node.AtPlanner? || Running(c.node))
    ensures var i := starts + if c.node.AtPlanner? then 1 else 0;
            Advance(Bound(c.state), p, AgentStart(AgentAt(c.node), i)) == Within(AgentAt(c.node), i)
  {
  }

  /** The score the automaton remembers after an agent returns. */
  function Remembered(agent: Agent, quality: real): real {
    if agent.Reflector? then quality else 0.0
  }

  /** After the node returns or raises, the automaton is where the next configuration says. */
  lemma EndMatches(c: Config, a: Action, i: nat)
    requires Enabled(c, a) && ControlInv(c) && !c.node.AtOutput?
    requires c.node != Crashed && i == c.state.iteration + if c.node.AtPlanner? then 1 else 0
    ensures var agent := AgentAt(c.node);
            Matches(if Raises(a) then Within(agent, i) else Between(agent, i, Remembered(agent, Next(c, a).state.quality)),
                    Next(c, a), i)
  {
  }

  /** The start of the current node's agent, seen from the event stream. */
  lemma AgentStarts(c: Config, events: seq<Event>)
    requires ControlInv(c) && (c.node.AtPlanner? || Running(c.node))
    requires Matches(Parse(Bound(c.state), FramesOf(events)), c, PlannerStarts(events))
    ensures var begun := events + [Start(AgentAt(c.node))];
            && PlannerStarts(begun) == c.state.iteration + (if c.node.AtPlanner? then 1 else 0)
            && Parse(Bound(c.state), FramesOf(begun)) == Within(AgentAt(c.node), PlannerStarts(begun))
  {
    StartAccepted(Parse(Bound(c.state), FramesOf(events)), c, PlannerStarts(events));
    StartMatches(Bound(c.state), events, AgentAt(c.node));
  }

  lemma AgentReturns(c: Config, a: Action, events: seq<Event>)
    requires Enabled(c, a) && ControlInv(c) && !c.node.AtOutput? && !Raises(a)
    requires Matches(Parse(Bound(c.state), FramesOf(events)), c, PlannerStarts(events))
    ensures Matches(Parse(Bound(c.state), FramesOf(events + StepEvents(c, a))), Next(c, a),
                    PlannerStarts(events + StepEvents(c, a)))
  {
    var agent, quality := AgentAt(c.node), Next(c, a).state.quality;
    var begun := events + [Start(agent)];
    AgentStarts(c, events);
    EndMatches(c, a, PlannerStarts(begun));
    if a.Reflect? {
      F.ScoresInRange(a.raw);
    }
    CompleteMatches(Bound(c.state), begun, agent, quality);
    assert events + StepEvents(c, a) == begun + [Complete(agent, quality)];
  }

  lemma StepMatches(c: Config, a: Action, events: seq<Event>)
    requires Enabled(c, a) && ControlInv(c)
    requires Matches(Parse(Bound(c.state), FramesOf(events)), c, PlannerStarts(events))
    ensures Matches(Parse(Bound(c.state), FramesOf(events + StepEvents(c, a))), Next(c, a),
                    PlannerStarts(events + StepEvents(c, a)))
    ensures Bound(Next(c, a).state) == Bound(c.state)
  {
    if c.node.AtOutput? {
      FramesSnoc(events, OutputComplete);
      assert FramesOf(events) + [] == FramesOf(events);
    } else if Raises(a) {
      AgentStarts(c, events);
      EndMatches(c, a, PlannerStarts(events + StepEvents(c, a)));
    } else {
      AgentReturns(c, a, events);
    }
  }

  lemma StartMatches(bound: int, events: seq<Event>, agent: Agent)
    ensures var e := events + [Start(agent)];
            && PlannerStarts(e) == PlannerStarts(events) + (if agent.Planner? then 1 else 0)
            && Parse(bound, FramesOf(e))
               == Advance(bound, Parse(bound, FramesOf(events)), AgentStart(agent, PlannerStarts(e)))
  {
    FramesSnoc(events, Start(agent));
    ParseSnoc(bound, FramesOf(events), AgentStart(agent, PlannerStarts(events + [Start(agent)])));
  }

  lemma CompletionAccepted(bound: int, sent: seq<Frame>, agent: Agent, quality: real, i: nat)
    requires Parse(bound, sent) == Within(agent, i) && (agent.Reflector? ==> 0.0 <= quality <= 1.0)
    ensures Parse(bound, sent + FramesFor(Complete(agent, quality), i)) == Between(agent, i, Remembered(agent, quality))
  {
    var f := FramesFor(Complete(agent, quality), i);
    if |f| == 1 {
      ParseSnoc(bound, sent, f[0]);
    } else {
      ParseSnoc(bound, sent, f[0]);
      ParseSnoc(bound, sent + [f[0]], f[1]);
      assert sent + f == sent + [f[0]] + [f[1]];
    }
  }

  lemma {:induction false} CompleteMatches(bound: int, events: seq<Event>, agent: Agent, quality: real)
    requires Parse(bound, FramesOf(events)) == Within(agent, PlannerStarts(events))
    requires agent.Reflector? ==> 0.0 <= quality <= 1.0
    ensures PlannerStarts(events + [Complete(agent, quality)]) == PlannerStarts(events)
    ensures Parse(bound, FramesOf(events + [Complete(agent, quality)]))
            == Between(agent, PlannerStarts(events), Remembered(agent, quality))
  {
    FramesSnoc(events, Complete(agent, quality));
    CompletionAccepted(bound, FramesOf(events), agent, quality, PlannerStarts(events));
  }

  lemma {:induction false} RunMatches(maxIterations: int, acts: seq<Action>)
    requires IsRun(Initial(maxIterations), acts) && Bound(InitialState(maxIterations)) > 0
    ensures var events, c := RunEvents(Initial(maxIterations), acts), After(Initial(maxIterations), acts);
            && Bound(c.state) == Bound(InitialState(maxIterations))
            && Matches(Parse(Bound(c.state), FramesOf(events)), c, PlannerStarts(events))
  {
    if acts == [] {
    } else {
      var n := |acts| - 1;
      RunMatches(maxIterations, acts[..n]);
      ControlHolds(maxIterations, acts[..n]);
      StepMatches(After(Initial(maxIterations), acts[..n]), acts[n], RunEvents(Initial(maxIterations), acts[..n]));
    }
  }

  lemma LastFrameCloses(p: Phase, c: Config, starts: nat, ending: Ending)
    requires Matches(p, c, starts) && c.node == if ending.Raised? then Crashed else AtEnd
    ensures Advance(Bound(c.state), p, if ending.Raised? then ErrorFrame else DoneFrame) == Closed
  {
  }

  /** The frames _run_graph sends for a run. */
  ghost function Sent(events: seq<Event>, ending: Ending): seq<Frame> {
    FramesOf(events) + [if ending.Raised? then ErrorFrame else DoneFrame]
  }

  /** Every run that ends, whatever else the engine reports on the way, sends frames of the grammar. */
  lemma {:induction false} FramesFollowGrammar(maxIterations: int, acts: seq<Action>, events: seq<Event>, ending: Ending)
    requires IsRun(Initial(maxIterations), acts) && Bound(InitialState(maxIterations)) > 0
    requires Relevant(events) == RunEvents(Initial(maxIterations), acts)
    requires After(Initial(maxIterations), acts).node == if ending.Raised? then Crashed else AtEnd
    ensures Parse(Bound(InitialState(maxIterations)), Sent(events, ending)) == Closed
  {
    var bound := Bound(InitialState(maxIterations));
    ForeignEventsIgnored(events);
    RunMatches(maxIterations, acts);
    LastFrameCloses(Parse(bound, FramesOf(events)), After(Initial(maxIterations), acts), PlannerStarts(events), ending);
    ParseSnoc(bound, FramesOf(events), if ending.Raised? then ErrorFrame else DoneFrame);
  }

  // ----- What the grammar means -----

  ghost predicate Terminal(f: Frame) {
    f.DoneFrame? || f.ErrorFrame?
  }

  function CountStarts(frames: seq<Frame>, a: Agent): nat {
    if frames == [] then 0
    else CountStarts(frames[..|frames| - 1], a)
         + if frames[|frames| - 1].AgentStart? && frames[|frames| - 1].agent == a then 1 else 0
  }

  function CountCompletes(frames: seq<Frame>, a: Agent): nat {
    if frames == [] then 0
    else CountCompletes(frames[..|frames| - 1], a) + if frames[|frames| - 1] == AgentComplete(a) then 1 else 0
  }

  function CountReplans(frames: seq<Frame>): nat {
    if frames == [] then 0 else CountReplans(frames[..|frames| - 1]) + if frames[|frames| - 1].Replan? then 1 else 0
  }

  function CountScores(frames: seq<Frame>): nat {
    if frames == [] then 0 else CountScores(frames[..|frames| - 1]) + if frames[|frames| - 1].QualityScore? then 1 else 0
  }

  /** The numbers a parsed prefix fixes. */
  ghost predicate Tally(frames: seq<Frame>, p: Phase) {
    var starts, completes, replans := CountStarts(frames, Planner), CountCompletes(frames, Planner), CountReplans(frames);
    var scored := CountScores(frames) - CountCompletes(frames, Reflector);
    match p
    case Ready => starts == 0 && completes == 0 && replans == 0 && scored == 0
    case Between(_, i, _) => starts == i > 0 && completes == i && replans == i - 1 && scored == 0
    case Within(a, i) =>
      && starts == i > 0 && scored == 0
      && (if a.Planner? then completes == i - 1 && replans == (if i > 1 then i - 2 else 0)
          else completes == i && replans == i - 1)
    case Announced(a, i, _) =>
      && starts == i > 0 && replans == i - 1
      && (if a.Planner? then completes == i - 1 && i > 1 && scored == 0 else completes == i && scored == 1)
    case Closed => completes > 0 && replans == completes - 1 && scored == 0
    case Rejected => true
  }

  lemma {:induction false} ParsedTally(bound: int, frames: seq<Frame>)
    ensures Tally(frames, Parse(bound, frames))
  {
    if frames == [] {
    } else {
      ParsedTally(bound, frames[..|frames| - 1]);
    }
  }

  /** In a grammatical sequence replans number one less than planner completions, and there is one
      quality score for each completion of the reflector. */
  lemma ReplansAndScores(bound: int, frames: seq<Frame>)
    requires Parse(bound, frames) == Closed
    ensures CountReplans(frames) == CountCompletes(frames, Planner) - 1
    ensures CountScores(frames) == CountCompletes(frames, Reflector)
  {
    ParsedTally(bound, frames);
  }

  /** A prefix of a grammatical sequence is never rejected, and only the whole is closed. */
  lemma {:induction false} PrefixOpen(bound: int, frames: seq<Frame>, k: nat)
    requires Parse(bound, frames) != Rejected && k < |frames|
    ensures Parse(bound, frames[..k]) != Rejected && Parse(bound, frames[..k]) != Closed
  {
    var n := |frames| - 1;
    if k == n {
    } else {
      PrefixOpen(bound, frames[..n], k);
      assert frames[..n][..k] == frames[..k];
    }
  }

  /** Exactly one terminal frame, and it comes last. */
  lemma OneTerminalFrame(bound: int, frames: seq<Frame>, k: nat)
    requires Parse(bound, frames) == Closed && k < |frames|
    ensures Terminal(frames[k]) <==> k == |frames| - 1
  {
    Around(bound, frames, k);
  }

  lemma ParseStep(bound: int, frames: seq<Frame>, k: nat)
    requires k < |frames|
    ensures Parse(bound, frames[..k + 1]) == Advance(bound, Parse(bound, frames[..k]), frames[k])
  {
    assert frames[..k + 1] == frames[..k] + [frames[k]];
    ParseSnoc(bound, frames[..k], frames[k]);
  }

  /** The phases before and after a frame of a grammatical sequence. */
  lemma {:induction false} Around(bound: int, frames: seq<Frame>, k: nat)
    requires Parse(bound, frames) == Closed && k < |frames|
    ensures Parse(bound, frames[..k + 1]) == Advance(bound, Parse(bound, frames[..k]), frames[k])
    ensures Parse(bound, frames[..k + 1]) != Rejected
    ensures k + 1 < |frames| <==> Parse(bound, frames[..k + 1]) != Closed
  {
    ParseStep(bound, frames, k);
    if k + 1 < |frames| {
      PrefixOpen(bound, frames, k + 1);
    } else {
      assert frames[..k + 1] == frames;
    }
  }

  /** The frames that carry an iteration number. */
  predicate Numbered(f: Frame) {
    f.AgentStart? || f.QualityScore? || f.Replan?
  }

  /** A start, a score and a replan carry the number of planner starts so far, a start's own included. */
  lemma IterationIsPlannerStarts(bound: int, frames: seq<Frame>, k: nat)
    requires Parse(bound, frames) == Closed && k < |frames| && Numbered(frames[k])
    ensures frames[k].iteration == CountStarts(frames[..k + 1], Planner)
  {
    Around(bound, frames, k);
    ParsedTally(bound, frames[..k + 1]);
  }

  /** After a start comes either the error that ends the stream, the completion of the same agent,
      or one announcement for this iteration and then that completion. */
  lemma StartIsAnswered(bound: int, frames: seq<Frame>, k: nat)
    requires Parse(bound, frames) == Closed && k < |frames| && frames[k].AgentStart?
    ensures k + 1 < |frames|
    ensures var a, i := frames[k].agent, frames[k].iteration;
            || (frames[k + 1] == ErrorFrame && !a.Planner?)
            || (frames[k + 1] == AgentComplete(a) && !a.Reflector? && !(a.Planner? && i > 1))
            || (k + 2 < |frames| && frames[k + 2] == AgentComplete(a)
                && if a.Reflector? then frames[k + 1].QualityScore? && frames[k + 1].iteration == i
                   else a.Planner? && i > 1 && frames[k + 1] == Replan(i))
  {
    Around(bound, frames, k);
    Around(bound, frames, k + 1);
    if Parse(bound, frames[..k + 2]).Announced? {
      Around(bound, frames, k + 2);
    }
  }

  /** After a completion comes the end or the start of the agent next in the cycle. */
  lemma CompletionIsFollowed(bound: int, frames: seq<Frame>, k: nat)
    requires Parse(bound, frames) == Closed && k < |frames| && frames[k].AgentComplete?
    ensures k + 1 < |frames|
    ensures frames[k + 1] == DoneFrame || (frames[k + 1].AgentStart? && frames[k + 1].agent == Follows(frames[k].agent))
  {
    Around(bound, frames, k);
    Around(bound, frames, k + 1);
  }

  lemma {:induction false} StartsGrow(frames: seq<Frame>, j: nat, k: nat, a: Agent)
    requires j <= k <= |frames|
    ensures CountStarts(frames[..j], a) <= CountStarts(frames[..k], a)
    decreases k - j
  {
    if j == k {
    } else {
      StartsGrow(frames, j, k - 1, a);
      assert frames[..k][..k - 1] == frames[..k - 1];
    }
  }

  /** The iteration numbers on the frames never go down. */
  lemma IterationsNeverDecrease(bound: int, frames: seq<Frame>, j: nat, k: nat)
    requires Parse(bound, frames) == Closed && j < k < |frames| && Numbered(frames[j]) && Numbered(frames[k])
    ensures frames[j].iteration <= frames[k].iteration
  {
    IterationIsPlannerStarts(bound, frames, j);
    IterationIsPlannerStarts(bound, frames, k);
    StartsGrow(frames, j + 1, k + 1, Planner);
  }

  ghost predicate WithinBound(bound: int, p: Phase) {
    match p
    case Between(_, i, _) => i <= bound
    case Within(_, i) => i <= bound
    case Announced(_, i, _) => i <= bound
    case _ => true
  }

  lemma {:induction false} PhaseWithinBound(bound: int, frames: seq<Frame>)
    requires bound > 0
    ensures WithinBound(bound, Parse(bound, frames))
  {
    if frames == [] {
    } else {
      PhaseWithinBound(bound, frames[..|frames| - 1]);
    }
  }

  /** No frame carries an iteration number beyond the iteration limit. */
  lemma IterationsWithinBound(bound: int, frames: seq<Frame>, k: nat)
    requires bound > 0 && Parse(bound, frames) == Closed && k < |frames| && Numbered(frames[k])
    ensures frames[k].iteration <= bound
  {
    Around(bound, frames, k);
    PhaseWithinBound(bound, frames[..k + 1]);
  }
}
