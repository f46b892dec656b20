/** The status of one session row: the start gate and the writes of backend/api/ws/run.py, and the
    abort and delete routes of backend/api/routes/sessions.py, interleaved at every database call. */
module Sessions {

  datatype Status = Pending | Running | Completed | Failed | Aborted

  /** A WebSocket connection of the session, open if it passed the gate and has not ended. */
  datatype Link = Link(open: bool, started: bool)

  /** The background task of a started connection: created, inside the graph, or over. */
  datatype RunPhase = Queued | Working | Over

  /** aborts are the abort requests that have read a status they may abort and not yet written. */
  datatype World = World(status: Status, links: map<nat, Link>, runs: map<nat, RunPhase>, aborts: set<nat>)

  const CREATED := World(Pending, map[], map[], {})

  /** Leave is any end of a connection but an abort frame; Lose is a run that ends without a write. */
  datatype Action =
    | Connect(id: nat)
    | Start(id: nat)
    | AbortFrame(id: nat)
    | Leave(id: nat)
    | Begin(id: nat)
    | Finish(id: nat, raised: bool)
    | Lose(id: nat)
    | AbortRead(request: nat)
    | AbortWrite(request: nat)
    | Delete

  predicate IsOpen(w: World, id: nat) {
    id in w.links && w.links[id].open
  }

  predicate RunIs(w: World, id: nat, p: RunPhase) {
    id in w.runs && w.runs[id] == p
  }

  predicate Enabled(w: World, a: Action) {
    match a
    case Connect(id) => id !in w.links
    case Start(id) => IsOpen(w, id)
    case AbortFrame(id) => IsOpen(w, id)
    case Leave(id) => IsOpen(w, id)
    case Begin(id) => RunIs(w, id, Queued)
    case Finish(id, _) => RunIs(w, id, Working)
    case Lose(id) => RunIs(w, id, Queued) || RunIs(w, id, Working)
    case AbortRead(request) => request !in w.aborts
    case AbortWrite(request) => request in w.aborts
    case Delete => true
  }

  function Next(w: World, a: Action): World
    requires Enabled(w, a)
  {
    match a
    case Connect(id) => w.(links := w.links[id := Link(w.status == Pending, false)])
    case Start(id) =>
      if w.links[id].started then w
      else w.(links := w.links[id := Link(true, true)], runs := w.runs[id := Queued])
    case AbortFrame(id) => w.(status := Aborted, links := w.links[id := w.links[id].(open := false)])
    case Leave(id) => w.(links := w.links[id := w.links[id].(open := false)])
    case Begin(id) => w.(status := Running, runs := w.runs[id := Working])
    case Finish(id, raised) => w.(status := if raised then Failed else Completed, runs := w.runs[id := Over])
    case Lose(id) => w.(runs := w.runs[id := Over])
    case AbortRead(request) =>
      if w.status == Pending || w.status == Running then w.(aborts := w.aborts + {request}) else w
    case AbortWrite(request) => w.(status := Aborted, aborts := w.aborts - {request})
    case Delete => w.(status := Aborted)
  }

  predicate IsRun(w: World, acts: seq<Action>)
    decreases |acts|, 0
  {
    acts == [] ||
    (IsRun(w, acts[..|acts| - 1]) && Enabled(After(w, acts[..|acts| - 1]), acts[|acts| - 1]))
  }

  function After(w: World, acts: seq<Action>): World
    requires IsRun(w, acts)
    decreases |acts|, 1
  {
    if acts == [] then w else Next(After(w, acts[..|acts| - 1]), acts[|acts| - 1])
  }

  /** Once the row has left pending, it is never pending again and the gate admits nobody: a
      connection that is open later was open already. */
  lemma {:induction false} PendingIsLeftForGood(w: World, acts: seq<Action>)
    requires IsRun(w, acts) && w.status != Pending
    ensures After(w, acts).status != Pending
    ensures forall id :: IsOpen(After(w, acts), id) ==> IsOpen(w, id)
  {
    if acts == [] {
    } else {
      PendingIsLeftForGood(w, acts[..|acts| - 1]);
    }
  }

  /** How many runs connection id has started. */
  function RunsStarted(w: World, acts: seq<Action>, id: nat): nat
    requires IsRun(w, acts)
  {
    if acts == [] then
      0
    else
      var n := |acts| - 1;
      RunsStarted(w, acts[..n], id)
      + if acts[n] == Start(id) && !After(w, acts[..n]).links[id].started then 1 else 0
  }

  /** Each connection starts at most one run, however the session's connections, aborts and runs
      interleave; and a run that has started belongs to a connection that has started it. */
  lemma {:induction false} OneRunPerConnection(acts: seq<Action>, id: nat)
    requires IsRun(CREATED, acts)
    ensures RunsStarted(CREATED, acts, id) <= 1
    ensures RunsStarted(CREATED, acts, id) == 1 <==> id in After(CREATED, acts).runs
    ensures id in After(CREATED, acts).runs <==> id in After(CREATED, acts).links && After(CREATED, acts).links[id].started
  {
    if acts == [] {
    } else {
      OneRunPerConnection(acts[..|acts| - 1], id);
    }
  }

  /** A connection that has ended, by an abort frame or otherwise, is never open again. */
  lemma {:induction false} EndedForGood(w: World, acts: seq<Action>, id: nat)
    requires IsRun(w, acts) && id in w.links && !w.links[id].open
    ensures id in After(w, acts).links && !After(w, acts).links[id].open
  {
    if acts == [] {
    } else {
      EndedForGood(w, acts[..|acts| - 1], id);
    }
  }

  lemma FramesEndConnections(w: World, a: Action, id: nat)
    requires Enabled(w, a) && IsOpen(w, id)
    ensures IsOpen(Next(w, a), id) <==> a != AbortFrame(id) && a != Leave(id)
  {
  }

  /** How many abort requests numbered request have been let through, and how many have written. */
  function LetThrough(acts: seq<Action>, request: nat): nat
    requires IsRun(CREATED, acts)
  {
    if acts == [] then
      0
    else
      var n := |acts| - 1;
      var status := After(CREATED, acts[..n]).status;
      LetThrough(acts[..n], request)
      + if acts[n] == AbortRead(request) && (status == Pending || status == Running) then 1 else 0
  }

  function Written(acts: seq<Action>, request: nat): nat {
    if acts == [] then 0
    else Written(acts[..|acts| - 1], request) + if acts[|acts| - 1] == AbortWrite(request) then 1 else 0
  }

  /** Every abort request that found the session pending or running writes once, and no other does. */
  lemma {:induction false} AbortsAreCounted(acts: seq<Action>, request: nat)
    requires IsRun(CREATED, acts)
    ensures LetThrough(acts, request) == Written(acts, request) + if request in After(CREATED, acts).aborts then 1 else 0
  {
    if acts == [] {
    } else {
      AbortsAreCounted(acts[..|acts| - 1], request);
    }
  }

  /** The status that the last write of acts puts into the row: running when a run begins, completed or
      failed when one returns or raises, aborted by an abort or a deletion. */
  function LastWritten(acts: seq<Action>): Status {
    if acts == [] then
      Pending
    else
      match acts[|acts| - 1]
      case Begin(_) => Running
      case Finish(_, raised) => if raised then Failed else Completed
      case AbortFrame(_) => Aborted
      case AbortWrite(_) => Aborted
      case Delete => Aborted
      case _ => LastWritten(acts[..|acts| - 1])
  }

  /** Connecting, starting, leaving and asking for an abort write nothing; the last writer wins. */
  lemma {:induction false} LastWriterWins(acts: seq<Action>)
    requires IsRun(CREATED, acts)
    ensures After(CREATED, acts).status == LastWritten(acts)
  {
    if acts == [] {
    } else {
      LastWriterWins(acts[..|acts| - 1]);
    }
  }

  // ----- When an abort is final -----

  /** Nothing is left that could write another status: every connection that may still start a run has
      ended, and every run is over. */
  ghost predicate Quiet(w: World) {
    && (forall id :: id in w.links && w.links[id].open ==> w.links[id].started)
    && (forall id :: id in w.runs ==> w.runs[id] == Over)
  }

  ghost predicate StaysAborted(w: World) {
    forall acts :: IsRun(w, acts) ==> After(w, acts).status == Aborted
  }

  lemma QuietStep(w: World, a: Action)
    requires w.status == Aborted && Quiet(w) && Enabled(w, a)
    ensures Next(w, a).status == Aborted && Quiet(Next(w, a))
  {
  }

  lemma {:induction false} QuietRun(w: World, acts: seq<Action>)
    requires w.status == Aborted && Quiet(w) && IsRun(w, acts)
    ensures After(w, acts).status == Aborted && Quiet(After(w, acts))
  {
    if acts == [] {
    } else {
      var n := |acts| - 1;
      QuietRun(w, acts[..n]);
      QuietStep(After(w, acts[..n]), acts[n]);
    }
  }

  lemma Extend(w: World, acts: seq<Action>, a: Action) returns (longer: seq<Action>)
    requires IsRun(w, acts) && Enabled(After(w, acts), a)
    ensures IsRun(w, longer) && After(w, longer) == Next(After(w, acts), a)
  {
    longer := acts + [a];
    assert longer[..|acts|] == acts;
  }

  /** A run that is not over writes its status over an abort. */
  lemma RunOverwrites(w: World, before: seq<Action>, id: nat) returns (acts: seq<Action>)
    requires IsRun(w, before) && id in After(w, before).runs && After(w, before).runs[id] != Over
    ensures IsRun(w, acts) && After(w, acts).status == Completed
  {
    acts := before;
    if After(w, acts).runs[id] == Queued {
      acts := Extend(w, acts, Begin(id));
    }
    acts := Extend(w, acts, Finish(id, false));
  }

  /** An aborted session stays aborted, whatever happens next, exactly when nothing is left that could
      write another status. The abort stops neither the runs nor the connections. */
  lemma {:induction false} AbortIsFinalIff(w: World)
    requires w.status == Aborted
    ensures StaysAborted(w) <==> Quiet(w)
  {
    if Quiet(w) {
      forall acts | IsRun(w, acts)
        ensures After(w, acts).status == Aborted
      {
        QuietRun(w, acts);
      }
    } else {
      var acts: seq<Action> := [];
      if id: nat :| id in w.runs && w.runs[id] != Over {
        acts := RunOverwrites(w, acts, id);
      } else {
        var id: nat :| id in w.links && w.links[id].open && !w.links[id].started;
        acts := Extend(w, acts, Start(id));
        acts := RunOverwrites(w, acts, id);
      }
      assert After(w, acts).status != Aborted;
    }
  }

  // ----- Two behaviours of the gate -----

  /** Two connections that pass the gate before either run has begun both run the session. */
  lemma TwoRunsAtOnce() returns (acts: seq<Action>)
    ensures IsRun(CREATED, acts)
    ensures RunIs(After(CREATED, acts), 0, Working) && RunIs(After(CREATED, acts), 1, Working)
  {
    acts := Extend(CREATED, [], Connect(0));
    acts := Extend(CREATED, acts, Connect(1));
    acts := Extend(CREATED, acts, Start(0));
    acts := Extend(CREATED, acts, Start(1));
    acts := Extend(CREATED, acts, Begin(0));
    acts := Extend(CREATED, acts, Begin(1));
  }

  /** An abort request that is answered with success and whose session ends completed. */
  lemma AbortOverwritten() returns (aborted: seq<Action>, acts: seq<Action>)
    ensures IsRun(CREATED, aborted) && After(CREATED, aborted).status == Aborted
    ensures aborted <= acts && IsRun(CREATED, acts) && After(CREATED, acts).status == Completed
  {
    var begun := Extend(CREATED, [], Connect(0));
    begun := Extend(CREATED, begun, Start(0));
    begun := Extend(CREATED, begun, Begin(0));
    begun := Extend(CREATED, begun, AbortRead(7));
    aborted := Extend(CREATED, begun, AbortWrite(7));
    acts := aborted + [Finish(0, false)];
    assert acts[..|aborted|] == aborted;
  }
}
