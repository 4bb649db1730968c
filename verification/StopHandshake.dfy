/** Stopping the worker: the main thread latches the stop, wakes the worker and ends its child,
    while the worker may be spawning, reading, waiting or dropping. Steps of both threads and of
    the outside world interleave in any order; each is one sequentially consistent access. */
module StopHandshake {
  import opened Types

  /** The worker's next step. `run` is the number of replies that the pipeline will read once the
      handshake is done, or none when the connection is made for its own sake. */
  datatype WorkerAt =
    | Spawning(run: Option<nat>)
    | Storing(run: Option<nat>)      // publish the child's handle
    | Rechecking(run: Option<nat>)   // look at the latch once more
    | Handshaking(run: Option<nat>)  // blocked in the read of the handshake
    | Running(left: nat)             // blocked in a read of the pipeline
    | Clearing                       // take the handle back
    | Closing                        // close the channel
    | Looping                        // the loop's condition
    | Sampling                       // is the child alive?
    | Waiting(onChild: bool, timed: bool)
    | Woken(why: Why)
    | Exited

  datatype Why = ByEvent | ByChild | ByTimeout

  /** The main thread's next step of the exit sequence. */
  datatype MainAt = Latching | Signalling | Loading | Ending | LatchingAgain | SignallingAgain | Joining | Joined

  datatype State = State(
    quit: bool, wake: bool,        // the latch and the auto-reset event
    handle: Option<nat>,           // the published handle
    child: Option<nat>,            // the open channel's child
    dead: set<nat>,                // children that have ended
    spawned: nat,                  // children so far
    client: bool, worker: WorkerAt, main: MainAt, loaded: Option<nat>)

  /** What the outside world decides when the worker takes a step. `spares` is whether a run that
      reads nothing, like one whose capture fails, leaves the channel up. */
  datatype Choice = Choice(succeeds: bool, replies: bool, good: bool, spares: bool, why: Why, run: nat)

  datatype Label = ByWorker(c: Choice) | ByMain | Hotkey | ChildEnds(id: nat)

  const INIT := State(false, false, None, None, {}, 0, false, Spawning(None), Latching, None)

  predicate ChildAlive(s: State) { s.child.Some? && s.child.value !in s.dead }

  predicate CanWake(s: State, at: WorkerAt, why: Why)
    requires at.Waiting?
  {
    match why
    case ByEvent => s.wake
    case ByChild => at.onChild && !ChildAlive(s)
    case ByTimeout => at.timed
  }

  /** A read returns with a reply only while the child lives, and with an error once it is dead. */
  predicate ReadReturns(s: State, c: Choice) { !ChildAlive(s) || c.replies }

  /** A run of the pipeline that reads `n` replies, of which there may be none. */
  function RunFor(n: nat, spares: bool): WorkerAt {
    if 0 < n then Running(n - 1) else if spares then Looping else Clearing
  }

  function AfterHandshake(run: Option<nat>, spares: bool): WorkerAt { if run.Some? then RunFor(run.value, spares) else Looping }

  function WorkerStep(s: State, c: Choice): State {
    match s.worker
    case Spawning(run) =>
      if c.succeeds then s.(child := Some(s.spawned), spawned := s.spawned + 1, worker := Storing(run))
      else s.(worker := Looping)
    case Storing(run) => s.(handle := s.child, worker := Rechecking(run))
    case Rechecking(run) => if s.quit then s.(worker := Clearing) else s.(client := true, worker := Handshaking(run))
    case Handshaking(run) =>
      if !ReadReturns(s, c) then s
      else if !ChildAlive(s) || !c.good then s.(worker := Clearing)
      else s.(worker := AfterHandshake(run, c.spares))
    case Running(left) =>
      if !ReadReturns(s, c) then s
      else if !ChildAlive(s) || !c.good then s.(worker := Clearing)
      else if left == 0 then s.(worker := Looping)
      else s.(worker := Running(left - 1))
    case Clearing => s.(handle := None, worker := Closing)
    case Closing => s.(client := false, child := None, worker := Looping)
    case Looping => s.(worker := if s.quit then Exited else Sampling)
    case Sampling => s.(worker := Waiting(ChildAlive(s), !s.client))
    case Waiting(_, _) =>
      if !CanWake(s, s.worker, c.why) then s
      else s.(wake := s.wake && c.why != ByEvent, worker := Woken(c.why))
    case Woken(why) =>
      if s.quit then s.(worker := Exited)
      else (match why
            case ByEvent => s.(worker := if s.client then RunFor(c.run, c.spares) else Spawning(Some(c.run)))
            case ByChild => s.(worker := Clearing)
            case ByTimeout => s.(worker := if s.client then Looping else Spawning(None)))
    case Exited => s
  }

  function MainStep(s: State): State {
    match s.main
    case Latching => s.(quit := true, main := Signalling)
    case Signalling => s.(wake := true, main := Loading)
    case Loading => s.(loaded := s.handle, main := Ending)
    case Ending => s.(dead := if s.loaded.Some? then s.dead + {s.loaded.value} else s.dead, main := LatchingAgain)
    case LatchingAgain => s.(quit := true, main := SignallingAgain)
    case SignallingAgain => s.(wake := true, main := Joining)
    case Joining => if s.worker.Exited? then s.(main := Joined) else s
    case Joined => s
  }

  function Do(s: State, l: Label): State {
    match l
    case ByWorker(c) => WorkerStep(s, c)
    case ByMain => MainStep(s)
    case Hotkey => s.(wake := true)
    case ChildEnds(id) => s.(dead := s.dead + {id})
  }

  function Exec(ls: seq<Label>): State {
    if ls == [] then INIT else Do(Exec(ls[..|ls| - 1]), ls[|ls| - 1])
  }

  // ----- the invariant ------------------------------------------------------------------------------

  predicate Reading(at: WorkerAt) { at.Handshaking? || at.Running? }

  /** RequestStop and AbortChannel have both been run. */
  predicate StopSent(m: MainAt) { m.LatchingAgain? || m.SignallingAgain? || m.Joining? || m.Joined? }

  ghost predicate Inv(s: State) {
    && (s.quit <==> !s.main.Latching?)
    // the published handle is the open child's, except just after the spawn and before the close
    && (match s.worker
        case Spawning(_) => s.child.None? && s.handle.None? && !s.client
        case Storing(_) => s.child.Some? && s.handle.None? && !s.client
        case Rechecking(_) => s.child.Some? && s.handle == s.child && !s.client
        case Closing => s.handle.None?
        case Clearing => true
        case _ => s.handle == s.child && (s.child.Some? <==> s.client))
    && (Reading(s.worker) ==> s.client)
    && (s.worker.Waiting? ==> s.worker.timed == !s.client)
    && (s.worker.Woken? && s.worker.why == ByTimeout ==> !s.client)
    // a reader was reading before the latch, so the handle was there to be loaded
    && (Reading(s.worker) && s.main.Ending? ==> s.loaded == s.child)
    && (Reading(s.worker) && StopSent(s.main) ==> !ChildAlive(s))
    // a waiter that came after the latch finds the event set
    && ((s.worker.Sampling? || s.worker.Waiting?) && !s.main.Latching? && !s.main.Signalling? ==> s.wake)
    // nobody ends unasked, and nobody is left behind
    && (s.worker.Exited? ==> s.quit)
    && (s.main.Joined? ==> s.worker.Exited?)
  }

  lemma WorkerKeepsInv(s: State, c: Choice)
    requires Inv(s)
    ensures Inv(WorkerStep(s, c))
  {
  }

  lemma MainKeepsInv(s: State)
    requires Inv(s)
    ensures Inv(MainStep(s))
  {
  }

  lemma {:induction false} Reachable(ls: seq<Label>)
    ensures Inv(Exec(ls))
  {
    if ls != [] {
      var s, l := Exec(ls[..|ls| - 1]), ls[|ls| - 1];
      Reachable(ls[..|ls| - 1]);
      match l
      case ByWorker(c) => WorkerKeepsInv(s, c);
      case ByMain => MainKeepsInv(s);
      case Hotkey =>
      case ChildEnds(id) =>
    }
  }

  // ----- the theorems --------------------------------------------------------------------------------

  /** Nothing that is sure to happen lets the worker go on: it waits on an event nobody has set,
      without a timeout and with no dead child, or it reads from a child that may stay silent. */
  predicate Blocked(s: State) {
    || (s.worker.Waiting? && !s.wake && !s.worker.timed && !(s.worker.onChild && !ChildAlive(s)))
    || (Reading(s.worker) && ChildAlive(s))
  }

  /** Once the stop is latched, signalled and the child ended, the worker is never left blocked,
      whatever it was doing. */
  lemma NeverLeftBlocked(ls: seq<Label>)
    requires StopSent(Exec(ls).main)
    ensures var s := Exec(ls);
      && !Blocked(s)
      && (s.worker.Waiting? ==> s.wake || s.worker.timed || (s.worker.onChild && !ChildAlive(s)))
      && (s.worker.Handshaking? || s.worker.Running? ==> s.child.Some? && s.child.value in s.dead)
  {
    Reachable(ls);
  }

  /** The worker ends only when the stop is latched, and the main thread is past the join only when
      the worker has ended. */
  lemma NobodyEndsUnasked(ls: seq<Label>)
    ensures Exec(ls).worker.Exited? ==> Exec(ls).quit && !Exec(ls).main.Latching?
    ensures Exec(ls).main.Joined? ==> Exec(ls).worker.Exited? && Exec(ls).quit
  {
    Reachable(ls);
  }

  /** How far the worker is from its end once the stop is latched. */
  function Rank(at: WorkerAt): nat {
    match at
    case Exited => 0
    case Looping => 1
    case Woken(_) => 1
    case Waiting(_, _) => 2
    case Sampling => 3
    case Closing => 2
    case Clearing => 3
    case Running(left) => 4 + left
    case Handshaking(run) => 5 + if run.Some? then run.value else 0
    case Rechecking(_) => 4
    case Storing(_) => 5
    case Spawning(_) => 6
  }

  /** A choice of the world that lets the worker go on where it can. */
  function Willing(s: State): Choice {
    var why := if s.wake then ByEvent else if s.worker.Waiting? && s.worker.timed then ByTimeout else ByChild;
    Choice(true, true, true, true, why, 0)
  }

  /** From then on every step that the worker can take brings it nearer to its end, and it can
      take one until it has ended. */
  lemma WorkerEnds(ls: seq<Label>, c: Choice)
    requires StopSent(Exec(ls).main)
    ensures var s := Exec(ls);
      && (WorkerStep(s, c) != s ==> Rank(WorkerStep(s, c).worker) < Rank(s.worker))
      && (!s.worker.Exited? ==> WorkerStep(s, Willing(s)) != s)
      && WorkerStep(s, c).main == s.main
  {
    Reachable(ls);
  }

  /** So the join completes: a finite run of the two threads alone takes the main thread past it. */
  lemma {:induction false} JoinCompletes(ls: seq<Label>) returns (more: seq<Label>)
    requires StopSent(Exec(ls).main)
    ensures Exec(ls + more).main == Joined
    decreases Rank(Exec(ls).worker), if Exec(ls).main.LatchingAgain? then 3 else if Exec(ls).main.SignallingAgain? then 2
                                     else if Exec(ls).main.Joining? then 1 else 0
  {
    var s := Exec(ls);
    if s.main.Joined? {
      more := [];
      assert ls + more == ls;
      return;
    }
    var l := if s.worker.Exited? then ByMain else ByWorker(Willing(s));
    WorkerEnds(ls, Willing(s));
    hide WorkerStep, Rank, Willing;
    assert (ls + [l])[..|ls|] == ls;
    var rest := JoinCompletes(ls + [l]);
    more := [l] + rest;
    assert ls + more == (ls + [l]) + rest;
  }

  /** A death that the worker notices, in its wait or in a read, costs the channel and nothing more:
      three steps on there is no child, no published handle and no client, and the loop goes on. */
  lemma NoticedDeathIsDropped(ls: seq<Label>, c: Choice, d: Choice, e: Choice)
    requires var s := Exec(ls);
      !s.quit && (s.worker == Woken(ByChild) || (Reading(s.worker) && !ChildAlive(s)))
    ensures var s := Exec(ls);
      WorkerStep(WorkerStep(WorkerStep(s, c), d), e) == s.(worker := Looping, child := None, handle := None, client := false)
  {
  }

  /** What a wakeup leads to while nobody has asked to stop: a hotkey to a run, over a new channel when
      there is none, and the end of a timeout to a new channel. */
  lemma WakeupIsServed(ls: seq<Label>, c: Choice)
    requires Exec(ls).worker.Woken? && Exec(ls).worker.why != ByChild && !Exec(ls).quit
    ensures var s := Exec(ls);
      var t := WorkerStep(s, c);
      && t == s.(worker := t.worker)
      && t.worker ==
           if s.worker.why == ByTimeout then Spawning(None)
           else if !s.client then Spawning(Some(c.run))
           else if 0 < c.run then Running(c.run - 1)
           else if c.spares then Looping else Clearing
  {
    Reachable(ls);
  }

  /** A wait ends by the event, which it uses up, by the death of a child whose handle it holds, or by
      the timeout that it has exactly when there is no client; and by one of them whenever it can. */
  lemma WaitEndsBy(ls: seq<Label>, c: Choice)
    requires Exec(ls).worker.Waiting?
    ensures var s := Exec(ls);
      WorkerStep(s, c) ==
        if c.why == ByEvent && s.wake then s.(wake := false, worker := Woken(ByEvent))
        else if c.why == ByChild && s.worker.onChild && (s.child.None? || s.child.value in s.dead) then s.(worker := Woken(ByChild))
        else if c.why == ByTimeout && !s.client then s.(worker := Woken(ByTimeout))
        else s
  {
    Reachable(ls);
  }

  /** Steps of the worker alone, with one answer of the outside world to all of them. */
  function WorkerSteps(s: State, c: Choice, n: nat): State
    decreases n
  {
    if n == 0 then s else WorkerSteps(WorkerStep(s, c), c, n - 1)
  }

  /** A run that waits for a reply and for `left` more has them all after as many steps, with a child
      that lives and answers well, and then the loop goes on over the same channel. */
  lemma {:induction false} RepliesEndARun(s: State, c: Choice, left: nat)
    requires s.worker == Running(left) && ChildAlive(s) && c.replies && c.good
    ensures WorkerSteps(s, c, left + 1) == s.(worker := Looping)
    decreases left
  {
    if left == 0 {
      assert WorkerSteps(WorkerStep(s, c), c, 0) == WorkerStep(s, c);
    } else {
      RepliesEndARun(WorkerStep(s, c), c, left - 1);
    }
  }

  // ----- the other order -------------------------------------------------------------------------------

  /** The exit sequence with the abort before the latch. */
  function SwappedStep(s: State): State {
    match s.main
    case Loading => s.(loaded := s.handle, main := Ending)
    case Ending => s.(dead := if s.loaded.Some? then s.dead + {s.loaded.value} else s.dead, main := Latching)
    case Latching => s.(quit := true, main := Signalling)
    case Signalling => s.(wake := true, main := LatchingAgain)
    case _ => MainStep(s)
  }

  function SwappedExec(ls: seq<Label>): State {
    if ls == [] then INIT.(main := Loading)
    else
      var s, l := SwappedExec(ls[..|ls| - 1]), ls[|ls| - 1];
      if l.ByMain? then SwappedStep(s) else Do(s, l)
  }

  lemma SwappedNext(ls: seq<Label>, l: Label)
    ensures SwappedExec(ls + [l]) == if l.ByMain? then SwappedStep(SwappedExec(ls)) else Do(SwappedExec(ls), l)
  {
    assert (ls + [l])[..|ls|] == ls;
  }

  /** The order matters. In the other one a run exists in which the abort finds no handle because
      the worker is spawning, the worker finds no latch because that comes later, and in the end
      the main thread has done all it does and the worker reads from a child that nobody ends. */
  lemma AbortBeforeLatchCanBlock() returns (ls: seq<Label>)
    ensures StopSent(SwappedExec(ls).main) && Blocked(SwappedExec(ls))
  {
    var go := ByWorker(Choice(true, true, true, true, ByEvent, 0));
    ls := [];
    var steps := [ByMain, ByMain, go, go, go, ByMain, ByMain];
    var s := INIT.(main := Loading);
    for k := 0 to 7
      invariant SwappedExec(ls) == s
      invariant s == if k == 0 then INIT.(main := Loading)
                     else if k == 1 then INIT.(main := Ending)
                     else if k == 2 then INIT
                     else if k == 3 then INIT.(child := Some(0), spawned := 1, worker := Storing(None))
                     else if k == 4 then INIT.(child := Some(0), handle := Some(0), spawned := 1, worker := Rechecking(None))
                     else if k == 5 then Handshakes()
                     else if k == 6 then Handshakes().(quit := true, main := Signalling)
                     else Handshakes().(quit := true, wake := true, main := LatchingAgain)
    {
      SwappedNext(ls, steps[k]);
      ls := ls + [steps[k]];
      s := if steps[k].ByMain? then SwappedStep(s) else Do(s, steps[k]);
    }
  }

  /** The worker in its first handshake, with the main thread not yet at the latch. */
  function Handshakes(): State {
    INIT.(child := Some(0), handle := Some(0), spawned := 1, client := true, worker := Handshaking(None))
  }

  /** A wait without a handle and without a timeout happens exactly when the child of a live
      client had died before it was sampled; nothing then tells the worker so. */
  lemma DeadChildCanGoUnnoticed(ls: seq<Label>, c: Choice)
    requires Exec(ls).worker.Sampling?
    ensures var at := WorkerStep(Exec(ls), c).worker;
      at.Waiting? && ((!at.onChild && !at.timed) <==> Exec(ls).client && !ChildAlive(Exec(ls)))
  {
    Reachable(ls);
  }
}
