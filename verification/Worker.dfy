/** What the worker thread does between two waits: connect, serve a hotkey, notice a loss, retry; and
    what it tells the lifecycle machine of each. */
module Worker {
  import opened Types
  import opened Lifecycle

  /** How a wait ends. */
  datatype Wakeup = Hotkey | ChildDied | TimedOut | WaitFailed

  /** What the worker was when it blocked, at which tick, and how it woke. `timeout` is none when
      it waits without one. */
  datatype Pause = Pause(
    tick: nat, client: bool, state: State, timeout: Option<nat>, handles: nat, connectDeadline: nat,
    started: nat, ended: nat, woken: Wakeup)

  /** The outside world: each field answers the question asked at a given tick. */
  datatype World = World(
    quit: nat -> bool, spawns: nat -> bool, inits: nat -> bool, runs: nat -> Status, alive: nat -> bool,
    wakes: nat -> Wakeup, now: nat -> nat)

  /** Either there is a client and the machine is Ready, or there is none and the machine is
      about to rebuild it within a minute. The child is waited for exactly when it was found
      alive just before, and the stop latch was down just before that. */
  ghost predicate Sane(p: Pause, world: World) {
    && (if p.client then p.state == Ready && p.timeout == None
        else Waits(p.state) && p.timeout.Some? && 5000 <= p.timeout.value <= 60000)
    && 2 <= p.tick && !world.quit(p.tick - 2)
    && p.handles == (if p.client && world.alive(p.tick - 1) then 2 else 1)
    && (p.woken == ChildDied ==> p.handles == 2) && (p.woken == TimedOut ==> p.timeout.Some?)
    && (p.woken != world.wakes(p.tick) ==>
          && p.woken == Hotkey
          && if world.wakes(p.tick) == ChildDied then p.handles == 1
             else world.wakes(p.tick) == TimedOut && p.timeout == None)
    && p.connectDeadline == 0 && p.started == p.ended
  }

  /** A wait can only end by what it waited for; anything else counts as the wake event. */
  function Woken(w: Wakeup, child: bool, timeout: Option<nat>): Wakeup {
    if (w == ChildDied && !child) || (w == TimedOut && timeout == None) then Hotkey else w
  }

  /** Every pause was sane, and the first `served` wakeups were acted on. */
  ghost predicate AllSane(pauses: seq<Pause>, served: nat, world: World) {
    && (forall k :: 0 <= k < |pauses| ==> Sane(pauses[k], world))
    && served <= |pauses|
    && (forall k :: 0 <= k < served ==> ActedOn(pauses[k], world))
  }

  lemma MoreServed(pauses: seq<Pause>, served: nat, world: World)
    requires AllSane(pauses, served, world) && served < |pauses| && ActedOn(pauses[served], world)
    ensures AllSane(pauses, served + 1, world)
  {
  }

  lemma MorePaused(pauses: seq<Pause>, served: nat, world: World, p: Pause)
    requires AllSane(pauses, served, world) && Sane(p, world)
    ensures AllSane(pauses + [p], served, world)
  {
    hide Sane, ActedOn;
  }

  /** A wakeup is acted on unless the wait failed or the stop latch is up right after it. */
  ghost predicate ActedOn(p: Pause, world: World) { p.woken != WaitFailed && !world.quit(p.tick + 1) }

  /** What a spawn at tick `t` comes to, and the tick after it. */
  function Spawned(world: World, t: nat): (bool, nat) {
    if !world.spawns(t) then (false, t + 1)
    else if world.quit(t + 1) then (false, t + 2)
    else (world.inits(t + 2), t + 3)
  }

  /** What one hotkey at tick `t` comes to: nothing without a channel, otherwise a run. */
  function Pressed(world: World, client: bool, t: nat): Option<Status> {
    if client then Some(world.runs(t))
    else
      var (up, next) := Spawned(world, t + 1);
      if up then Some(world.runs(next)) else None
  }

  /** What the machine is told about a hotkey. */
  function Told(client: bool, outcome: Option<Status>): seq<Event> {
    if outcome.None? then [ConnectFail]
    else (if client then [] else [ConnectOk]) + (if Spares(outcome.value) then [] else [ConnectFail])
  }

  /** What the machine is told of a wakeup that is acted on. */
  function Report(world: World, p: Pause): seq<Event> {
    match p.woken
    case Hotkey => Told(p.client, Pressed(world, p.client, p.tick + 2))
    case ChildDied => [ChannelLost]
    case TimedOut => [Retry, if Spawned(world, p.tick + 3).0 then ConnectOk else ConnectFail]
    case WaitFailed => []
  }

  /** What a wakeup that is acted on comes to: a hotkey to one attempt at a run, anything else to none. */
  function RunsOf(world: World, p: Pause): seq<Option<Status>> {
    if p.woken == Hotkey then [Pressed(world, p.client, p.tick + 2)] else []
  }

  function AllReports(world: World, pauses: seq<Pause>): seq<Event> {
    if pauses == [] then [] else AllReports(world, pauses[..|pauses| - 1]) + Report(world, pauses[|pauses| - 1])
  }

  function AllRuns(world: World, pauses: seq<Pause>): seq<Option<Status>> {
    if pauses == [] then [] else AllRuns(world, pauses[..|pauses| - 1]) + RunsOf(world, pauses[|pauses| - 1])
  }

  lemma OneMorePause(world: World, pauses: seq<Pause>, p: Pause)
    ensures AllReports(world, pauses + [p]) == AllReports(world, pauses) + Report(world, p)
    ensures AllRuns(world, pauses + [p]) == AllRuns(world, pauses) + RunsOf(world, p)
  {
    hide Report, RunsOf;
    assert (pauses + [p])[..|pauses|] == pauses;
  }

  /** Errors of the local clipboard and of the keystrokes say nothing about the channel. */
  predicate ChannelIsBad(e: Error) {
    match e
    case NoImageInClipboard | ClipboardOpenFailed | ClipboardLockFailed | ClipboardReadFailed
       | ImageTooLarge | PngEncodeFailed | TempFileFailed
       | ClipboardSetFailed | FocusChanged | SendInputRejected => false
    case _ => true
  }

  /** A run that ends like this leaves the channel up. */
  predicate Spares(st: Status) { st.Ok? || st.error == Busy || !ChannelIsBad(st.error) }

  class UploadWorker {
    const life: Machine
    const world: World
    const budgetMs: nat     // how long a handshake may take
    var tick: nat
    var channel: bool       // a child is open
    var abortable: bool     // its handle is published to the main thread
    var client: bool        // a client over the channel
    var connectDeadline: nat
    var started: nat        // notices that a bounded piece of work began, and ended
    var ended: nat
    ghost var pauses: seq<Pause>
    ghost var served: nat        // wakeups acted on
    ghost var shakes: seq<nat>   // the deadline in force at each handshake
    ghost var runs: seq<Option<Status>> // what each hotkey came to
    ghost var fed: seq<Stamped>  // every event taken by the machine

    /** The machine has begun and is where the events took it. */
    ghost predicate Valid() reads this, life {
      life.Valid() && life.started && life.Now() == Exec(fed)
    }

    /** The channel and the machine agree between two turns of the loop. */
    ghost predicate Settled() reads this, life {
      && Valid()
      && (if client then life.state == Ready else Waits(life.state))
      && client == channel == abortable && connectDeadline == 0 && started == ended
      && AllSane(pauses, served, world)
    }

    /** Nothing has happened yet. */
    ghost predicate Unborn() reads this, life {
      && life.Valid() && life.Now() == FRESH && !client && !channel && !abortable && connectDeadline == 0
      && pauses == [] && served == 0 && shakes == [] && runs == [] && fed == [] && started == 0 && ended == 0
    }

    constructor (life: Machine, world: World, budgetMs: nat)
      requires life.Valid() && life.Now() == FRESH
      ensures Unborn() && this.life == life && this.world == world && this.budgetMs == budgetMs && tick == 0
    {
      this.life, this.world, this.budgetMs := life, world, budgetMs;
      tick, channel, abortable, client, connectDeadline, started, ended := 0, false, false, false, 0, 0, 0;
      pauses, served, shakes, runs, fed := [], 0, [], [], [];
    }

    method Tick() returns (t: nat)
      modifies this`tick
      ensures t == old(tick) && tick == old(tick) + 1
    {
      t := tick;
      tick := tick + 1;
    }

    /** Loads the stop latch. */
    method Quit() returns (yes: bool)
      modifies this`tick
      ensures yes == world.quit(old(tick)) && tick == old(tick) + 1
    {
      var t := Tick();
      yes := world.quit(t);
    }

    method Post(e: Event)
      requires Valid()
      modifies this`fed, life
      ensures Valid() && fed == old(fed) + [Stamped(e, old(life.clock(life.ticks)))]
      ensures Events(fed) == old(Events(fed)) + [e]
      ensures life.Now() == Next(old(life.Now()), e, old(life.clock(life.ticks)))
    {
      ghost var now := life.clock(life.ticks);
      ghost var was := fed;
      var taken := life.Post(e);
      fed := fed + [Stamped(e, now)];
      assert fed[..|fed| - 1] == was;
    }

    /** Takes the handle back, then closes the channel; there is no client without one. */
    method DropChannel()
      modifies this`client, this`channel, this`abortable
      ensures !client && !channel && !abortable
    {
      abortable := false;
      client := false;
      channel := false;
    }

    /** Starts the child, publishes its handle, looks at the stop latch once more, and shakes
        hands under the deadline. */
    method SpawnChannel() returns (ok: bool)
      requires !client && !channel && !abortable
      modifies this`tick, this`client, this`channel, this`abortable, this`shakes
      ensures client == channel == abortable == ok && (ok, tick) == Spawned(world, old(tick))
      ensures ok <==> world.spawns(old(tick)) && !world.quit(old(tick) + 1) && world.inits(old(tick) + 2)
      ensures shakes == old(shakes) +
        if world.spawns(old(tick)) && !world.quit(old(tick) + 1) then [connectDeadline] else []
    {
      var t := Tick();
      if !world.spawns(t) {
        return false;
      }
      channel := true;
      abortable := true;
      var quit := Quit();
      if quit {
        DropChannel();
        return false;
      }
      client := true;
      shakes := shakes + [connectDeadline];
      t := Tick();
      if !world.inits(t) {
        DropChannel();
        return false;
      }
      ok := true;
    }

    /** Makes sure that there is a channel, and tells the machine what came of it. */
    method EnsureChannel() returns (ok: bool)
      requires Valid() && connectDeadline == 0 && client == channel == abortable
      requires Waits(life.state) || life.state == Connecting || (client && life.state == Ready)
      modifies this`tick, this`client, this`channel, this`abortable, this`connectDeadline, this`shakes, this`fed, life
      ensures Valid() && connectDeadline == 0 && client == channel == abortable == ok
      ensures life.state == if ok then Ready else if old(life.state) == Degraded then Degraded else Reconnecting
      ensures if old(client) then ok && tick == old(tick) else (ok, tick) == Spawned(world, old(tick) + 1)
      ensures Events(fed) == old(Events(fed)) +
        if !ok then [ConnectFail] else if old(client) && old(life.state) == Ready then [] else [ConnectOk]
      ensures old(shakes) <= shakes && |shakes| <= |old(shakes)| + 1
      ensures |old(shakes)| < |shakes| ==> shakes[|old(shakes)|] == world.now(old(tick)) + budgetMs
    {
      if client {
        if life.state != Ready {
          Post(ConnectOk);
        }
        return true;
      }
      var t := Tick();
      connectDeadline := world.now(t) + budgetMs;
      var spawned := SpawnChannel();
      connectDeadline := 0;
      if !spawned {
        Post(ConnectFail);
        return false;
      }
      Post(ConnectOk);
      ok := true;
    }

    /** One hotkey: a channel, then a run of the pipeline, then what its outcome says. */
    method RunOnce()
      requires Settled()
      modifies this, life
      ensures Settled() && pauses == old(pauses) && served == old(served)
      ensures runs == old(runs) + [Pressed(world, old(client), old(tick))]
      ensures var outcome := Pressed(world, old(client), old(tick));
        && client == (outcome.Some? && Spares(outcome.value))
        && (outcome.Some? && !client ==> life.state == Degraded)
        && Events(fed) == old(Events(fed)) + Told(old(client), outcome)
      ensures started == old(started) + 1
    {
      hide Exec, Events, Ramp, AllSane, ChannelIsBad, Next, Spawned, Spares, Delay, Degrade;
      started := started + 1;
      var ready := EnsureChannel();
      if !ready {
        ended := ended + 1;
        runs := runs + [None];
        return;
      }
      var t := Tick();
      var result := world.runs(t);
      runs := runs + [Some(result)];
      ended := ended + 1;
      Digest(result);
    }

    /** What the outcome of a run means for the channel. */
    method Digest(result: Status)
      requires Settled() && client
      modifies this`client, this`channel, this`abortable, this`fed, life
      ensures Settled() && client == Spares(result) && (!client ==> life.state == Degraded)
      ensures client <==> result.Ok? || result.error in {
        Busy, NoImageInClipboard, ClipboardOpenFailed, ClipboardLockFailed, ClipboardReadFailed, ImageTooLarge,
        PngEncodeFailed, TempFileFailed, ClipboardSetFailed, FocusChanged, SendInputRejected}
      ensures Events(fed) == old(Events(fed)) + if client then [] else [ConnectFail]
    {
      hide Exec, Events, Ramp, AllSane, Next, Delay, Degrade;
      if result.Ok? || result.error == Busy || !ChannelIsBad(result.error) {
        return;
      }
      DropChannel();
      ghost var now := life.clock(life.ticks);
      ReadyFails(life.Now(), now);
      Post(ConnectFail);
    }

    predicate NeedsRetry() reads life { life.state == Degraded || life.state == Reconnecting }

    /** Blocks until something happens. */
    method WaitForSomething(alive: bool, timeout: Option<nat>) returns (woken: Wakeup)
      requires Settled() && 2 <= tick && !world.quit(tick - 2) && alive == (client && world.alive(tick - 1))
      requires timeout == if Waits(life.state) then Some(life.retryDelayMs) else None
      modifies this`tick, this`pauses
      ensures Settled() && tick == old(tick) + 1 && |pauses| == |old(pauses)| + 1 && old(pauses) <= pauses
      ensures var p := pauses[|old(pauses)|]; (p.tick, p.client, p.woken) == (old(tick), client, woken)
      ensures woken == Woken(world.wakes(old(tick)), alive, timeout)
    {
      if Waits(life.state) {
        WaitsAreBounded(fed);
      }
      hide AllSane, Exec, Events, Woken, Ramp;
      var t := Tick();
      woken := Woken(world.wakes(t), alive, timeout);
      OnlyWhatWasWaitedFor(world.wakes(t), alive, timeout);
      ghost var p := Pause(t, client, life.state, timeout, if alive then 2 else 1, connectDeadline, started, ended, woken);
      MorePaused(pauses, served, world, p);
      pauses := pauses + [p];
    }

    /** The head of the loop: the first connection. */
    method Begin()
      requires Unborn()
      modifies this, life
      ensures Settled() && pauses == [] && served == 0 && runs == []
      ensures client == Spawned(world, old(tick) + 1).0
      ensures Events(fed) == [Event.Start, if client then ConnectOk else ConnectFail]
    {
      life.Begin();
      Post(Event.Start);
      started := started + 1;
      var up := EnsureChannel();
      ended := ended + 1;
    }

    /** What a turn of the loop does once the wait has returned. */
    method Act(woken: Wakeup)
      requires Settled() && (woken == ChildDied ==> client) && (woken == TimedOut ==> !client) && woken != WaitFailed
      requires served < |pauses| && ActedOn(pauses[served], world)
      requires var p := pauses[served]; (p.tick + 2, p.client, p.woken) == (tick, client, woken)
      modifies this, life
      ensures Settled() && pauses == old(pauses) && served == old(served) + 1
      ensures runs == old(runs) + RunsOf(world, pauses[old(served)])
      ensures Events(fed) == old(Events(fed)) + Report(world, pauses[old(served)])
      ensures woken == ChildDied ==> !client && life.state == Degraded
      ensures woken == TimedOut ==>
        client == Spawned(world, old(tick) + 1).0 && life.state == (if client then Ready else Reconnecting)
    {
      hide AllSane, Exec, Events;
      MoreServed(pauses, served, world);
      served := served + 1;
      match woken
      case Hotkey =>
        RunOnce();
      case ChildDied =>
        DropChannel();
        Post(ChannelLost);
      case TimedOut =>
        Post(Retry);
        var up := EnsureChannel();
    }

    /** The loop ended on the stop latch, looked at before or after a wait, or on a failed wait. */
    ghost predicate Ended() reads this {
      || (served == |pauses| && 0 < tick && world.quit(tick - 1))
      || (served + 1 == |pauses| && !ActedOn(pauses[served], world))
    }

    /** One turn of the loop: a look at the latch, a wait, another look, and the work. */
    method Turn() returns (stop: bool)
      requires Settled() && served == |pauses|
      modifies this, life
      ensures Settled() && old(pauses) <= pauses && old(served) <= served
      ensures if stop then |pauses| <= |old(pauses)| + 1 && Ended() else served == |pauses| == |old(pauses)| + 1
      ensures stop ==> served == old(served) && fed == old(fed) && runs == old(runs)
      ensures !stop ==>
        && Events(fed) == old(Events(fed)) + Report(world, pauses[|old(pauses)|])
        && runs == old(runs) + RunsOf(world, pauses[|old(pauses)|])
    {
      hide AllSane, Next, Exec, Events, Woken, Pressed, Spawned, Told, Report, RunsOf;
      var quit := Quit();
      if quit {
        return true;
      }
      var t := Tick();
      var alive := client && world.alive(t);
      var timeout := if NeedsRetry() then Some(life.retryDelayMs) else None;
      var woken := WaitForSomething(alive, timeout);
      quit := Quit();
      if quit || woken == WaitFailed {
        return true;
      }
      OnlyWhatWasWaitedFor(world.wakes(t + 1), alive, timeout);
      Act(woken);
      stop := false;
    }

    /** Any number of turns of the loop, unless a stop or a failed wait ends it first. Each time
        it blocks, channel, machine and timeout agree; every wakeup but the last is acted on;
        and it ends only on the stop latch or a failed wait. */
    method Loop(turns: nat) returns (stopped: bool)
      requires Unborn()
      modifies this, life
      ensures Settled() && |pauses| <= turns
      ensures if stopped then Ended() else served == |pauses| == turns
      ensures served <= |pauses| && runs == AllRuns(world, pauses[..served])
      ensures Events(fed) ==
        [Event.Start, if Spawned(world, old(tick) + 1).0 then ConnectOk else ConnectFail] + AllReports(world, pauses[..served])
    {
      hide AllSane, ActedOn, Next, Exec, Events, Report, RunsOf, Spawned;
      Begin();
      for turn := 0 to turns
        invariant Settled() && |pauses| == turn == served && runs == AllRuns(world, pauses)
        invariant Events(fed) ==
          [Event.Start, if Spawned(world, old(tick) + 1).0 then ConnectOk else ConnectFail] + AllReports(world, pauses)
      {
        ghost var seen := pauses;
        stopped := Turn();
        if stopped {
          assert pauses[..served] == seen;
          return;
        }
        OneMorePause(world, seen, pauses[|seen|]);
        assert pauses == seen + [pauses[|seen|]];
      }
      assert pauses[..served] == pauses;
      stopped := false;
    }

    /** The end of the thread: no channel is left and the machine is stopped for good. */
    method Stop()
      requires Valid()
      modifies this, life
      ensures Valid() && !client && !channel && !abortable && life.state == Stopped
    {
      DropChannel();
      Post(Event.Stop);
      Post(Finished);
    }
  }

  /** A hotkey comes to a run exactly when there is a channel, or one can be spawned without a stop
      in between and shakes hands. */
  lemma PressedMeans(world: World, t: nat)
    ensures Pressed(world, true, t) == Some(world.runs(t))
    ensures Pressed(world, false, t) ==
      if world.spawns(t + 1) && !world.quit(t + 2) && world.inits(t + 3) then Some(world.runs(t + 4)) else None
  {
  }

  /** The events of a history, without their times. */
  function Events(fed: seq<Stamped>): seq<Event> {
    if fed == [] then [] else Events(fed[..|fed| - 1]) + [fed[|fed| - 1].event]
  }

  lemma ReadyFails(l: Life, now: nat)
    requires l.state == Ready
    ensures Next(l, ConnectFail, now).state == Degraded
  {
  }

  /** A wait ends only by what it waited for, and by that at once. */
  lemma OnlyWhatWasWaitedFor(w: Wakeup, child: bool, timeout: Option<nat>)
    ensures Woken(w, child, timeout) == ChildDied ==> child
    ensures Woken(w, child, timeout) == TimedOut ==> timeout.Some?
    ensures Woken(w, child, timeout) != w ==>
      && Woken(w, child, timeout) == Hotkey
      && if w == ChildDied then !child else w == TimedOut && timeout == None
  {
  }
}
