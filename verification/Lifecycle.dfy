/** The process lifecycle: seven states, and the delay before the next attempt to connect. */
module Lifecycle {
  import opened Types

  const BACKOFF_BASE: nat := 5000
  const BACKOFF_MAX: nat := 60000
  const STABLE_RESET: nat := 180000

  // ----- backoff --------------------------------------------------------------------------------

  function Pow2(n: nat): (r: nat)
    ensures 1 <= r
  {
    if n == 0 then 1 else 2 * Pow2(n - 1)
  }

  /** The ramp: base, doubled once per failure, capped. */
  function Ramp(n: nat): nat {
    if BACKOFF_BASE * Pow2(n) < BACKOFF_MAX then BACKOFF_BASE * Pow2(n) else BACKOFF_MAX
  }

  lemma {:induction false} RampRises(n: nat, m: nat)
    requires n <= m
    ensures BACKOFF_BASE <= Ramp(n) <= Ramp(m) <= BACKOFF_MAX
    decreases m - n
  {
    if n < m {
      RampRises(n + 1, m);
    }
  }

  /** The ramp, step by step. */
  lemma RampSteps(n: nat)
    ensures Ramp(Index(n)) ==
      if n <= 1 then 5000 else if n == 2 then 10000 else if n == 3 then 20000 else if n == 4 then 40000 else 60000
  {
    assert Pow2(1) == 2 && Pow2(2) == 4 && Pow2(3) == 8 && Pow2(4) == 16;
    if 4 < n {
      RampRises(4, n - 1);
    }
  }

  method BackoffDelayMs(attempt: nat, stableMs: nat) returns (delay: nat)
    ensures delay == if STABLE_RESET <= stableMs then BACKOFF_BASE else Ramp(attempt)
    ensures delay ==
      if 180000 <= stableMs || attempt == 0 then 5000
      else if attempt == 1 then 10000 else if attempt == 2 then 20000 else if attempt == 3 then 40000 else 60000
  {
    RampSteps(attempt + 1);
    if STABLE_RESET <= stableMs {
      return BACKOFF_BASE;
    }
    delay := BACKOFF_BASE;
    for i := 0 to attempt
      invariant delay == BACKOFF_BASE * Pow2(i)
    {
      if BACKOFF_MAX <= delay {
        RampRises(i, attempt);
        break;
      }
      delay := delay * 2;
    }
    if BACKOFF_MAX < delay {
      delay := BACKOFF_MAX;
    }
  }

  // ----- the machine, as a function ---------------------------------------------------------------

  datatype State = Init | Connecting | Ready | Degraded | Reconnecting | Stopping | Stopped

  datatype Event = Start | ConnectOk | ConnectFail | ChannelLost | Retry | Stop | Finished

  datatype Life = Life(
    state: State, attempt: nat, readySince: nat, stable: nat, delay: nat,
    connectOks: nat, connectFails: nat, channelsLost: nat)

  const FRESH := Life(Init, 0, 0, 0, 0, 0, 0, 0)

  /** Consecutive failures count from one. */
  function Index(attempt: nat): nat { if attempt == 0 then 0 else attempt - 1 }

  function Delay(attempt: nat, stable: nat): nat {
    if STABLE_RESET <= stable then BACKOFF_BASE else Ramp(Index(attempt))
  }

  function Since(now: nat, then_: nat): nat { if then_ <= now then now - then_ else 0 }

  /** The live link is gone. A link that stood long enough earns a fresh ramp. */
  function Degrade(l: Life, now: nat): Life {
    var stable := Since(now, l.readySince);
    var attempt := if STABLE_RESET <= stable then 0 else l.attempt;
    l.(state := Degraded, stable := stable, attempt := attempt, delay := Delay(attempt, stable))
  }

  function BecomeReady(l: Life, now: nat): Life {
    l.(state := Ready, connectOks := l.connectOks + 1, readySince := now, stable := 0)
  }

  function Failed(l: Life): Life { l.(connectFails := l.connectFails + 1, attempt := l.attempt + 1) }

  function Next(l: Life, e: Event, now: nat): Life {
    match (l.state, e)
    case (Init, Start) => l.(state := Connecting)
    case (Connecting, ConnectOk) => BecomeReady(l, now)
    case (Connecting, ConnectFail) => Failed(l).(state := Reconnecting, delay := Delay(l.attempt + 1, l.stable))
    case (Ready, ChannelLost) => Degrade(l.(channelsLost := l.channelsLost + 1), now)
    case (Ready, ConnectFail) => Degrade(l.(connectFails := l.connectFails + 1), now)
    case (Degraded, Retry) => l.(state := Reconnecting, delay := Delay(l.attempt, l.stable))
    case (Degraded, ConnectOk) => BecomeReady(l, now)
    case (Degraded, ConnectFail) => Failed(l).(delay := Delay(l.attempt + 1, l.stable))
    case (Reconnecting, ConnectOk) => BecomeReady(l, now)
    case (Reconnecting, ConnectFail) => Failed(l).(delay := Delay(l.attempt + 1, 0))
    case (Stopping, Finished) => l.(state := Stopped)
    case (Stopping, _) => l
    case (Stopped, _) => l
    case (_, Stop) => l.(state := Stopping)
    case _ => l
  }

  // ----- the machine, as the program keeps it -------------------------------------------------------

  datatype Outcome = Handled | Moved | Unhandled

  /** What a state makes of an event: a transition, something done in place, or nothing. */
  function Verdict(s: State, e: Event): Outcome {
    match (s, e)
    case (Init, Start) => Moved
    case (Connecting, ConnectOk) => Moved
    case (Connecting, ConnectFail) => Moved
    case (Ready, ChannelLost) => Moved
    case (Ready, ConnectFail) => Moved
    case (Degraded, Retry) => Moved
    case (Degraded, ConnectOk) => Moved
    case (Degraded, ConnectFail) => Handled
    case (Reconnecting, ConnectOk) => Moved
    case (Reconnecting, ConnectFail) => Moved
    case (Stopping, Finished) => Moved
    case (Stopping, Stop) => Handled
    case (Stopped, Finished) => Handled
    case (Stopped, Stop) => Handled
    case (Stopping, _) => Unhandled
    case (Stopped, _) => Unhandled
    case (_, Stop) => Moved
    case _ => Unhandled
  }

  /** An event that a state has no use for changes nothing; only a transition changes the state. */
  lemma VerdictTells(l: Life, e: Event, now: nat)
    ensures Verdict(l.state, e).Unhandled? ==> Next(l, e, now) == l
    ensures Next(l, e, now).state != l.state ==> Verdict(l.state, e).Moved?
    ensures Verdict(l.state, e).Moved? ==> Next(l, e, now).state != l.state || (l.state == Reconnecting && e == ConnectFail)
  {
  }

  class Machine {
    const clock: nat -> nat
    var ticks: nat
    var started: bool
    var state: State
    var attempt: nat
    var readySince: nat
    var stableMs: nat
    var retryDelayMs: nat
    var connectOks: nat
    var connectFails: nat
    var channelsLost: nat

    /** The clock does not run backwards. */
    ghost predicate Valid() reads this {
      && (forall i, j :: 0 <= i <= j ==> clock(i) <= clock(j))
      && (state == Ready ==> readySince <= clock(ticks))
    }

    ghost function Now(): Life reads this {
      Life(state, attempt, readySince, stableMs, retryDelayMs, connectOks, connectFails, channelsLost)
    }

    constructor (clock: nat -> nat)
      requires forall i, j :: 0 <= i <= j ==> clock(i) <= clock(j)
      ensures Valid() && Now() == FRESH && !started && ticks == 0 && this.clock == clock
    {
      this.clock := clock;
      ticks, started, state := 0, false, Init;
      attempt, readySince, stableMs, retryDelayMs := 0, 0, 0, 0;
      connectOks, connectFails, channelsLost := 0, 0, 0;
    }

    method Begin()
      modifies this`started
      ensures started
    {
      started := true;
    }

    method ReadClock() returns (now: nat)
      requires Valid()
      modifies this`ticks
      ensures Valid() && now == clock(old(ticks)) && ticks == old(ticks) + 1
      ensures now <= clock(ticks)
    {
      now := clock(ticks);
      ticks := ticks + 1;
    }

    method RetryDelay(stable: nat) returns (delay: nat)
      ensures delay == Delay(attempt, stable)
    {
      delay := BackoffDelayMs(if attempt == 0 then 0 else attempt - 1, stable);
    }

    /** A transition runs the entry action of its target. */
    method Enter(to: State) returns (r: Outcome)
      requires Valid()
      modifies this`state, this`ticks, this`readySince, this`stableMs
      ensures Valid() && r == Moved && old(ticks) <= ticks
      ensures Now() == if to == Ready then old(Now()).(state := Ready, readySince := clock(old(ticks)), stable := 0)
                       else old(Now()).(state := to)
    {
      if to == Ready {
        readySince := ReadClock();
        stableMs := 0;
      }
      state := to;
      r := Moved;
    }

    method HandleInit(e: Event) returns (r: Outcome)
      requires Valid() && state == Init
      modifies this
      ensures Valid() && started == old(started) && old(ticks) <= ticks && Now() == Next(old(Now()), e, clock(old(ticks)))
      ensures r == Verdict(Init, e)
    {
      match e
      case Start => r := Enter(Connecting);
      case Stop => r := Enter(Stopping);
      case _ => r := Unhandled;
    }

    method HandleConnecting(e: Event) returns (r: Outcome)
      requires Valid() && state == Connecting
      modifies this
      ensures Valid() && started == old(started) && old(ticks) <= ticks && Now() == Next(old(Now()), e, clock(old(ticks)))
      ensures r == Verdict(Connecting, e)
    {
      match e
      case ConnectOk =>
        connectOks := connectOks + 1;
        r := Enter(Ready);
      case ConnectFail =>
        connectFails := connectFails + 1;
        attempt := attempt + 1;
        retryDelayMs := RetryDelay(stableMs);
        r := Enter(Reconnecting);
      case Stop => r := Enter(Stopping);
      case _ => r := Unhandled;
    }

    method DegradeNow() returns (r: Outcome)
      requires Valid() && state == Ready
      modifies this
      ensures Valid() && started == old(started) && old(ticks) <= ticks && Now() == Degrade(old(Now()), clock(old(ticks)))
      ensures r == Moved
    {
      var now := ReadClock();
      stableMs := now - readySince;
      if STABLE_RESET <= stableMs {
        attempt := 0;
      }
      retryDelayMs := RetryDelay(stableMs);
      r := Enter(Degraded);
    }

    method HandleReady(e: Event) returns (r: Outcome)
      requires Valid() && state == Ready
      modifies this
      ensures Valid() && started == old(started) && old(ticks) <= ticks && Now() == Next(old(Now()), e, clock(old(ticks)))
      ensures r == Verdict(Ready, e)
    {
      match e
      case ChannelLost =>
        channelsLost := channelsLost + 1;
        r := DegradeNow();
      case ConnectFail =>
        connectFails := connectFails + 1;
        r := DegradeNow();
      case Stop => r := Enter(Stopping);
      case _ => r := Unhandled;
    }

    method HandleDegraded(e: Event) returns (r: Outcome)
      requires Valid() && state == Degraded
      modifies this
      ensures Valid() && started == old(started) && old(ticks) <= ticks && Now() == Next(old(Now()), e, clock(old(ticks)))
      ensures r == Verdict(Degraded, e)
    {
      match e
      case Retry =>
        retryDelayMs := RetryDelay(stableMs);
        r := Enter(Reconnecting);
      case ConnectOk =>
        connectOks := connectOks + 1;
        r := Enter(Ready);
      case ConnectFail =>
        connectFails := connectFails + 1;
        attempt := attempt + 1;
        retryDelayMs := RetryDelay(stableMs);
        r := Handled;
      case Stop => r := Enter(Stopping);
      case _ => r := Unhandled;
    }

    method HandleReconnecting(e: Event) returns (r: Outcome)
      requires Valid() && state == Reconnecting
      modifies this
      ensures Valid() && started == old(started) && old(ticks) <= ticks && Now() == Next(old(Now()), e, clock(old(ticks)))
      ensures r == Verdict(Reconnecting, e)
    {
      match e
      case ConnectOk =>
        connectOks := connectOks + 1;
        r := Enter(Ready);
      case ConnectFail =>
        connectFails := connectFails + 1;
        attempt := attempt + 1;
        retryDelayMs := RetryDelay(0);
        r := Enter(Reconnecting);
      case Stop => r := Enter(Stopping);
      case _ => r := Unhandled;
    }

    method HandleStopping(e: Event) returns (r: Outcome)
      requires Valid() && state == Stopping
      modifies this
      ensures Valid() && started == old(started) && old(ticks) <= ticks && Now() == Next(old(Now()), e, clock(old(ticks)))
      ensures r == Verdict(Stopping, e)
    {
      match e
      case Finished => r := Enter(Stopped);
      case Stop => r := Handled;
      case _ => r := Unhandled;
    }

    /** Hands one event to the handler of the current state. */
    method Dispatch(e: Event) returns (r: Outcome)
      requires Valid()
      modifies this
      ensures Valid() && started == old(started) && old(ticks) <= ticks && Now() == Next(old(Now()), e, clock(old(ticks)))
      ensures r == Verdict(old(state), e)
    {
      match state
      case Init => r := HandleInit(e);
      case Connecting => r := HandleConnecting(e);
      case Ready => r := HandleReady(e);
      case Degraded => r := HandleDegraded(e);
      case Reconnecting => r := HandleReconnecting(e);
      case Stopping => r := HandleStopping(e);
      case Stopped => r := if e == Finished || e == Stop then Handled else Unhandled;
    }

    /** Feeds one event; a machine that has not begun takes none. */
    method Post(e: Event) returns (taken: bool)
      requires Valid()
      modifies this
      ensures Valid() && started == old(started) && taken == started
      ensures Now() == if started then Next(old(Now()), e, clock(old(ticks))) else old(Now())
      ensures old(ticks) <= ticks
    {
      taken := started;
      if !started {
        return;
      }
      var r := Dispatch(e);
    }
  }

  // ----- every run -----------------------------------------------------------------------------------

  datatype Stamped = Stamped(event: Event, now: nat)

  function Exec(es: seq<Stamped>): Life {
    if es == [] then FRESH
    else
      var last := es[|es| - 1];
      Next(Exec(es[..|es| - 1]), last.event, last.now)
  }

  /** Since the machine was last Ready, a failure was taken in Reconnecting. */
  ghost predicate FailedReconnecting(es: seq<Stamped>) {
    if es == [] then false
    else
      var before := Exec(es[..|es| - 1]);
      var last := es[|es| - 1];
      if before.state == Reconnecting && last.event == ConnectFail then true
      else if Exec(es).state == Ready then false
      else FailedReconnecting(es[..|es| - 1])
  }

  predicate Waits(s: State) { s == Degraded || s == Reconnecting }

  ghost predicate DelayIsRight(l: Life, failed: bool) {
    && (Waits(l.state) ==> l.delay == if STABLE_RESET <= l.stable && !failed then BACKOFF_BASE else Ramp(Index(l.attempt)))
    && l.delay <= Ramp(Index(l.attempt))
    && (l.state == Ready || l.state == Init || l.state == Connecting ==> l.stable == 0)
    && (failed ==> l.state == Reconnecting || l.state == Stopping || l.state == Stopped)
  }

  lemma NextKeepsDelay(l: Life, e: Event, now: nat, failed: bool)
    requires DelayIsRight(l, failed)
    ensures var after := Next(l, e, now);
      DelayIsRight(after, if l.state == Reconnecting && e == ConnectFail then true
                          else if after.state == Ready then false else failed)
  {
    RampRises(0, Index(l.attempt));
    RampRises(Index(l.attempt), Index(l.attempt + 1));
    hide Ramp;
  }

  /** When the machine became Ready, as of the last time that it did. */
  ghost function ReadyAt(es: seq<Stamped>): nat {
    if es == [] then 0
    else
      var init, last := es[..|es| - 1], es[|es| - 1];
      if Exec(init).state != Ready && Exec(es).state == Ready then last.now else ReadyAt(init)
  }

  /** How long the last Ready that has ended in Degraded stood, told from the history alone. */
  ghost function Stood(es: seq<Stamped>): nat {
    if es == [] then 0
    else
      var init, last := es[..|es| - 1], es[|es| - 1];
      if Exec(init).state == Ready && Exec(es).state == Degraded then Since(last.now, ReadyAt(init)) else Stood(init)
  }

  /** The failures to connect that still count: those taken while connecting, degraded or reconnecting
      since the last Ready that stood three minutes was lost. */
  ghost function Failures(es: seq<Stamped>): nat {
    if es == [] then 0
    else
      var init, last := es[..|es| - 1], es[|es| - 1];
      var was := Exec(init).state;
      if last.event == ConnectFail && was in {Connecting, Degraded, Reconnecting} then Failures(init) + 1
      else if was == Ready && Exec(es).state == Degraded && ReadyAt(init) + 180000 <= last.now then 0
      else Failures(init)
  }

  /** The count that the machine keeps is that of the history. */
  lemma {:induction false} AttemptIsFailures(es: seq<Stamped>)
    ensures Exec(es).attempt == Failures(es)
  {
    if es != [] {
      var init := es[..|es| - 1];
      AttemptIsFailures(init);
      if Exec(init).state == Ready {
        ReadySinceIsReadyAt(init);
      }
    }
  }

  /** How often the event came while the machine was in one of these states. */
  ghost function Taken(es: seq<Stamped>, e: Event, states: set<State>): nat {
    if es == [] then 0
    else
      var init, last := es[..|es| - 1], es[|es| - 1];
      Taken(init, e, states) + if last.event == e && Exec(init).state in states then 1 else 0
  }

  /** The counters count the events that were taken. */
  lemma {:induction false} CountersOverEveryRun(es: seq<Stamped>)
    ensures Exec(es).connectOks == Taken(es, ConnectOk, {Connecting, Degraded, Reconnecting})
    ensures Exec(es).connectFails == Taken(es, ConnectFail, {Connecting, Ready, Degraded, Reconnecting})
    ensures Exec(es).channelsLost == Taken(es, ChannelLost, {Ready})
  {
    hide Delay, Since;
    if es != [] {
      CountersOverEveryRun(es[..|es| - 1]);
    }
  }

  lemma {:induction false} ReadySinceIsReadyAt(es: seq<Stamped>)
    requires Exec(es).state == Ready
    ensures Exec(es).readySince == ReadyAt(es)
  {
    if es != [] {
      var init := es[..|es| - 1];
      if Exec(init).state == Ready {
        ReadySinceIsReadyAt(init);
      }
    }
  }

  lemma NextStable(l: Life, e: Event, now: nat)
    requires Waits(Next(l, e, now).state)
    ensures l.state == Ready ==> Next(l, e, now).state == Degraded && Next(l, e, now).stable == Since(now, l.readySince)
    ensures l.state != Ready ==> Next(l, e, now).stable == l.stable && (Waits(l.state) || l.state == Connecting)
  {
    hide Ramp;
  }

  /** While the machine waits, what it keeps as the stable time is how long the last Ready stood. */
  lemma {:induction false} StableIsHowLongReadyStood(es: seq<Stamped>)
    requires Waits(Exec(es).state)
    ensures Exec(es).stable == Stood(es)
  {
    hide Next, Since;
    var init, last := es[..|es| - 1], es[|es| - 1];
    NextStable(Exec(init), last.event, last.now);
    if Exec(init).state == Ready {
      ReadySinceIsReadyAt(init);
    } else if Waits(Exec(init).state) {
      StableIsHowLongReadyStood(init);
    } else {
      NeverReady(init);
    }
  }

  /** Before the first connection nothing has stood. */
  lemma {:induction false} NeverReady(es: seq<Stamped>)
    requires Exec(es).state == Init || Exec(es).state == Connecting
    ensures Exec(es).stable == 0 && Stood(es) == 0
  {
    if es != [] {
      NeverReady(es[..|es| - 1]);
    }
  }

  lemma {:induction false} DelayIsAlwaysRight(es: seq<Stamped>)
    ensures DelayIsRight(Exec(es), FailedReconnecting(es))
  {
    if es == [] {
      RampRises(0, 0);
    } else {
      var init, last := es[..|es| - 1], es[|es| - 1];
      DelayIsAlwaysRight(init);
      NextKeepsDelay(Exec(init), last.event, last.now, FailedReconnecting(init));
      hide Next, DelayIsRight;
    }
  }

  /** In Degraded and Reconnecting the delay is five seconds when the last Ready stood for three
      minutes and no failure was taken in Reconnecting since; otherwise the failures of the history
      double it, up to a minute. */
  lemma DelayOverEveryRun(es: seq<Stamped>)
    requires Waits(Exec(es).state)
    ensures var n := Failures(es);
      Exec(es).delay ==
        if (180000 <= Stood(es) && !FailedReconnecting(es)) || n <= 1 then 5000
        else if n == 2 then 10000 else if n == 3 then 20000 else if n == 4 then 40000 else 60000
  {
    DelayIsAlwaysRight(es);
    StableIsHowLongReadyStood(es);
    AttemptIsFailures(es);
    RampSteps(Failures(es));
    hide Exec, Stood, FailedReconnecting, Ramp;
  }

  /** So a wait is never shorter than five seconds nor longer than a minute. */
  lemma WaitsAreBounded(es: seq<Stamped>)
    requires Waits(Exec(es).state)
    ensures 5000 <= Exec(es).delay <= 60000
  {
    DelayIsAlwaysRight(es);
    RampRises(0, Index(Exec(es).attempt));
  }

  lemma NextDropsOnlyThere(l: Life, e: Event, now: nat, failed: bool)
    requires DelayIsRight(l, failed) && Next(l, e, now).delay < l.delay
    ensures l.state == Ready && Next(l, e, now) == Degrade(l.(channelsLost := Next(l, e, now).channelsLost,
                                                              connectFails := Next(l, e, now).connectFails), now)
    ensures STABLE_RESET <= Since(now, l.readySince)
  {
    RampRises(0, Index(l.attempt));
    RampRises(Index(l.attempt), Index(l.attempt + 1));
    hide Ramp;
  }

  /** The delay never drops, except when a Ready that stood for three minutes ends. */
  lemma DelayNeverDrops(es: seq<Stamped>, next: Stamped)
    requires Exec(es + [next]).delay < Exec(es).delay
    ensures Exec(es).state == Ready && Exec(es + [next]).state == Degraded
    ensures 180000 <= Exec(es + [next]).stable == Since(next.now, Exec(es).readySince)
    ensures Exec(es + [next]).attempt == 0 && Exec(es + [next]).delay == 5000
  {
    assert (es + [next])[..|es|] == es;
    DelayIsAlwaysRight(es);
    NextDropsOnlyThere(Exec(es), next.event, next.now, FailedReconnecting(es));
    hide Next, DelayIsRight;
  }

  /** Once stopping is entered only stopping and stopped follow, and stopped is final. */
  lemma {:induction false} StoppingIsFinal(es: seq<Stamped>, more: seq<Stamped>)
    requires Exec(es).state == Stopping || Exec(es).state == Stopped
    ensures Exec(es + more).state == Stopping || Exec(es + more).state == Stopped
    ensures Exec(es).state == Stopped ==> Exec(es + more) == Exec(es)
  {
    if more == [] {
      assert es + more == es;
    } else {
      var init := more[..|more| - 1];
      assert (es + more)[..|es + more| - 1] == es + init;
      StoppingIsFinal(es, init);
    }
  }

  // ----- the state, told from the events ---------------------------------------------------------------

  /** The event was seen, at `from` or later. */
  ghost predicate Seen(es: seq<Stamped>, from: nat, e: Event) { exists i :: from <= i < |es| && es[i].event == e }

  lemma SeenNext(es: seq<Stamped>, last: Stamped, from: nat, e: Event)
    ensures Seen(es + [last], from, e) <==> Seen(es, from, e) || (from <= |es| && last.event == e)
  {
    var all := es + [last];
    if Seen(es, from, e) {
      var i :| from <= i < |es| && es[i].event == e;
      assert all[i].event == e;
    }
    assert all[|es|] == last;
  }

  lemma SeenEarlier(es: seq<Stamped>, i: nat, e: Event)
    requires i <= |es|
    ensures Seen(es[..i], 0, e) ==> Seen(es, 0, e)
  {
    if Seen(es[..i], 0, e) {
      var k :| 0 <= k < i && es[..i][k].event == e;
      assert es[k].event == e;
    }
  }

  /** The connection made by event `i` still stands. */
  ghost predicate UpSince(es: seq<Stamped>, i: nat) {
    && i < |es| && es[i].event == ConnectOk && Seen(es[..i], 0, Start)
    && !Seen(es, i + 1, ConnectFail) && !Seen(es, i + 1, ChannelLost)
  }

  /** Event `i` is the one that began, and nothing has come of it yet. */
  ghost predicate TryingSince(es: seq<Stamped>, i: nat) {
    && i < |es| && es[i].event == Start && !Seen(es[..i], 0, Start)
    && !Seen(es, i + 1, ConnectOk) && !Seen(es, i + 1, ConnectFail)
  }

  /** The connection made by event `i` was lost by event `j`, and neither a new one nor a retry has
      come since. */
  ghost predicate DownSince(es: seq<Stamped>, i: nat, j: nat) {
    && i < j < |es| && UpSince(es[..j], i) && (es[j].event == ConnectFail || es[j].event == ChannelLost)
    && !Seen(es, j + 1, ConnectOk) && !Seen(es, j + 1, Retry)
  }

  /** Event `i` asked to stop, and word that it is done came later. */
  ghost predicate StopDone(es: seq<Stamped>, i: nat) { i < |es| && es[i].event == Stop && Seen(es, i + 1, Finished) }

  ghost predicate IsStopped(es: seq<Stamped>) { exists i :: StopDone(es, i) }

  ghost predicate IsUp(es: seq<Stamped>) { exists i :: UpSince(es, i) }

  ghost predicate IsTrying(es: seq<Stamped>) { exists i :: TryingSince(es, i) }

  ghost predicate IsDown(es: seq<Stamped>) { exists i, j :: DownSince(es, i, j) }

  lemma UpSinceNext(es: seq<Stamped>, last: Stamped, i: nat)
    ensures UpSince(es + [last], i) <==>
      if i == |es| then last.event == ConnectOk && Seen(es, 0, Start)
      else UpSince(es, i) && last.event != ConnectFail && last.event != ChannelLost
  {
    hide Seen;
    var all := es + [last];
    SeenNext(es, last, i + 1, ConnectFail);
    SeenNext(es, last, i + 1, ChannelLost);
    NothingBehind(all, i + 1, ConnectFail);
    NothingBehind(all, i + 1, ChannelLost);
    assert i <= |es| ==> all[..i] == es[..i] && es[..|es|] == es;
  }

  lemma NothingBehind(es: seq<Stamped>, from: nat, e: Event)
    ensures |es| <= from ==> !Seen(es, from, e)
  {
  }

  lemma IsUpNext(es: seq<Stamped>, last: Stamped)
    ensures IsUp(es + [last]) <==>
      if last.event == ConnectOk then Seen(es, 0, Start)
      else last.event != ConnectFail && last.event != ChannelLost && IsUp(es)
    ensures IsUp(es) ==> Seen(es, 0, Start)
  {
    hide Seen, UpSince;
    forall i: nat ensures UpSince(es, i) ==> Seen(es, 0, Start) {
      UpNeedsStart(es, i);
      UpSinceNext(es, last, i);
    }
    UpSinceNext(es, last, |es|);
    if IsUp(es) {
      var i :| UpSince(es, i);
      UpSinceNext(es, last, i);
      UpNeedsStart(es, i);
    }
    if IsUp(es + [last]) {
      var i :| UpSince(es + [last], i);
      UpSinceNext(es, last, i);
      UpNeedsStart(es, i);
    }
  }

  lemma UpNeedsStart(es: seq<Stamped>, i: nat)
    ensures UpSince(es, i) ==> i < |es| && Seen(es, 0, Start)
  {
    if UpSince(es, i) {
      SeenEarlier(es, i, Start);
    }
  }

  lemma TryingSinceNext(es: seq<Stamped>, last: Stamped, i: nat)
    ensures TryingSince(es + [last], i) <==>
      if i == |es| then last.event == Start && !Seen(es, 0, Start)
      else TryingSince(es, i) && last.event != ConnectOk && last.event != ConnectFail
    ensures TryingSince(es, i) ==> i < |es| && Seen(es, 0, Start)
  {
    if TryingSince(es, i) {
      assert es[i].event == Start;
    }
    hide Seen;
    var all := es + [last];
    SeenNext(es, last, i + 1, ConnectOk);
    SeenNext(es, last, i + 1, ConnectFail);
    NothingBehind(all, i + 1, ConnectOk);
    NothingBehind(all, i + 1, ConnectFail);
    assert i <= |es| ==> all[..i] == es[..i] && es[..|es|] == es;
  }

  lemma IsTryingNext(es: seq<Stamped>, last: Stamped)
    ensures IsTrying(es + [last]) <==>
      if last.event == Start && !Seen(es, 0, Start) then true
      else last.event != ConnectOk && last.event != ConnectFail && IsTrying(es)
    ensures IsTrying(es) ==> Seen(es, 0, Start)
  {
    hide Seen, TryingSince;
    TryingSinceNext(es, last, |es|);
    if IsTrying(es) {
      var i :| TryingSince(es, i);
      TryingSinceNext(es, last, i);
    }
    if IsTrying(es + [last]) {
      var i :| TryingSince(es + [last], i);
      TryingSinceNext(es, last, i);
    }
  }

  lemma DownSinceNext(es: seq<Stamped>, last: Stamped, i: nat, j: nat)
    ensures DownSince(es + [last], i, j) <==>
      if j == |es| then UpSince(es, i) && (last.event == ConnectFail || last.event == ChannelLost)
      else DownSince(es, i, j) && last.event != ConnectOk && last.event != Retry
    ensures DownSince(es, i, j) ==> j < |es| && forall k :: !UpSince(es, k)
  {
    UpAndDown(es, i, j);
    UpNeedsStart(es, i);
    hide Seen, UpSince;
    var all := es + [last];
    SeenNext(es, last, j + 1, ConnectOk);
    SeenNext(es, last, j + 1, Retry);
    NothingBehind(all, j + 1, ConnectOk);
    NothingBehind(all, j + 1, Retry);
    assert j <= |es| ==> all[..j] == es[..j] && es[..|es|] == es;
  }

  lemma UpAndDown(es: seq<Stamped>, i: nat, j: nat)
    ensures DownSince(es, i, j) ==> forall k :: !UpSince(es, k)
  {
    forall k: nat | DownSince(es, i, j) && UpSince(es, k) ensures false {
      assert false;
    }
  }

  lemma IsDownNext(es: seq<Stamped>, last: Stamped)
    ensures IsDown(es + [last]) <==>
      if last.event == ConnectFail || last.event == ChannelLost then IsUp(es) || IsDown(es)
      else last.event != ConnectOk && last.event != Retry && IsDown(es)
    ensures !(IsUp(es) && IsDown(es))
  {
    hide Seen, UpSince, DownSince;
    if IsUp(es) {
      var i :| UpSince(es, i);
      DownSinceNext(es, last, i, |es|);
    }
    if IsDown(es) {
      var i, j :| DownSince(es, i, j);
      DownSinceNext(es, last, i, j);
    }
    if IsDown(es + [last]) {
      var i, j :| DownSince(es + [last], i, j);
      DownSinceNext(es, last, i, j);
    }
  }

  /** A connection comes after an event that began. */
  lemma UpComesLater(es: seq<Stamped>, part: seq<Stamped>, k: nat)
    requires UpSince(part, k) && part <= es
    ensures k < |es| && es[k].event == ConnectOk && exists b :: 0 <= b < k && es[b].event == Start
  {
    var b :| 0 <= b < k && part[..k][b].event == Start;
    assert es[b].event == Start;
  }

  lemma TryingIsNotConnected(es: seq<Stamped>, i: nat, part: seq<Stamped>, k: nat)
    requires TryingSince(es, i) && part <= es
    ensures !UpSince(part, k)
  {
    if UpSince(part, k) {
      UpComesLater(es, part, k);
      BegunFirst(es, i);
      assert false;
    }
  }

  lemma BegunFirst(es: seq<Stamped>, i: nat)
    requires TryingSince(es, i)
    ensures forall b :: 0 <= b < |es| && es[b].event == Start ==> i <= b
  {
    forall b | 0 <= b < i ensures es[b].event != Start {
      assert es[..i][b] == es[b];
    }
  }

  lemma TryingIsNeither(es: seq<Stamped>)
    ensures IsTrying(es) ==> !IsUp(es) && !IsDown(es)
  {
    hide Seen, UpSince, TryingSince;
    if IsTrying(es) {
      var i :| TryingSince(es, i);
      forall k: nat ensures !UpSince(es, k) {
        TryingIsNotConnected(es, i, es, k);
      }
      forall k: nat, j: nat ensures !DownSince(es, k, j) {
        if j <= |es| {
          TryingIsNotConnected(es, i, es[..j], k);
        }
      }
    }
  }

  lemma StopDoneNext(es: seq<Stamped>, last: Stamped, i: nat)
    ensures StopDone(es + [last], i) <==> StopDone(es, i) || (i < |es| && es[i].event == Stop && last.event == Finished)
    ensures StopDone(es, i) ==> Seen(es, 0, Stop)
  {
    SeenNext(es, last, i + 1, Finished);
    NothingBehind(es + [last], i + 1, Finished);
    assert i < |es| ==> (es + [last])[i] == es[i];
  }

  lemma StoppedNext(es: seq<Stamped>, last: Stamped)
    ensures IsStopped(es + [last]) <==> IsStopped(es) || (last.event == Finished && Seen(es, 0, Stop))
    ensures IsStopped(es) ==> Seen(es, 0, Stop)
  {
    forall i: nat ensures
      && (StopDone(es + [last], i) <==> StopDone(es, i) || (i < |es| && es[i].event == Stop && last.event == Finished))
      && (StopDone(es, i) ==> Seen(es, 0, Stop))
    {
      StopDoneNext(es, last, i);
    }
    if last.event == Finished && Seen(es, 0, Stop) {
      var i :| 0 <= i < |es| && es[i].event == Stop;
      assert StopDone(es + [last], i);
    }
  }

  /** The state after any events, told from the events alone: stopping for good from the first stop
      on; until then connecting until something has come of it, ready while the last connection made
      stands, degraded from its loss to the next retry, and reconnecting otherwise. */
  lemma {:induction false} StateOverEveryRun(es: seq<Stamped>)
    ensures var state := Exec(es).state;
      if Seen(es, 0, Stop) then
        state == if IsStopped(es) then Stopped else Stopping
      else if !Seen(es, 0, Start) then state == Init
      else if IsTrying(es) then state == Connecting
      else if IsUp(es) then state == Ready
      else if IsDown(es) then state == Degraded
      else state == Reconnecting
  {
    hide Seen, IsTrying, IsUp, IsDown, IsStopped, Delay, Since;
    if es == [] {
      NothingBehind(es, 0, Stop);
      NothingBehind(es, 0, Start);
    } else {
      var init, last := es[..|es| - 1], es[|es| - 1];
      StateOverEveryRun(init);
      TryingIsNeither(init);
      assert es == init + [last];
      SeenNext(init, last, 0, Stop);
      SeenNext(init, last, 0, Start);
      IsTryingNext(init, last);
      IsUpNext(init, last);
      IsDownNext(init, last);
      StoppedNext(init, last);
    }
  }
}
