/** The upload deadline: `Run` on any number of threads against one watchdog that
    calls `UploadOverdue`. Every atomic access is one sequentially consistent step,
    so an interleaving is a sequence of labels and the theorems quantify over all
    of them. */
module Deadline {

  // The flight generation is a u32 and 0 means "nothing in flight".
  const GENERATIONS: nat := 0x1_0000_0000

  datatype Outcome = StepFailed | TimedOut | Delivered

  /** What a caller inside `Run` does next. */
  datatype Place =
    | Number     // fetch_add of the generation
    | Clock      // read Now()
    | Start      // store the start time
    | Arm        // store the armed flag
    | Publish    // store the active generation
    | Step       // capture, mkdir, upload or publish
    | Check      // load the latch after a step that succeeded
    | Fail       // clear the armed flag after a step broke
    | FailRetire // clear the active generation after a step broke
    | Prune      // retention pass, then clear the armed flag
    | Retire     // clear the active generation after the retention pass
    | LastCheck  // the last load of the latch
    | Leave      // clear the in-flight flag and return

  /** `step` counts 0..3 over the four steps; `latchedBefore` and `checks`, what each load of the
      latch found, are history. */
  datatype Caller = Caller(at: Place, gen: nat, now: nat, step: nat, why: Outcome, latchedBefore: bool, checks: seq<bool>)

  /** What the watchdog does next inside `UploadOverdue`. */
  datatype DogPlace =
    | LoadActive | LoadLatch | LoadStart | LoadArmed | ReadClock | Reload | Latch | Count

  datatype Dog = Dog(at: DogPlace, gen: nat, start: nat)

  datatype Result = Result(gen: nat, latchedBefore: bool, why: Outcome, checks: seq<bool>)

  /** The seven atomics of the pipeline. */
  datatype Atomics = Atomics(inFlight: bool, generation: nat, active: nat, expired: nat,
                             start: nat, armed: bool, count: nat)

  datatype History = History(flights: nat, startOf: map<nat, nat>, published: set<nat>,
                             latchedAt: map<nat, nat>, counted: set<nat>, results: seq<Result>)

  datatype State = State(timeout: nat, a: Atomics, clock: nat, callers: map<nat, Caller>, dog: Dog, h: History)

  datatype Label =
    | Tick(ms: nat)
    | Enter(t: nat)
    | Run(t: nat, stepOk: bool)
    | Watch

  function Init(timeout: nat): State {
    State(timeout, Atomics(false, 0, 0, 0, 0, false, 0), 0, map[], Dog(LoadActive, 0, 0),
          History(0, map[], {}, map[], {}, []))
  }

  /** The next place of a caller; the part of a step that only concerns the caller. */
  function NextCaller(s: State, c: Caller, stepOk: bool): Caller {
    match c.at
    case Number => c.(at := Clock, gen := (s.a.generation + 1) % GENERATIONS)
    case Clock => c.(at := Start, now := s.clock)
    case Start => c.(at := Arm)
    case Arm => c.(at := Publish)
    case Publish => c.(at := Step, step := 0)
    case Step => if stepOk then c.(at := Check) else c.(at := Fail, why := StepFailed)
    case Check =>
      var seen := c.(checks := c.checks + [s.a.expired == c.gen]);
      if s.a.expired == c.gen then seen.(at := Fail, why := TimedOut)
      else if c.step < 3 then seen.(at := Step, step := c.step + 1)
      else seen.(at := Prune)
    case Fail => c.(at := FailRetire)
    case FailRetire => c.(at := Leave, latchedBefore := c.gen in s.h.latchedAt)
    case Prune => c.(at := Retire)
    case Retire => c.(at := LastCheck, latchedBefore := c.gen in s.h.latchedAt)
    case LastCheck =>
      c.(at := Leave, why := if s.a.expired == c.gen then TimedOut else Delivered, checks := c.checks + [s.a.expired == c.gen])
    case Leave => c
  }

  /** The store a caller makes. */
  function NextAtomics(a: Atomics, c: Caller): Atomics {
    match c.at
    case Number => a.(generation := (a.generation + 1) % GENERATIONS)
    case Start => a.(start := c.now)
    case Arm => a.(armed := true)
    case Publish => a.(active := c.gen)
    case Fail => a.(armed := false)
    case FailRetire => a.(active := 0)
    case Prune => a.(armed := false)
    case Retire => a.(active := 0)
    case Leave => a.(inFlight := false)
    case _ => a
  }

  function NextHistory(h: History, c: Caller): History {
    match c.at
    case Number => h.(flights := h.flights + 1)
    case Start => h.(startOf := h.startOf[c.gen := c.now])
    case Publish => h.(published := h.published + {c.gen})
    case Leave => h.(results := h.results + [Result(c.gen, c.latchedBefore, c.why, c.checks)])
    case _ => h
  }

  function RunStep(s: State, t: nat, c: Caller, stepOk: bool): State {
    s.(a := NextAtomics(s.a, c),
       h := NextHistory(s.h, c),
       callers := if c.at == Leave then s.callers - {t} else s.callers[t := NextCaller(s, c, stepOk)])
  }

  /** One step of the watchdog. Returning from `UploadOverdue` goes back to LoadActive. */
  function DogStep(s: State): State {
    var d := s.dog;
    var back := d.(at := LoadActive);
    match d.at
    case LoadActive => s.(dog := if s.a.active == 0 then back else Dog(LoadLatch, s.a.active, 0))
    case LoadLatch => s.(dog := if s.a.expired == d.gen || s.timeout == 0 then back else d.(at := LoadStart))
    case LoadStart => s.(dog := d.(at := LoadArmed, start := s.a.start))
    case LoadArmed => s.(dog := if s.a.armed then d.(at := ReadClock) else back)
    case ReadClock => s.(dog := if s.clock - d.start < s.timeout then back else d.(at := Reload))
    case Reload => s.(dog := if s.a.active == d.gen then d.(at := Latch) else back)
    case Latch =>
      s.(a := s.a.(expired := d.gen), h := s.h.(latchedAt := s.h.latchedAt[d.gen := s.clock]), dog := d.(at := Count))
    case Count =>
      s.(a := s.a.(count := s.a.count + 1), h := s.h.(counted := s.h.counted + {d.gen}), dog := back)
  }

  /** A label that is not enabled changes nothing. `Enter` by a caller that finds the
      flag set is the refused trigger: it stores true over true and leaves. */
  function Do(s: State, l: Label): State {
    match l
    case Tick(ms) => s.(clock := s.clock + ms)
    case Enter(t) =>
      if t in s.callers || s.a.inFlight then s
      else s.(a := s.a.(inFlight := true), callers := s.callers[t := Caller(Number, 0, 0, 0, StepFailed, false, [])])
    case Run(t, ok) => if t in s.callers then RunStep(s, t, s.callers[t], ok) else s
    case Watch => DogStep(s)
  }

  function Exec(s: State, ls: seq<Label>): State {
    if ls == [] then s else Do(Exec(s, ls[..|ls| - 1]), ls[|ls| - 1])
  }

  // ----- the invariant ------------------------------------------------------

  /** Places between the publication of the generation and its retirement. */
  predicate Live(p: Place) {
    p == Step || p == Check || p == Fail || p == FailRetire || p == Prune || p == Retire
  }

  predicate Unpublished(p: Place) { p == Clock || p == Start || p == Arm || p == Publish }

  /** None of these loads found the latch of the flight. */
  predicate Clear(checks: seq<bool>) { forall i :: 0 <= i < |checks| ==> !checks[i] }

  /** The last load, and only that, found it. */
  predicate Found(checks: seq<bool>) { checks != [] && checks[|checks| - 1] && Clear(checks[..|checks| - 1]) }

  /** A broken step ends a flight that no load has found latched, a timeout is what the last load
      found, and a delivery takes five loads that find nothing. */
  predicate ChecksFit(checks: seq<bool>, why: Outcome) {
    match why
    case StepFailed => |checks| <= 3 && Clear(checks)
    case TimedOut => |checks| <= 5 && Found(checks)
    case Delivered => |checks| == 5 && Clear(checks)
  }

  ghost predicate OutcomeInv(h: History, r: Result) {
    && (r.why == TimedOut ==> r.gen in h.latchedAt)
    && (r.why == Delivered ==> !r.latchedBefore)
    && ChecksFit(r.checks, r.why)
  }

  /** How many loads of the latch a caller has made that is still on its way. */
  function Loads(c: Caller): nat {
    if c.at == Step || c.at == Check then c.step
    else if c.at == Prune || c.at == Retire || c.at == LastCheck then 4 else 0
  }

  /** What the loads of a caller inside `Run` have found so far. */
  predicate ChecksInv(c: Caller) {
    if c.at == Fail || c.at == FailRetire || c.at == Leave then ChecksFit(c.checks, c.why)
    else Clear(c.checks) && |c.checks| == Loads(c)
  }

  /** What holds of a caller inside `Run`. */
  ghost predicate CallerInv(a: Atomics, h: History, clock: nat, c: Caller) {
    && a.active == (if Live(c.at) then c.gen else 0)
    && (c.at != Number ==> c.gen == h.flights && 1 <= c.gen)
    && ((c.at == Clock || c.at == Start) ==> c.gen !in h.startOf)
    && (c.at == Start ==> c.now <= clock)
    && (Unpublished(c.at) ==> c.gen !in h.published)
    && (c.at != Number && !Unpublished(c.at) ==> c.gen in h.published)
    && (c.at != Number && c.at != Clock && c.at != Start ==> c.gen in h.startOf && a.start == h.startOf[c.gen])
    && ((c.at == Step || c.at == Check) ==> c.step <= 3)
    && ((c.at == Fail || c.at == FailRetire) ==> c.why != Delivered)
    && ((c.at == Fail || c.at == FailRetire || c.at == Leave) && c.why == TimedOut ==> c.gen in h.latchedAt)
    && (c.at == LastCheck && c.latchedBefore ==> c.gen in h.latchedAt)
    && (c.at == Leave && c.why == Delivered ==> !c.latchedBefore)
    && ChecksInv(c)
  }

  ghost predicate FlightInv(s: State) {
    && s.a.generation == s.h.flights < GENERATIONS
    && (forall g :: g in s.h.startOf ==> 1 <= g <= s.h.flights && s.h.startOf[g] <= s.clock)
    && (forall g :: g in s.h.published ==> g in s.h.startOf)
    && (forall i :: 0 <= i < |s.h.results| ==>
          OutcomeInv(s.h, s.h.results[i]))
  }

  ghost predicate CallersInv(s: State) {
    && (s.a.inFlight <==> s.callers != map[])
    && (forall t, u :: t in s.callers && u in s.callers ==> t == u)
    && (forall t :: t in s.callers ==> CallerInv(s.a, s.h, s.clock, s.callers[t]))
    && (s.callers == map[] ==> s.a.active == 0)
  }

  ghost predicate LatchInv(s: State) {
    && (s.a.expired == 0 || s.a.expired in s.h.latchedAt)
    && (forall g :: g in s.h.latchedAt ==>
          && g <= s.a.expired
          && g in s.h.startOf
          && 0 < s.timeout
          && s.h.startOf[g] + s.timeout <= s.h.latchedAt[g] <= s.clock)
  }

  ghost predicate CountInv(s: State) {
    && s.a.count == |s.h.counted|
    && (forall g :: g in s.h.counted <==> g in s.h.latchedAt && !(s.dog.at == Count && g == s.dog.gen))
    && (s.dog.at == Latch ==> s.dog.gen !in s.h.latchedAt)
    && (s.dog.at == Count ==> s.dog.gen in s.h.latchedAt)
  }

  ghost predicate DogInv(s: State) {
    var d := s.dog;
    && (d.at != LoadActive ==> d.gen in s.h.published && d.gen in s.h.startOf && s.a.expired <= d.gen)
    && (d.at != LoadActive && d.at != LoadLatch && d.at != Count ==> s.a.expired < d.gen && 0 < s.timeout)
    && ((d.at == LoadArmed || d.at == ReadClock) && s.a.active == d.gen ==> d.start == s.h.startOf[d.gen])
    && (d.at == Reload && s.a.active == d.gen ==> s.h.startOf[d.gen] + s.timeout <= s.clock)
    && (d.at == Latch ==> s.h.startOf[d.gen] + s.timeout <= s.clock)
    && (d.at == Count ==> d.gen == s.a.expired && d.gen in s.h.latchedAt)
  }

  ghost predicate Inv(s: State) { FlightInv(s) && CallersInv(s) && LatchInv(s) && CountInv(s) && DogInv(s) }

  /** `Inv`, with the one caller it concerns named. */
  ghost predicate At(s: State, c: Caller) {
    FlightInv(s) && LatchInv(s) && DogInv(s) && CallerInv(s.a, s.h, s.clock, c)
  }

  ghost function After(s: State, c: Caller): State {
    s.(a := NextAtomics(s.a, c), h := NextHistory(s.h, c))
  }

  lemma StepKeepsCaller(s: State, c: Caller, ok: bool)
    requires At(s, c) && c.at != Leave && NextHistory(s.h, c).flights < GENERATIONS
    ensures CallerInv(NextAtomics(s.a, c), NextHistory(s.h, c), s.clock, NextCaller(s, c, ok))
  {
    StepKeepsChecks(s, c, ok);
    hide ChecksInv;
  }

  lemma StepKeepsChecks(s: State, c: Caller, ok: bool)
    requires ChecksInv(c) && c.at != Leave && (c.at == Fail || c.at == FailRetire ==> c.why != Delivered)
    requires (c.at == Step || c.at == Check) ==> c.step <= 3
    ensures ChecksInv(NextCaller(s, c, ok))
  {
    hide Clear, Found;
    if c.at == Check || c.at == LastCheck {
      OneMoreCheck(c.checks, s.a.expired == c.gen);
    }
    hide ChecksFit, Loads;
    var n := NextCaller(s, c, ok);
    if c.at != Fail && c.at != FailRetire {
      NextLoads(s, c, ok);
    }
    if c.at == Step && !ok {
      FitsBroken(c.checks);
    }
    if n.at == Fail || n.at == Leave {
      FitsFound(n.checks);
      FitsDelivered(n.checks);
    }
  }

  lemma NextLoads(s: State, c: Caller, ok: bool)
    requires c.at != Leave && c.at != Fail && c.at != FailRetire && ((c.at == Step || c.at == Check) ==> c.step <= 3)
    ensures var n := NextCaller(s, c, ok);
      n.at == Fail || n.at == Leave || Loads(n) == Loads(c) + if c.at == Check then 1 else 0
    ensures Loads(c) <= 4 && (c.at == LastCheck ==> Loads(c) == 4) && (c.at == Step ==> Loads(c) <= 3)
  {
  }

  lemma FitsBroken(checks: seq<bool>)
    requires Clear(checks) && |checks| <= 3
    ensures ChecksFit(checks, StepFailed)
  {
  }

  lemma FitsFound(checks: seq<bool>)
    ensures Found(checks) && |checks| <= 5 ==> ChecksFit(checks, TimedOut)
  {
  }

  lemma FitsDelivered(checks: seq<bool>)
    ensures Clear(checks) && |checks| == 5 ==> ChecksFit(checks, Delivered)
  {
  }

  lemma OneMoreCheck(checks: seq<bool>, found: bool)
    requires Clear(checks)
    ensures if found then Found(checks + [found]) else Clear(checks + [found])
  {
    assert (checks + [found])[..|checks|] == checks;
  }

  lemma StepKeepsFlight(s: State, c: Caller)
    requires At(s, c) && NextHistory(s.h, c).flights < GENERATIONS
    ensures FlightInv(After(s, c))
  {
  }

  lemma StepKeepsLatch(s: State, c: Caller)
    requires At(s, c) && NextHistory(s.h, c).flights < GENERATIONS
    ensures LatchInv(After(s, c)) && (CountInv(s) ==> CountInv(After(s, c)))
  {
  }

  lemma StepKeepsDog(s: State, c: Caller)
    requires At(s, c) && NextHistory(s.h, c).flights < GENERATIONS
    ensures DogInv(After(s, c))
  {
  }

  lemma StepKeepsCallers(s: State, t: nat, ok: bool)
    requires CallersInv(s) && t in s.callers
    requires var c := s.callers[t];
             c.at != Leave ==>
               CallerInv(NextAtomics(s.a, c), NextHistory(s.h, c), s.clock, NextCaller(s, c, ok))
    ensures CallersInv(RunStep(s, t, s.callers[t], ok))
  {
    var c := s.callers[t];
    var s' := RunStep(s, t, c, ok);
    assert CallerInv(s.a, s.h, s.clock, c);
    if c.at == Leave {
      assert s'.callers == map[];
    } else {
      assert t in s'.callers;
    }
  }

  lemma RunKeepsInv(s: State, t: nat, ok: bool)
    requires Inv(s) && t in s.callers
    requires NextHistory(s.h, s.callers[t]).flights < GENERATIONS
    ensures Inv(RunStep(s, t, s.callers[t], ok))
  {
    var c := s.callers[t];
    assert At(s, c);
    StepKeepsFlight(s, c);
    StepKeepsLatch(s, c);
    StepKeepsDog(s, c);
    if c.at != Leave {
      StepKeepsCaller(s, c, ok);
    }
    StepKeepsCallers(s, t, ok);
    OnlyCallersDiffer(After(s, c), RunStep(s, t, c, ok));
  }

  lemma OnlyCallersDiffer(s: State, s': State)
    requires FlightInv(s) && LatchInv(s) && CountInv(s) && DogInv(s)
    requires s' == s.(callers := s'.callers)
    ensures FlightInv(s') && LatchInv(s') && CountInv(s') && DogInv(s')
  {
  }

  lemma DogKeepsFlight(s: State)
    requires Inv(s)
    ensures FlightInv(DogStep(s)) && CallersInv(DogStep(s))
  {
    var s' := DogStep(s);
    forall t | t in s'.callers
      ensures CallerInv(s'.a, s'.h, s'.clock, s'.callers[t])
    {
      assert CallerInv(s.a, s.h, s.clock, s.callers[t]);
    }
  }

  lemma DogKeepsLatch(s: State)
    requires LatchInv(s) && DogInv(s)
    ensures LatchInv(DogStep(s))
  {
  }

  lemma DogKeepsCount(s: State)
    requires LatchInv(s) && CountInv(s) && DogInv(s)
    ensures CountInv(DogStep(s))
  {
    if s.dog.at == Reload && s.a.active == s.dog.gen {
      assert s.dog.gen !in s.h.latchedAt;
    }
  }

  lemma DogKeepsDog(s: State)
    requires FlightInv(s) && LatchInv(s) && DogInv(s)
    requires s.a.active == 0 || (s.a.active == s.h.flights && s.a.active in s.h.published &&
                                 s.a.start == s.h.startOf[s.a.active])
    ensures DogInv(DogStep(s))
  {
  }

  lemma DogKeepsInv(s: State)
    requires Inv(s)
    ensures Inv(DogStep(s))
  {
    if s.callers != map[] {
      var t :| t in s.callers;
      assert CallerInv(s.a, s.h, s.clock, s.callers[t]);
    }
    DogKeepsFlight(s);
    DogKeepsLatch(s);
    DogKeepsCount(s);
    DogKeepsDog(s);
  }

  lemma DoKeepsInv(s: State, l: Label)
    requires Inv(s) && Do(s, l).h.flights < GENERATIONS
    ensures Inv(Do(s, l))
  {
    match l
    case Tick(_) =>
    case Enter(_) =>
    case Run(t, ok) => if t in s.callers { RunKeepsInv(s, t, ok); }
    case Watch => DogKeepsInv(s);
  }

  lemma {:induction false} Reachable(timeout: nat, ls: seq<Label>)
    requires Exec(Init(timeout), ls).h.flights < GENERATIONS
    ensures Inv(Exec(Init(timeout), ls)) && Exec(Init(timeout), ls).timeout == timeout
  {
    if ls != [] {
      var front := ls[..|ls| - 1];
      assert Exec(Init(timeout), front).h.flights <= Exec(Init(timeout), ls).h.flights;
      Reachable(timeout, front);
      DoKeepsInv(Exec(Init(timeout), front), ls[|ls| - 1]);
    }
  }

  // ----- what every interleaving guarantees -----------------------------------

  /** A generation is latched only after the clock passed its own flight's start plus
      the timeout, and never when the timeout is 0. */
  lemma LatchIsLate(timeout: nat, ls: seq<Label>)
    requires Exec(Init(timeout), ls).h.flights < GENERATIONS
    ensures var h := Exec(Init(timeout), ls).h;
            forall g :: g in h.latchedAt ==>
              0 < timeout && g in h.startOf && h.startOf[g] + timeout <= h.latchedAt[g]
    ensures timeout == 0 ==> Exec(Init(timeout), ls).a.expired == 0 && Exec(Init(timeout), ls).a.count == 0
  {
    Reachable(timeout, ls);
    var s := Exec(Init(timeout), ls);
    if timeout == 0 {
      assert forall g :: g !in s.h.latchedAt;
      assert s.h.counted == {};
    }
  }

  /** The counter is the number of generations that were latched, the one still to be
      counted aside: no generation is counted twice. */
  lemma EachFlightCountedOnce(timeout: nat, ls: seq<Label>)
    requires Exec(Init(timeout), ls).h.flights < GENERATIONS
    ensures var s := Exec(Init(timeout), ls);
            s.a.count == |s.h.latchedAt| - (if s.dog.at == Count then 1 else 0)
  {
    Reachable(timeout, ls);
    var s := Exec(Init(timeout), ls);
    if s.dog.at == Count {
      assert s.h.counted + {s.dog.gen} == s.h.latchedAt.Keys;
    } else {
      assert s.h.counted == s.h.latchedAt.Keys;
    }
  }

  lemma LatchKeepsItsTime(s: State, l: Label, g: nat)
    requires Inv(s) && g in s.h.latchedAt
    ensures g in Do(s, l).h.latchedAt && Do(s, l).h.latchedAt[g] == s.h.latchedAt[g]
  {
    hide FlightInv, CallersInv, LatchInv, DogInv;
  }

  /** A latch, once stored, keeps its time: no generation is latched twice. */
  lemma LatchedAtMostOnce(timeout: nat, ls: seq<Label>, l: Label, g: nat)
    requires Exec(Init(timeout), ls).h.flights < GENERATIONS
    requires g in Exec(Init(timeout), ls).h.latchedAt
    ensures g in Do(Exec(Init(timeout), ls), l).h.latchedAt
    ensures Do(Exec(Init(timeout), ls), l).h.latchedAt[g] == Exec(Init(timeout), ls).h.latchedAt[g]
  {
    Reachable(timeout, ls);
    LatchKeepsItsTime(Exec(Init(timeout), ls), l, g);
    hide Inv, Do, Exec;
  }

  /** A run reports a timeout only when its own generation was latched, and a flight
      latched before it retired never reports success. */
  lemma OnlyItsOwnLatchEndsAFlight(timeout: nat, ls: seq<Label>, i: nat)
    requires Exec(Init(timeout), ls).h.flights < GENERATIONS
    requires i < |Exec(Init(timeout), ls).h.results|
    ensures var h := Exec(Init(timeout), ls).h;
            && (h.results[i].why == TimedOut ==> h.results[i].gen in h.latchedAt)
            && (h.results[i].latchedBefore ==> h.results[i].why != Delivered)
  {
    Reachable(timeout, ls);
  }

  /** How a flight ended is what its loads of the latch found. */
  lemma LoadsTellTheEnd(timeout: nat, ls: seq<Label>, i: nat)
    requires Exec(Init(timeout), ls).h.flights < GENERATIONS
    requires i < |Exec(Init(timeout), ls).h.results|
    ensures var r := Exec(Init(timeout), ls).h.results[i];
      ChecksFit(r.checks, r.why)
  {
    Reachable(timeout, ls);
    var h := Exec(Init(timeout), ls).h;
    assert OutcomeInv(h, h.results[i]);
  }

  /** At most one caller is past the exchange, and exactly while the flag is set. */
  lemma AtMostOneFlight(timeout: nat, ls: seq<Label>)
    requires Exec(Init(timeout), ls).h.flights < GENERATIONS
    ensures var s := Exec(Init(timeout), ls);
            && (s.a.inFlight <==> |s.callers| == 1)
            && |s.callers| <= 1
  {
    Reachable(timeout, ls);
    var s := Exec(Init(timeout), ls);
    if s.callers != map[] {
      var t :| t in s.callers;
      assert s.callers.Keys == {t};
    }
  }

  /** Both kinds of latch load decide exactly by whether this flight is latched so far,
      whatever older latch the watchdog may store in the meantime. */
  lemma LoadsAreExact(timeout: nat, ls: seq<Label>, t: nat, ok: bool)
    requires Exec(Init(timeout), ls).h.flights < GENERATIONS
    requires t in Exec(Init(timeout), ls).callers
    ensures var s := Exec(Init(timeout), ls);
            var c := s.callers[t];
            && (c.at == LastCheck ==>
                  (Do(s, Run(t, ok)).callers[t].why == Delivered <==> c.gen !in s.h.latchedAt))
            && (c.at == Check ==>
                  (Do(s, Run(t, ok)).callers[t].why == TimedOut && Do(s, Run(t, ok)).callers[t].at == Fail
                   <==> c.gen in s.h.latchedAt))
  {
    Reachable(timeout, ls);
    var s := Exec(Init(timeout), ls);
    assert CallerInv(s.a, s.h, s.clock, s.callers[t]);
  }

  lemma {:induction false} ExecAppend(s: State, ls: seq<Label>, ms: seq<Label>)
    ensures Exec(s, ls + ms) == Exec(Exec(s, ls), ms)
  {
    if ms == [] {
      assert ls + ms == ls;
    } else {
      var front := ms[..|ms| - 1];
      assert (ls + ms)[..|ls + ms| - 1] == ls + front;
      ExecAppend(s, ls, front);
    }
  }

  function Go(s: State, ls: seq<Label>): State
    decreases |ls|
  {
    if ls == [] then s else Go(Do(s, ls[0]), ls[1..])
  }

  lemma {:induction false} ExecIsGo(s: State, ls: seq<Label>)
    ensures Exec(s, ls) == Go(s, ls)
    decreases |ls|
  {
    if ls != [] {
      ExecAppend(s, [ls[0]], ls[1..]);
      assert [ls[0]] + ls[1..] == ls;
      assert Exec(s, [ls[0]]) == Do(Exec(s, []), ls[0]);
      ExecIsGo(Do(s, ls[0]), ls[1..]);
    }
  }

  function Falses(n: nat): seq<bool> { seq(n, _ => false) }

  /** The only flight so far, published with start time 0 under a timeout of 1. */
  function Published(at: Place, step: nat, clock: nat, dog: Dog): State {
    State(1, Atomics(true, 1, 1, 0, 0, true, 0), clock,
          map[0 := Caller(at, 1, 0, step, StepFailed, false, Falses(if at == Prune then 4 else step))], dog,
          History(1, map[1 := 0], {1}, map[], {}, []))
  }

  lemma Go3(s: State, a: Label, b: Label, c: Label, rest: seq<Label>)
    ensures Go(s, [a, b, c] + rest) == Go(Do(Do(Do(s, a), b), c), rest)
  {
    var all := [a, b, c] + rest;
    assert all[1..] == [b, c] + rest && all[1..][1..] == [c] + rest && all[1..][1..][1..] == rest;
    assert Go(s, all) == Go(Do(s, a), all[1..]);
    assert Go(Do(s, a), all[1..]) == Go(Do(Do(s, a), b), all[1..][1..]);
  }

  /** Numbered, with the clock read. */
  function Numbered(): State {
    State(1, Atomics(true, 1, 0, 0, 0, false, 0), 0,
          map[0 := Caller(Start, 1, 0, 0, StepFailed, false, [])], Dog(LoadActive, 0, 0),
          History(1, map[], {}, map[], {}, []))
  }

  lemma Numbers()
    ensures Do(Do(Do(Init(1), Enter(0)), Run(0, true)), Run(0, true)) == Numbered()
  {
  }

  lemma Publishes()
    ensures Do(Do(Do(Numbered(), Run(0, true)), Run(0, true)), Run(0, true)) == Published(Step, 0, 0, Dog(LoadActive, 0, 0))
  {
    assert Falses(0) == [];
    var s := Do(Do(Do(Numbered(), Run(0, true)), Run(0, true)), Run(0, true));
    assert s.callers == map[0 := Caller(Step, 1, 0, 0, StepFailed, false, [])];
    assert s.h.startOf == map[1 := 0];
  }

  lemma TakeOff()
    ensures Go(Init(1), [Enter(0), Run(0, true), Run(0, true)] + [Run(0, true), Run(0, true), Run(0, true)])
            == Published(Step, 0, 0, Dog(LoadActive, 0, 0))
  {
    hide Go, Exec, Do, Init, Numbered, Published;
    var go := Run(0, true);
    Numbers();
    Publishes();
    Go3(Init(1), Enter(0), go, go, [go, go, go]);
    var a, b := Do(Numbered(), go), Do(Do(Numbered(), go), go);
    Three(Numbered(), go, go, go, a, b, Do(b, go));
    assert [go, go, go] + [] == [go, go, go];
  }

  lemma OneStep(step: nat)
    requires step < 4
    ensures Go(Published(Step, step, 0, Dog(LoadActive, 0, 0)), [Run(0, true), Run(0, true), Tick(0)] + [])
            == if step < 3 then Published(Step, step + 1, 0, Dog(LoadActive, 0, 0))
               else Published(Prune, 3, 0, Dog(LoadActive, 0, 0))
  {
    OneWork(step);
    OneCheck(step);
    var next := if step < 3 then Published(Step, step + 1, 0, Dog(LoadActive, 0, 0))
                else Published(Prune, 3, 0, Dog(LoadActive, 0, 0));
    Three(Published(Step, step, 0, Dog(LoadActive, 0, 0)), Run(0, true), Run(0, true), Tick(0),
          Published(Check, step, 0, Dog(LoadActive, 0, 0)), next, next);
  }

  lemma Three(s: State, a: Label, b: Label, c: Label, x: State, y: State, z: State)
    requires Do(s, a) == x && Do(x, b) == y && Do(y, c) == z
    ensures Go(s, [a, b, c] + []) == z
  {
    Go3(s, a, b, c, []);
    hide Do;
  }

  lemma OneWork(step: nat)
    ensures Do(Published(Step, step, 0, Dog(LoadActive, 0, 0)), Run(0, true)) == Published(Check, step, 0, Dog(LoadActive, 0, 0))
  {
    var s, next := Published(Step, step, 0, Dog(LoadActive, 0, 0)), Published(Check, step, 0, Dog(LoadActive, 0, 0));
    assert s.callers[0 := next.callers[0]] == next.callers;
  }

  lemma OneCheck(step: nat)
    requires step < 4
    ensures Do(Published(Check, step, 0, Dog(LoadActive, 0, 0)), Run(0, true))
            == if step < 3 then Published(Step, step + 1, 0, Dog(LoadActive, 0, 0))
               else Published(Prune, 3, 0, Dog(LoadActive, 0, 0))
  {
    hide Exec, Go;
    var s := Published(Check, step, 0, Dog(LoadActive, 0, 0));
    var next := if step < 3 then Published(Step, step + 1, 0, Dog(LoadActive, 0, 0))
                else Published(Prune, 3, 0, Dog(LoadActive, 0, 0));
    assert Falses(step) + [false] == Falses(step + 1);
    assert NextCaller(s, s.callers[0], true) == next.callers[0];
    assert s.callers[0 := next.callers[0]] == next.callers;
  }

  lemma DogLeg()
    ensures Go(Published(Prune, 3, 1, Dog(LoadActive, 0, 0)), [Watch, Watch, Watch] + [Watch, Watch, Watch])
            == Published(Prune, 3, 1, Dog(Latch, 1, 0))
  {
    var s := Published(Prune, 3, 1, Dog(LoadActive, 0, 0));
    Go3(s, Watch, Watch, Watch, [Watch, Watch, Watch]);
    Go3(Published(Prune, 3, 1, Dog(LoadArmed, 1, 0)), Watch, Watch, Watch, []);
    assert [Watch, Watch, Watch] + [] == [Watch, Watch, Watch];
  }

  /** Retired and declared delivered, with the watchdog about to latch. */
  function Declared(): State {
    State(1, Atomics(true, 1, 0, 0, 0, false, 0), 1,
          map[0 := Caller(Leave, 1, 0, 3, Delivered, false, Falses(5))], Dog(Latch, 1, 0),
          History(1, map[1 := 0], {1}, map[], {}, []))
  }

  lemma Declares()
    ensures var go := Run(0, true); Do(Do(Do(Published(Prune, 3, 1, Dog(Latch, 1, 0)), go), go), go) == Declared()
  {
    assert Falses(4) + [false] == Falses(5);
    var s := Published(Prune, 3, 1, Dog(Latch, 1, 0));
    assert s.callers[0 := Declared().callers[0]] == Declared().callers;
  }

  lemma LatchesLate()
    ensures var end := Do(Do(Do(Declared(), Watch), Run(0, true)), Tick(0));
      end.h.results == [Result(1, false, Delivered, Falses(5))] && 1 in end.h.latchedAt
  {
    var s := Do(Declared(), Watch);
    assert s.h == Declared().h.(latchedAt := s.h.latchedAt) && 1 in s.h.latchedAt;
    var c := Declared().callers[0];
    assert s.callers == map[0 := c];
    LeavesWith(s, c);
    hide Falses;
  }

  lemma LeavesWith(s: State, c: Caller)
    requires s.callers == map[0 := c] && c.at == Leave && s.h.results == []
    ensures Do(s, Run(0, true)).h == s.h.(results := [Result(c.gen, c.latchedBefore, c.why, c.checks)])
  {
    assert s.callers[0] == c;
  }

  lemma Landing()
    ensures var s := Go(Published(Prune, 3, 1, Dog(Latch, 1, 0)),
                        [Run(0, true), Run(0, true), Run(0, true)] + [Watch, Run(0, true), Tick(0)]);
            && s.h.results == [Result(1, false, Delivered, Falses(5))]
            && 1 in s.h.latchedAt
  {
    hide Go, Exec, Published, Do, Declared;
    var go, latched := Run(0, true), Do(Declared(), Watch);
    Declares();
    LatchesLate();
    Go3(Published(Prune, 3, 1, Dog(Latch, 1, 0)), go, go, go, [Watch, go, Tick(0)]);
    Three(Declared(), Watch, go, Tick(0), latched, Do(latched, go), Do(Do(latched, go), Tick(0)));
    assert [Watch, go, Tick(0)] + [] == [Watch, go, Tick(0)];
  }

  lemma {:induction false} GoAppend(s: State, ls: seq<Label>, ms: seq<Label>)
    ensures Go(s, ls + ms) == Go(Go(s, ls), ms)
    decreases |ls|
  {
    if ls == [] {
      assert ls + ms == ms;
    } else {
      assert (ls + ms)[1..] == ls[1..] + ms;
      GoAppend(Do(s, ls[0]), ls[1..], ms);
    }
  }

  /** Between two flights, `n` of them flown. */
  ghost predicate Landed(s: State, n: nat) {
    s.callers == map[] && !s.a.inFlight && s.dog == Dog(LoadActive, 0, 0) && s.a.active == 0 && s.h.flights == n
    && s.a.generation == n % GENERATIONS
  }

  /** From the trigger to the return of a flight whose first step breaks. */
  function BrokenFlight(): seq<Label> {
    [Enter(0)] + seq(9, _ => Run(0, false))
  }

  function Runs(s: State, n: nat): State
    decreases n
  {
    if n == 0 then s else Runs(Do(s, Run(0, false)), n - 1)
  }

  lemma {:induction false} RunsIsGo(s: State, n: nat)
    ensures Go(s, seq(n, _ => Run(0, false))) == Runs(s, n)
    decreases n
  {
    if n > 0 {
      var ms := seq(n, _ => Run(0, false));
      assert ms[0] == Run(0, false) && ms[1..] == seq(n - 1, _ => Run(0, false));
      RunsIsGo(Do(s, Run(0, false)), n - 1);
    }
  }

  /** One caller in flight at this place, the watchdog idle. */
  ghost predicate Flying(s: State, p: Place, n: nat) {
    && s.callers.Keys == {0} && s.callers[0].at == p && s.dog == Dog(LoadActive, 0, 0) && s.a.inFlight
    && s.h.flights == n && s.a.generation == n % GENERATIONS
    && (p != Number ==> s.callers[0].gen == n % GENERATIONS)
    && (p == Publish || p == Step ==> s.a.armed)
    && (p == Step ==> s.a.active == n % GENERATIONS)
    && (p == Leave ==> s.a.active == 0)
  }

  /** The way of a flight whose first step breaks. */
  function NextPlace(p: Place): Place {
    match p
    case Number => Clock
    case Clock => Start
    case Start => Arm
    case Arm => Publish
    case Publish => Step
    case Step => Fail
    case Fail => FailRetire
    case _ => Leave
  }

  lemma FlyOn(s: State, p: Place, n: nat)
    requires Flying(s, p, n) && p != Leave && p != Check && p != Prune && p != Retire && p != LastCheck
    ensures Flying(Do(s, Run(0, false)), NextPlace(p), if p == Number then n + 1 else n)
  {
  }

  lemma FlyToStep(s: State, n: nat)
    requires Flying(s, Number, n)
    ensures Flying(Runs(s, 5), Step, n + 1)
  {
    hide Do, Flying;
    var l := Run(0, false);
    var a := Do(s, l);
    var b := Do(a, l);
    var c := Do(b, l);
    var d := Do(c, l);
    FlyOn(s, Number, n);
    FlyOn(a, Clock, n + 1);
    FlyOn(b, Start, n + 1);
    FlyOn(c, Arm, n + 1);
    FlyOn(d, Publish, n + 1);
    RunsFive(s);
  }

  lemma FlyHome(s: State, n: nat)
    requires Flying(s, Step, n)
    ensures Landed(Runs(s, 4), n)
  {
    var l := Run(0, false);
    var a := Do(s, l);
    var b := Do(a, l);
    var c := Do(b, l);
    FlyOn(s, Step, n);
    FlyOn(a, Fail, n);
    FlyOn(b, FailRetire, n);
    RunsFive(s);
    Land(c, n);
    hide Do;
  }

  lemma Land(s: State, n: nat)
    requires Flying(s, Leave, n)
    ensures Landed(Do(s, Run(0, false)), n)
  {
  }

  lemma BrokenFlightLands(s: State, n: nat)
    requires Landed(s, n)
    ensures Landed(Go(s, BrokenFlight()), n + 1)
  {
    var up := Do(s, Enter(0));
    assert Flying(up, Number, n);
    assert BrokenFlight()[1..] == seq(9, _ => Run(0, false));
    hide Do, Flying;
    RunsIsGo(up, 9);
    FlyToStep(up, n);
    FlyHome(Runs(up, 5), n + 1);
    RunsSplit(up, 5, 4);
  }

  lemma {:induction false} RunsSplit(s: State, m: nat, n: nat)
    ensures Runs(s, m + n) == Runs(Runs(s, m), n)
    decreases m
  {
    if m > 0 {
      RunsSplit(Do(s, Run(0, false)), m - 1, n);
    }
  }

  lemma RunsFive(s: State)
    ensures var l := Run(0, false); Runs(s, 5) == Do(Do(Do(Do(Do(s, l), l), l), l), l)
    ensures var l := Run(0, false); Runs(s, 4) == Do(Do(Do(Do(s, l), l), l), l)
  {
    var l := Run(0, false);
    var a := Do(Do(s, l), l);
    assert Runs(s, 5) == Runs(a, 3) && Runs(s, 4) == Runs(a, 2);
    var b := Do(Do(a, l), l);
    RunsTwo(a);
    assert Runs(b, 1) == Do(b, l);
    hide Do;
  }

  lemma RunsTwo(s: State)
    ensures var l := Run(0, false); Runs(s, 2) == Do(Do(s, l), l) && Runs(s, 3) == Runs(Do(Do(s, l), l), 1)
  {
    hide Do;
  }

  lemma {:induction false} ManyFlights(timeout: nat, n: nat) returns (ls: seq<Label>)
    ensures Landed(Go(Init(timeout), ls), n)
  {
    if n == 0 {
      ls := [];
    } else {
      var front := ManyFlights(timeout, n - 1);
      BrokenFlightLands(Go(Init(timeout), front), n - 1);
      GoAppend(Init(timeout), front, BrokenFlight());
      ls := front + BrokenFlight();
    }
  }

  /** The bound on the number of flights is needed: the flight that wraps the counter gets
      generation 0, so the watchdog takes it for "nothing in flight" and never watches it. */
  lemma GenerationZeroIsUnwatched(timeout: nat) returns (ls: seq<Label>)
    ensures var up := Exec(Init(timeout), ls);
            && up.h.flights == GENERATIONS && up.callers.Keys == {0}
            && up.callers[0].at == Step && up.callers[0].gen == 0 && up.a.armed
            && DogStep(up) == up
  {
    var front := ManyFlights(timeout, GENERATIONS - 1);
    var s, tail := Go(Init(timeout), front), seq(5, _ => Run(0, false));
    var up := Do(s, Enter(0));
    assert Flying(up, Number, GENERATIONS - 1);
    hide Do, Exec;
    ls := front + [Enter(0)] + tail;
    GoAppend(Init(timeout), front + [Enter(0)], tail);
    GoAppend(Init(timeout), front, [Enter(0)]);
    GoOne(s, Enter(0));
    RunsIsGo(up, 5);
    FlyToStep(up, GENERATIONS - 1);
    ExecIsGo(Init(timeout), ls);
  }

  lemma GoOne(s: State, l: Label)
    ensures Go(s, [l]) == Do(s, l)
  {
    assert [l][1..] == [];
    hide Do;
  }

  // ----- when a latch can follow retirement -------------------------------------

  /** Published, and its caller is past retirement or gone. */
  ghost predicate Retired(s: State, g: nat) {
    g in s.h.published && forall t :: t in s.callers && s.callers[t].gen == g ==> !Live(s.callers[t].at)
  }

  /** The watchdog has re-read the generation and is about to latch it. */
  predicate Poised(s: State, g: nat) { s.dog.at == Latch && s.dog.gen == g }

  lemma RetiredIsNotActive(s: State, g: nat)
    requires Inv(s) && Retired(s, g)
    ensures s.a.active != g
  {
    if s.callers != map[] {
      var t :| t in s.callers;
      assert CallerInv(s.a, s.h, s.clock, s.callers[t]);
    }
  }

  lemma RetiredStays(s: State, l: Label, g: nat)
    requires Inv(s) && Retired(s, g) && Do(s, l).h.flights < GENERATIONS
    ensures Retired(Do(s, l), g)
  {
    hide LatchInv, CountInv, DogInv, ChecksInv;
    if l.Run? && l.t in s.callers {
      assert CallerInv(s.a, s.h, s.clock, s.callers[l.t]);
    }
  }

  lemma UnpoisedStays(s: State, l: Label, g: nat)
    requires Inv(s) && Retired(s, g) && g !in s.h.latchedAt && !Poised(s, g)
    ensures g !in Do(s, l).h.latchedAt && !Poised(Do(s, l), g)
  {
    RetiredIsNotActive(s, g);
  }

  lemma {:induction false} UnpoisedIsNeverLatched(s: State, more: seq<Label>, g: nat)
    requires Inv(s) && Retired(s, g) && g !in s.h.latchedAt && !Poised(s, g)
    requires Exec(s, more).h.flights < GENERATIONS
    ensures var e := Exec(s, more); Inv(e) && Retired(e, g) && g !in e.h.latchedAt && !Poised(e, g)
  {
    if more != [] {
      var front, last := more[..|more| - 1], more[|more| - 1];
      var e := Exec(s, front);
      assert Exec(s, more) == Do(e, last) && e.h.flights <= Do(e, last).h.flights;
      UnpoisedIsNeverLatched(s, front, g);
      DoKeepsInv(e, last);
      RetiredStays(e, last, g);
      UnpoisedStays(e, last, g);
    }
  }

  /** Something can still happen that latches `g`, within the bound on flights. */
  ghost predicate CanLatch(s: State, g: nat) {
    exists more :: Exec(s, more).h.flights < GENERATIONS && g in Exec(s, more).h.latchedAt
  }

  /** Exactly when a latch can still land on a flight that has retired without one: when the
      watchdog had re-read its generation before it retired. */
  lemma LatchCanFollowRetirement(timeout: nat, ls: seq<Label>, g: nat)
    requires Exec(Init(timeout), ls).h.flights < GENERATIONS
    requires Retired(Exec(Init(timeout), ls), g) && g !in Exec(Init(timeout), ls).h.latchedAt
    ensures var s := Exec(Init(timeout), ls);
      CanLatch(s, g) <==> Poised(s, g)
  {
    Reachable(timeout, ls);
    var s := Exec(Init(timeout), ls);
    if Poised(s, g) {
      assert [Watch][..0] == [];
      assert Exec(s, [Watch]) == DogStep(s);
    } else {
      forall more | Exec(s, more).h.flights < GENERATIONS ensures g !in Exec(s, more).h.latchedAt {
        UnpoisedIsNeverLatched(s, more, g);
      }
    }
  }

  // ----- the watchdog does fire ------------------------------------------------------

  /** Whenever the watchdog looks, before it latches, the flight is still active and, when that is
      what it looks at, armed. */
  ghost predicate InSight(s: State, g: nat, ms: seq<Label>)
    decreases |ms|
  {
    ms == [] ||
    (&& (ms[0] == Watch && s.dog.at != Latch && s.dog.at != Count ==>
           s.a.active == g && (s.dog.at == LoadArmed ==> s.a.armed))
     && InSight(Do(s, ms[0]), g, ms[1..]))
  }

  function Looks(ms: seq<Label>): nat
    decreases |ms|
  {
    if ms == [] then 0 else (if ms[0] == Watch then 1 else 0) + Looks(ms[1..])
  }

  /** How many looks the watchdog needs to latch the generation it is after. */
  function LooksLeft(d: Dog): nat {
    match d.at
    case LoadActive => 7
    case LoadLatch => 6
    case LoadStart => 5
    case LoadArmed => 4
    case ReadClock => 3
    case Reload => 2
    case Latch => 1
    case Count => 0
  }

  /** The watchdog is on its way to latch `g`, which is late. */
  ghost predicate Hunting(s: State, g: nat) {
    && Inv(s) && 0 < s.timeout && g in s.h.startOf && s.h.startOf[g] + s.timeout <= s.clock
    && (g in s.h.latchedAt || (s.dog.at != Count && (s.dog.at != LoadActive ==> s.dog.gen == g)))
  }

  lemma OneLook(s: State, l: Label, g: nat)
    requires Hunting(s, g) && Do(s, l).h.flights < GENERATIONS && g != 0
    requires l == Watch && s.dog.at != Latch && s.dog.at != Count ==> s.a.active == g && (s.dog.at == LoadArmed ==> s.a.armed)
    ensures Hunting(Do(s, l), g)
    ensures g in s.h.latchedAt ==> g in Do(s, l).h.latchedAt
    ensures g !in Do(s, l).h.latchedAt ==> LooksLeft(Do(s, l).dog) + (if l == Watch then 1 else 0) <= LooksLeft(s.dog)
  {
    DoKeepsInv(s, l);
    StartsStay(s, l, g);
    if l == Watch {
      LookTells(s, g);
    } else {
      OthersLeaveTheDog(s, l);
    }
    hide Inv, Do, LooksLeft;
  }

  lemma OthersLeaveTheDog(s: State, l: Label)
    requires l != Watch
    ensures Do(s, l).dog == s.dog && Do(s, l).h.latchedAt == s.h.latchedAt && Do(s, l).timeout == s.timeout
  {
  }

  lemma LookTells(s: State, g: nat)
    requires Hunting(s, g) && g != 0
    requires s.dog.at != Latch && s.dog.at != Count ==> s.a.active == g && (s.dog.at == LoadArmed ==> s.a.armed)
    ensures var e := Do(s, Watch);
      && e.timeout == s.timeout && (g in s.h.latchedAt ==> g in e.h.latchedAt)
      && (g in e.h.latchedAt || (e.dog.at != Count && (e.dog.at != LoadActive ==> e.dog.gen == g)))
      && (g !in e.h.latchedAt ==> LooksLeft(e.dog) + 1 <= LooksLeft(s.dog))
  {
    hide FlightInv, CallersInv, CountInv;
  }

  lemma StartsStay(s: State, l: Label, g: nat)
    requires Inv(s) && g in s.h.startOf
    ensures g in Do(s, l).h.startOf && Do(s, l).h.startOf[g] == s.h.startOf[g] && s.clock <= Do(s, l).clock
  {
    if l.Run? && l.t in s.callers {
      assert CallerInv(s.a, s.h, s.clock, s.callers[l.t]);
    }
  }

  lemma FlightsOnlyGrow(s: State, ms: seq<Label>)
    ensures s.h.flights <= Go(s, ms).h.flights
    decreases |ms|
  {
    if ms != [] {
      FlightsOnlyGrow(Do(s, ms[0]), ms[1..]);
    }
  }

  lemma {:induction false} LooksLatch(s: State, g: nat, ms: seq<Label>)
    requires Hunting(s, g) && g != 0 && InSight(s, g, ms) && LooksLeft(s.dog) <= Looks(ms)
    requires Go(s, ms).h.flights < GENERATIONS
    ensures g in Go(s, ms).h.latchedAt
    decreases |ms|
  {
    if ms != [] {
      FlightsOnlyGrow(Do(s, ms[0]), ms[1..]);
      OneLook(s, ms[0], g);
      if g in Do(s, ms[0]).h.latchedAt {
        LatchesStay(Do(s, ms[0]), ms[1..], g);
      } else {
        LooksLatch(Do(s, ms[0]), g, ms[1..]);
      }
    }
  }

  lemma {:induction false} LatchesStay(s: State, ms: seq<Label>, g: nat)
    requires g in s.h.latchedAt
    ensures g in Go(s, ms).h.latchedAt
    decreases |ms|
  {
    if ms != [] {
      LatchesStay(Do(s, ms[0]), ms[1..], g);
    }
  }

  /** The flag is up exactly from where the start time is stored to where a step has broken or the
      retention pass has returned. */
  ghost predicate ArmedInv(s: State) {
    && (s.callers == map[] ==> !s.a.armed)
    && forall t :: t in s.callers ==> (s.a.armed <==> s.callers[t].at in {Publish, Step, Check, Fail, Prune})
  }

  lemma DoKeepsArmed(s: State, l: Label)
    requires CallersInv(s) && ArmedInv(s)
    ensures ArmedInv(Do(s, l))
  {
    hide CallerInv, RunStep;
    match l
    case Tick(_) =>
    case Enter(_) =>
    case Run(t, ok) =>
      if t in s.callers {
        RunKeepsArmed(s, t, ok);
      }
    case Watch =>
  }

  lemma RunKeepsArmed(s: State, t: nat, ok: bool)
    requires CallersInv(s) && ArmedInv(s) && t in s.callers
    ensures ArmedInv(RunStep(s, t, s.callers[t], ok))
  {
    hide CallerInv, NextHistory;
    var c := s.callers[t];
    forall u | u in RunStep(s, t, c, ok).callers ensures u == t {
      assert u in s.callers;
    }
    assert c.at == Leave ==> s.callers - {t} == map[];
  }

  lemma {:induction false} ArmedReachable(timeout: nat, ls: seq<Label>)
    requires Exec(Init(timeout), ls).h.flights < GENERATIONS
    ensures ArmedInv(Exec(Init(timeout), ls))
  {
    if ls != [] {
      var front, last := ls[..|ls| - 1], ls[|ls| - 1];
      assert Exec(Init(timeout), front).h.flights <= Exec(Init(timeout), ls).h.flights;
      ArmedReachable(timeout, front);
      Reachable(timeout, front);
      DoKeepsArmed(Exec(Init(timeout), front), last);
    }
  }

  /** A caller of flight `g` is in one of its steps, at the check behind it, or in the retention pass. */
  ghost predicate Working(s: State, g: nat) {
    exists t :: t in s.callers && s.callers[t].gen == g && s.callers[t].at in {Step, Check, Prune}
  }

  /** Whenever the watchdog looks, before it latches, the flight is still at work. */
  ghost predicate AtWork(s: State, g: nat, ms: seq<Label>)
    decreases |ms|
  {
    ms == [] ||
    ((ms[0] == Watch && s.dog.at != Latch && s.dog.at != Count ==> Working(s, g)) && AtWork(Do(s, ms[0]), g, ms[1..]))
  }

  lemma {:induction false} WorkIsSeen(s: State, g: nat, ms: seq<Label>)
    requires Inv(s) && ArmedInv(s) && AtWork(s, g, ms) && Go(s, ms).h.flights < GENERATIONS
    ensures InSight(s, g, ms)
    decreases |ms|
  {
    if ms != [] {
      FlightsOnlyGrow(Do(s, ms[0]), ms[1..]);
      DoKeepsInv(s, ms[0]);
      DoKeepsArmed(s, ms[0]);
      WorkIsSeen(Do(s, ms[0]), g, ms[1..]);
      if Working(s, g) {
        WorkingIsArmed(s, g);
      }
    }
  }

  lemma WorkingIsArmed(s: State, g: nat)
    requires CallersInv(s) && ArmedInv(s) && Working(s, g)
    ensures s.a.active == g && s.a.armed
  {
    var t :| t in s.callers && s.callers[t].gen == g && s.callers[t].at in {Step, Check, Prune};
    assert CallerInv(s.a, s.h, s.clock, s.callers[t]);
  }

  /** The watchdog does fire: seven looks, with anything in between, latch a flight that is past its
      deadline while it is still at work. */
  lemma WatchdogFires(timeout: nat, ls: seq<Label>, g: nat, ms: seq<Label>)
    requires 0 < timeout && Exec(Init(timeout), ls + ms).h.flights < GENERATIONS
    requires var s := Exec(Init(timeout), ls);
      s.dog.at == LoadActive && g in s.h.published && g in s.h.startOf && s.h.startOf[g] + timeout <= s.clock
    requires AtWork(Exec(Init(timeout), ls), g, ms) && 7 <= Looks(ms)
    ensures g in Exec(Init(timeout), ls + ms).h.latchedAt
  {
    var s := Exec(Init(timeout), ls);
    ExecAppend(Init(timeout), ls, ms);
    ExecIsGo(s, ms);
    FlightsOnlyGrow(s, ms);
    Reachable(timeout, ls);
    ArmedReachable(timeout, ls);
    WorkIsSeen(s, g, ms);
    LooksLatch(s, g, ms);
  }

  // ----- by the clock ------------------------------------------------------------------

  /** The time that has gone by. */
  function Elapsed(ls: seq<Label>): nat {
    if ls == [] then 0
    else Elapsed(ls[..|ls| - 1]) + match ls[|ls| - 1] case Tick(ms) => ms case _ => 0
  }

  lemma {:induction false} ClockIsElapsed(timeout: nat, ls: seq<Label>)
    ensures Exec(Init(timeout), ls).clock == Elapsed(ls)
  {
    if ls != [] {
      ClockIsElapsed(timeout, ls[..|ls| - 1]);
      ClockTicks(Exec(Init(timeout), ls[..|ls| - 1]), ls[|ls| - 1]);
    }
  }

  lemma ClockTicks(s: State, l: Label)
    ensures Do(s, l).clock == s.clock + match l case Tick(ms) => ms case _ => 0
  {
  }

  lemma {:induction false} ElapsedGrows(ls: seq<Label>, k: nat)
    requires k <= |ls|
    ensures Elapsed(ls[..k]) <= Elapsed(ls)
  {
    if k < |ls| {
      ElapsedGrows(ls[..|ls| - 1], k);
      assert ls[..|ls| - 1][..k] == ls[..k];
    } else {
      assert ls[..k] == ls;
    }
  }

  /** Nothing of flight `g` had begun when this much time had gone by. */
  ghost predicate NotBefore(s: State, t0: nat, g: nat) {
    && (g in s.h.startOf ==> t0 <= s.h.startOf[g])
    && forall t :: t in s.callers && s.callers[t].gen == g && s.callers[t].at == Start ==> t0 <= s.callers[t].now
  }

  lemma DoKeepsNotBefore(s: State, l: Label, t0: nat, g: nat)
    requires CallersInv(s) && NotBefore(s, t0, g) && t0 <= s.clock
    ensures NotBefore(Do(s, l), t0, g)
  {
    if l.Run? && l.t in s.callers {
      assert CallerInv(s.a, s.h, s.clock, s.callers[l.t]);
    }
  }

  lemma {:induction false} StartedSince(timeout: nat, ls: seq<Label>, k: nat, g: nat)
    requires k <= |ls| && Exec(Init(timeout), ls).h.flights < GENERATIONS && Exec(Init(timeout), ls[..k]).h.flights < g
    ensures NotBefore(Exec(Init(timeout), ls), Elapsed(ls[..k]), g)
  {
    if k == |ls| {
      assert ls[..k] == ls;
      Reachable(timeout, ls);
      var s := Exec(Init(timeout), ls);
      forall t | t in s.callers && s.callers[t].at != Number ensures s.callers[t].gen != g {
        assert CallerInv(s.a, s.h, s.clock, s.callers[t]);
      }
    } else {
      var front, last := ls[..|ls| - 1], ls[|ls| - 1];
      var s := Exec(Init(timeout), front);
      assert s.h.flights <= Exec(Init(timeout), ls).h.flights;
      assert front[..k] == ls[..k];
      StartedSince(timeout, front, k, g);
      Reachable(timeout, front);
      ElapsedGrows(front, k);
      ClockIsElapsed(timeout, front);
      DoKeepsNotBefore(s, last, Elapsed(ls[..k]), g);
    }
  }

  /** No flight is cut short: when it is latched, the timeout has gone by since any moment at which it
      had not been numbered yet. */
  lemma TimeoutHasGoneBy(timeout: nat, ls: seq<Label>, k: nat, g: nat)
    requires k <= |ls| && Exec(Init(timeout), ls).h.flights < GENERATIONS && Exec(Init(timeout), ls[..k]).h.flights < g
    requires g in Exec(Init(timeout), ls).h.latchedAt
    ensures 0 < timeout && Elapsed(ls[..k]) + timeout <= Exec(Init(timeout), ls).h.latchedAt[g] <= Elapsed(ls)
  {
    Reachable(timeout, ls);
    StartedSince(timeout, ls, k, g);
    ClockIsElapsed(timeout, ls);
  }

  /** The latch read after retirement is not final: a watchdog that re-read the active
      generation just before retirement can still store its latch after the run has
      been declared delivered. */
  lemma LateLatchCanFollowDelivery() returns (ls: seq<Label>)
    ensures var s := Exec(Init(1), ls);
            s.h.results == [Result(1, false, Delivered, Falses(5))] && 1 in s.h.latchedAt
  {
    var go := Run(0, true);
    TakeOff();
    ls := [Enter(0), go, go] + [go, go, go];
    for step := 0 to 4
      invariant Go(Init(1), ls) == if step < 4 then Published(Step, step, 0, Dog(LoadActive, 0, 0))
                                   else Published(Prune, 3, 0, Dog(LoadActive, 0, 0))
    {
      OneStep(step);
      GoAppend(Init(1), ls, [go, go, Tick(0)] + []);
      ls := ls + ([go, go, Tick(0)] + []);
    }
    GoAppend(Init(1), ls, [Tick(1)]);
    ls := ls + [Tick(1)];
    assert Go(Init(1), ls) == Published(Prune, 3, 1, Dog(LoadActive, 0, 0));
    DogLeg();
    GoAppend(Init(1), ls, [Watch, Watch, Watch] + [Watch, Watch, Watch]);
    ls := ls + ([Watch, Watch, Watch] + [Watch, Watch, Watch]);
    Landing();
    GoAppend(Init(1), ls, [go, go, go] + [Watch, go, Tick(0)]);
    ls := ls + ([go, go, go] + [Watch, go, Tick(0)]);
    ExecIsGo(Init(1), ls);
  }
}
