/** One upload: capture, mkdir, upload, verify, rename, publish, restore, prune. */
module Pipeline {
  import opened Types
  import opened Peer
  import opened Client
  import opened Transcript
  import opened UploadName
  import opened Publication
  import Deadline
  import DirOps
  import Retention
  import Naming = ObjectName

  // ----- the desktop ------------------------------------------------------------------------

  /** What a capture produced; `token` is the clipboard's own handle on it. */
  datatype Clip = Clip(pathEmpty: bool, bytes: nat, token: Option<nat>, captured: bool)

  const NO_CLIP := Clip(true, 0, None, false)

  datatype Effect =
    | Captured(st: Status, clip: Clip)
    | SetText(path: string, server: Fs, said: seq<Said>, st: Status)
    | Pasted(st: Status)
    | Restored(token: nat, st: Status)
    | Released(token: nat, inFlight: bool)

  /** The clipboard and keystroke tables. What each call answers is up to the script; every
      call is logged, together with the server's files and the transcript or the flight flag where
      they matter. */
  class Desk {
    const clipValid: bool
    const injectValid: bool
    const captures: nat -> (Status, Clip)
    const answers: nat -> Status
    var tick: nat
    ghost var log: seq<Effect>

    constructor (clipValid: bool, injectValid: bool, captures: nat -> (Status, Clip), answers: nat -> Status)
      ensures this.clipValid == clipValid && this.injectValid == injectValid && log == []
      ensures this.captures == captures && this.answers == answers && tick == 0
    {
      this.clipValid, this.injectValid := clipValid, injectValid;
      this.captures, this.answers := captures, answers;
      tick, log := 0, [];
    }

    method Answer() returns (st: Status)
      modifies this`tick
      ensures st == answers(old(tick)) && tick == old(tick) + 1
    {
      st := answers(tick);
      tick := tick + 1;
    }

    method Capture() returns (st: Status, clip: Clip)
      modifies this
      ensures log == old(log) + [Captured(st, clip)] && (st, clip) == captures(old(tick)) && tick == old(tick) + 1
    {
      var answer := captures(tick);
      st, clip := answer.0, answer.1;
      tick := tick + 1;
      log := log + [Captured(st, clip)];
    }

    method Put(path: string, ghost server: Fs, ghost said: seq<Said>) returns (st: Status)
      modifies this
      ensures log == old(log) + [SetText(path, server, said, st)] && st == answers(old(tick))
    {
      st := Answer();
      log := log + [SetText(path, server, said, st)];
    }

    method Paste() returns (st: Status)
      modifies this
      ensures log == old(log) + [Pasted(st)] && st == answers(old(tick))
    {
      st := Answer();
      log := log + [Pasted(st)];
    }

    method Restore(token: nat) returns (st: Status)
      modifies this
      ensures log == old(log) + [Restored(token, st)] && st == answers(old(tick))
    {
      st := Answer();
      log := log + [Restored(token, st)];
    }

    method Release(token: nat, inFlight: bool)
      modifies this
      ensures log == old(log) + [Released(token, inFlight)]
    {
      log := log + [Released(token, inFlight)];
    }
  }

  // ----- the pipeline -------------------------------------------------------------------------

  datatype Config = Config(remoteDir: string, restoreClipboard: bool)

  datatype Report = Report(
    remotePath: string, bytes: nat, restored: bool, pruned: bool, pruneFailed: bool, prunedFiles: nat)

  /** The capture holds an image. */
  predicate Usable(e: Effect) {
    e.Captured? && e.st.Ok? && e.clip.captured && !e.clip.pathEmpty && 0 < e.clip.bytes
  }

  /** What `Publish` logs: the text, then the chord, then the restore that was asked for. */
  ghost predicate PublishLog(mid: seq<Effect>, cfg: Config, clip: Clip, path: string, server: Fs) {
    || mid == []
    || (|mid| == 1 && mid[0].SetText? && mid[0] == SetText(path, server, mid[0].said, mid[0].st) && mid[0].st.Err?)
    || (|mid| == (if cfg.restoreClipboard && clip.captured && clip.token.Some? then 3 else 2)
        && mid[0].SetText? && mid[0] == SetText(path, server, mid[0].said, Ok) && mid[1].Pasted?
        && (|mid| == 3 ==> mid[2].Restored? && mid[2].token == clip.token.value))
  }

  predicate Delivered(mid: seq<Effect>) { 2 <= |mid| && mid[0].SetText? && mid[0].st.Ok? && mid[1] == Pasted(Ok) }

  /** The release that ends a run, while the flight flag is still set. */
  function Releases(clip: Clip): seq<Effect> {
    if clip.token.Some? then [Released(clip.token.value, true)] else []
  }

  class UploadPipeline {
    const cfg: Config
    const retention: Retention.Policy
    const gmtime: nat -> Naming.Civil
    const late: nat -> bool    // what the deadline check finds each time it is read
    var checks: nat
    var counter: nat
    var inFlight: bool

    ghost predicate Valid() reads this { counter < U32 }

    constructor (cfg: Config, retention: Retention.Policy, gmtime: nat -> Naming.Civil, late: nat -> bool)
      ensures Valid() && !inFlight && counter == 0 && this.cfg == cfg && this.retention == retention
    {
      this.cfg, this.retention, this.gmtime, this.late := cfg, retention, gmtime, late;
      checks, counter, inFlight := 0, 0, false;
    }

    /** Reads the expiry latch. */
    method DeadlinePassed() returns (yes: bool)
      modifies this`checks
      ensures checks == old(checks) + 1 && yes == late(old(checks))
    {
      yes := late(checks);
      checks := checks + 1;
    }

    method CaptureLocal(desk: Desk) returns (st: Status, clip: Clip)
      modifies desk
      ensures !desk.clipValid ==> st == Err(ClipboardOpenFailed) && clip == NO_CLIP && desk.log == old(desk.log)
      ensures desk.clipValid ==>
        && |desk.log| == |old(desk.log)| + 1 && old(desk.log) <= desk.log
        && var e := desk.log[|old(desk.log)|];
           e.Captured? && e.clip == clip && (st.Ok? <==> Usable(e))
           && (st.Err? ==> st == if e.st.Err? then e.st else Err(NoImageInClipboard))
    {
      if !desk.clipValid {
        return Err(ClipboardOpenFailed), NO_CLIP;
      }
      st, clip := desk.Capture();
      if st.Ok? && (!clip.captured || clip.pathEmpty || clip.bytes == 0) {
        st := Err(NoImageInClipboard);
      }
    }

    /** A leading "~/" is expanded by asking the server for its own directory. */
    method ResolveRemoteDir(c: Client) returns (r: Result<string>)
      requires c.Valid()
      modifies c, c.ch
      ensures c.Valid() && c.ch.Onward() && c.initialized == old(c.initialized)
      ensures c.ch.TouchedOnly({}) && (c.ch.honest ==> c.ch.fs == old(c.ch.fs))
      ensures old(c.log) <= c.log
      ensures r.Success? ==> Resolved(c.log[|old(c.log)|..], cfg.remoteDir, r.value)
      ensures r.Success? ==> r.value != [] && |r.value| < MAX_PATH
      ensures r.Success? && !("~/" <= cfg.remoteDir) ==> r.value == cfg.remoteDir && c.log == old(c.log)
      ensures r.Success? && "~/" <= cfg.remoteDir && c.ch.honest ==>
        r.value == c.ch.script(old(c.ch.tick)).resolved + "/" + cfg.remoteDir[2..]
      ensures r.Failure? ==> r.error == MkdirFailed || r.error == RealpathFailed
      ensures !Homely(cfg.remoteDir) ==> (r.Success? <==> 0 < |cfg.remoteDir| < MAX_PATH)
      ensures "~/" <= cfg.remoteDir && c.initialized && c.ch.Willing() ==>
        var home := c.ch.script(old(c.ch.tick)).resolved;
        |home| <= MAX_PATH ==> (r.Success? <==> |home| + 1 + |cfg.remoteDir| - 2 < MAX_PATH)
    {
      if cfg.remoteDir == [] {
        ConfinedStill(c.ch.trace, c.ch.honest, {});
        return Failure(MkdirFailed);
      }
      var buf := cfg.remoteDir;
      if Homely(cfg.remoteDir) {
        var home := c.Realpath(".");
        if home.Failure? {
          return Failure(RealpathFailed);
        }
        buf := home.value + "/" + cfg.remoteDir[2..];
        HomeHeard(old(c.log), c.log, cfg.remoteDir, home.value);
      }
      r := if MAX_PATH <= |buf| then Failure(MkdirFailed) else Success(buf);
    }

    /** Resolves and creates the remote directory. */
    method EnsureRemoteDir(c: Client) returns (r: Result<string>)
      requires c.Valid()
      modifies c, c.ch
      ensures c.Valid() && c.ch.Onward() && c.initialized == old(c.initialized)
      ensures c.ch.TouchedOnly({}) && c.ch.HandlesKept()
      ensures c.ch.honest ==> c.ch.fs.files == old(c.ch.fs.files)
      ensures old(c.log) <= c.log && (r.Success? ==> DirSaid(c.log[|old(c.log)|..], cfg.remoteDir, r.value))
      ensures r.Success? ==> r.value != [] && |r.value| < MAX_PATH
      ensures r.Success? && !Homely(cfg.remoteDir) ==> r.value == cfg.remoteDir
      ensures r.Success? && c.ch.honest ==> LevelsMade(old(c.ch.fs), c.ch.fs, r.value, |Parts(r.value)|)
      ensures r.Failure? ==> r.error == MkdirFailed || r.error == RealpathFailed
      ensures c.initialized && PlainDir(cfg.remoteDir) ==> r.Success? || !c.ch.Willing()
    {
      hide Confined, Parts, Level, Climbed, Resolved;
      r := ResolveRemoteDir(c);
      if r.Failure? {
        return;
      }
      ghost var seen, was, said := c.ch.trace, c.ch.honest, c.log;
      var made := c.MkdirAll(r.value);
      ConfinedThen(old(c.ch.trace), seen, c.ch.trace, was, c.ch.honest, {}, {});
      LevelsMadeKeeps(old(c.ch.fs), c.ch.fs, r.value);
      if made.Err? {
        r := Failure(MkdirFailed);
      } else {
        DirHeard(old(c.log), said, c.log, cfg.remoteDir, r.value);
      }
    }

    /** The next object name; no two runs of one pipeline share one. */
    method TakeName(now: nat) returns (name: string)
      requires Valid() && Naming.InRange(gmtime(now))
      modifies this`counter
      ensures Valid() && counter == (old(counter) + 1) % U32
      ensures name == Naming.ObjectName(gmtime, now, old(counter))
      ensures IsUploadName(name) && !IsUploadName(".tmp-" + name)
    {
      name := Naming.ObjectName(gmtime, now, counter);
      Naming.NameIsRecognised(gmtime(now), Naming.Suffix(now, counter));
      counter := (counter + 1) % U32;
    }

    /** Uploads under the temporary name, and compares the size that the server reports with
        the captured one. */
    method UploadSized(c: Client, f: LocalFile, t: Publication.Target) returns (st: Status, ghost up: Status)
      requires c.Valid() && t.content == f.content
      modifies c, c.ch, f
      ensures c.Valid() && c.ch.Onward() && c.initialized == old(c.initialized)
      ensures c.ch.HandlesKept()
      ensures Safely(old(c.ch.trace), c.ch.trace, c.ch.honest, t, {})
      ensures st.Ok? ==> c.initialized
      ensures old(c.log) <= c.log && (st.Ok? ==> SizedSaid(c.log[|old(c.log)|..], t))
      ensures up.Err? ==> st == up
      ensures up.Ok? ==> old(c.log) < c.log && Compared(c.log[|c.log| - 1], t.temp, t.size, st)
      ensures c.ch.honest && st.Ok? ==>
        t.temp in c.ch.fs.files && c.ch.fs.files[t.temp] == t.content && |t.content| == t.size
      ensures c.initialized && f.canOpen && f.canStat && !f.failed && |t.temp| < MAX_PATH ==>
                st.Ok? || |t.content| != t.size || !c.ch.Willing()
    {
      hide Safely, Confined, UploadSaid, SizeSays, Compared;
      SafelyStill(c.ch.trace, c.ch.honest, t);
      ghost var start := c.ch.trace;
      st := c.UploadFile(t.temp, f);
      up := st;
      SafelyConfined(start, start, c.ch.trace, old(c.ch.honest), c.ch.honest, t, {t.temp});
      if st.Ok? {
        ghost var seen, was, said := c.ch.trace, c.ch.honest, c.log;
        var size := c.StatSize(t.temp);
        SafelyConfined(start, seen, c.ch.trace, was, c.ch.honest, t, {});
        if size.Success? {
          SizeTold(c.log[|said|], t.temp, size);
          Since(said, |old(c.log)|, c.log[|said|]);
        }
        ComparedHere(c.log[|said|], t.temp, t.size, size);
        st := if size.Failure? then Err(StatFailed) else if size.value == t.size then Ok else Err(SizeMismatch);
      }
    }

    /** The whole image, standing under its temporary name, moves to the published one. */
    method MoveWhole(c: Client, t: Publication.Target, ghost start: seq<Fs>) returns (st: Status)
      requires c.Valid() && |t.temp| < MAX_PATH && |t.published| < MAX_PATH
      requires start != [] && Safely(start, c.ch.trace, c.ch.honest, t, {})
      requires c.ch.honest ==> t.temp in c.ch.fs.files && c.ch.fs.files[t.temp] == t.content && |t.content| == t.size
      modifies c, c.ch
      ensures c.Valid() && c.ch.Onward() && c.initialized == old(c.initialized)
      ensures c.ch.HandlesKept()
      ensures Safely(start, c.ch.trace, c.ch.honest, t, {})
      ensures old(c.log) <= c.log
      ensures st.Ok? ==>
        |c.log| == |old(c.log)| + 1 && c.initialized && RenamedBy(c.log[|old(c.log)|], t.temp, t.published)
      ensures c.ch.honest && st.Ok? ==> Shown(c.ch.fs, t) && t.temp !in c.ch.fs.files
      ensures c.initialized && c.ch.Willing() ==> st.Ok?
    {
      hide Safely, Serve, Thwarted;
      st := c.Rename(t.temp, t.published);
      SafelyPublished(start, old(c.ch.trace), c.ch.trace, old(c.ch.honest), c.ch.honest, t);
    }

    /** Uploads and checks, and only then publishes by RENAME. */
    method UploadAs(c: Client, f: LocalFile, t: Publication.Target) returns (r: Result<string>)
      requires c.Valid() && t.content == f.content
      modifies c, c.ch, f
      ensures c.Valid() && c.ch.Onward() && c.initialized == old(c.initialized)
      ensures c.ch.HandlesKept()
      ensures Safely(old(c.ch.trace), c.ch.trace, c.ch.honest, t, {})
      ensures r.Success? ==> r.value == t.published && c.initialized
      ensures old(c.log) <= c.log && (r.Success? ==> PublishedSaid(c.log[|old(c.log)|..], t))
      ensures MAX_PATH <= |t.temp| || MAX_PATH <= |t.published| ==> r == Failure(OpenFailed) && c.log == old(c.log)
      ensures c.ch.honest && r.Success? ==> Shown(c.ch.fs, t) && t.temp !in c.ch.fs.files
      ensures r.Failure? && |t.temp| < MAX_PATH && |t.published| < MAX_PATH && c.initialized && c.ch.honest && c.ch.alive ==>
                t.temp !in c.ch.fs.files || (0 < c.ch.tick && c.ch.script(c.ch.tick - 1).refuse.Some?)
      ensures c.initialized && f.canOpen && f.canStat && !f.failed && |t.temp| < MAX_PATH && |t.published| < MAX_PATH ==>
                r.Success? || |t.content| != t.size || !c.ch.Willing()
    {
      hide Safely, Confined, SizedSaid, RenamedBy, Shown;
      SafelyStill(c.ch.trace, c.ch.honest, t);
      if MAX_PATH <= |t.temp| || MAX_PATH <= |t.published| {
        return Failure(OpenFailed);
      }
      ghost var up;
      var st;
      st, up := UploadSized(c, f, t);
      ghost var said := c.log;
      if st.Ok? {
        st := MoveWhole(c, t, old(c.ch.trace));
        if st.Ok? {
          assert c.log == said + [c.log[|said|]];
          Since(said, |old(c.log)|, c.log[|said|]);
        }
      }
      if st.Err? {
        ghost var seen, was := c.ch.trace, c.ch.honest;
        var swept := c.Remove(t.temp);
        SafelyConfined(old(c.ch.trace), seen, c.ch.trace, was, c.ch.honest, t, {t.temp});
        return Failure(st.error);
      }
      r := Success(t.published);
    }

    /** The upload under a fresh name in `dir`. */
    method UploadAndVerify(c: Client, f: LocalFile, bytes: nat, dir: string, now: nat)
      returns (r: Result<string>, ghost t: Publication.Target)
      requires Valid() && c.Valid() && Naming.InRange(gmtime(now))
      modifies this`counter, c, c.ch, f
      ensures Valid() && counter == (old(counter) + 1) % U32
      ensures c.Valid() && c.ch.Onward() && c.initialized == old(c.initialized)
      ensures c.ch.HandlesKept()
      ensures t == TargetOf(dir, Naming.ObjectName(gmtime, now, old(counter)), f.content, bytes)
      ensures var name := Naming.ObjectName(gmtime, now, old(counter));
        t.temp == dir + "/.tmp-" + name && t.published == dir + "/" + name && t.content == f.content && t.size == bytes
      ensures LooksPublished(t.published) && !LooksPublished(t.temp) && |t.temp| <= |dir| + 6 + MAX_NAME
      ensures Safely(old(c.ch.trace), c.ch.trace, c.ch.honest, t, {})
      ensures r.Success? ==> r.value == t.published && c.initialized
      ensures old(c.log) <= c.log && (r.Success? ==> PublishedSaid(c.log[|old(c.log)|..], t))
      ensures c.ch.honest && r.Success? ==> Shown(c.ch.fs, t) && t.temp !in c.ch.fs.files
      ensures r.Failure? && |t.temp| < MAX_PATH && c.initialized && c.ch.honest && c.ch.alive ==>
                t.temp !in c.ch.fs.files || (0 < c.ch.tick && c.ch.script(c.ch.tick - 1).refuse.Some?)
      ensures c.initialized && f.canOpen && f.canStat && !f.failed && |t.temp| < MAX_PATH ==>
                r.Success? || |f.content| != bytes || !c.ch.Willing()
    {
      var name := TakeName(now);
      DirOps.NamesAreShort(name);
      TempNeverLooksPublished(dir, gmtime(now), Naming.Suffix(now, old(counter)));
      hide Safely, Naming.ObjectName, Naming.Name, LooksPublished, Shown, PublishedSaid;
      var target := TargetOf(dir, name, f.content, bytes);
      t := target;
      r := UploadAs(c, f, target);
    }

    /** Puts the path on the clipboard, sends the chord, and restores what was there. */
    method Publish(desk: Desk, clip: Clip, path: string, ghost server: Fs, ghost said: seq<Said>)
      returns (st: Status, restored: bool, ghost mid: seq<Effect>)
      modifies desk
      ensures desk.log == old(desk.log) + mid && PublishLog(mid, cfg, clip, path, server)
      ensures mid != [] ==> mid[0].SetText? && mid[0].said == said
      ensures if desk.injectValid then mid != [] else mid == [] && st == Err(SendInputRejected)
      ensures st.Ok? <==> Delivered(mid)
      ensures mid != [] && st.Err? ==> st == (if |mid| == 1 then mid[0].st else mid[1].st)
      ensures restored <==> |mid| == 3 && mid[2].Restored? && mid[2].st.Ok?
    {
      restored, mid := false, [];
      if !desk.injectValid {
        return Err(SendInputRejected), false, [];
      }
      var set_ := desk.Put(path, server, said);
      mid := [SetText(path, server, said, set_)];
      if set_.Err? {
        return set_, false, mid;
      }
      st := desk.Paste();
      mid := mid + [Pasted(st)];
      if cfg.restoreClipboard && clip.captured && clip.token.Some? {
        var back := desk.Restore(clip.token.value);
        mid := mid + [Restored(clip.token.value, back)];
        restored := back.Ok?;
      }
    }

    /** Retention after delivery; a failure only marks the report. */
    method Prune(c: Client, dir: string, now: nat, report: Report)
      returns (r: Report, ghost gone: set<string>, ghost sweep: Sweep)
      requires c.Valid()
      modifies c, c.ch
      ensures c.Valid() && c.ch.Onward() && c.initialized == old(c.initialized)
      ensures c.ch.HandlesKept()
      ensures DirOps.Pruned(old(c.ch.trace), c.ch.trace, c.ch.honest, gone)
      ensures forall x :: x in gone ==> DirOps.OursIn(dir, x)
      ensures sweep.Unswept? <==> retention.maxAgeSeconds == 0 && retention.keepNewest == 0
      ensures sweep.Unswept? ==> gone == {} && c.ch.trace == old(c.ch.trace)
      ensures old(c.log) <= c.log && SweepSaid(c.log[|old(c.log)|..], sweep, dir, now, retention)
      ensures r == match sweep
                   case Unswept => report
                   case Swept(told) => report.(pruned := true, prunedFiles := told.removed)
                   case SweepFailed => report.(pruneFailed := true)
      ensures Roomy(dir) && c.initialized && c.ch.Willing() ==> !sweep.SweepFailed?
    {
      r, gone, sweep := report, {}, Unswept;
      if retention.keepNewest == 0 && retention.maxAgeSeconds == 0 {
        ConfinedStill(c.ch.trace, c.ch.honest, {});
        DirOps.PrunedStill(c.ch.trace, c.ch.trace, c.ch.honest);
        return;
      }
      hide DirOps.Pruned, DirOps.CleanupSaid, OnlyLooks;
      var cleaned;
      cleaned, gone := DirOps.Cleanup(c, dir, now, retention);
      if cleaned.Failure? {
        r, sweep := report.(pruneFailed := true), SweepFailed;
      } else {
        r, sweep := report.(pruned := true, prunedFiles := cleaned.value.removed), Swept(cleaned.value);
      }
    }

    // ----- one run --------------------------------------------------------------------------

    /** The first half of a run: capture and directory, each followed by a deadline check. */
    method Prepare(c: Client, desk: Desk) returns (st: Status, clip: Clip, dir: string, ghost captured: Status)
      requires c.Valid()
      modifies this`checks, c, c.ch, desk
      ensures c.Valid() && c.ch.Onward() && c.initialized == old(c.initialized)
      ensures c.ch.TouchedOnly({}) && c.ch.HandlesKept()
      ensures c.ch.honest ==> c.ch.fs.files == old(c.ch.fs.files)
      ensures old(c.log) <= c.log && (st.Ok? ==> DirSaid(c.log[|old(c.log)|..], cfg.remoteDir, dir))
      ensures desk.log == old(desk.log) + if desk.clipValid then [Captured(captured, clip)] else []
      ensures !desk.clipValid ==> clip == NO_CLIP
      ensures st.Ok? ==> desk.clipValid && Usable(Captured(captured, clip)) && dir != []
      ensures st.Ok? ==> checks == old(checks) + 2 && !late(old(checks)) && !late(old(checks) + 1)
      ensures Tally(late, old(checks), checks, 2, st.Ok?)
      ensures TooLate(late, old(checks), checks) ==> st == Err(UploadTimeout)
      ensures st.Err? ==> LocallyBlamed(desk.clipValid, captured, clip, st.error)
      ensures st.Ok? && c.ch.honest ==> LevelsMade(old(c.ch.fs), c.ch.fs, dir, |Parts(dir)|)
      ensures desk.clipValid && Usable(Captured(captured, clip)) && c.initialized && PlainDir(cfg.remoteDir) ==>
                || st.Ok? || late(old(checks)) || late(old(checks) + 1)
                || !c.ch.Willing()
      ensures st.Ok? && !Homely(cfg.remoteDir) ==> dir == cfg.remoteDir
    {
      hide Confined, Parts, Level, LevelsMade, Usable, PlainDir, DirSaid;
      dir, captured := "", Ok;
      ConfinedStill(c.ch.trace, c.ch.honest, {});
      st, clip := CaptureLocal(desk);
      if desk.clipValid {
        captured := desk.log[|old(desk.log)|].st;
        assert desk.log == old(desk.log) + [desk.log[|old(desk.log)|]];
        assert desk.log[|old(desk.log)|] == Captured(captured, clip);
      }
      if st.Ok? {
        UsableIsBlameless(captured, clip);
        var passed := DeadlinePassed();
        st := if passed then Err(UploadTimeout) else st;
      }
      if st.Ok? {
        var made := EnsureRemoteDir(c);
        st := if made.Failure? then Err(made.error) else st;
        dir := if made.Success? then made.value else dir;
      }
      if st.Ok? {
        var passed := DeadlinePassed();
        st := if passed then Err(UploadTimeout) else st;
      }
    }

    /** The second half: upload and publish, each followed by a deadline check. */
    method Deliver(c: Client, desk: Desk, f: LocalFile, clip: Clip, dir: string, now: nat)
      returns (st: Status, remote: string, restored: bool, ghost mid: seq<Effect>, ghost t: Publication.Target)
      requires Valid() && c.Valid() && Naming.InRange(gmtime(now))
      modifies this`checks, this`counter, c, c.ch, desk, f
      ensures Valid() && counter == (old(counter) + 1) % U32
      ensures c.Valid() && c.ch.Onward() && c.initialized == old(c.initialized)
      ensures c.ch.HandlesKept()
      ensures t == TargetOf(dir, Naming.ObjectName(gmtime, now, old(counter)), f.content, clip.bytes)
      ensures LooksPublished(t.published) && !LooksPublished(t.temp) && |t.temp| <= |dir| + 6 + MAX_NAME
      ensures Safely(old(c.ch.trace), c.ch.trace, c.ch.honest, t, {})
      ensures desk.log == old(desk.log) + mid
      ensures Announced(mid, cfg, clip, t, c.ch.honest)
      ensures old(c.log) <= c.log && Spoken(mid, old(c.log), c.log, t)
      ensures mid != [] ==> !late(old(checks)) && desk.injectValid
      ensures restored <==> |mid| == 3 && mid[2].Restored? && mid[2].st.Ok?
      ensures st.Ok? ==> Delivered(mid) && remote == t.published
      ensures mid != [] ==> mid[0].SetText? && mid[0].said == c.log
      ensures Blamed(mid, st)
      ensures st.Ok? ==> checks == old(checks) + 2 && !late(old(checks)) && !late(old(checks) + 1)
      ensures Tally(late, old(checks), checks, 2, st.Ok?)
      ensures TooLate(late, old(checks), checks) ==> st == Err(UploadTimeout)
      ensures st.Err? && |t.temp| < MAX_PATH && c.initialized && c.ch.honest && c.ch.alive ==>
                || t.temp !in c.ch.fs.files || mid != []
                || (0 < c.ch.tick && c.ch.script(c.ch.tick - 1).refuse.Some?)
      ensures c.initialized && f.canOpen && f.canStat && !f.failed && |t.temp| < MAX_PATH
              && |f.content| == clip.bytes && desk.injectValid ==>
                || mid != [] || late(old(checks)) || !c.ch.Willing()
      ensures Delivered(mid) && st.Err? ==> late(old(checks) + 1)
    {
      hide Safely, Naming.ObjectName, LooksPublished, Shown, PublishLog, Named, Confined, PublishedSaid;
      restored, mid, remote := false, [], "";
      var up;
      up, t := UploadAndVerify(c, f, clip.bytes, dir, now);
      if up.Failure? {
        return Err(up.error), "", false, [], t;
      }
      var passed := DeadlinePassed();
      if passed {
        return Err(UploadTimeout), "", false, [], t;
      }
      remote := up.value;
      st, restored, mid := Publish(desk, clip, remote, c.ch.fs, c.log);
      AnnouncedHere(mid, cfg, clip, t, c.ch.fs, c.ch.honest);
      if st.Ok? {
        passed := DeadlinePassed();
        st := if passed then Err(UploadTimeout) else st;
      }
    }

    /** Retention and the last deadline check, once `d` has been delivered in time. */
    method Tidy(c: Client, dir: string, now: nat, report: Report, ghost d: Story, ghost start: seq<Fs>)
      returns (r: Result<Report>, ghost s: Story)
      requires c.Valid() && start != [] && Safely(start, c.ch.trace, c.ch.honest, d.t, {})
      requires Delivered(d.mid) && d.dir == dir && (d.mid != [] ==> d.mid[0].SetText? && d.mid[0].said == c.log)
      requires report == Report(d.t.published, d.clip.bytes, report.restored, false, false, 0)
      requires report.restored <==> |d.mid| == 3 && d.mid[2].Restored? && d.mid[2].st.Ok?
      modifies this`checks, c, c.ch
      ensures c.Valid() && c.ch.Onward() && c.initialized == old(c.initialized)
      ensures c.ch.HandlesKept() && old(c.log) <= c.log
      ensures s == d.(gone := s.gone, sweep := s.sweep) && Safely(start, c.ch.trace, c.ch.honest, d.t, s.gone)
      ensures checks == old(checks) + 1
      ensures if late(old(checks)) then r == Failure(UploadTimeout) else r.Success? && Tells(r.value, s)
      ensures Tidied(s, c.log, now, retention, false)
      ensures Roomy(dir) && c.initialized ==> !s.sweep.SweepFailed? || !c.ch.Willing()
    {
      hide Safely, Confined, Delivered, Named, DirOps.Pruned, DirOps.OursIn, Channel.Answering, Channel.Quiet,
        SweepSaid, Roomy, Tidied, Tells;
      ghost var shown, was, said, gone, sweep := c.ch.trace, c.ch.honest, c.log, d.gone, d.sweep;
      var after;
      after, gone, sweep := Prune(c, dir, now, report);
      s := d.(gone := gone, sweep := sweep);
      SafelyPruned(start, shown, c.ch.trace, was, c.ch.honest, d.t, gone);
      TidiedHere(s, said, c.log, now, retention, false);
      TellsHere(after, report.remotePath, report.bytes, report.restored, s);
      var passed := DeadlinePassed();
      r := if passed then Failure(UploadTimeout) else Success(after);
    }

    /** Delivery, then retention, then the last deadline check. */
    method Settle(c: Client, desk: Desk, f: LocalFile, clip: Clip, dir: string, now: nat, ghost p: Story)
      returns (r: Result<Report>, ghost s: Story)
      requires Valid() && c.Valid() && Naming.InRange(gmtime(now)) && p.clip == clip && p.dir == dir
      modifies this`checks, this`counter, c, c.ch, desk, f
      ensures Valid() && counter == (old(counter) + 1) % U32
      ensures c.Valid() && c.ch.Onward() && c.initialized == old(c.initialized)
      ensures c.ch.HandlesKept()
      ensures s == p.(mid := s.mid, t := s.t, gone := s.gone, sweep := s.sweep) && desk.log == old(desk.log) + s.mid
      ensures s.t == TargetOf(dir, Naming.ObjectName(gmtime, now, old(counter)), f.content, clip.bytes)
      ensures LooksPublished(s.t.published) && !LooksPublished(s.t.temp) && |s.t.temp| <= |dir| + 6 + MAX_NAME
      ensures Announced(s.mid, cfg, clip, s.t, c.ch.honest)
      ensures old(c.log) <= c.log && Spoken(s.mid, old(c.log), c.log, s.t)
      ensures Safely(old(c.ch.trace), c.ch.trace, c.ch.honest, s.t, s.gone)
      ensures s.mid != [] ==> !late(old(checks)) && desk.injectValid
      ensures r.Success? ==> Delivered(s.mid) && checks == old(checks) + 3 && OnTimeToPublish(late, old(checks))
      ensures Tally(late, old(checks), checks, 3, r.Success?)
      ensures TooLate(late, old(checks), checks) ==> r == Failure(UploadTimeout)
      ensures r.Success? ==> Tells(r.value, s)
      ensures Tidied(s, c.log, now, retention, late(old(checks) + 1))
      ensures r.Failure? ==> Blamed(s.mid, Err(r.error))
      ensures Roomy(dir) && c.initialized ==> !s.sweep.SweepFailed? || !c.ch.Willing()
      ensures Delivered(s.mid) ==> r.Success? || late(old(checks) + 1) || late(old(checks) + 2)
      ensures c.initialized && f.canOpen && f.canStat && !f.failed && |s.t.temp| < MAX_PATH
              && |f.content| == clip.bytes && desk.injectValid ==>
                || s.mid != [] || late(old(checks)) || !c.ch.Willing()
    {
      hide Safely, Confined, Announced, LooksPublished, Delivered, Named, Spoken, Naming.ObjectName, Tally, TooLate,
        Channel.Answering, Channel.Quiet, Blamed, Roomy, Tidied, TargetOf, Tells, OnTimeToPublish;
      ghost var start, mid, t := c.ch.trace, p.mid, p.t;
      var st, remote, restored;
      st, remote, restored, mid, t := Deliver(c, desk, f, clip, dir, now);
      s := p.(mid := mid, t := t, gone := {}, sweep := Unswept);
      TalliedShort(late, old(checks), checks, st.Ok?);
      if st.Err? {
        LeftAlone(s, c.log, now, retention, late(old(checks) + 1));
        return Failure(st.error), s;
      }
      ghost var was, said := c.ch.honest, c.log;
      r, s := Tidy(c, dir, now, Report(remote, clip.bytes, restored, false, false, 0), s, start);
      SpokenStill(mid, old(c.log), said, c.log, t);
      AnnouncedStill(mid, cfg, clip, t, was, c.ch.honest);
      DeliveredIsBlameless(mid, UploadTimeout);
      OnTimeJoined(late, old(checks));
    }

    /** The second half of a run, joined to the first: the directory has been resolved and made since
        `start` and `before`, the latch was first read at `first`, and `p` is what has happened so far. */
    method Conclude(c: Client, desk: Desk, f: LocalFile, clip: Clip, dir: string, now: nat,
                    ghost p: Story, ghost start: seq<Fs>, ghost before: seq<Said>, ghost first: nat)
      returns (r: Result<Report>, ghost s: Story)
      requires Valid() && c.Valid() && Naming.InRange(gmtime(now)) && p.clip == clip && p.dir == dir
      requires desk.clipValid && Usable(Captured(p.captured, clip))
      requires dir != [] && (!Homely(cfg.remoteDir) ==> dir == cfg.remoteDir)
      requires start != [] && Confined(start, c.ch.trace, c.ch.honest, {})
      requires before <= c.log && DirSaid(c.log[|before|..], cfg.remoteDir, dir)
      requires checks == first + 2 && !late(first) && !late(first + 1) && Tally(late, first, checks, 2, true)
      modifies this`checks, this`counter, c, c.ch, desk, f
      ensures Valid() && c.Valid() && c.ch.Onward() && c.initialized == old(c.initialized)
      ensures c.ch.HandlesKept() && old(c.ch.trace) <= c.ch.trace
      ensures s == p.(mid := s.mid, t := s.t, gone := s.gone, sweep := s.sweep) && desk.log == old(desk.log) + s.mid
      ensures !LooksPublished(s.t.temp) && s.t.content == f.content
      ensures Announced(s.mid, cfg, clip, s.t, c.ch.honest)
      ensures old(c.log) <= c.log && Vouched(s, cfg, before, c.log)
      ensures Safely(start, c.ch.trace, c.ch.honest, s.t, s.gone)
      ensures s.mid != [] ==> Earned(s, desk, cfg) && OnTimeToPublish(late, first)
      ensures r.Success? ==> Delivered(s.mid) && Tells(r.value, s) && checks == first + 5 && OnTime(late, first)
      ensures Delivered(s.mid) ==> r.Success? || late(first + 3) || late(first + 4)
      ensures Fits(late, first, checks, r.Success?)
      ensures TooLate(late, first, checks) ==> r == Failure(UploadTimeout)
      ensures Accounted(s, r, true, gmtime, now, old(counter), counter)
      ensures Tidied(s, c.log, now, retention, late(first + 3))
      ensures Roomy(dir) && c.initialized ==> !s.sweep.SweepFailed? || !c.ch.Willing()
      ensures Promising(s, desk, cfg, f) && c.initialized && OnTimeToPublish(late, first) ==>
                s.mid != [] || !c.ch.Willing()
    {
      hide Safely, Confined, Announced, LooksPublished, Delivered, Named, Spoken, Naming.ObjectName, Tally, TooLate,
        Channel.Answering, Channel.Quiet, Vouched, Earned, DirSaid, Usable, Homely, Tells, OnTime, OnTimeToPublish, Tidied,
        Blamed, Roomy, Accounted, Promising, Fits, Titled, TargetOf;
      OnTimeStarts(late, first);
      ghost var ready, said, was := c.ch.trace, c.log, c.ch.honest;
      r, s := Settle(c, desk, f, clip, dir, now, p);
      SafelyAfter(start, ready, c.ch.trace, was, c.ch.honest, s.t, s.gone);
      SafelySeen(ready, c.ch.trace, c.ch.honest, s.t, s.gone);
      VouchedHere(s, cfg, before, said, c.log);
      if desk.injectValid {
        EarnedHere(s, desk, cfg, Naming.ObjectName(gmtime, now, old(counter)), f.content);
      }
      OnTimeJoined(late, first);
      Tallied(late, first, old(checks), checks, r.Success?);
      PromisingMeans(s, desk, cfg, f);
      TitledHere(s, gmtime, now, old(counter), f.content);
      AccountedHere(s, r, gmtime, now, old(counter));
    }

    /** What happens while the flight flag is held. */
    method Fly(c: Client, desk: Desk, f: LocalFile, now: nat) returns (r: Result<Report>, clip: Clip, ghost s: Story)
      requires Valid() && c.Valid() && Naming.InRange(gmtime(now))
      modifies this`checks, this`counter, c, c.ch, desk, f
      ensures Valid() && c.Valid() && c.ch.Onward() && c.initialized == old(c.initialized)
      ensures c.ch.HandlesKept()
      ensures desk.log == old(desk.log) + FlightLog(desk.clipValid, s) && clip == s.clip
      ensures !desk.clipValid ==> s.clip == NO_CLIP
      ensures Announced(s.mid, cfg, s.clip, s.t, c.ch.honest)
      ensures Safely(old(c.ch.trace), c.ch.trace, c.ch.honest, s.t, s.gone)
      ensures old(c.log) <= c.log && Vouched(s, cfg, old(c.log), c.log)
      ensures !LooksPublished(s.t.temp) && s.t.content == f.content
      ensures s.mid != [] ==> Earned(s, desk, cfg) && OnTimeToPublish(late, old(checks))
      ensures s.mid != [] && c.ch.honest ==>
        |old(c.ch.trace)| <= s.madeAt + 1 <= |c.ch.trace|
        && LevelsMade(old(c.ch.fs), c.ch.trace[s.madeAt], s.dir, |Parts(s.dir)|)
      ensures r.Success? ==>
        Delivered(s.mid) && Tells(r.value, s) && checks == old(checks) + 5 && OnTime(late, old(checks))
      ensures Delivered(s.mid) ==> r.Success? || late(old(checks) + 3) || late(old(checks) + 4)
      ensures Fits(late, old(checks), checks, r.Success?)
      ensures TooLate(late, old(checks), checks) ==> r == Failure(UploadTimeout)
      ensures Promising(s, desk, cfg, f) && c.initialized && OnTimeToPublish(late, old(checks)) ==>
                s.mid != [] || !c.ch.Willing()
      ensures Accounted(s, r, desk.clipValid, gmtime, now, old(counter), counter)
      ensures Tidied(s, c.log, now, retention, late(old(checks) + 3))
      ensures Roomy(s.dir) && c.initialized ==> !s.sweep.SweepFailed? || !c.ch.Willing()
    {
      hide Safely, Confined, Parts, Level, LevelsMade, Usable, Announced, LooksPublished, Delivered, Named,
        Naming.ObjectName, Earned, Homely, PlainDir, Tells, OnTime, OnTimeToPublish, Promising, Spoken, Vouched, DirSaid,
        Naming.InRange, Channel.Answering, Channel.Quiet, Tally, TooLate, Fits, Tidied, Blamed, LocallyBlamed, Roomy, Titled,
        TargetOf, Accounted;
      OnTimeStarts(late, checks);
      ghost var start, was := c.ch.trace, c.ch.honest;
      var st, dir;
      ghost var captured;
      st, clip, dir, captured := Prepare(c, desk);
      s := Story(captured, clip, [], IDLE.(content := f.content), {}, dir, |c.ch.trace| - 1, Unswept);
      SafelyPrepared(start, c.ch.trace, was, c.ch.honest, s.t);
      if st.Err? {
        PromisingMeans(s, desk, cfg, f);
        IdleNeverLooksPublished();
        NothingAnnounced(cfg, clip, s.t, c.ch.honest);
        NothingVouched(s, cfg, old(c.log), c.log);
        LeftAlone(s, c.log, now, retention, late(old(checks) + 3));
        TalliedEarly(late, old(checks), checks);
        BrokeEarly(s, st.error, desk.clipValid, gmtime, now, counter);
        return Failure(st.error), clip, s;
      }
      r, s := Conclude(c, desk, f, clip, dir, now, s, start, old(c.log), old(checks));
    }

    /** One upload-and-paste, refused while another is in flight. */
    method Run(c: Client, desk: Desk, f: LocalFile, now: nat) returns (r: Result<Report>, ghost s: Story)
      requires Valid() && c.Valid() && Naming.InRange(gmtime(now))
      modifies this, c, c.ch, desk, f
      ensures old(inFlight) ==> r == Failure(Busy) && unchanged(this, c, c.ch, desk, f)
      ensures Valid() && c.Valid() && c.ch.Onward() && c.initialized == old(c.initialized)
      ensures inFlight == old(inFlight)
      ensures c.ch.HandlesKept()
      ensures !old(inFlight) ==>
        && desk.log == old(desk.log) + FlightLog(desk.clipValid, s) + Releases(s.clip)
        && (!desk.clipValid ==> s.clip == NO_CLIP)
        && Announced(s.mid, cfg, s.clip, s.t, c.ch.honest)
        && Safely(old(c.ch.trace), c.ch.trace, c.ch.honest, s.t, s.gone)
        && old(c.log) <= c.log && Vouched(s, cfg, old(c.log), c.log)
        && !LooksPublished(s.t.temp) && s.t.content == f.content
        && (s.mid != [] ==> Earned(s, desk, cfg) && OnTimeToPublish(late, old(checks)))
        && (s.mid != [] && c.ch.honest ==>
              |old(c.ch.trace)| <= s.madeAt + 1 <= |c.ch.trace|
              && LevelsMade(old(c.ch.fs), c.ch.trace[s.madeAt], s.dir, |Parts(s.dir)|))
        && (r.Success? ==>
              Delivered(s.mid) && Tells(r.value, s) && checks == old(checks) + 5 && OnTime(late, old(checks)))
        && Accounted(s, r, desk.clipValid, gmtime, now, old(counter), counter)
        && Tidied(s, c.log, now, retention, late(old(checks) + 3))
        && (Roomy(s.dir) && c.initialized ==> !s.sweep.SweepFailed? || !c.ch.Willing())
        && (Delivered(s.mid) ==> r.Success? || late(old(checks) + 3) || late(old(checks) + 4))
        && Fits(late, old(checks), checks, r.Success?)
        && (TooLate(late, old(checks), checks) ==> r == Failure(UploadTimeout))
        && (Promising(s, desk, cfg, f) && c.initialized && OnTimeToPublish(late, old(checks)) ==>
              s.mid != [] || !c.ch.Willing())
    {
      hide Safely, LevelsMade, Parts, Announced, LooksPublished, Tells, OnTime, OnTimeToPublish, Earned, Promising, Delivered,
        Vouched, Fits, TooLate, Tidied, Accounted, Roomy;
      if inFlight {
        s := Story(Ok, NO_CLIP, [], IDLE, {}, "", 0, Unswept);
        return Failure(Busy), s;
      }
      inFlight := true;
      var clip;
      r, clip, s := Fly(c, desk, f, now);
      Land(desk, clip);
    }

    /** What leaving `Run` does on every path: release the capture, then clear the flag. */
    method Land(desk: Desk, clip: Clip)
      requires inFlight
      modifies this`inFlight, desk
      ensures !inFlight && desk.log == old(desk.log) + Releases(clip)
    {
      if clip.token.Some? {
        desk.Release(clip.token.value, inFlight);
      }
      inFlight := false;
    }
  }

  function TargetOf(dir: string, name: string, content: Bytes, size: nat): Publication.Target {
    Publication.Target(dir + "/.tmp-" + name, dir + "/" + name, content, size)
  }

  /** The whole image stands under its published name. */
  ghost predicate Shown(fs: Fs, t: Publication.Target) {
    t.published in fs.files && fs.files[t.published] == t.content && |t.content| == t.size
  }

  /** Nothing was announced unless the whole image stood under its published name, as far as
      the server has kept to the protocol. */
  ghost predicate Announced(mid: seq<Effect>, cfg: Config, clip: Clip, t: Publication.Target, honest: bool) {
    mid == [] ||
    (&& mid[0].SetText?
     && PublishLog(mid, cfg, clip, t.published, mid[0].server)
     && (honest ==> Shown(mid[0].server, t)))
  }

  // ----- what the peer said -------------------------------------------------------------------

  /** "~/x" stands for x below the directory that the peer calls its own. */
  ghost predicate Resolved(part: seq<Said>, dir: string, resolved: string) {
    if Homely(dir) then
      && |part| == 1 && part[0].req.Realpath? && part[0].req.path == "."
      && exists home :: RealpathSays(part[0].heard, part[0].req.id, Success(home)) && resolved == home + "/" + dir[2..]
    else part == [] && resolved == dir
  }

  /** The directory was resolved, and each of its levels stands. */
  ghost predicate DirSaid(part: seq<Said>, dir: string, resolved: string) {
    exists k :: 0 <= k <= |part| && Resolved(part[..k], dir, resolved) && Climbed(part[k..], resolved, |Parts(resolved)|)
  }

  /** The temporary file was written whole, and the peer twice reported its size: that of the
      local file, and the one captured. */
  ghost predicate SizedSaid(part: seq<Said>, t: Publication.Target) {
    part != [] && SizeSaid(part[|part| - 1], t.temp, t.size) && UploadSaid(part[..|part| - 1], t.temp, t.content)
  }

  /** What the last STAT comes to: no size at all, another one, or that of the image. */
  ghost predicate Compared(s: Said, path: string, size: nat, st: Status) {
    && s.req.Stat? && s.req.path == path
    && st == if !TellsSize(s) then Err(StatFailed) else if s.heard.reply.size.value == size then Ok else Err(SizeMismatch)
  }

  lemma ComparedHere(s: Said, path: string, size: nat, r: Result<nat>)
    requires s.req.Stat? && s.req.path == path && SizeSays(s.heard, s.req.id, r)
    ensures Compared(s, path, size, if r.Failure? then Err(StatFailed) else if r.value == size then Ok else Err(SizeMismatch))
  {
  }

  /** And only then it was renamed. */
  ghost predicate PublishedSaid(part: seq<Said>, t: Publication.Target) {
    part != [] && RenamedBy(part[|part| - 1], t.temp, t.published) && SizedSaid(part[..|part| - 1], t)
  }

  /** Nothing was announced unless the peer had said so since `start`. */
  ghost predicate Spoken(mid: seq<Effect>, start: seq<Said>, log: seq<Said>, t: Publication.Target) {
    mid != [] ==> mid[0].SetText? && start <= mid[0].said <= log && PublishedSaid(mid[0].said[|start|..], t)
  }

  /** For any peer: nothing is announced unless, since `start`, it has acknowledged the directory,
      the whole upload, both sizes and the rename, in this order. */
  ghost predicate Vouched(s: Story, cfg: Config, start: seq<Said>, log: seq<Said>) {
    s.mid != [] ==>
      && s.mid[0].SetText? && start <= s.mid[0].said <= log
      && var part := s.mid[0].said[|start|..];
         exists k :: 0 <= k <= |part| && DirSaid(part[..k], cfg.remoteDir, s.dir) && PublishedSaid(part[k..], s.t)
  }

  lemma HomeHeard(log: seq<Said>, end: seq<Said>, dir: string, home: string)
    requires Homely(dir) && log < end && |end| == |log| + 1
    requires end[|log|].req.Realpath? && end[|log|].req.path == "."
    requires RealpathSays(end[|log|].heard, end[|log|].req.id, Success(home))
    ensures Resolved(end[|log|..], dir, home + "/" + dir[2..])
  {
  }

  lemma DirHeard(log: seq<Said>, mid: seq<Said>, end: seq<Said>, dir: string, resolved: string)
    requires log <= mid <= end && Resolved(mid[|log|..], dir, resolved) && Climbed(end[|mid|..], resolved, |Parts(resolved)|)
    ensures DirSaid(end[|log|..], dir, resolved)
  {
    hide Resolved, Climbed, Parts;
    var part, k := end[|log|..], |mid| - |log|;
    assert part[..k] == mid[|log|..] && part[k..] == end[|mid|..];
  }

  lemma SpokenStill(mid: seq<Effect>, start: seq<Said>, log: seq<Said>, more: seq<Said>, t: Publication.Target)
    requires Spoken(mid, start, log, t) && log <= more
    ensures Spoken(mid, start, more, t)
  {
  }

  lemma NothingVouched(s: Story, cfg: Config, start: seq<Said>, log: seq<Said>)
    requires s.mid == []
    ensures Vouched(s, cfg, start, log)
  {
  }

  lemma VouchedHere(s: Story, cfg: Config, start: seq<Said>, ready: seq<Said>, log: seq<Said>)
    requires start <= ready <= log && DirSaid(ready[|start|..], cfg.remoteDir, s.dir) && Spoken(s.mid, ready, log, s.t)
    ensures Vouched(s, cfg, start, log)
  {
    hide DirSaid, PublishedSaid;
    if s.mid != [] {
      var part, k := s.mid[0].said[|start|..], |ready| - |start|;
      assert part[..k] == ready[|start|..] && part[k..] == s.mid[0].said[|ready|..];
    }
  }

  lemma AnnouncedStill(mid: seq<Effect>, cfg: Config, clip: Clip, t: Publication.Target, was: bool, honest: bool)
    requires Announced(mid, cfg, clip, t, was) && (honest ==> was)
    ensures Announced(mid, cfg, clip, t, honest)
  {
  }

  lemma NothingAnnounced(cfg: Config, clip: Clip, t: Publication.Target, honest: bool)
    ensures Announced([], cfg, clip, t, honest) && !Delivered([])
  {
  }

  lemma IdleNeverLooksPublished()
    ensures !LooksPublished(IDLE.temp)
  {
  }

  lemma AnnouncedHere(mid: seq<Effect>, cfg: Config, clip: Clip, t: Publication.Target, server: Fs, honest: bool)
    requires PublishLog(mid, cfg, clip, t.published, server) && (honest ==> Shown(server, t))
    ensures Announced(mid, cfg, clip, t, honest)
  {
  }

  /** What happened in one run, for the record: what the capture answered, what was announced,
      the paths, what retention removed, when the directory stood, and what came of retention. */
  datatype Story = Story(
    captured: Status, clip: Clip, mid: seq<Effect>, t: Publication.Target, gone: set<string>, dir: string, madeAt: nat,
    sweep: Sweep)

  const IDLE := Publication.Target("", "", [], 0)

  /** Everything a run does to the desktop before it lands, in order. */
  function FlightLog(clipValid: bool, s: Story): seq<Effect> {
    if clipValid then [Captured(s.captured, s.clip)] + s.mid else []
  }

  /** The desktop is touched only for a captured image, uploaded under an upload name. */
  ghost predicate Earned(s: Story, desk: Desk, cfg: Config) {
    && desk.clipValid && desk.injectValid && Usable(Captured(s.captured, s.clip))
    && s.t.size == s.clip.bytes && LooksPublished(s.t.published)
    && s.dir != [] && (!Homely(cfg.remoteDir) ==> s.dir == cfg.remoteDir)
    && s.dir + "/" <= s.t.published
  }

  /** The order that every run keeps on the desktop: the text once, the chord once and right
      after it, the restore after that, and the release of the capture exactly once, last. */
  lemma RunKeepsOrder(s: Story, cfg: Config, clipValid: bool, honest: bool)
    requires Announced(s.mid, cfg, s.clip, s.t, honest)
    requires !clipValid ==> s.mid == [] && s.clip == NO_CLIP
    ensures var log := FlightLog(clipValid, s) + Releases(s.clip);
      && (forall i, j :: 0 <= i < j < |log| && log[i].SetText? ==> !log[j].SetText?)
      && (forall i, j :: 0 <= i < j < |log| && log[i].Pasted? ==> !log[j].Pasted?)
      && (forall i :: 0 <= i < |log| && log[i].SetText? ==> i == 1 && log[0].Captured?)
      && (forall i :: 0 <= i < |log| && log[i].Pasted? ==> i == 2 && log[1].SetText? && log[1].st.Ok?)
      && (forall i :: 0 <= i < |log| && log[i].Restored? ==> i == 3 && log[2].Pasted? && s.clip.token == Some(log[3].token))
      && (forall i :: 0 <= i < |log| && log[i].Released? ==>
            i == |log| - 1 && log[i].inFlight && s.clip.token == Some(log[i].token))
      && (s.clip.token.Some? ==> log != [] && log[|log| - 1].Released?)
  {
    var log := FlightLog(clipValid, s) + Releases(s.clip);
    assert |s.mid| <= 3;
    assert |log| <= 5;
  }

  /** What is announced is the path of the upload, which stood there whole on the server of an honest
      peer at that moment. */
  lemma AnnouncedMeans(s: Story, cfg: Config, honest: bool)
    requires Announced(s.mid, cfg, s.clip, s.t, honest)
    ensures forall i :: 0 <= i < |s.mid| && s.mid[i].SetText? ==>
      && i == 0 && s.mid[0].path == s.t.published
      && (honest ==> s.t.published in s.mid[0].server.files && s.mid[0].server.files[s.t.published] == s.t.content
                     && |s.t.content| == s.t.size)
    ensures forall i :: 0 <= i < |s.mid| && s.mid[i].Restored? ==> cfg.restoreClipboard && s.clip.token == Some(s.mid[i].token)
  {
    assert |s.mid| <= 3;
  }

  lemma EarnedHere(s: Story, desk: Desk, cfg: Config, name: string, content: Bytes)
    requires desk.clipValid && desk.injectValid && Usable(Captured(s.captured, s.clip)) && s.dir != []
    requires LooksPublished(s.t.published) && s.t == TargetOf(s.dir, name, content, s.clip.bytes)
    requires !Homely(cfg.remoteDir) ==> s.dir == cfg.remoteDir
    ensures Earned(s, desk, cfg)
  {
    assert s.t.published == s.dir + "/" + name;
  }

  lemma PromisingMeans(s: Story, desk: Desk, cfg: Config, f: LocalFile)
    ensures Promising(s, desk, cfg, f) ==>
      && desk.clipValid && desk.injectValid && Usable(Captured(s.captured, s.clip))
      && PlainDir(cfg.remoteDir) && |cfg.remoteDir| + 6 + MAX_NAME < MAX_PATH && !Homely(cfg.remoteDir)
      && f.canOpen && f.canStat && !f.failed && |f.content| == s.clip.bytes
  {
  }

  lemma OnTimeStarts(late: nat -> bool, first: nat)
    ensures OnTimeToPublish(late, first) ==> !late(first) && !late(first + 1) && !late(first + 2)
  {
  }

  lemma OnTimeJoined(late: nat -> bool, first: nat)
    requires !late(first) && !late(first + 1)
    ensures !late(first + 2) ==> OnTimeToPublish(late, first)
    ensures OnTimeToPublish(late, first + 2) ==> OnTime(late, first) && !late(first + 2)
  {
  }

  /** The three deadline checks up to publishing find nothing. */
  ghost predicate OnTimeToPublish(late: nat -> bool, first: nat) {
    !late(first) && !late(first + 1) && !late(first + 2)
  }

  /** All five deadline checks of a run find nothing. */
  ghost predicate OnTime(late: nat -> bool, first: nat) {
    OnTimeToPublish(late, first) && !late(first + 3) && !late(first + 4)
  }

  /** A pass over the directory of a run asks for a published image by the very path of its
      publication, exactly when the directory is not given with a slash at its end. */
  lemma PassNamesThePublished(dir: string, name: string, content: Bytes, size: nat)
    requires dir != [] && IsUploadName(name)
    ensures DirOps.OursIn(dir, DirOps.Joined(dir, name))
    ensures DirOps.Joined(dir, name) == TargetOf(dir, name, content, size).published <==> dir[|dir| - 1] != '/'
  {
    assert dir[|dir| - 1] == '/' ==> |dir + "/" + name| == |DirOps.Joined(dir, name)| + 1;
  }

  // ----- the deadline ---------------------------------------------------------------------------

  /** What the loads of the latch found from one of them up to another. */
  function Answers(late: nat -> bool, from: nat, to: nat): seq<bool>
    requires from <= to
  {
    seq(to - from, k requires 0 <= k => late(from + k))
  }

  /** The last load found the latch. */
  predicate TooLate(late: nat -> bool, from: nat, to: nat) { from < to && late(to - 1) }

  /** How a run ends for the deadline. */
  function Why(late: nat -> bool, from: nat, to: nat, ok: bool): Deadline.Outcome {
    if ok then Deadline.Delivered else if TooLate(late, from, to) then Deadline.TimedOut else Deadline.StepFailed
  }

  /** The loads of a run are those of a flight that ends as it does. */
  ghost predicate Fits(late: nat -> bool, from: nat, to: nat, ok: bool) {
    from <= to && Deadline.ChecksFit(Answers(late, from, to), Why(late, from, to, ok))
  }

  /** Of `n` loads that a stretch of the run makes when all goes well, none but the last found the
      latch, and without that a broken stretch made one at most. */
  ghost predicate Tally(late: nat -> bool, from: nat, to: nat, n: nat, ok: bool) {
    && from <= to <= from + n
    && (forall k :: from <= k < to - 1 ==> !late(k))
    && (ok ==> to == from + n)
    && (ok <==> to == from + n && !TooLate(late, from, to))
    && (to <= from + 1 || ok || TooLate(late, from, to))
  }

  lemma TalliedShort(late: nat -> bool, from: nat, to: nat, ok: bool)
    requires Tally(late, from, to, 2, ok)
    ensures if ok then Tally(late, from, to + 1, 3, !late(to)) && (TooLate(late, from, to + 1) <==> late(to))
            else Tally(late, from, to, 3, false)
  {
  }

  lemma Tallied(late: nat -> bool, from: nat, mid: nat, to: nat, ok: bool)
    requires Tally(late, from, mid, 2, true) && Tally(late, mid, to, 3, ok)
    ensures Fits(late, from, to, ok) && (TooLate(late, from, to) ==> TooLate(late, mid, to))
  {
  }

  lemma TalliedEarly(late: nat -> bool, from: nat, to: nat)
    requires Tally(late, from, to, 2, false)
    ensures Fits(late, from, to, false)
  {
  }

  /** A run whose loads of the latch are those of the `i`-th flight of an interleaving ends as that
      flight: it succeeds exactly on a delivery, which retired before any latch of its own, and a load
      that found the latch is a latch stored no earlier than the timeout after this flight's start. */
  lemma DeadlineDecides(timeout: nat, ls: seq<Deadline.Label>, i: nat, late: nat -> bool, from: nat, to: nat, ok: bool)
    requires Deadline.Exec(Deadline.Init(timeout), ls).h.flights < Deadline.GENERATIONS
    requires i < |Deadline.Exec(Deadline.Init(timeout), ls).h.results|
    requires Fits(late, from, to, ok)
    requires Deadline.Exec(Deadline.Init(timeout), ls).h.results[i].checks == Answers(late, from, to)
    ensures var h := Deadline.Exec(Deadline.Init(timeout), ls).h;
      var r := h.results[i];
      && r.why == Why(late, from, to, ok)
      && (ok ==> !r.latchedBefore)
      && (TooLate(late, from, to) ==>
            && 0 < timeout && r.gen in h.latchedAt && r.gen in h.startOf
            && h.startOf[r.gen] + timeout <= h.latchedAt[r.gen])
  {
    hide Deadline.Exec;
    var r := Deadline.Exec(Deadline.Init(timeout), ls).h.results[i];
    Deadline.LoadsTellTheEnd(timeout, ls, i);
    Deadline.LatchIsLate(timeout, ls);
    Deadline.OnlyItsOwnLatchEndsAFlight(timeout, ls, i);
    EndsOneWay(r.checks, r.why, Why(late, from, to, ok));
    assert from < to ==> r.checks[to - from - 1] == late(to - 1);
  }

  /** How a flight ended can be told from what its loads found. */
  lemma EndsOneWay(checks: seq<bool>, why: Deadline.Outcome, other: Deadline.Outcome)
    requires Deadline.ChecksFit(checks, why) && Deadline.ChecksFit(checks, other)
    ensures why == other
  {
  }

  /** The report of a delivered run. */
  ghost predicate Tells(r: Report, s: Story) {
    && r.remotePath == s.t.published && r.bytes == s.clip.bytes
    && (r.pruned <==> s.sweep.Swept?) && (r.pruneFailed <==> s.sweep.SweepFailed?)
    && r.prunedFiles == (if s.sweep.Swept? then s.sweep.told.removed else 0)
    && (r.restored <==> |s.mid| == 3 && s.mid[2].Restored? && s.mid[2].st.Ok?)
  }

  lemma TellsHere(r: Report, remote: string, bytes: nat, restored: bool, s: Story)
    requires remote == s.t.published && bytes == s.clip.bytes
    requires restored <==> |s.mid| == 3 && s.mid[2].Restored? && s.mid[2].st.Ok?
    requires r == match s.sweep
                  case Unswept => Report(remote, bytes, restored, false, false, 0)
                  case Swept(told) => Report(remote, bytes, restored, true, false, told.removed)
                  case SweepFailed => Report(remote, bytes, restored, false, true, 0)
    ensures Tells(r, s)
  {
  }

  // ----- what follows a delivery ----------------------------------------------------------------

  /** What came of retention. */
  datatype Sweep = Unswept | Swept(told: DirOps.CleanupResult) | SweepFailed

  /** What it asked of the peer: a whole pass over `dir`, or the listing that failed. */
  ghost predicate SweepSaid(part: seq<Said>, sweep: Sweep, dir: string, now: nat, p: Retention.Policy) {
    match sweep
    case Unswept => part == []
    case Swept(told) => DirOps.CleanupSaid(part, dir, told, now, p)
    case SweepFailed => OnlyLooks(part)
  }

  /** Retention follows every delivery in time, unless both of its rules are off, and nothing else; it
      is a pass over the directory of the upload, and the last that the peer hears of the run. */
  ghost predicate Tidied(s: Story, log: seq<Said>, now: nat, p: Retention.Policy, cut: bool) {
    && (s.sweep.Unswept? <==> !Delivered(s.mid) || cut || (p.maxAgeSeconds == 0 && p.keepNewest == 0))
    && (s.mid != [] ==> s.mid[0].SetText? && s.mid[0].said <= log
                        && SweepSaid(log[|s.mid[0].said|..], s.sweep, s.dir, now, p))
    && (s.sweep.Unswept? ==> s.gone == {})
    && forall x :: x in s.gone ==> DirOps.OursIn(s.dir, x)
  }

  /** Every upload name fits behind the directory. */
  predicate Roomy(dir: string) { dir != [] && |dir| + 1 + MAX_NAME < MAX_PATH }

  lemma LeftAlone(s: Story, log: seq<Said>, now: nat, p: Retention.Policy, cut: bool)
    requires s.sweep == Unswept && s.gone == {} && (Delivered(s.mid) ==> cut)
    requires s.mid != [] ==> s.mid[0].SetText? && s.mid[0].said == log
    ensures Tidied(s, log, now, p, cut)
  {
    hide Delivered;
  }

  lemma TidiedHere(s: Story, said: seq<Said>, log: seq<Said>, now: nat, p: Retention.Policy, cut: bool)
    requires Delivered(s.mid) && !cut && said <= log && (s.mid != [] ==> s.mid[0].SetText? && s.mid[0].said == said)
    requires s.sweep.Unswept? <==> p.maxAgeSeconds == 0 && p.keepNewest == 0
    requires SweepSaid(log[|said|..], s.sweep, s.dir, now, p)
    requires s.sweep.Unswept? ==> s.gone == {}
    requires forall x :: x in s.gone ==> DirOps.OursIn(s.dir, x)
    ensures Tidied(s, log, now, p, cut)
  {
    hide SweepSaid, DirOps.OursIn;
  }

  /** The upload goes by the name of this run: the next number of the pipeline, at this second. */
  ghost predicate Titled(s: Story, gmtime: nat -> Naming.Civil, now: nat, counter: nat) {
    counter < U32 && Naming.InRange(gmtime(now))
    && s.t == TargetOf(s.dir, Naming.ObjectName(gmtime, now, counter), s.t.content, s.clip.bytes)
  }

  lemma TitledHere(s: Story, gmtime: nat -> Naming.Civil, now: nat, counter: nat, content: Bytes)
    requires counter < U32 && Naming.InRange(gmtime(now))
    requires s.t == TargetOf(s.dir, Naming.ObjectName(gmtime, now, counter), content, s.clip.bytes)
    ensures Titled(s, gmtime, now, counter) && s.t.content == content
  {
    hide Naming.ObjectName;
  }

  // ----- what a failed run says -------------------------------------------------------------------

  /** A step on the desktop that broke gives the run its error. */
  ghost predicate Blamed(mid: seq<Effect>, st: Status) {
    st.Err? && mid != [] ==>
      && mid[0].SetText? && (mid[0].st.Err? ==> st == mid[0].st)
      && (mid[0].st.Ok? ==> 2 <= |mid| && mid[1].Pasted? && (mid[1].st.Err? ==> st == mid[1].st))
      && (Delivered(mid) ==> st == Err(UploadTimeout))
  }

  /** So does a capture that brought no image. */
  predicate LocallyBlamed(clipValid: bool, captured: Status, clip: Clip, e: Error) {
    if !clipValid then e == ClipboardOpenFailed
    else if captured.Err? then e == captured.error
    else Usable(Captured(captured, clip)) || e == NoImageInClipboard
  }

  lemma DeliveredIsBlameless(mid: seq<Effect>, e: Error)
    requires Delivered(mid) && e == UploadTimeout
    ensures Blamed(mid, Err(e))
  {
  }

  /** The run took the next name of the pipeline, and no other, before it announced anything; and when it
      failed, its error is that of the step on the desktop that broke. */
  ghost predicate Accounted(s: Story, r: Result<Report>, clipValid: bool, gmtime: nat -> Naming.Civil, now: nat,
                            was: nat, counter: nat) {
    && (counter == was || counter == (was + 1) % U32)
    && (s.mid != [] ==> Titled(s, gmtime, now, was) && counter == (was + 1) % U32)
    && (r.Failure? ==> Blamed(s.mid, Err(r.error)) && LocallyBlamed(clipValid, s.captured, s.clip, r.error))
  }

  lemma BrokeEarly(s: Story, e: Error, clipValid: bool, gmtime: nat -> Naming.Civil, now: nat, counter: nat)
    requires s.mid == [] && LocallyBlamed(clipValid, s.captured, s.clip, e)
    ensures Accounted(s, Failure(e), clipValid, gmtime, now, counter, counter)
  {
    hide LocallyBlamed;
  }

  lemma AccountedHere(s: Story, r: Result<Report>, gmtime: nat -> Naming.Civil, now: nat, was: nat)
    requires Usable(Captured(s.captured, s.clip)) && Titled(s, gmtime, now, was)
    requires r.Failure? ==> Blamed(s.mid, Err(r.error))
    ensures Accounted(s, r, true, gmtime, now, was, (was + 1) % U32)
  {
    hide Titled, Blamed;
  }

  lemma UsableIsBlameless(captured: Status, clip: Clip)
    requires Usable(Captured(captured, clip))
    ensures forall e :: LocallyBlamed(true, captured, clip, e)
  {
  }

  /** Everything on this side is in order for an upload. */
  ghost predicate Promising(s: Story, desk: Desk, cfg: Config, f: LocalFile)
    reads f
  {
    && desk.clipValid && desk.injectValid && Usable(Captured(s.captured, s.clip))
    && PlainDir(cfg.remoteDir) && |cfg.remoteDir| + 6 + MAX_NAME < MAX_PATH
    && f.canOpen && f.canStat && !f.failed && |f.content| == s.clip.bytes
  }

  /** The directory is given relative to the server's home. */
  predicate Homely(dir: string) { 2 <= |dir| && dir[0] == '~' && dir[1] == '/' }

  /** A directory that needs no expansion and fits. */
  ghost predicate PlainDir(dir: string) {
    0 < |dir| < MAX_PATH && !Homely(dir) && |Level(dir, |Parts(dir)|)| < MAX_PATH
  }

  lemma LevelsMadeKeeps(before: Fs, after: Fs, path: string)
    ensures LevelsMade(before, after, path, 0) ==> after.files == before.files && after.handles == before.handles
    ensures forall n: nat :: LevelsMade(before, after, path, n) ==> after.files == before.files && after.handles == before.handles
  {
  }
}
