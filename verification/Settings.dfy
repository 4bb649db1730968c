/** Editing the remote settings file: back up, verify, write, verify, roll back. */
module Settings {
  import opened Types
  import opened Peer
  import opened Client
  import opened Transcript
  import opened Reference
  import HookJson

  const MAX_SETTINGS: nat := 262144

  function IsSpace(c: byte): bool { c == 0x20 || c == 0x09 || c == 0x0A || c == 0x0D || c == 0x0C || c == 0x0B }

  predicate Blank(bytes: Bytes) { forall k :: 0 <= k < |bytes| ==> IsSpace(bytes[k]) }

  method IsBlank(bytes: Bytes) returns (yes: bool)
    ensures yes <==> Blank(bytes)
    ensures yes <==> forall k :: 0 <= k < |bytes| ==> bytes[k] in [0x20, 0x09, 0x0A, 0x0B, 0x0C, 0x0D]
  {
    for i := 0 to |bytes|
      invariant forall k :: 0 <= k < i ==> IsSpace(bytes[k])
    {
      if !IsSpace(bytes[i]) {
        return false;
      }
    }
    yes := true;
  }

  function Digits(n: nat): (s: string)
    ensures s != []
  {
    (if n < 10 then [] else Digits(n / 10)) + [Digit(n % 10)]
  }

  function Digit(n: nat): char
    requires n < 10
  {
    '0' + n as char
  }

  lemma DigitReads(n: nat)
    requires n < 10
    ensures '0' <= Digit(n) <= '9' && Digit(n) as int - '0' as int == n
  {
  }

  function BackupPath(path: string, stamp: nat): string { path + ".picopaste-backup-" + Digits(stamp) }

  /** The number that decimal digits stand for. */
  function Value(s: string): int {
    if s == [] then 0 else 10 * Value(s[..|s| - 1]) + (s[|s| - 1] as int - '0' as int)
  }

  lemma {:induction false} DigitsRead(n: nat)
    ensures Value(Digits(n)) == n && forall k :: 0 <= k < |Digits(n)| ==> '0' <= Digits(n)[k] <= '9'
  {
    hide Digit, Value;
    var front, last := if n < 10 then [] else Digits(n / 10), Digit(n % 10);
    assert Digits(n) == front + [last] && (front + [last])[..|front|] == front;
    DigitReads(n % 10);
    if 10 <= n {
      DigitsRead(n / 10);
    }
    ValueNext(front, last);
    ValueOfNone();
  }

  lemma ValueOfNone()
    ensures Value([]) == 0
  {
  }

  lemma ValueNext(s: string, c: char)
    ensures Value(s + [c]) == 10 * Value(s) + (c as int - '0' as int)
  {
    assert (s + [c])[..|s|] == s;
  }

  /** A backup is named after the settings and after the moment, and two moments have two names. */
  lemma BackupsAreApart(path: string, stamp: nat, other: nat)
    ensures exists digits ::
      && BackupPath(path, stamp) == path + ".picopaste-backup-" + digits && Value(digits) == stamp
      && forall k :: 0 <= k < |digits| ==> '0' <= digits[k] <= '9'
    ensures BackupPath(path, stamp) == BackupPath(path, other) ==> stamp == other
  {
    DigitsRead(stamp);
    DigitsRead(other);
    var front := path + ".picopaste-backup-";
    assert BackupPath(path, stamp)[|front|..] == Digits(stamp) && BackupPath(path, other)[|front|..] == Digits(other);
  }

  // ----- never losing the original ------------------------------------------------------------

  ghost predicate Held(fs: Fs, path: string, bytes: Bytes) { path in fs.files && fs.files[path] == bytes }

  /** At every moment since, the original stood at `path` or, byte for byte, at `backup`. */
  ghost predicate Preserved(before: seq<Fs>, after: seq<Fs>, honest: bool, path: string, backup: string, original: Bytes) {
    && before <= after
    && (honest ==> forall k {:trigger after[k]} :: |before| <= k < |after| ==>
          Held(after[k], path, original) || Held(after[k], backup, original))
  }

  /** A stretch that spares one standing copy preserves the original. */
  lemma PreservedThen(start: seq<Fs>, mid: seq<Fs>, end: seq<Fs>, was: bool, honest: bool,
                      path: string, backup: string, original: Bytes, spared: string, part: set<string>)
    requires Preserved(start, mid, was, path, backup, original) && Confined(mid, end, honest, part) && mid != []
    requires honest ==> was && Held(mid[|mid| - 1], spared, original)
    requires spared !in part && (spared == path || spared == backup)
    ensures Preserved(start, end, honest, path, backup, original)
    ensures honest ==> Held(end[|end| - 1], spared, original)
  {
    if honest {
      forall k | |start| <= k < |end| ensures Held(end[k], path, original) || Held(end[k], backup, original) {
        if k < |mid| {
          assert end[k] == mid[k];
        } else {
          assert SameBut(mid[|mid| - 1], end[k], part);
        }
      }
      if |mid| < |end| {
        assert SameBut(mid[|mid| - 1], end[|end| - 1], part);
      }
    }
  }

  lemma PreservedStill(now: seq<Fs>, honest: bool, path: string, backup: string, original: Bytes)
    ensures Preserved(now, now, honest, path, backup, original)
  {
  }

  class RemoteSettings {
    const c: Client
    const parse: Bytes -> Option<map<string, HookJson.Json>>
    const text: map<string, HookJson.Json> -> Bytes
    const mentions: HookJson.Json -> bool
    const clock: nat -> nat
    var ticks: nat

    ghost predicate Valid() reads this, c, c.ch { c.Valid() }

    constructor (c: Client, parse: Bytes -> Option<map<string, HookJson.Json>>,
                 text: map<string, HookJson.Json> -> Bytes, mentions: HookJson.Json -> bool, clock: nat -> nat)
      requires c.Valid()
      ensures Valid() && this.c == c && this.parse == parse && this.text == text && this.mentions == mentions
      ensures this.clock == clock && ticks == 0
    {
      this.c, this.parse, this.text, this.mentions, this.clock := c, parse, text, mentions, clock;
      ticks := 0;
    }

    method NowMillis() returns (t: nat)
      modifies this`ticks
      ensures t == clock(old(ticks)) && ticks == old(ticks) + 1
    {
      t := clock(ticks);
      ticks := ticks + 1;
    }

    /** Reads a whole remote file, refusing one that is over `cap`. */
    method ReadRemote(path: string, cap: nat) returns (st: Status, bytes: Bytes, missing: bool)
      requires Valid()
      modifies c, c.ch
      ensures Valid() && c.ch.Onward() && c.initialized == old(c.initialized)
      ensures c.ch.TouchedOnly({}) && c.ch.HandlesKept()
      ensures c.ch.honest ==> c.ch.fs.files == old(c.ch.fs.files)
      ensures |bytes| <= cap && (missing ==> bytes == []) && st != Err(WriteFailed)
      ensures U32 <= cap ==> st == Err(BufferTooSmall) && !missing && c.log == old(c.log)
      ensures old(c.log) <= c.log && (st.Ok? ==> ReadSaid(c.log[|old(c.log)|..], path, bytes, missing))
      ensures c.ch.honest && st.Ok? && missing ==> path !in c.ch.fs.files
      ensures c.ch.honest && st.Ok? && !missing ==> ReadBack(c.ch.fs, path, bytes, MetEof(c.log[|old(c.log)|..]))
      ensures c.initialized && |path| < MAX_PATH && cap < U32 && c.ch.Willing() ==>
        path in c.ch.fs.files && !missing && (st.Ok? <==> |c.ch.fs.files[path]| <= cap)
        && (st.Ok? ==> bytes == c.ch.fs.files[path])
      ensures c.ch.Answering() && c.initialized && |path| < MAX_PATH && cap < U32 ==>
        var (t, outcome, got, gone) := FetchRun(c.ch.script, old(c.Now()), path, cap);
        (c.Now(), st, missing) == (t, outcome, gone) && (st.Ok? ==> bytes == got)
    {
      hide ReadBackSaid, NotThere, FetchRun, MetEof;
      if U32 <= cap {
        ConfinedStill(c.ch.trace, c.ch.honest, {});
        return Err(BufferTooSmall), [], false;
      }
      var buffer := new byte[cap];
      var size;
      st, size, missing := c.ReadFile(path, buffer, cap);
      bytes := if st.Ok? then buffer[..size] else [];
    }

    method WriteRemote(path: string, bytes: Bytes) returns (st: Status)
      requires Valid()
      modifies c, c.ch
      ensures Valid() && c.ch.Onward() && c.initialized == old(c.initialized)
      ensures c.ch.TouchedOnly({path}) && c.ch.HandlesKept()
      ensures U32 <= |bytes| ==> st == Err(ConfigWriteFailed) && c.log == old(c.log)
      ensures old(c.log) <= c.log && (st.Ok? ==> FileSaid(c.log[|old(c.log)|..], path, bytes))
      ensures st == Err(WriteFailed) <==> WriteRefused(c.log[|old(c.log)|..])
      ensures c.ch.honest && st.Ok? ==> Held(c.ch.fs, path, bytes)
      ensures c.initialized && |path| < MAX_PATH && |bytes| < U32 && c.ch.Willing() ==> st.Ok?
      ensures c.ch.Answering() && c.initialized && |path| < MAX_PATH && |bytes| < U32 ==>
        (c.Now(), st) == FileRun(c.ch.script, old(c.Now()), path, bytes)
    {
      hide FileSaid, WriteRefused, FileRun;
      if U32 <= |bytes| {
        NothingRefused();
        assert c.log[|c.log|..] == [];
        ConfinedStill(c.ch.trace, c.ch.honest, {path});
        return Err(ConfigWriteFailed);
      }
      st := c.WriteFile(path, bytes);
    }

    /** Compares what can be read of the file with the expected bytes. An honest server that says
        where the file ends leaves no room for more behind them. */
    method VerifyBytes(path: string, expected: Bytes) returns (st: Status)
      requires Valid()
      modifies c, c.ch
      ensures Valid() && c.ch.Onward() && c.initialized == old(c.initialized)
      ensures c.ch.TouchedOnly({}) && c.ch.HandlesKept()
      ensures c.ch.honest ==> c.ch.fs.files == old(c.ch.fs.files)
      ensures st.Ok? || st == Err(StatFailed) || st == Err(SizeMismatch)
      ensures old(c.log) <= c.log && (st.Ok? ==> ReadBackSaid(c.log[|old(c.log)|..], path, expected))
      ensures c.ch.honest && st.Ok? ==> ReadBack(c.ch.fs, path, expected, MetEof(c.log[|old(c.log)|..]))
      ensures c.initialized && |path| < MAX_PATH && |expected| <= MAX_SETTINGS && c.ch.Willing() ==>
        (st.Ok? <==> Held(c.ch.fs, path, expected))
      ensures c.ch.Answering() && c.initialized && |path| < MAX_PATH ==>
        (c.Now(), st) == CheckRun(c.ch.script, old(c.Now()), path, expected)
    {
      hide ReadBackSaid, NotThere, FetchRun, MetEof;
      var read, got, missing := ReadRemote(path, MAX_SETTINGS);
      if read.Err? {
        return Err(StatFailed);
      }
      if missing || |got| != |expected| || got != expected {
        return Err(SizeMismatch);
      }
      st := Ok;
    }

    /** Copies the original to a stamped sibling and reads the copy back. */
    method BackupOriginal(path: string, original: Bytes) returns (st: Status, backup: string)
      requires Valid()
      modifies this`ticks, c, c.ch
      ensures Valid() && c.ch.Onward() && c.initialized == old(c.initialized)
      ensures backup != path && c.ch.TouchedOnly({backup}) && c.ch.HandlesKept()
      ensures st.Ok? || st == Err(ConfigWriteFailed) || st == Err(SizeMismatch)
      ensures backup == BackupPath(path, clock(old(ticks)))
      ensures MAX_PATH <= |backup| ==> st == Err(ConfigWriteFailed) && c.log == old(c.log)
      ensures old(c.log) <= c.log && (st.Ok? ==> CopySaid(c.log[|old(c.log)|..], backup, original))
      ensures c.ch.honest && st.Ok? ==> Held(c.ch.fs, backup, original)
      ensures c.initialized && |backup| < MAX_PATH && |original| <= MAX_SETTINGS && c.ch.Willing() ==> st.Ok?
    {
      var stamp := NowMillis();
      backup := BackupPath(path, stamp);
      assert |path| < |backup|;
      ConfinedStill(c.ch.trace, c.ch.honest, {backup});
      if MAX_PATH <= |backup| {
        return Err(ConfigWriteFailed), backup;
      }
      hide Confined, BackupPath, FileSaid, ReadBackSaid, CopySaid, ReadBack, FileRun, CheckRun, WriteRefused, MetEof;
      var wrote := WriteRemote(backup, original);
      if wrote.Err? {
        return Err(ConfigWriteFailed), backup;
      }
      ghost var seen, was, said := c.ch.trace, c.ch.honest, c.log;
      var verified := VerifyBytes(backup, original);
      ConfinedThen(old(c.ch.trace), seen, c.ch.trace, was, c.ch.honest, {backup}, {});
      if verified.Ok? {
        CopyHeard(old(c.log), said, c.log, backup, original);
      }
      st := if verified.Ok? then Ok else Err(SizeMismatch);
    }

    /** Writes the original back and makes sure that it landed. */
    method RollBack(path: string, original: Bytes) returns (ok: bool)
      requires Valid()
      modifies c, c.ch
      ensures Valid() && c.ch.Onward() && c.initialized == old(c.initialized)
      ensures c.ch.TouchedOnly({path}) && c.ch.HandlesKept()
      ensures c.ch.honest && ok ==> Held(c.ch.fs, path, original)
      ensures old(c.log) <= c.log && (ok ==> CopySaid(c.log[|old(c.log)|..], path, original))
      ensures c.initialized && |path| < MAX_PATH && |original| <= MAX_SETTINGS && c.ch.Willing() ==> ok
      ensures c.ch.Answering() && c.initialized && |path| < MAX_PATH && |original| < U32 ==>
        (c.Now(), ok) == BackRun(c.ch.script, old(c.Now()), path, original)
    {
      hide Confined, FileSaid, ReadBackSaid, CopySaid, ReadBack, FileRun, CheckRun, WriteRefused, MetEof;
      var rolled := WriteRemote(path, original);
      if rolled.Err? {
        return false;
      }
      ghost var seen, was, said := c.ch.trace, c.ch.honest, c.log;
      var verified := VerifyBytes(path, original);
      ConfinedThen(old(c.ch.trace), seen, c.ch.trace, was, c.ch.honest, {path}, {});
      ok := verified.Ok?;
      if ok {
        CopyHeard(old(c.log), said, c.log, path, original);
      }
    }

    /** The payload is written and read back. */
    method WriteAndCheck(path: string, payload: Bytes) returns (st: Status, ghost tried: nat)
      requires Valid()
      modifies c, c.ch
      ensures Valid() && c.ch.Onward() && c.initialized == old(c.initialized)
      ensures c.ch.TouchedOnly({path}) && c.ch.HandlesKept()
      ensures old(c.log) <= c.log && |old(c.log)| <= tried <= |c.log|
      ensures st == Err(WriteFailed) <==> WriteRefused(c.log[|old(c.log)|..tried])
      ensures st.Ok? ==> CopySaid(c.log[|old(c.log)|..], path, payload)
      ensures c.ch.honest && st.Ok? ==> Held(c.ch.fs, path, payload)
      ensures c.initialized && |path| < MAX_PATH && |payload| <= MAX_SETTINGS && c.ch.Willing() ==> st.Ok?
      ensures c.ch.Answering() && c.initialized && |path| < MAX_PATH && |payload| < U32 ==>
        (c.Now(), st) == PlainRun(c.ch.script, old(c.Now()), path, payload)
    {
      hide Confined, FileSaid, ReadBackSaid, CopySaid, ReadBack, FileRun, CheckRun, WriteRefused, MetEof;
      st := WriteRemote(path, payload);
      tried := |c.log|;
      ghost var said := c.log;
      assert said[|old(c.log)|..tried] == said[|old(c.log)|..];
      if st.Ok? {
        ghost var seen, was := c.ch.trace, c.ch.honest;
        st := VerifyBytes(path, payload);
        ConfinedThen(old(c.ch.trace), seen, c.ch.trace, was, c.ch.honest, {path}, {});
        assert c.log[|old(c.log)|..tried] == said[|old(c.log)|..];
        if st.Ok? {
          CopyHeard(old(c.log), said, c.log, path, payload);
        }
      }
    }

    /** Writes the payload and reads it back; a failure is rolled back when there is a backup. The
        error of a failed roll-back is also that of a refused WRITE; `a` tells the two apart. */
    method WriteVerified(path: string, original: Bytes, haveBackup: bool, payload: Bytes) returns (st: Status, ghost a: Attempt)
      requires Valid()
      modifies c, c.ch
      ensures Valid() && c.ch.Onward() && c.initialized == old(c.initialized)
      ensures c.ch.TouchedOnly({path}) && c.ch.HandlesKept()
      ensures a.wrote.Ok? ==> st.Ok?
      ensures a.wrote.Err? && (!haveBackup || a.back) ==> st == a.wrote
      ensures haveBackup && a.wrote.Err? ==> (st == Err(WriteFailed) <==> !a.back || a.wrote == Err(WriteFailed))
      ensures !haveBackup ==> a.back
      ensures a.from == |old(c.log)| && old(c.log) <= c.log && Told(a, c.log)
      ensures st.Ok? ==> CopySaid(c.log[|old(c.log)|..], path, payload)
      ensures haveBackup && a.wrote.Err? && a.back ==>
        exists k :: |old(c.log)| <= k <= |c.log| && CopySaid(c.log[k..], path, original)
      ensures c.ch.honest && st.Ok? ==> Held(c.ch.fs, path, payload)
      ensures c.ch.honest && haveBackup && a.wrote.Err? && a.back ==> Held(c.ch.fs, path, original)
      ensures c.initialized && |path| < MAX_PATH && |payload| <= MAX_SETTINGS && c.ch.Willing() ==> st.Ok?
      ensures c.ch.Answering() && c.initialized && |path| < MAX_PATH && |payload| < U32 && |original| < U32 ==>
        (c.Now(), a.wrote, a.back) == VerifiedRun(c.ch.script, old(c.Now()), path, original, haveBackup, payload)
    {
      hide Confined, CopySaid, WriteRefused, PlainRun, BackRun;
      ghost var tried;
      st, tried := WriteAndCheck(path, payload);
      a := Attempt(st, !haveBackup, |old(c.log)|, tried);
      if st.Err? && haveBackup {
        ghost var seen, was, said := c.ch.trace, c.ch.honest, c.log;
        var back := RollBack(path, original);
        ConfinedThen(old(c.ch.trace), seen, c.ch.trace, was, c.ch.honest, {path}, {path});
        assert back ==> CopySaid(c.log[|said|..], path, original);
        assert c.log[|old(c.log)|..tried] == said[|old(c.log)|..tried];
        a := a.(back := back);
        st := if back then st else Err(WriteFailed);
      }
    }

    /** Takes the backup, then writes the payload and proves that it landed. */
    method WriteWithBackup(path: string, original: Bytes, payload: Bytes) returns (st: Status, backup: string, ghost a: Attempt)
      requires Valid()
      modifies this`ticks, c, c.ch
      ensures Valid() && c.ch.Onward() && c.initialized == old(c.initialized)
      ensures backup != path && c.ch.TouchedOnly({path, backup}) && c.ch.HandlesKept()
      ensures (old(c.ch.honest) ==> Held(old(c.ch.fs), path, original)) ==>
        && Preserved(old(c.ch.trace), c.ch.trace, c.ch.honest, path, backup, original)
        && (c.ch.honest && st.Err? && !Wrecked(a) ==> Held(c.ch.fs, path, original))
      ensures st == Err(WriteFailed) <==> Wrecked(a) || a.wrote == Err(WriteFailed)
      ensures st.Ok? ==> a.wrote.Ok?
      ensures old(c.log) <= c.log && Told(a, c.log)
      ensures st.Ok? ==> SwapSaid(c.log[|old(c.log)|..], path, backup, original, payload)
      ensures backup == BackupPath(path, clock(old(ticks)))
      ensures c.ch.honest && st.Ok? ==> Held(c.ch.fs, path, payload) && Held(c.ch.fs, backup, original)
      ensures c.initialized && |path| < MAX_PATH && |backup| < MAX_PATH && c.ch.Willing() ==>
        |original| <= MAX_SETTINGS && |payload| <= MAX_SETTINGS ==> st.Ok?
    {
      hide Confined, Preserved, Held, Named, BackupPath, CopySaid, SwapSaid, VerifiedRun, WriteRefused;
      NothingRefused();
      a := UNTRIED;
      ghost var start, stood := c.ch.trace, c.ch.honest ==> Held(c.ch.fs, path, original);
      st, backup := BackupOriginal(path, original);
      ConfinedWiden(start, c.ch.trace, c.ch.honest, {backup}, {path, backup});
      AfterBackup(start, c.ch.trace, c.ch.honest, stood, path, backup, original);
      assert c.log[0..0] == [];
      if st.Err? {
        return;
      }
      ghost var seen, was, said := c.ch.trace, c.ch.honest, c.log;
      st, a := WriteVerified(path, original, true, payload);
      ConfinedThen(start, seen, c.ch.trace, was, c.ch.honest, {path, backup}, {path});
      if st.Ok? {
        SwapHeard(old(c.log), said, c.log, path, backup, original, payload);
      }
      AfterWrite(start, seen, c.ch.trace, was, c.ch.honest, stood, path, backup, original);
    }

    /** Preserves the original when it is worth keeping, then writes the payload. */
    method BackupThenWrite(path: string, original: Bytes, wantBackup: bool, payload: Bytes)
      returns (st: Status, backup: string, ghost a: Attempt)
      requires Valid()
      modifies this`ticks, c, c.ch
      ensures Valid() && c.ch.Onward() && c.initialized == old(c.initialized)
      ensures backup != path && c.ch.TouchedOnly({path, backup}) && c.ch.HandlesKept()
      ensures wantBackup && (old(c.ch.honest) ==> Held(old(c.ch.fs), path, original)) ==>
        && Preserved(old(c.ch.trace), c.ch.trace, c.ch.honest, path, backup, original)
        && (c.ch.honest && st.Err? && !Wrecked(a) ==> Held(c.ch.fs, path, original))
      ensures wantBackup && c.ch.honest && st.Ok? ==> Held(c.ch.fs, backup, original)
      ensures st == Err(WriteFailed) <==> Wrecked(a) || a.wrote == Err(WriteFailed)
      ensures st.Ok? ==> a.wrote.Ok?
      ensures c.ch.honest && st.Ok? ==> Held(c.ch.fs, path, payload)
      ensures old(c.log) <= c.log && Told(a, c.log)
      ensures st.Ok? ==> WriteSaid(c.log[|old(c.log)|..], path, backup, original, wantBackup, payload)
      ensures wantBackup ==> backup == BackupPath(path, clock(old(ticks)))
      ensures c.initialized && |path| < MAX_PATH && (wantBackup ==> |backup| < MAX_PATH) && c.ch.Willing() ==>
        |original| <= MAX_SETTINGS && |payload| <= MAX_SETTINGS ==> st.Ok?
      ensures !wantBackup && c.ch.Answering() && c.initialized && |path| < MAX_PATH && |payload| < U32 && |original| < U32 ==>
        (c.Now(), st) == PlainRun(c.ch.script, old(c.Now()), path, payload)
    {
      hide Confined, Preserved, Held, Named, CopySaid, SwapSaid, BackupPath, PlainRun, Told;
      if wantBackup {
        st, backup, a := WriteWithBackup(path, original, payload);
      } else {
        backup := path + ".";
        st, a := WriteVerified(path, original, false, payload);
        ConfinedWiden(old(c.ch.trace), c.ch.trace, c.ch.honest, {path}, {path, backup});
      }
    }

    // ----- the documents ------------------------------------------------------------------------

    /** The merged text of an install, or none when there is nothing to do. */
    function InstallText(original: Bytes, e: HookJson.HookEntry): Result<Option<Bytes>> {
      if e.event == [] || !HookJson.Contains(e.command, HookJson.HOOK_MARKER) then Failure(ConfigParseFailed)
      else
        match (if Blank(original) then Some(map[]) else parse(original))
        case None => Failure(ConfigParseFailed)
        case Some(root) => Rendered(HookJson.Installed(root, e, mentions))
    }

    function RemoveText(original: Bytes, marker: string): Result<Option<Bytes>> {
      if marker == [] || Blank(original) then Success(None)
      else
        match parse(original)
        case None => Failure(ConfigParseFailed)
        case Some(root) => Rendered(HookJson.Removed(root, marker))
    }

    function Rendered(r: Result<Option<map<string, HookJson.Json>>>): Result<Option<Bytes>> {
      match r
      case Failure(e) => Failure(e)
      case Success(None) => Success(None)
      case Success(Some(doc)) => Success(Some(text(doc)))
    }

    method BuildInstall(original: Bytes, e: HookJson.HookEntry) returns (r: Result<Option<Bytes>>)
      ensures r == InstallText(original, e)
    {
      if e.event == [] || !HookJson.Contains(e.command, HookJson.HOOK_MARKER) {
        return Failure(ConfigParseFailed);
      }
      var blank := IsBlank(original);
      var root := if blank then Some(map[]) else parse(original);
      if root.None? {
        return Failure(ConfigParseFailed);
      }
      var doc := HookJson.Install(root.value, e, mentions);
      r := Rendered(doc);
    }

    method BuildRemove(original: Bytes, marker: string) returns (r: Result<Option<Bytes>>)
      ensures r == RemoveText(original, marker)
    {
      var blank := IsBlank(original);
      if marker == [] || blank {
        return Success(None);
      }
      var root := parse(original);
      if root.None? {
        return Failure(ConfigParseFailed);
      }
      var doc := HookJson.Remove(root.value, marker);
      r := Rendered(doc);
    }

    // ----- the entry points -----------------------------------------------------------------------

    lemma InstallRefusal(original: Bytes, e: HookJson.HookEntry)
      ensures InstallText(original, e).Failure? ==> InstallText(original, e).error == ConfigParseFailed
    {
    }

    lemma RemoveRefusal(original: Bytes, marker: string)
      ensures RemoveText(original, marker).Failure? ==> RemoveText(original, marker).error == ConfigParseFailed
    {
    }

    /** The text that an install writes: the document that was read, or an empty one for blank settings,
        with one group more behind those of the event. */
    lemma InstallTextMeans(original: Bytes, e: HookJson.HookEntry, bytes: Bytes)
      returns (root: map<string, HookJson.Json>, doc: map<string, HookJson.Json>)
      requires InstallText(original, e) == Success(Some(bytes))
      ensures exists before, after :: e.command == before + "picopaste-hook" + after
      ensures if Blank(original) then root == map[] else parse(original) == Some(root)
      ensures bytes == text(doc) && HookJson.Installed(root, e, mentions) == Success(Some(doc))
      ensures var hooks := if "hooks" in root && root["hooks"].Obj? then root["hooks"].members else map[];
        var groups := if e.event in hooks && hooks[e.event].Arr? then hooks[e.event].items else [];
        && "hooks" in doc && doc["hooks"].Obj? && e.event in doc["hooks"].members
        && doc["hooks"].members[e.event] == HookJson.Arr(groups + [
             HookJson.Obj(map["matcher" := HookJson.Str(e.matcher), "hooks" := HookJson.Arr([
               HookJson.Obj(map["type" := HookJson.Str("command"), "command" := HookJson.Str(e.command)])])])])
    {
      HookJson.ContainsMeans(e.command, HookJson.HOOK_MARKER);
      root := if Blank(original) then map[] else parse(original).value;
      doc := HookJson.Installed(root, e, mentions).value.value;
      HookJson.InstallAppendsTheHook(root, e, mentions);
    }

    /** When an install is refused, and when there is nothing to do. */
    lemma InstallTextWhen(original: Bytes, e: HookJson.HookEntry)
      ensures var root := if Blank(original) then Some(map[]) else parse(original);
        var hooks := if root.Some? && "hooks" in root.value then root.value["hooks"] else HookJson.Obj(map[]);
        var groups := if hooks.Obj? && e.event in hooks.members then hooks.members[e.event] else HookJson.Arr([]);
        && (InstallText(original, e).Failure? <==>
              || e.event == [] || !(exists before, after :: e.command == before + "picopaste-hook" + after)
              || root.None? || !hooks.Obj? || !groups.Arr?)
        && (InstallText(original, e) == Success(None) <==> InstallText(original, e).Success? && mentions(groups))
    {
      HookJson.ContainsMeans(e.command, HookJson.HOOK_MARKER);
    }

    /** When a removal is refused, and when there is nothing to do. */
    lemma RemoveTextWhen(original: Bytes, marker: string)
      ensures RemoveText(original, marker).Failure? <==>
        && marker != [] && !Blank(original)
        && (parse(original).None? || ("hooks" in parse(original).value && !parse(original).value["hooks"].Obj?))
      ensures RemoveText(original, marker).Success? && RemoveText(original, marker).value.Some? <==>
        && marker != [] && !Blank(original) && parse(original).Some?
        && "hooks" in parse(original).value && parse(original).value["hooks"].Obj?
        && HookJson.OursInHooks(parse(original).value["hooks"].members, marker)
    {
    }

    /** The text that a removal writes: the document that was read, without the hooks whose command
        holds the marker given. */
    lemma RemoveTextMeans(original: Bytes, marker: string, bytes: Bytes, event: string, h: HookJson.Json)
      returns (root: map<string, HookJson.Json>, doc: map<string, HookJson.Json>)
      requires RemoveText(original, marker) == Success(Some(bytes))
      ensures parse(original) == Some(root) && bytes == text(doc)
      ensures doc.Keys == root.Keys && forall k :: k in root && k != "hooks" ==> doc[k] == root[k]
      ensures "hooks" in root && root["hooks"].Obj? && doc["hooks"].Obj?
      ensures event in root["hooks"].members && root["hooks"].members[event].Arr? ==>
        && event in doc["hooks"].members && doc["hooks"].members[event].Arr?
        && var before, after := root["hooks"].members[event].items, doc["hooks"].members[event].items;
           h in HookJson.AllHooks(after) <==>
             && h in HookJson.AllHooks(before)
             && !(h.Obj? && "command" in h.members && h.members["command"].Str?
                  && exists front, rest :: h.members["command"].s == front + marker + rest)
    {
      root := parse(original).value;
      doc := HookJson.Removed(root, marker).value.value;
      if event in root["hooks"].members && root["hooks"].members[event].Arr? {
        HookJson.RemoveKeepsTheRest(root, marker, event);
        HookJson.OthersAre(HookJson.AllHooks(root["hooks"].members[event].items), marker, h);
      }
    }

    lemma NothingToRemove(marker: string)
      ensures RemoveText([], marker) == Success(None)
    {
      assert Blank([]);
    }

    /** The part that Install and Remove share: nothing to do, or back up and write. */
    method Rewrite(path: string, original: Bytes, missing: bool, payload: Option<Bytes>)
      returns (st: Status, backup: string, backedUp: bool, ghost a: Attempt)
      requires Valid()
      modifies this`ticks, c, c.ch
      ensures Valid() && c.ch.Onward() && c.initialized == old(c.initialized)
      ensures c.ch.TouchedOnly({path, backup}) && c.ch.HandlesKept()
      ensures payload.None? ==> st.Ok? && c.ch.TouchedOnly({}) && (c.ch.honest ==> c.ch.fs.files == old(c.ch.fs.files))
      ensures backedUp <==> st.Ok? && payload.Some? && !missing && !Blank(original)
      ensures !missing && !Blank(original) && (old(c.ch.honest) ==> Held(old(c.ch.fs), path, original)) ==>
        && Preserved(old(c.ch.trace), c.ch.trace, c.ch.honest, path, backup, original)
        && (c.ch.honest && st.Err? && !Wrecked(a) ==> Held(c.ch.fs, path, original))
      ensures c.ch.honest && backedUp ==> Held(c.ch.fs, backup, original)
      ensures st == Err(WriteFailed) <==> Wrecked(a) || a.wrote == Err(WriteFailed)
      ensures old(c.log) <= c.log && Told(a, c.log) && (payload.None? ==> c.log == old(c.log))
      ensures st.Ok? && payload.Some? ==>
        WriteSaid(c.log[|old(c.log)|..], path, backup, original, !missing && !Blank(original), payload.value)
      ensures c.ch.honest && st.Ok? && payload.Some? ==> Held(c.ch.fs, path, payload.value)
      ensures c.initialized && |path| < MAX_PATH && |backup| < MAX_PATH && c.ch.Willing() ==>
        |original| <= MAX_SETTINGS && (payload.Some? ==> |payload.value| <= MAX_SETTINGS) ==> st.Ok?
      ensures payload.Some? && (missing || Blank(original)) && c.ch.Answering() && c.initialized
              && |path| < MAX_PATH && |payload.value| < U32 && |original| < U32 ==>
        (c.Now(), st) == PlainRun(c.ch.script, old(c.Now()), path, payload.value)
    {
      hide Confined, Preserved, Held, Blank, WriteSaid, BackupPath, PlainRun, Told;
      ConfinedStill(c.ch.trace, c.ch.honest, {});
      ConfinedStill(c.ch.trace, c.ch.honest, {path, path + "."});
      PreservedStill(c.ch.trace, c.ch.honest, path, path + ".", original);
      UntriedIsTold(c.log);
      if payload.None? {
        return Ok, path + ".", false, UNTRIED;
      }
      var blank := IsBlank(original);
      var wantBackup := !missing && !blank;
      st, backup, a := BackupThenWrite(path, original, wantBackup, payload.value);
      backedUp := st.Ok? && wantBackup;
    }

    /** The rest of Install and Remove once the file is read and edited. `start` is the history
        before the read, and `whole` whether the read brought all of the file. */
    method Finish(path: string, original: Bytes, missing: bool, merged: Result<Option<Bytes>>,
                  ghost start: seq<Fs>, ghost whole: bool)
      returns (r: Result<Edited>, ghost backup: string, ghost a: Attempt)
      requires Valid() && start != [] && Confined(start, c.ch.trace, c.ch.honest, {})
      requires c.ch.honest && whole ==> ReadFrom(start[|start| - 1], path, original, missing)
      requires c.ch.honest ==> c.ch.fs.files == start[|start| - 1].files
      modifies this`ticks, c, c.ch
      ensures Valid() && c.ch.Onward() && c.initialized == old(c.initialized)
      ensures Confined(start, c.ch.trace, c.ch.honest, {path, backup}) && c.ch.HandlesKept()
      ensures merged.Failure? ==> r == Failure(merged.error) && a == UNTRIED && c.log == old(c.log)
      ensures old(c.log) <= c.log && Told(a, c.log)
      ensures merged.Success? ==> (r == Failure(WriteFailed) <==> Wrecked(a) || a.wrote == Err(WriteFailed))
      ensures r.Success? ==>
        && merged.Success? && r.value.changed == merged.value.Some?
        && r.value.backup == (if merged.value.Some? && !missing && !Blank(original) then Some(backup) else None)
        && if merged.value.None? then c.log == old(c.log)
           else WriteSaid(c.log[|old(c.log)|..], path, backup, original, !missing && !Blank(original), merged.value.value)
      ensures c.ch.honest && whole && Precious(start, path) ==>
        KeptOriginal(start, c.ch.trace, path, backup, r.Success?, Wrecked(a))
      ensures c.ch.honest && whole && r.Success? ==> Applied(merged, r.value, start[|start| - 1], c.ch.fs, path)
      ensures c.ch.honest && r.Success? && merged.value.Some? ==>
        Held(c.ch.fs, path, merged.value.value) && (r.value.backup.Some? ==> Held(c.ch.fs, backup, original))
      ensures c.initialized && |path| < MAX_PATH && |backup| < MAX_PATH && |original| <= MAX_SETTINGS && Fits(merged) ==>
                r.Success? || !c.ch.Willing()
      ensures merged.Success? && merged.value.Some? && (missing || Blank(original)) && c.ch.Answering() && c.initialized
              && |path| < MAX_PATH && |merged.value.value| < U32 && |original| < U32 ==>
        (c.Now(), if r.Success? then Ok else Err(r.error)) == PlainRun(c.ch.script, old(c.Now()), path, merged.value.value)
    {
      assert Blank([]);
      hide Confined, Preserved, Blank, KeptOriginal, Precious, Named, WriteSaid, BackupPath, PlainRun, Told;
      PreciousMeans(start, path, original, missing);
      UntriedIsTold(c.log);
      backup, a := path + ".", UNTRIED;
      ConfinedWiden(start, c.ch.trace, c.ch.honest, {}, {path, backup});
      if c.ch.honest && Precious(start, path) {
        KeptRead(start, c.ch.trace, path, backup);
      }
      if merged.Failure? {
        return Failure(merged.error), backup, a;
      }
      ghost var seen, was := c.ch.trace, c.ch.honest;
      var written, copy, backedUp;
      written, copy, backedUp, a := Rewrite(path, original, missing, merged.value);
      backup := copy;
      ConfinedWiden(start, seen, was, {}, {path, backup});
      ConfinedThen(start, seen, c.ch.trace, was, c.ch.honest, {path, backup}, {path, backup});
      if c.ch.honest && whole && Precious(start, path) {
        KeptRewritten(start, seen, c.ch.trace, path, backup, written.Ok?, Wrecked(a));
      }
      if written.Err? {
        return Failure(written.error), backup, a;
      }
      r := Success(Edited(merged.value.Some?, if backedUp then Some(copy) else None));
    }

    /** What follows once the file has been read and edited: `part` is what the read said. */
    method FinishEdit(path: string, original: Bytes, missing: bool, merged: Result<Option<Bytes>>,
                      ghost start: seq<Fs>, ghost from: seq<Said>, ghost part: seq<Said>)
      returns (r: Result<Edited>, ghost backup: string, ghost a: Attempt)
      requires Valid() && start != [] && Confined(start, c.ch.trace, c.ch.honest, {})
      requires c.log == from + part && ReadSaid(part, path, original, missing)
      requires c.ch.honest ==> c.ch.fs.files == start[|start| - 1].files
      requires c.ch.honest && missing ==> path !in c.ch.fs.files
      requires c.ch.honest && !missing ==> ReadBack(c.ch.fs, path, original, MetEof(part))
      modifies this`ticks, c, c.ch
      ensures Valid() && c.ch.Onward() && c.initialized == old(c.initialized)
      ensures Confined(start, c.ch.trace, c.ch.honest, {path, backup}) && c.ch.HandlesKept()
      ensures merged.Failure? ==> r == Failure(merged.error)
      ensures old(c.log) <= c.log && Told(a, c.log)
      ensures merged.Success? ==> (r == Failure(WriteFailed) <==> Wrecked(a) || a.wrote == Err(WriteFailed))
      ensures merged.Failure? ==> !Wrecked(a) && a.wrote.Ok?
      ensures r.Success? ==> EditSaid(c.log[|from|..], path, backup, original, missing, merged, r.value)
      ensures c.ch.honest && !Cut(part, path) && Precious(start, path) ==>
        KeptOriginal(start, c.ch.trace, path, backup, r.Success?, Wrecked(a))
      ensures c.ch.honest && !Cut(part, path) && r.Success? ==>
        original == ContentAt(start[|start| - 1], path) && Applied(merged, r.value, start[|start| - 1], c.ch.fs, path)
      ensures c.ch.honest && r.Success? && merged.value.Some? ==> Held(c.ch.fs, path, merged.value.value)
      ensures c.ch.honest && Precious(start, path) && r.Success? && r.value.changed ==>
        (BackedUp(r.value, c.ch.fs, ContentAt(start[|start| - 1], path)) <==> !Cut(part, path))
      ensures c.initialized && |path| < MAX_PATH && |backup| < MAX_PATH && |original| <= MAX_SETTINGS && Fits(merged) ==>
                r.Success? || !c.ch.Willing()
      ensures merged.Success? && merged.value.Some? && Blank(original) && c.ch.Answering() && c.initialized
              && |path| < MAX_PATH && |merged.value.value| < U32 && |original| < U32 ==>
        && (c.Now(), if r.Success? then Ok else Err(r.error)) == PlainRun(c.ch.script, old(c.Now()), path, merged.value.value)
        && (r.Success? ==> r.value == Edited(true, None))
    {
      hide Confined, KeptOriginal, Blank, EditSaid, ReadSaid, WriteSaid, Told, Cut, MetEof, Precious, PlainRun, ReadBack, BackedUp,
        Named, Applied, Held;
      UntriedIsTold(c.log);
      PreciousHolds(start, path);
      ReadTells(part, path, original, missing, start[|start| - 1], c.ch.fs, c.ch.honest);
      ghost var said := c.log;
      r, backup, a := Finish(path, original, missing, merged, start, !Cut(part, path));
      assert said[|from|..] == part;
      if r.Success? {
        EditHeard(from, said, c.log, path, backup, original, missing, merged, r.value);
        if c.ch.honest && Precious(start, path) && r.value.changed {
          BackupTells(part, path, original, missing, start[|start| - 1], c.ch.fs, r.value, backup);
        }
      }
    }

    /** Makes sure that the entry is present. `read` is how long the transcript was once the
        original had been read. */
    method Install(path: string, e: HookJson.HookEntry)
      returns (r: Result<Edited>, ghost backup: string, ghost read: nat, ghost a: Attempt)
      requires Valid()
      modifies this`ticks, c, c.ch
      ensures Valid() && c.ch.Onward() && c.initialized == old(c.initialized)
      ensures c.ch.TouchedOnly({path, backup}) && c.ch.HandlesKept()
      ensures path == [] ==> r == Failure(ConfigWriteFailed) && c.log == old(c.log)
      ensures old(c.log) <= c.log && |old(c.log)| <= read <= |c.log| && Told(a, c.log)
      ensures r == Failure(WriteFailed) <==> Wrecked(a) || a.wrote == Err(WriteFailed)
      ensures r.Success? ==> exists original, missing ::
        EditSaid(c.log[|old(c.log)|..], path, backup, original, missing, InstallText(original, e), r.value)
      ensures c.ch.honest && Precious(old(c.ch.trace), path) && !Cut(c.log[|old(c.log)|..read], path) ==>
        KeptOriginal(old(c.ch.trace), c.ch.trace, path, backup, r.Success?, Wrecked(a))
      ensures c.ch.honest && r.Success? && !Cut(c.log[|old(c.log)|..read], path) ==>
        && |ContentAt(old(c.ch.fs), path)| <= 262144
        && Applied(InstallText(ContentAt(old(c.ch.fs), path), e), r.value, old(c.ch.fs), c.ch.fs, path)
      ensures c.ch.honest && Precious(old(c.ch.trace), path) && r.Success? && r.value.changed ==>
        (BackedUp(r.value, c.ch.fs, ContentAt(old(c.ch.fs), path)) <==> !Cut(c.log[|old(c.log)|..read], path))
      ensures c.initialized && 0 < |path| < MAX_PATH && |backup| < MAX_PATH && c.ch.Willing() ==>
        var before := ContentAt(old(c.ch.fs), path);
        |before| <= 262144 && Fits(InstallText(before, e)) ==> r.Success?
      ensures c.ch.Answering() && c.initialized && 0 < |path| < MAX_PATH ==>
        var (t, st, got, missing) := FetchRun(c.ch.script, old(c.Now()), path, MAX_SETTINGS);
        var merged := InstallText(got, e);
        st.Ok? && Blank(got) && merged.Success? && merged.value.Some? && |merged.value.value| < U32 ==>
          (c.Now(), if r.Success? then Ok else Err(r.error)) == PlainRun(c.ch.script, t, path, merged.value.value)
          && (r.Success? ==> r.value == Edited(true, None))
          && (c.ch.honest && r.Success? ==> Held(c.ch.fs, path, merged.value.value))
    {
      hide Confined, KeptOriginal, Blank, InstallText, EditSaid, ReadSaid, WriteSaid, Told, Cut, MetEof, Precious, FetchRun,
        PlainRun, ReadBack, BackedUp, Named, Applied, Held;
      PreciousHolds(c.ch.trace, path);
      backup, read, a := path + ".", |c.log|, UNTRIED;
      NothingYet(c.ch.trace, c.ch.honest, path, backup);
      UntriedIsTold(c.log);
      if path == [] {
        r := Failure(ConfigWriteFailed);
      } else {
        var st, original, missing := ReadRemote(path, MAX_SETTINGS);
        OnlyRead(old(c.ch.trace), c.ch.trace, c.ch.honest, path, backup);
        UntriedIsTold(c.log);
        read := |c.log|;
        if st.Err? {
          r := Failure(st.error);
        } else {
          InstallRefusal(original, e);
          var merged := BuildInstall(original, e);
          ghost var part := c.log[|old(c.log)|..];
          r, backup, a := FinishEdit(path, original, missing, merged, old(c.ch.trace), old(c.log), part);
          assert c.log[|old(c.log)|..read] == part;
        }
      }
    }

    /** Takes every hook with the marker out. */
    method Remove(path: string, marker: string)
      returns (r: Result<Edited>, ghost backup: string, ghost read: nat, ghost a: Attempt)
      requires Valid()
      modifies this`ticks, c, c.ch
      ensures Valid() && c.ch.Onward() && c.initialized == old(c.initialized)
      ensures c.ch.TouchedOnly({path, backup}) && c.ch.HandlesKept()
      ensures path == [] || marker == [] ==> r == Failure(ConfigWriteFailed) && c.log == old(c.log)
      ensures old(c.log) <= c.log && |old(c.log)| <= read <= |c.log| && Told(a, c.log)
      ensures r == Failure(WriteFailed) <==> Wrecked(a) || a.wrote == Err(WriteFailed)
      ensures r.Success? ==> exists original, missing ::
        EditSaid(c.log[|old(c.log)|..], path, backup, original, missing, RemoveText(original, marker), r.value)
      ensures c.ch.honest && Precious(old(c.ch.trace), path) && !Cut(c.log[|old(c.log)|..read], path) ==>
        KeptOriginal(old(c.ch.trace), c.ch.trace, path, backup, r.Success?, Wrecked(a))
      ensures c.ch.honest && r.Success? && !Cut(c.log[|old(c.log)|..read], path) ==>
        && |ContentAt(old(c.ch.fs), path)| <= 262144
        && Applied(RemoveText(ContentAt(old(c.ch.fs), path), marker), r.value, old(c.ch.fs), c.ch.fs, path)
      ensures c.ch.honest && Precious(old(c.ch.trace), path) && r.Success? && r.value.changed ==>
        (BackedUp(r.value, c.ch.fs, ContentAt(old(c.ch.fs), path)) <==> !Cut(c.log[|old(c.log)|..read], path))
      ensures c.initialized && 0 < |path| < MAX_PATH && |backup| < MAX_PATH && c.ch.Willing() ==>
        var before := ContentAt(old(c.ch.fs), path);
        marker != [] && |before| <= 262144 && Fits(RemoveText(before, marker)) ==> r.Success?
    {
      hide Confined, KeptOriginal, Blank, RemoveText, EditSaid, ReadSaid, WriteSaid, Told, Cut, MetEof, Precious, FetchRun,
        PlainRun, ReadBack, BackedUp, Named, Applied, Held, Channel.Answering;
      PreciousHolds(c.ch.trace, path);
      NothingToRemove(marker);
      backup, read, a := path + ".", |c.log|, UNTRIED;
      NothingYet(c.ch.trace, c.ch.honest, path, backup);
      UntriedIsTold(c.log);
      if path == [] || marker == [] {
        r := Failure(ConfigWriteFailed);
      } else {
        var st, original, missing := ReadRemote(path, MAX_SETTINGS);
        OnlyRead(old(c.ch.trace), c.ch.trace, c.ch.honest, path, backup);
        UntriedIsTold(c.log);
        read := |c.log|;
        if st.Err? {
          r := Failure(st.error);
        } else {
          RemoveRefusal(original, marker);
          var merged := Success(None);
          if !missing {
            merged := BuildRemove(original, marker);
          }
          ghost var part := c.log[|old(c.log)|..];
          r, backup, a := FinishEdit(path, original, missing, merged, old(c.ch.trace), old(c.log), part);
          assert c.log[|old(c.log)|..read] == part;
        }
      }
    }

    /** Replaces the settings file by the given text, like an edit. `start` is the history before
        anything was read. */
    method ReplaceBy(path: string, wanted: Bytes, ghost start: seq<Fs>)
      returns (r: Result<Edited>, ghost backup: string, ghost read: nat, ghost a: Attempt)
      requires Valid() && start != [] && Confined(start, c.ch.trace, c.ch.honest, {})
      requires c.ch.honest ==> c.ch.fs.files == start[|start| - 1].files
      modifies this`ticks, c, c.ch
      ensures Valid() && c.ch.Onward() && c.initialized == old(c.initialized)
      ensures Confined(start, c.ch.trace, c.ch.honest, {path, backup}) && c.ch.HandlesKept()
      ensures old(c.log) <= c.log && |old(c.log)| <= read <= |c.log| && Told(a, c.log)
      ensures r == Failure(WriteFailed) <==> Wrecked(a) || a.wrote == Err(WriteFailed)
      ensures c.ch.honest && Precious(start, path) && !Cut(c.log[|old(c.log)|..read], path) ==>
        KeptOriginal(start, c.ch.trace, path, backup, r.Success?, Wrecked(a))
      ensures c.ch.honest && r.Success? ==> Held(c.ch.fs, path, wanted)
      ensures r.Success? ==> exists original, missing ::
        EditSaid(c.log[|old(c.log)|..], path, backup, original, missing, Success(Some(wanted)), r.value)
      ensures c.initialized && |path| < MAX_PATH && |backup| < MAX_PATH && c.ch.Willing() ==>
        |wanted| <= MAX_SETTINGS && |ContentAt(old(c.ch.fs), path)| <= MAX_SETTINGS ==> r.Success?
    {
      hide Confined, KeptOriginal, Blank, Preserved, EditSaid, ReadSaid, WriteSaid, Precious, Named, Told, Cut, MetEof, FetchRun,
        PlainRun, ReadBack, BackedUp, Applied, Held;
      backup, read, a := path + ".", |c.log|, UNTRIED;
      var st, current, missing := ReadRemote(path, MAX_SETTINGS);
      ConfinedThen(start, old(c.ch.trace), c.ch.trace, old(c.ch.honest), c.ch.honest, {}, {});
      OnlyRead(start, c.ch.trace, c.ch.honest, path, backup);
      UntriedIsTold(c.log);
      read := |c.log|;
      ghost var part := c.log[|old(c.log)|..];
      if st.Err? {
        return Failure(st.error), backup, read, a;
      }
      r, backup, a := FinishEdit(path, current, missing, Success(Some(wanted)), start, old(c.log), part);
      assert c.log[|old(c.log)|..read] == part;
    }

    /** Puts a backup back over the settings file, which is backed up first. The transcript was
        `first` long once the backup had been read, and `read` long once the settings had. */
    method Restore(path: string, from: string)
      returns (st: Status, ghost backup: string, ghost first: nat, ghost read: nat, ghost a: Attempt)
      requires Valid()
      modifies this`ticks, c, c.ch
      ensures Valid() && c.ch.Onward() && c.initialized == old(c.initialized)
      ensures c.ch.TouchedOnly({path, backup}) && c.ch.HandlesKept()
      ensures path == [] || from == [] ==> st == Err(ConfigWriteFailed) && c.log == old(c.log)
      ensures old(c.log) <= c.log && |old(c.log)| <= first <= read <= |c.log| && Told(a, c.log)
      ensures st == Err(WriteFailed) <==> Wrecked(a) || a.wrote == Err(WriteFailed)
      ensures st.Ok? ==> exists wanted ::
        parse(wanted).Some? && RestoreSaid(c.log[|old(c.log)|..], path, from, backup, wanted)
      ensures c.ch.honest && Precious(old(c.ch.trace), path) && !Cut(c.log[first..read], path) ==>
        KeptOriginal(old(c.ch.trace), c.ch.trace, path, backup, st.Ok?, Wrecked(a))
      ensures c.ch.honest && st.Ok? && !Cut(c.log[|old(c.log)|..first], from) ==>
        from in old(c.ch.fs.files) && parse(ContentAt(old(c.ch.fs), from)).Some?
        && Held(c.ch.fs, path, ContentAt(old(c.ch.fs), from))
      ensures c.initialized && 0 < |path| < MAX_PATH && 0 < |from| < MAX_PATH && |backup| < MAX_PATH && c.ch.Willing() ==>
        var wanted, before := ContentAt(old(c.ch.fs), from), ContentAt(old(c.ch.fs), path);
        |wanted| <= MAX_SETTINGS && |before| <= MAX_SETTINGS && parse(wanted).Some? ==> st.Ok?
    {
      hide Confined, KeptOriginal, Blank, Preserved, ReadBackSaid, NotThere, RestoreSaid, EditSaid, ReadSaid, WriteSaid, Told,
        Cut, MetEof, Precious, FetchRun, PlainRun, ReadBack, BackedUp, Named, Applied, Held, Exists, Channel.Quiet, Channel.Answering;
      ghost var start := c.ch.trace;
      backup, first, read, a := path + ".", |c.log|, |c.log|, UNTRIED;
      NothingYet(start, c.ch.honest, path, backup);
      UntriedIsTold(c.log);
      if path == [] || from == [] {
        st := Err(ConfigWriteFailed);
      } else {
        var wanted, gone;
        st, wanted, gone := ReadRemote(from, MAX_SETTINGS);
        ghost var part := c.log[|old(c.log)|..];
        OnlyRead(start, c.ch.trace, c.ch.honest, path, backup);
        UntriedIsTold(c.log);
        first, read := |c.log|, |c.log|;
        if st.Err? || gone {
          st := Err(OpenFailed);
        } else if parse(wanted).None? {
          st := Err(ConfigParseFailed);
        } else {
          ReadMeans(part, from, wanted, gone, old(c.ch.fs));
          ReadTells(part, from, wanted, gone, old(c.ch.fs), c.ch.fs, c.ch.honest);
          ghost var said := c.log;
          var edited;
          edited, backup, read, a := ReplaceBy(path, wanted, start);
          assert c.log[|old(c.log)|..first] == part;
          if edited.Success? {
            RestoreHeard(old(c.log), said, c.log, path, from, backup, wanted, edited.value);
          }
          st := if edited.Failure? then Err(edited.error) else Ok;
        }
      }
    }
  }

  // ----- how a write went -----------------------------------------------------------------------

  /** What the write and its check came to, and whether the original was put back after a failure
      or there was none to put back; the WRITEs lie between two lengths of the transcript. */
  datatype Attempt = Attempt(wrote: Status, back: bool, from: nat, tried: nat)

  const UNTRIED := Attempt(Ok, true, 0, 0)

  /** The write failed and the original could not be put back. */
  predicate Wrecked(a: Attempt) { a.wrote.Err? && !a.back }

  /** `WriteFailed` is the answer to a WRITE that the peer did not acknowledge. */
  ghost predicate Told(a: Attempt, log: seq<Said>) {
    a.from <= a.tried <= |log| && (a.wrote == Err(WriteFailed) <==> WriteRefused(log[a.from..a.tried]))
  }

  lemma UntriedIsTold(log: seq<Said>)
    ensures Told(UNTRIED, log)
  {
    NothingRefused();
    assert log[0..0] == [];
  }

  /** The read went through, but the peer answered its last READ with no bytes instead of saying
      where the file ends. */
  ghost predicate Cut(part: seq<Said>, path: string) {
    !MetEof(part) && exists bytes :: ReadBackSaid(part, path, bytes)
  }

  /** The edit left a backup, and it holds these bytes. */
  ghost predicate BackedUp(e: Edited, fs: Fs, bytes: Bytes) { e.backup.Some? && Held(fs, e.backup.value, bytes) }

  /** What a read that went through says of the file. */
  lemma ReadTells(part: seq<Said>, path: string, bytes: Bytes, missing: bool, fs: Fs, now: Fs, honest: bool)
    requires ReadSaid(part, path, bytes, missing) && (honest ==> now.files == fs.files)
    requires honest && missing ==> path !in now.files
    requires honest && !missing ==> ReadBack(now, path, bytes, MetEof(part))
    ensures honest && !Cut(part, path) ==> ReadFrom(fs, path, bytes, missing)
    ensures honest && !missing ==> path in fs.files && (bytes == fs.files[path] <==> !Cut(part, path))
    ensures honest && missing ==> path !in fs.files
    ensures honest && ReadFrom(fs, path, bytes, missing) ==> bytes == ContentAt(fs, path)
  {
    hide ReadBackSaid, MetEof;
  }

  /** The backup holds the original exactly when all of the original had been read. */
  lemma BackupTells(part: seq<Said>, path: string, bytes: Bytes, missing: bool, before: Fs, after: Fs, e: Edited, backup: string)
    requires ReadSaid(part, path, bytes, missing) && path in before.files && !Blank(before.files[path])
    requires missing ==> path !in before.files
    requires !missing ==> (bytes == before.files[path] <==> !Cut(part, path))
    requires e.backup == (if !missing && !Blank(bytes) then Some(backup) else None)
    requires e.backup.Some? ==> Held(after, backup, bytes)
    ensures BackedUp(e, after, before.files[path]) <==> !Cut(part, path)
  {
    hide ReadSaid, Cut, Blank;
  }

  // ----- against a server that answers everything --------------------------------------------------

  function CheckRun(script: Script, t: Turn, path: string, expected: Bytes): (Turn, Status) {
    var (u, read, got, missing) := FetchRun(script, t, path, MAX_SETTINGS);
    (u, if read.Err? then Err(StatFailed) else if missing || got != expected then Err(SizeMismatch) else Ok)
  }

  function BackRun(script: Script, t: Turn, path: string, original: Bytes): (Turn, bool) {
    var (u, rolled) := FileRun(script, t, path, original);
    if rolled.Err? then (u, false)
    else
      var (v, st) := CheckRun(script, u, path, original);
      (v, st.Ok?)
  }

  /** The write and its check. */
  function PlainRun(script: Script, t: Turn, path: string, payload: Bytes): (Turn, Status) {
    var (u, wrote) := FileRun(script, t, path, payload);
    if wrote.Err? then (u, wrote) else CheckRun(script, u, path, payload)
  }

  /** And the roll-back, when there is a backup. */
  function VerifiedRun(script: Script, t: Turn, path: string, original: Bytes, haveBackup: bool, payload: Bytes)
    : (Turn, Status, bool)
  {
    var (u, wrote) := PlainRun(script, t, path, payload);
    if wrote.Ok? || !haveBackup then (u, wrote, !haveBackup)
    else
      var (v, back) := BackRun(script, u, path, original);
      (v, wrote, back)
  }

  // ----- what the peer said ---------------------------------------------------------------------

  /** The file was called missing, or was read whole as `bytes`. */
  ghost predicate ReadSaid(part: seq<Said>, path: string, bytes: Bytes, missing: bool) {
    if missing then |part| == 1 && NotThere(part[0], ForRead, path) && bytes == [] else ReadBackSaid(part, path, bytes)
  }

  /** The bytes were written whole, and then read back as they are. */
  ghost predicate CopySaid(part: seq<Said>, path: string, bytes: Bytes) {
    exists k :: 0 <= k <= |part| && FileSaid(part[..k], path, bytes) && ReadBackSaid(part[k..], path, bytes)
  }

  /** First the original to the backup, then the payload to its place, both read back. */
  ghost predicate SwapSaid(part: seq<Said>, path: string, backup: string, original: Bytes, payload: Bytes) {
    exists k :: 0 <= k <= |part| && CopySaid(part[..k], backup, original) && CopySaid(part[k..], path, payload)
  }

  ghost predicate WriteSaid(part: seq<Said>, path: string, backup: string, original: Bytes, precious: bool, payload: Bytes) {
    if precious then SwapSaid(part, path, backup, original, payload) else CopySaid(part, path, payload)
  }

  /** What lets an edit succeed with any peer: the original was read, and what the edit makes of
      it was written and read back behind a verified backup, or there was nothing to do. */
  ghost predicate EditSaid(part: seq<Said>, path: string, backup: string, original: Bytes, missing: bool,
                           merged: Result<Option<Bytes>>, e: Edited) {
    var precious := !missing && !Blank(original);
    && merged.Success? && e.changed == merged.value.Some?
    && e.backup == (if e.changed && precious then Some(backup) else None)
    && exists k :: 0 <= k <= |part| && ReadSaid(part[..k], path, original, missing)
        && if e.changed then WriteSaid(part[k..], path, backup, original, precious, merged.value.value) else k == |part|
  }

  /** What lets `Restore` succeed: the backup was read whole, and then put in place like an edit. */
  ghost predicate RestoreSaid(part: seq<Said>, path: string, from: string, backup: string, wanted: Bytes) {
    exists k, original, missing, e :: 0 <= k <= |part|
      && ReadBackSaid(part[..k], from, wanted)
      && EditSaid(part[k..], path, backup, original, missing, Success(Some(wanted)), e)
  }

  lemma RestoreHeard(log: seq<Said>, mid: seq<Said>, end: seq<Said>, path: string, from: string, backup: string,
                     wanted: Bytes, e: Edited)
    requires log <= mid <= end && ReadBackSaid(mid[|log|..], from, wanted)
    requires exists original, missing :: EditSaid(end[|mid|..], path, backup, original, missing, Success(Some(wanted)), e)
    ensures RestoreSaid(end[|log|..], path, from, backup, wanted)
  {
    hide ReadBackSaid, EditSaid;
    var part, k := end[|log|..], |mid| - |log|;
    assert part[..k] == mid[|log|..] && part[k..] == end[|mid|..];
  }

  lemma ReadMeans(part: seq<Said>, path: string, bytes: Bytes, missing: bool, fs: Fs)
    ensures ReadSaid(part, path, bytes, missing) && !missing ==> ReadBackSaid(part, path, bytes)
    ensures Held(fs, path, bytes) ==> path in fs.files && fs.files[path] == bytes == ContentAt(fs, path)
  {
  }

  lemma CopyHeard(log: seq<Said>, mid: seq<Said>, end: seq<Said>, path: string, bytes: Bytes)
    requires log <= mid <= end && FileSaid(mid[|log|..], path, bytes) && ReadBackSaid(end[|mid|..], path, bytes)
    ensures CopySaid(end[|log|..], path, bytes)
  {
    hide FileSaid, ReadBackSaid;
    var part, k := end[|log|..], |mid| - |log|;
    assert part[..k] == mid[|log|..] && part[k..] == end[|mid|..];
  }

  lemma SwapHeard(log: seq<Said>, mid: seq<Said>, end: seq<Said>, path: string, backup: string, original: Bytes, payload: Bytes)
    requires log <= mid <= end && CopySaid(mid[|log|..], backup, original) && CopySaid(end[|mid|..], path, payload)
    ensures SwapSaid(end[|log|..], path, backup, original, payload)
  {
    hide CopySaid;
    var part, k := end[|log|..], |mid| - |log|;
    assert part[..k] == mid[|log|..] && part[k..] == end[|mid|..];
  }

  lemma EditHeard(log: seq<Said>, mid: seq<Said>, end: seq<Said>, path: string, backup: string, original: Bytes, missing: bool,
                  merged: Result<Option<Bytes>>, e: Edited)
    requires log <= mid <= end && ReadSaid(mid[|log|..], path, original, missing)
    requires merged.Success? && e.changed == merged.value.Some?
    requires e.backup == if e.changed && !missing && !Blank(original) then Some(backup) else None
    requires if e.changed then WriteSaid(end[|mid|..], path, backup, original, !missing && !Blank(original), merged.value.value)
             else end == mid
    ensures EditSaid(end[|log|..], path, backup, original, missing, merged, e)
  {
    hide ReadSaid, WriteSaid, Blank;
    var part, k := end[|log|..], |mid| - |log|;
    assert part[..k] == mid[|log|..] && part[k..] == end[|mid|..];
  }

  /** What an edit reports: whether the file changed, and where the original was kept. */
  datatype Edited = Edited(changed: bool, backup: Option<string>)

  /** The edit was carried out: the new text stands and a backup holds what was worth keeping,
      or there was nothing to do. */
  ghost predicate Applied(text: Result<Option<Bytes>>, e: Edited, before: Fs, after: Fs, path: string) {
    && text.Success? && e.changed == text.value.Some?
    && (if e.changed then Held(after, path, text.value.value) else after.files == before.files)
    && (e.backup.Some? <==> e.changed && !Blank(ContentAt(before, path)))
    && (e.backup.Some? ==> Held(after, e.backup.value, ContentAt(before, path)))
  }

  /** There is a text to write, or none, and it can be read back. */
  predicate Fits(text: Result<Option<Bytes>>) {
    text.Success? && (text.value.Some? ==> |text.value.value| <= MAX_SETTINGS)
  }

  /** The file exists and is not blank. */
  ghost predicate Precious(now: seq<Fs>, path: string) {
    now != [] && path in now[|now| - 1].files && !Blank(now[|now| - 1].files[path])
  }

  ghost predicate ReadFrom(fs: Fs, path: string, bytes: Bytes, missing: bool) {
    if missing then path !in fs.files && bytes == [] else Held(fs, path, bytes)
  }

  lemma PreciousMeans(now: seq<Fs>, path: string, bytes: Bytes, missing: bool)
    ensures Precious(now, path) ==> now != [] && path in now[|now| - 1].files
    ensures Precious(now, path) && ReadFrom(now[|now| - 1], path, bytes, missing) ==> !missing && !Blank(bytes)
  {
  }

  lemma PreciousHolds(now: seq<Fs>, path: string)
    ensures Precious(now, path) ==>
      now != [] && path in now[|now| - 1].files && !Blank(now[|now| - 1].files[path])
      && ContentAt(now[|now| - 1], path) == now[|now| - 1].files[path]
  {
  }

  lemma NothingYet(now: seq<Fs>, honest: bool, path: string, backup: string)
    ensures Confined(now, now, honest, {path, backup})
    ensures Precious(now, path) ==> forall done, wrecked :: KeptOriginal(now, now, path, backup, done, wrecked)
  {
    if Precious(now, path) {
      KeptRead(now, now, path, backup);
    }
  }

  lemma OnlyRead(start: seq<Fs>, end: seq<Fs>, honest: bool, path: string, backup: string)
    requires Confined(start, end, honest, {})
    ensures Confined(start, end, honest, {path, backup})
    ensures honest && Precious(start, path) ==>
      end != [] && forall done, wrecked :: KeptOriginal(start, end, path, backup, done, wrecked)
  {
    ConfinedWiden(start, end, honest, {}, {path, backup});
    if honest && Precious(start, path) {
      KeptRead(start, end, path, backup);
    }
  }

  /** The settings that stood at the start were never lost, and stand where they were unless the
      call succeeded or failed to put them back. */
  ghost predicate KeptOriginal(before: seq<Fs>, after: seq<Fs>, path: string, backup: string, done: bool, wrecked: bool)
  {
    && before != [] && path in before[|before| - 1].files && after != []
    && var original := before[|before| - 1].files[path];
    && Preserved(before, after, true, path, backup, original)
    && (!done && !wrecked ==> Held(after[|after| - 1], path, original))
  }

  lemma KeptRead(start: seq<Fs>, end: seq<Fs>, path: string, backup: string)
    requires start != [] && path in start[|start| - 1].files && Confined(start, end, true, {})
    ensures end != [] && forall done, wrecked :: KeptOriginal(start, end, path, backup, done, wrecked)
    ensures Held(end[|end| - 1], path, start[|start| - 1].files[path])
  {
    var original := start[|start| - 1].files[path];
    PreservedStill(start, true, path, backup, original);
    PreservedThen(start, start, end, true, true, path, backup, original, path, {});
  }

  lemma KeptRewritten(start: seq<Fs>, mid: seq<Fs>, end: seq<Fs>, path: string, backup: string, done: bool, wrecked: bool)
    requires start != [] && path in start[|start| - 1].files && Confined(start, mid, true, {})
    requires var original := start[|start| - 1].files[path];
      && Preserved(mid, end, true, path, backup, original) && end != []
      && (!done && !wrecked ==> Held(end[|end| - 1], path, original))
    ensures KeptOriginal(start, end, path, backup, done, wrecked)
  {
    var original := start[|start| - 1].files[path];
    KeptRead(start, mid, path, backup);
    forall k | |start| <= k < |end| ensures Held(end[k], path, original) || Held(end[k], backup, original) {
      if k < |mid| {
        assert end[k] == mid[k];
      }
    }
  }

  /** Taking the backup leaves the original where it stood. */
  lemma AfterBackup(start: seq<Fs>, end: seq<Fs>, honest: bool, stood: bool, path: string, backup: string, original: Bytes)
    requires start != [] && Confined(start, end, honest, {backup}) && backup != path
    requires stood && honest ==> Held(start[|start| - 1], path, original)
    ensures stood ==> Preserved(start, end, honest, path, backup, original)
    ensures stood && honest ==> end != [] && Held(end[|end| - 1], path, original)
  {
    if stood {
      PreservedStill(start, true, path, backup, original);
      PreservedThen(start, start, end, true, honest, path, backup, original, path, {backup});
    }
  }

  /** Writing over the original leaves the backup. */
  lemma AfterWrite(start: seq<Fs>, mid: seq<Fs>, end: seq<Fs>, was: bool, honest: bool, stood: bool,
                   path: string, backup: string, original: Bytes)
    requires stood ==> Preserved(start, mid, was, path, backup, original)
    requires Confined(mid, end, honest, {path}) && mid != [] && backup != path && (honest ==> was)
    requires was ==> Held(mid[|mid| - 1], backup, original)
    ensures stood ==> Preserved(start, end, honest, path, backup, original)
    ensures honest ==> end != [] && Held(end[|end| - 1], backup, original)
  {
    if stood {
      PreservedThen(start, mid, end, was, honest, path, backup, original, backup, {path});
    } else {
      PreservedStill(mid, false, path, backup, original);
      if honest && |mid| < |end| {
        assert SameBut(mid[|mid| - 1], end[|end| - 1], {path});
      }
    }
  }
}
