/** Whole runs of the settings editor against two honest servers: one that refuses a single WRITE,
    and one that answers a single READ with no bytes. */
module Outcomes {
  import opened Types
  import opened Peer
  import opened Transcript
  import opened Reference
  import opened Client
  import opened Settings
  import HookJson

  // ----- a server that goes along -----------------------------------------------------------------

  /** Nothing is refused, handles are numbered, and a READ is answered with all that it asks for. */
  function Agrees(k: nat): Decision {
    Decision(Answered, None, [(k / 0x100 % 0x100) as byte, (k % 0x100) as byte], READ_CHUNK, 0, [], "", Some(0))
  }

  function RefusesAt(at: nat): Script { (k: nat) => if k == at then Agrees(k).(refuse := Some(FAILURE)) else Agrees(k) }

  function StarvesAt(at: nat): Script { (k: nat) => if k == at then Agrees(k).(amount := 0) else Agrees(k) }

  /** The next `n` decisions are those of a server that goes along. */
  predicate Smooth(script: Script, t: Turn, n: nat) { forall k :: t.tick <= k < t.tick + n ==> script(k) == Agrees(k) }

  /** No handle is open, and the path is no directory. */
  predicate Idle(t: Turn, path: string) { t.fs.handles == map[] && path !in t.fs.dirs }

  /** `u` is `t` after `n` exchanges that left these files and no handle. */
  predicate Later(u: Turn, t: Turn, n: nat, files: map<string, Bytes>) {
    u.fs == Fs(files, t.fs.dirs, map[]) && u.tick == t.tick + n
  }

  lemma OpensForWrite(script: Script, t: Turn, path: string)
    requires Idle(t, path) && Smooth(script, t, 1)
    ensures var h := Agrees(t.tick).handle;
      OpenRun(script, t, ForWrite, path) ==
        (Turn(Fs(t.fs.files[path := []], t.fs.dirs, map[h := OpenFile(path, true)]), t.tick + 1, (t.id + 1) % U32, t.refusals),
         Ok, h, false)
  {
  }

  lemma Closes(script: Script, t: Turn, h: Bytes, o: Opened)
    requires t.fs.handles == map[h := o] && Smooth(script, t, 1)
    ensures var (u, st) := CloseRun(script, t, h);
      st.Ok? && u.fs == Fs(t.fs.files, t.fs.dirs, map[]) && u.tick == t.tick + 1
  {
  }

  /** A short file is written in three exchanges. */
  lemma Writes(script: Script, t: Turn, path: string, data: Bytes)
    requires Idle(t, path) && Smooth(script, t, 3) && 0 < |data| <= WRITE_CHUNK
    ensures var (u, st) := FileRun(script, t, path, data); st.Ok? && Later(u, t, 3, t.fs.files[path := data])
  {
    OpensForWrite(script, t, path);
    var h := Agrees(t.tick).handle;
    var (u, st, _, _) := OpenRun(script, t, ForWrite, path);
    assert data[0..|data|] == data && WriteAt([], 0, data) == data;
    var v := WriteRun(script, u, h, 0, data).0;
    assert WriteRun(script, u, h, 0, data).1.Ok? && v.fs.files == t.fs.files[path := data];
    assert WritesRun(script, u, h, data, 0) == (v, Ok);
    Closes(script, v, h, OpenFile(path, true));
  }

  /** The same when the WRITE is refused: the file is left empty. */
  lemma WriteIsRefused(script: Script, t: Turn, path: string, data: Bytes)
    requires Idle(t, path) && Smooth(script, t, 1) && 0 < |data| <= WRITE_CHUNK
    requires script(t.tick + 1) == Agrees(t.tick + 1).(refuse := Some(FAILURE)) && script(t.tick + 2) == Agrees(t.tick + 2)
    ensures var (u, st) := FileRun(script, t, path, data);
      st == Err(WriteFailed) && Later(u, t, 3, t.fs.files[path := []])
  {
    OpensForWrite(script, t, path);
    var h := Agrees(t.tick).handle;
    var (u, st, _, _) := OpenRun(script, t, ForWrite, path);
    assert data[0..|data|] == data && data[..0] == [] && WriteAt([], 0, []) == [];
    var v := WriteRun(script, u, h, 0, data).0;
    assert WriteRun(script, u, h, 0, data).1 == Err(WriteFailed) && v.fs.files == t.fs.files[path := []];
    assert WritesRun(script, u, h, data, 0) == (v, Err(WriteFailed));
    Closes(script, v, h, OpenFile(path, true));
  }

  lemma OpensForRead(script: Script, t: Turn, path: string)
    requires Idle(t, path) && path in t.fs.files && Smooth(script, t, 1)
    ensures var h := Agrees(t.tick).handle;
      OpenRun(script, t, ForRead, path) ==
        (Turn(Fs(t.fs.files, t.fs.dirs, map[h := OpenFile(path, false)]), t.tick + 1, (t.id + 1) % U32, t.refusals),
         Ok, h, false)
  {
  }

  /** A short file is read in four exchanges: all of it, and then where it ends. */
  lemma Reads(script: Script, t: Turn, path: string)
    requires Idle(t, path) && path in t.fs.files && Smooth(script, t, 4) && 0 < |t.fs.files[path]| < READ_CHUNK
    ensures var (u, st, got, missing) := FetchRun(script, t, path, MAX_SETTINGS);
      st.Ok? && !missing && got == t.fs.files[path] && Later(u, t, 4, t.fs.files)
  {
    OpensForRead(script, t, path);
    var h, data := Agrees(t.tick).handle, t.fs.files[path];
    var (u, st, _, _) := OpenRun(script, t, ForRead, path);
    assert data[0..0 + |data|] == data;
    var v := ReadRun(script, u, h, 0, READ_CHUNK).0;
    assert ReadRun(script, u, h, 0, READ_CHUNK) == (v, Ok, data, false) && v.fs == u.fs && v.tick == t.tick + 2;
    ReadsGoOn(script, u, h, MAX_SETTINGS, []);
    assert [] + data == data;
    var w := ReadRun(script, v, h, |data|, READ_CHUNK).0;
    assert ReadRun(script, v, h, |data|, READ_CHUNK) == (w, Ok, [], true) && w.fs == u.fs && w.tick == t.tick + 3;
    ReadsGoOn(script, v, h, MAX_SETTINGS, data);
    Closes(script, w, h, OpenFile(path, false));
  }

  /** The same when the first READ is answered with no bytes: the file seems to be empty. */
  lemma ReadIsCut(script: Script, t: Turn, path: string)
    requires Idle(t, path) && path in t.fs.files && t.fs.files[path] != [] && Smooth(script, t, 1)
    requires script(t.tick + 1) == Agrees(t.tick + 1).(amount := 0) && script(t.tick + 2) == Agrees(t.tick + 2)
    ensures var (u, st, got, missing) := FetchRun(script, t, path, MAX_SETTINGS);
      st.Ok? && !missing && got == [] && Later(u, t, 3, t.fs.files)
  {
    OpensForRead(script, t, path);
    var h := Agrees(t.tick).handle;
    var (u, st, _, _) := OpenRun(script, t, ForRead, path);
    var v := ReadRun(script, u, h, 0, READ_CHUNK).0;
    assert ReadRun(script, u, h, 0, READ_CHUNK) == (v, Ok, [], false) && v.fs == u.fs && v.tick == t.tick + 2;
    ReadsGoOn(script, u, h, MAX_SETTINGS, []);
    Closes(script, v, h, OpenFile(path, false));
  }

  // ----- two runs ----------------------------------------------------------------------------------

  const ORIGINAL: Bytes := [0x7B, 0x7D]
  const PAYLOAD: Bytes := [0x5B, 0x5D]

  function OneFile(data: Bytes): Fs { Fs(map["s" := data], {}, map[]) }

  /** The write of the payload is refused and the original is put back. */
  lemma RollsBack(t: Turn)
    requires t.fs == OneFile(ORIGINAL) && t.tick == 1
    ensures var (u, wrote, back) := VerifiedRun(RefusesAt(2), t, "s", ORIGINAL, true, PAYLOAD);
      wrote == Err(WriteFailed) && back && u.fs == OneFile(ORIGINAL)
  {
    var script := RefusesAt(2);
    hide FileRun, FetchRun;
    WriteIsRefused(script, t, "s", PAYLOAD);
    var u := FileRun(script, t, "s", PAYLOAD).0;
    Writes(script, u, "s", ORIGINAL);
    var v := FileRun(script, u, "s", ORIGINAL).0;
    assert v.fs.files == map["s" := ORIGINAL];
    Reads(script, v, "s");
  }

  /** `WriteFailed` does not mean that the original is gone: here a refused WRITE is rolled back. */
  method RefusedWriteIsRolledBack() returns (st: Status, ghost files: map<string, Bytes>)
    ensures st == Err(WriteFailed)
    ensures files == map["s" := ORIGINAL]
  {
    var ch := new Channel(RefusesAt(2), OneFile(ORIGINAL), 0);
    assert ch.Answering();
    var c := new Client(ch);
    var up := c.Init();
    var s := new RemoteSettings(c, b => Some(map[]), d => PAYLOAD, v => false, n => n);
    RollsBack(c.Now());
    hide VerifiedRun;
    ghost var a;
    st, a := s.WriteVerified("s", ORIGINAL, true, PAYLOAD);
    files := ch.fs.files;
  }

  /** The settings seem to be blank, so they are overwritten without a backup. */
  lemma Overwrites(t: Turn)
    requires t.fs == OneFile(ORIGINAL) && t.tick == 1
    ensures var script := StarvesAt(2);
      var (u, st, got, missing) := FetchRun(script, t, "s", MAX_SETTINGS);
      && st.Ok? && !missing && got == []
      && var (v, done) := PlainRun(script, u, "s", PAYLOAD);
         done.Ok? && v.fs == OneFile(PAYLOAD)
  {
    var script := StarvesAt(2);
    hide FileRun, FetchRun;
    ReadIsCut(script, t, "s");
    var u := FetchRun(script, t, "s", MAX_SETTINGS).0;
    Writes(script, u, "s", PAYLOAD);
    var v := FileRun(script, u, "s", PAYLOAD).0;
    assert v.fs.files == map["s" := PAYLOAD];
    Reads(script, v, "s");
  }

  /** That every answer of the peer's is within the protocol does not save the settings: a READ
      answered with no bytes is taken for the end of the file. */
  method EmptyReadLosesTheSettings() returns (r: Result<Edited>, ghost files: map<string, Bytes>)
    ensures r == Success(Edited(true, None))
    ensures files == map["s" := PAYLOAD]
  {
    var ch := new Channel(StarvesAt(2), OneFile(ORIGINAL), 0);
    assert ch.Answering();
    var c := new Client(ch);
    var up := c.Init();
    var s := new RemoteSettings(c, b => Some(map[]), d => PAYLOAD, v => false, n => n);
    var e := HookJson.HookEntry("Stop", "", HookJson.HOOK_MARKER);
    Overwrites(c.Now());
    assert HookJson.Contains(HookJson.HOOK_MARKER, HookJson.HOOK_MARKER) by {
      assert HookJson.HOOK_MARKER[0..] == HookJson.HOOK_MARKER;
    }
    assert Blank([]) && s.InstallText([], e) == Success(Some(PAYLOAD));
    hide FetchRun, PlainRun;
    ghost var backup, read, a;
    r, backup, read, a := s.Install("s", e);
    files := ch.fs.files;
  }
}
