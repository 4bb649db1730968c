/** The SFTP client: every request it emits and every reply it parses. */
module Client {
  import opened Types
  import opened Peer
  import opened UploadName
  import opened Listings
  import opened Transcript
  import opened Reference
  import Wire

  const TX_BYTES: nat := 66048

  // ----- the local file -------------------------------------------------------------

  datatype LocalRead = Interrupted | IoError | Got(n: nat)

  /** A local file being uploaded; what the system calls do beyond their contract is
      decided by `script`, with finitely many interruptions. */
  class LocalFile {
    const content: Bytes
    const canOpen: bool
    const canStat: bool
    const script: nat -> LocalRead
    var tick: nat
    var interrupts: nat
    var pos: nat
    var isOpen: bool
    ghost var failed: bool // a read has failed

    constructor (content: Bytes, canOpen: bool, canStat: bool, script: nat -> LocalRead, interrupts: nat)
      ensures this.content == content && this.canOpen == canOpen && this.canStat == canStat
      ensures this.script == script && this.interrupts == interrupts && tick == 0 && !isOpen && pos == 0 && !failed
    {
      this.content := content;
      this.canOpen := canOpen;
      this.canStat := canStat;
      this.script := script;
      this.interrupts := interrupts;
      tick, pos, isOpen, failed := 0, 0, false, false;
    }

    method Open() returns (ok: bool)
      modifies this
      ensures ok == canOpen == isOpen && pos == 0 && failed == old(failed)
    {
      ok, isOpen, pos := canOpen, canOpen, 0;
    }

    method Close()
      modifies this
      ensures !isOpen && pos == old(pos) && failed == old(failed)
    {
      isOpen := false;
    }

    /** One read: some bytes, none only at the end of the file, or an error. */
    method Read(len: nat) returns (r: LocalRead)
      requires pos <= |content| && 0 < len
      modifies this
      ensures isOpen == old(isOpen) && old(pos) <= pos <= |content|
      ensures r.Got? ==> pos == old(pos) + r.n && r.n <= len && (r.n == 0 <==> old(pos) == |content|)
      ensures r.Got? ==> interrupts == old(interrupts)
      ensures !r.Got? ==> pos == old(pos)
      ensures r.Interrupted? ==> interrupts < old(interrupts)
      ensures failed == (old(failed) || r.IoError?)
      ensures tick == old(tick) + 1 && var d := script(old(tick));
        && (r.Interrupted? <==> d.Interrupted? && 0 < old(interrupts))
        && (r.IoError? <==> d.IoError?)
        && (r.Got? && d.Got? && 0 < d.n < Min(len, |content| - old(pos)) ==> r.n == d.n)
    {
      var d := script(tick);
      tick := tick + 1;
      if d.Interrupted? && 0 < interrupts {
        interrupts := interrupts - 1;
        return Interrupted;
      }
      if d.IoError? {
        failed := true;
        return IoError;
      }
      var n := Min(len, |content| - pos);
      n := if d.Got? && 0 < d.n < n then d.n else n;
      pos := pos + n;
      r := Got(n);
    }
  }

  /** Reads until `len` bytes or the end of the file. */
  method ReadFull(f: LocalFile, len: nat) returns (ok: bool, data: Bytes)
    requires f.pos <= |f.content|
    modifies f
    ensures f.isOpen == old(f.isOpen) && old(f.pos) <= f.pos <= |f.content|
    ensures ok ==> data == f.content[old(f.pos)..f.pos] && |data| <= len
    ensures ok ==> |data| == len || f.pos == |f.content|
    ensures old(f.failed) || !ok <==> f.failed
  {
    var start := f.pos;
    data := [];
    while |data| < len
      invariant f.isOpen == old(f.isOpen) && start <= f.pos <= |f.content|
      invariant data == f.content[start..f.pos] && |data| <= len && f.failed == old(f.failed)
      decreases len - |data|, f.interrupts
    {
      var before := f.pos;
      var r := f.Read(len - |data|);
      if r.Interrupted? {
        continue;
      }
      if r.IoError? {
        return false, data;
      }
      if r.n == 0 {
        break;
      }
      data := data + f.content[before..f.pos];
    }
    ok := true;
  }

  class Client {
    const ch: Channel
    var initialized: bool
    var nextId: nat
    ghost var log: seq<Said> // every request so far and what came of it

    /** What came of the last request. */
    ghost function Last(): Heard reads this { if log == [] then NotSent else log[|log| - 1].heard }

    ghost predicate Valid() reads this, ch { ch.Valid() && nextId < U32 }

    /** Where the conversation stands. */
    ghost function Now(): Turn reads this, ch { Turn(ch.fs, ch.tick, nextId, ch.refusals) }

    constructor (ch: Channel)
      requires ch.Valid()
      ensures Valid() && this.ch == ch && !initialized && nextId == 1 && log == []
    {
      this.ch := ch;
      initialized, nextId, log := false, 1, [];
    }

    method NextId() returns (id: nat)
      requires Valid()
      modifies this`nextId
      ensures Valid() && id == old(nextId) && nextId == (old(nextId) + 1) % U32
    {
      id := nextId;
      nextId := (nextId + 1) % U32;
    }

    /** Sends one frame and, when it went out, reads the reply. */
    method Exchange(req: Request) returns (sent: bool, e: Status, reply: Reply)
      requires Valid()
      modifies this`log, ch
      ensures Valid() && ch.Onward()
      ensures log == old(log) + [Said(req, if !sent then NotSent else if e.Err? then NoReply(e.error) else Replied(reply))]
      ensures ch.trace == old(ch.trace) + [ch.fs]
      ensures ch.tick == old(ch.tick) + 1
      ensures !sent ==> e == Err(ChannelWriteFailed)
      ensures e.Err? ==> !ch.alive
      ensures e.Err? && sent ==> e.error == ChannelReadFailed || e.error == SftpProtocolError
      ensures ch.honest && e.Ok? ==> ch.alive && (ch.fs, reply) == Serve(old(ch.fs), req, ch.script(old(ch.tick)))
      ensures ch.honest && e.Ok? ==> ch.refusals == old(ch.refusals) + if Thwarted(old(ch.fs), req, reply) then 1 else 0
      ensures ch.honest ==> ch.fs == old(ch.fs) || ch.fs == Serve(old(ch.fs), req, ch.script(old(ch.tick))).0
      ensures ch.Answering() ==> e.Ok? && (Now(), reply) == Ask(ch.script, old(Now()), req)
      ensures e.Ok? && !old(ch.honest) ==>
        ch.patience < old(ch.patience) || (!ch.alive && (old(ch.alive) || |ch.inbox| < |old(ch.inbox)|))
    {
      hide Serve, Thwarted;
      reply := Broken(OtherKind, None);
      e := Err(ChannelWriteFailed);
      sent := ch.Send(req);
      if sent {
        e, reply := ch.ReadFrame();
      }
      log := log + [Said(req, if !sent then NotSent else if e.Err? then NoReply(e.error) else Replied(reply))];
    }

    // ----- open and close -----------------------------------------------------------

    /** What the reply to an OPEN says. */
    method OpenReply(id: nat, reply: Reply) returns (st: Status, handle: Bytes, missing: bool)
      ensures OpenSays(Replied(reply), id, st, handle, missing)
      ensures st.Err? ==> !missing && handle == [] && (st == Err(OpenFailed) || st == Err(SftpProtocolError))
      ensures st.Ok? ==> if missing then handle == [] else 1 <= |handle| <= MAX_HANDLE
      ensures reply.StatusReply? && reply.id == id ==>
        missing == (reply.code == NO_SUCH_FILE) && st == if missing then Ok else Err(OpenFailed)
      ensures reply.HandleReply? && reply.id == id && 1 <= |reply.handle| <= MAX_HANDLE ==>
        st.Ok? && !missing && handle == reply.handle
    {
      missing, handle := false, [];
      if IdOf(reply) != Some(id) {
        return Err(SftpProtocolError), [], false;
      }
      match reply
      case StatusReply(_, code) =>
        missing := code == NO_SUCH_FILE;
        st := if missing then Ok else Err(OpenFailed);
      case HandleReply(_, h) =>
        if h == [] || MAX_HANDLE < |h| {
          return Err(OpenFailed), [], false;
        }
        st, handle := Ok, h;
      case Broken(kind, _) =>
        st := Err(if kind == HandleKind then OpenFailed else SftpProtocolError);
      case _ =>
        st := Err(SftpProtocolError);
    }

    /** Opens a handle. A missing path is no error: it leaves the handle empty. */
    method OpenHandle(kind: OpenKind, path: string) returns (st: Status, handle: Bytes, missing: bool)
      requires Valid()
      modifies this, ch
      ensures Valid() && ch.Onward() && initialized == old(initialized)
      ensures ch.TouchedOnly(if kind == ForWrite then {path} else {})
      ensures st.Err? ==> !missing && handle == []
      ensures st.Ok? ==> initialized && if missing then handle == [] else 1 <= |handle| <= MAX_HANDLE
      ensures ch.trace == old(ch.trace) || ch.trace == old(ch.trace) + [ch.fs]
      ensures ch.honest ==> ch.fs.dirs == old(ch.fs.dirs)
      ensures ch.honest ==> ch.fs.files == old(ch.fs.files) ||
                            (kind == ForWrite && ch.fs.files == old(ch.fs.files)[path := []])
      ensures ch.honest && ch.alive && (st.Err? || missing) ==> ch.fs.handles == old(ch.fs.handles)
      ensures !initialized ==> st == Err(ChannelNotConnected)
      ensures initialized && st.Err? ==> st == Err(OpenFailed) || st == Err(SftpProtocolError)
      ensures initialized && MAX_PATH <= |path| ==> st == Err(OpenFailed)
      ensures !initialized || MAX_PATH <= |path| ==> log == old(log) && ch.trace == old(ch.trace)
      ensures initialized && |path| < MAX_PATH ==>
        log == old(log) + [Said(Open(old(nextId), kind, path), Last())] && OpenSays(Last(), old(nextId), st, handle, missing)
      ensures ch.Answering() && initialized && |path| < MAX_PATH ==>
        (Now(), st, handle, missing) == OpenRun(ch.script, old(Now()), kind, path)
      ensures st.Ok? ==>
        && old(log) < log && |log| == |old(log)| + 1 && log == old(log) + [log[|old(log)|]]
        && if missing then NotThere(log[|old(log)|], kind, path) else OpenedAs(log[|old(log)|], kind, path, handle)
      ensures initialized && ch.honest && ch.alive && st.Err? ==> st == Err(OpenFailed)
      ensures initialized && |path| < MAX_PATH && ch.Willing() ==> st.Ok? && !missing
      ensures ch.honest && st.Ok? && missing ==> ch.fs == old(ch.fs) && !Exists(ch.fs, path)
      ensures ch.honest && st.Ok? && !missing ==>
        && ch.alive && handle !in old(ch.fs.handles)
        && (kind == ForRead ==> path in ch.fs.files && ch.fs.files == old(ch.fs.files))
        && (kind == ForWrite ==> ch.fs.files == old(ch.fs.files)[path := []])
        && ch.fs.handles == old(ch.fs.handles)[handle :=
             if kind == ForListing then OpenDir(ch.script(old(ch.tick)).entries) else OpenFile(path, kind == ForWrite)]
    {
      hide Serve, Thwarted, Exists, Channel.Answering, NotThere, OpenedAs;
      OpenServed(ch.fs, nextId, kind, path, ch.script(ch.tick));
      missing, handle, st := false, [], Err(ChannelNotConnected);
      if initialized {
        var id := NextId();
        st := Err(OpenFailed);
        if |path| < MAX_PATH {
          var sent, e, reply := Exchange(Open(id, kind, path));
          if sent && e.Ok? {
            hide OpenSays;
            st, handle, missing := OpenReply(id, reply);
            OpenTold(log[|log| - 1], kind, path, st, handle, missing);
          } else if sent && e != Err(ChannelReadFailed) {
            st := e;
          }
        }
      }
    }

    method CloseHandle(handle: Bytes) returns (st: Status)
      requires Valid()
      modifies this, ch
      ensures Valid() && ch.Onward() && initialized == old(initialized)
      ensures ch.TouchedOnly({})
      ensures log == old(log) + [Said(Close(old(nextId), handle), Last())]
      ensures st == if Last() == Replied(StatusReply(old(nextId), OK)) then Ok else Err(CloseFailed)
      ensures ch.Answering() ==> (Now(), st) == CloseRun(ch.script, old(Now()), handle)
      ensures ch.honest ==> ch.fs.files == old(ch.fs.files) && ch.fs.dirs == old(ch.fs.dirs)
      ensures ch.honest && ch.alive ==> ch.fs.handles == old(ch.fs.handles) - {handle}
      ensures ch.honest && st.Ok? ==> ch.alive && handle in old(ch.fs.handles)
      ensures ch.Willing() ==> st.Ok?
    {
      var id := NextId();
      var sent, e, reply := Exchange(Close(id, handle));
      st := if e.Ok? && reply == StatusReply(id, OK) then Ok else Err(CloseFailed);
    }

    // ----- writing ------------------------------------------------------------------

    /** One WRITE and its acknowledgement. */
    method SendWriteChunk(id: nat, handle: Bytes, offset: nat, data: Bytes, sendErr: Error, ghost path: string)
      returns (st: Status)
      requires Valid()
      modifies this`log, ch
      ensures Valid() && ch.Onward()
      ensures if TX_BYTES < WriteDataOffset(|handle|) + |data| then st == Err(WriteFailed) && log == old(log)
              else
                && log == old(log) + [Said(Write(id, handle, offset, data), Last())]
                && st == if Last() == Replied(StatusReply(id, OK)) then Ok
                         else Err(if Last().NotSent? then sendErr else WriteFailed)
      ensures st.Ok? && Aligned(offset) && 0 < |data| <= WRITE_CHUNK ==>
        |log| == |old(log)| + 1 && WrittenBy(log[|old(log)|], handle, offset, data)
      ensures ch.Answering() && WriteDataOffset(|handle|) + |data| <= TX_BYTES ==>
        && var (t, reply) := Ask(ch.script, old(Now()), Write(id, handle, offset, data));
           Now() == t && st == if reply == StatusReply(id, OK) then Ok else Err(WriteFailed)
      ensures ch.trace == old(ch.trace) || ch.trace == old(ch.trace) + [ch.fs]
      ensures ch.honest ==> ch.fs.handles == old(ch.fs.handles) && ch.fs.dirs == old(ch.fs.dirs)
      ensures ch.honest && handle !in old(ch.fs.handles) ==> st.Err? && ch.fs == old(ch.fs)
      ensures (old(ch.honest) ==> handle !in old(ch.fs.handles) || Target(old(ch.fs), handle, path)) ==> ch.TouchedOnly({path})
      ensures ch.honest && Target(old(ch.fs), handle, path) ==>
        && Target(ch.fs, handle, path)
        && ch.fs.files == old(ch.fs.files)[path := ch.fs.files[path]]
        && (st.Ok? ==> ch.alive && ch.fs.files[path] == WriteAt(old(ch.fs.files)[path], offset, data))
      ensures |handle| <= MAX_HANDLE && |data| <= WRITE_CHUNK && ch.Willing() ==> st.Ok?
    {
      hide WriteAt;
      if TX_BYTES < WriteDataOffset(|handle|) + |data| {
        return Err(WriteFailed);
      }
      var sent, e, reply := Exchange(Write(id, handle, offset, data));
      if !sent {
        return Err(sendErr);
      }
      st := if e.Ok? && reply == StatusReply(id, OK) then Ok else Err(WriteFailed);
    }

    /** One WRITE behind what `handle` already holds, under the next id. `start` and `base` are the
        history and the state before the first of them. */
    method WriteNext(handle: Bytes, offset: nat, data: Bytes, sendErr: Error, ghost path: string,
                     ghost start: seq<Fs>, ghost base: Fs, ghost from: seq<Said>, ghost part: seq<Said>,
                     ghost before: Bytes)
      returns (st: Status, ghost grown: seq<Said>)
      requires Valid() && offset == |before| && Aligned(offset) && 0 < |data| <= WRITE_CHUNK && |handle| <= MAX_HANDLE
      requires start != [] && Confined(start, ch.trace, ch.honest, {path})
      requires log == from + part && Stored(part, handle, before)
      requires ch.honest ==> Holding(base, ch.fs, handle, path, before)
      modifies this, ch
      ensures Valid() && ch.Onward() && initialized == old(initialized)
      ensures Confined(start, ch.trace, ch.honest, {path})
      ensures ch.Answering() ==> (Now(), st) == WriteRun(ch.script, old(Now()), handle, offset, data)
      ensures st.Ok? || st == Err(if Last().NotSent? then sendErr else WriteFailed)
      ensures log == from + grown && part <= grown && |grown| == |part| + 1
      ensures WriteRefused(grown) <==> st.Err? && !Last().NotSent?
      ensures st.Ok? ==> Stored(grown, handle, before + data)
      ensures ch.honest ==> Holding(base, ch.fs, handle, path, if st.Ok? then before + data else ContentAt(ch.fs, path))
      ensures ch.honest && handle == [] ==> st.Err?
      ensures handle != [] && ch.Willing() ==> st.Ok?
    {
      hide WriteAt, Serve, Thwarted, Stored, Aligned, WrittenBy, Confined, WriteRefused;
      var id := NextId();
      ghost var seen, was := ch.trace, ch.honest;
      st := SendWriteChunk(id, handle, offset, data, sendErr, path);
      ConfinedThen(start, seen, ch.trace, was, ch.honest, {path}, {path});
      WriteAtEnd(before, data);
      grown := part + [log[|old(log)|]];
      RefusedLast(part, log[|old(log)|], handle, before);
      if st.Ok? {
        StoredNext(part, log[|old(log)|], handle, before, data);
      }
    }

    /** Streams the local file into WRITE frames and counts the bytes. */
    method StreamWrites(f: LocalFile, handle: Bytes, ghost path: string) returns (st: Status, offset: nat)
      requires Valid() && f.pos == 0 && |handle| <= MAX_HANDLE
      requires ch.honest ==> Target(ch.fs, handle, path) && ch.fs.files[path] == []
      modifies this, ch, f
      ensures Valid() && ch.Onward() && initialized == old(initialized) && f.isOpen == old(f.isOpen)
      ensures ch.TouchedOnly({path})
      ensures st.Ok? || st == Err(WriteFailed)
      ensures old(log) <= log && (st.Ok? ==> Stored(log[|old(log)|..], handle, f.content) && offset == |f.content|)
      ensures ch.honest ==>
        && ch.fs.handles == old(ch.fs.handles)
        && path in ch.fs.files && ch.fs.files == old(ch.fs.files)[path := ch.fs.files[path]]
      ensures ch.honest && st.Ok? ==> ch.fs.files[path] == f.content
      ensures ch.Willing() && !f.failed ==> st.Ok?
    {
      ConfinedStill(ch.trace, ch.honest, {path});
      hide WriteAt, Serve, Thwarted, Stored, Aligned, Named, Confined, Holding, Target, WriteRefused;
      AlignedNext(0);
      StoredNothing(handle, f.content);
      if ch.honest {
        HoldingFirst(ch.fs, handle, path);
      }
      offset := 0;
      ghost var part: seq<Said> := [];
      while true
        invariant Valid() && ch.Onward() && initialized == old(initialized) && f.isOpen == old(f.isOpen)
        invariant offset == f.pos <= |f.content| && ch.TouchedOnly({path})
        invariant log == old(log) + part && Stored(part, handle, f.content[..offset]) && Aligned(offset)
        invariant ch.honest ==> Holding(old(ch.fs), ch.fs, handle, path, f.content[..offset])
        decreases |f.content| - f.pos
      {
        var ok, chunk := ReadFull(f, WRITE_CHUNK);
        if !ok {
          if ch.honest {
            HoldingMeans(old(ch.fs), ch.fs, handle, path, f.content[..offset]);
          }
          return Err(WriteFailed), offset;
        }
        if chunk == [] {
          break;
        }
        PrefixGrows(f.content, offset, f.pos);
        AlignedNext(offset);
        st, part := WriteNext(handle, offset, chunk, WriteFailed, path, old(ch.trace), old(ch.fs), old(log), part,
                              f.content[..offset]);
        if st.Err? {
          if ch.honest {
            HoldingMeans(old(ch.fs), ch.fs, handle, path, ContentAt(ch.fs, path));
          }
          return;
        }
        offset := offset + |chunk|;
        if |chunk| < WRITE_CHUNK {
          break;
        }
      }
      st := Ok;
      assert f.content[..|f.content|] == f.content && log[|old(log)|..] == part;
      if ch.honest {
        HoldingMeans(old(ch.fs), ch.fs, handle, path, f.content);
      }
    }

    // ----- single requests ----------------------------------------------------------

    method Init() returns (st: Status)
      requires Valid()
      modifies this, ch
      ensures Valid() && ch.Onward()
      ensures ch.honest ==> ch.fs == old(ch.fs)
      ensures ch.TouchedOnly({})
      ensures initialized == (old(initialized) || st.Ok?)
      ensures log == old(log) + [Said(Request.Init(3), Last())]
      ensures st == if Last() == Replied(VersionReply(3)) then Ok else Err(SftpInitFailed)
      ensures ch.Willing() ==> st.Ok?
      ensures ch.Answering() ==>
        var (t, reply) := Ask(ch.script, old(Now()), Request.Init(3));
        Now() == t && st == if reply == VersionReply(3) then Ok else Err(SftpInitFailed)
    {
      var sent, e, reply := Exchange(Request.Init(3));
      if e.Err? || reply != VersionReply(3) {
        return Err(SftpInitFailed);
      }
      initialized := true;
      st := Ok;
    }

    /** The canonical form of a path, never cut to fit. */
    method Realpath(path: string) returns (r: Result<string>)
      requires Valid()
      modifies this, ch
      ensures Valid() && ch.Onward() && initialized == old(initialized)
      ensures ch.honest ==> ch.fs == old(ch.fs)
      ensures ch.TouchedOnly({})
      ensures r.Success? ==> |r.value| <= MAX_PATH
      ensures !initialized ==> r == Failure(ChannelNotConnected)
      ensures initialized && MAX_PATH <= |path| ==> r == Failure(RealpathFailed)
      ensures !initialized || MAX_PATH <= |path| ==> log == old(log)
      ensures initialized && |path| < MAX_PATH ==>
        log == old(log) + [Said(Request.Realpath(old(nextId), path), Last())] && RealpathSays(Last(), old(nextId), r)
      ensures ch.honest && r.Success? ==> r.value == ch.script(old(ch.tick)).resolved
      ensures initialized && |path| < MAX_PATH && ch.Willing()
        ==> r.Success? || MAX_PATH < |ch.script(old(ch.tick)).resolved|
    {
      if !initialized {
        return Failure(ChannelNotConnected);
      }
      var id := NextId();
      if MAX_PATH <= |path| {
        return Failure(RealpathFailed);
      }
      var sent, e, reply := Exchange(Request.Realpath(id, path));
      if e.Err? {
        return Failure(RealpathFailed);
      }
      if IdOf(reply) != Some(id) {
        return Failure(SftpProtocolError);
      }
      match reply
      case StatusReply(_, _) =>
        r := Failure(RealpathFailed);
      case NameReply(_, entries) =>
        if entries == [] {
          return Failure(SftpProtocolError);
        }
        r := if MAX_PATH < |entries[0].name| then Failure(RealpathFailed) else Success(entries[0].name);
      case _ =>
        r := Failure(SftpProtocolError);
    }

    /** The size attribute of a remote file. */
    method StatSize(path: string) returns (r: Result<nat>)
      requires Valid()
      modifies this, ch
      ensures Valid() && ch.Onward() && initialized == old(initialized)
      ensures ch.honest ==> ch.fs == old(ch.fs)
      ensures ch.TouchedOnly({})
      ensures !initialized ==> r == Failure(ChannelNotConnected)
      ensures initialized && MAX_PATH <= |path| ==> r == Failure(StatFailed)
      ensures !initialized || MAX_PATH <= |path| ==> log == old(log)
      ensures initialized && |path| < MAX_PATH ==>
        log == old(log) + [Said(Stat(old(nextId), path), Last())] && SizeSays(Last(), old(nextId), r)
      ensures ch.honest && r.Success? ==> Exists(ch.fs, path)
      ensures ch.honest && r.Success? && path in ch.fs.files ==> r.value == |ch.fs.files[path]|
      ensures initialized && |path| < MAX_PATH && ch.Willing() ==> r.Success?
    {
      if !initialized {
        return Failure(ChannelNotConnected);
      }
      var id := NextId();
      if MAX_PATH <= |path| {
        return Failure(StatFailed);
      }
      var sent, e, reply := Exchange(Stat(id, path));
      if e.Err? {
        return Failure(StatFailed);
      }
      if IdOf(reply) != Some(id) {
        return Failure(SftpProtocolError);
      }
      match reply
      case StatusReply(_, _) =>
        r := Failure(StatFailed);
      case AttrsReply(_, size) =>
        r := if size.Some? then Success(size.value) else Failure(StatFailed);
      case Broken(kind, _) =>
        r := Failure(if kind == AttrsKind then StatFailed else SftpProtocolError);
      case _ =>
        r := Failure(SftpProtocolError);
    }

    /** Does the path resolve? Only asked when MKDIR answered FAILURE. */
    method StatExists(path: string) returns (e: Status, found: bool)
      requires Valid()
      modifies this, ch
      ensures Valid() && ch.Onward() && initialized == old(initialized)
      ensures ch.honest ==> ch.fs == old(ch.fs)
      ensures ch.TouchedOnly({})
      ensures MAX_PATH <= |path| ==> e == Err(MkdirFailed) && !found && log == old(log)
      ensures |path| < MAX_PATH ==>
        log == old(log) + [Said(Stat(old(nextId), path), Last())] && ExistsSays(Last(), old(nextId), e, found)
      ensures ch.honest && e.Ok? && found ==> Exists(ch.fs, path)
      ensures |path| < MAX_PATH && Exists(old(ch.fs), path) && ch.Willing() ==> e.Ok? && found
    {
      var id := NextId();
      found := false;
      if MAX_PATH <= |path| {
        return Err(MkdirFailed), false;
      }
      var sent, x, reply := Exchange(Stat(id, path));
      if x.Err? {
        return Err(MkdirFailed), false;
      }
      if IdOf(reply) != Some(id) || (reply.Broken? && reply.kind == StatusKind) {
        return Err(SftpProtocolError), false;
      }
      e := Ok;
      found := reply.AttrsReply? || (reply.Broken? && reply.kind == AttrsKind) || (reply.StatusReply? && reply.code == OK);
    }

    /** Creates one level; a level that is already there is fine. */
    method Mkdir(path: string) returns (st: Status)
      requires Valid()
      modifies this, ch
      ensures Valid() && ch.Onward() && initialized == old(initialized)
      ensures ch.TouchedOnly({})
      ensures !initialized ==> st == Err(ChannelNotConnected)
      ensures initialized && MAX_PATH <= |path| ==> st == Err(MkdirFailed)
      ensures !initialized || MAX_PATH <= |path| ==> log == old(log)
      ensures initialized && |path| < MAX_PATH ==>
        && old(log) < log && |log| <= |old(log)| + 2
        && var first := log[|old(log)|];
           first.req == Request.Mkdir(old(nextId), path)
           && (|log| == |old(log)| + 2 <==> first.heard == Replied(StatusReply(old(nextId), FAILURE)))
      ensures old(log) <= log && (st.Ok? <==> Stands(log[|old(log)|..], path))
      ensures st.Err? && initialized ==> st.error == MkdirFailed || st.error == SftpProtocolError
      ensures ch.honest ==>
        && ch.fs.files == old(ch.fs.files) && ch.fs.handles == old(ch.fs.handles)
        && (ch.fs.dirs == old(ch.fs.dirs) || ch.fs.dirs == old(ch.fs.dirs) + {path})
      ensures ch.honest && st.Ok? ==> Exists(ch.fs, path)
      ensures initialized && |path| < MAX_PATH && ch.Willing() ==> st.Ok?
    {
      MkdirServed(ch.fs, nextId, path, ch.script(ch.tick));
      hide Serve, Thwarted, Exists, ExistsSays;
      if !initialized {
        return Err(ChannelNotConnected);
      }
      var id := NextId();
      if MAX_PATH <= |path| {
        return Err(MkdirFailed);
      }
      var sent, e, reply := Exchange(Request.Mkdir(id, path));
      if e.Err? {
        return if !sent || e == Err(ChannelReadFailed) then Err(MkdirFailed) else e;
      }
      if !reply.StatusReply? || reply.id != id {
        return Err(SftpProtocolError);
      }
      if reply.code == OK {
        return Ok;
      }
      if reply.code != FAILURE {
        return Err(MkdirFailed);
      }
      var se, there := StatExists(path);
      st := if se.Err? then se else if there then Ok else Err(MkdirFailed);
    }

    /** Never overwrites: at every moment the file is under exactly one of the names. */
    method Rename(from: string, to: string) returns (st: Status)
      requires Valid()
      modifies this, ch
      ensures Valid() && ch.Onward() && initialized == old(initialized)
      ensures ch.trace == old(ch.trace) || ch.trace == old(ch.trace) + [ch.fs]
      ensures !initialized ==> st == Err(ChannelNotConnected)
      ensures initialized && (MAX_PATH <= |from| || MAX_PATH <= |to|) ==> st == Err(RenameFailed)
      ensures !initialized || MAX_PATH <= |from| || MAX_PATH <= |to| ==> log == old(log)
      ensures initialized && |from| < MAX_PATH && |to| < MAX_PATH ==>
        && log == old(log) + [Said(Request.Rename(old(nextId), from, to), Last())]
        && st == if Last() == Replied(StatusReply(old(nextId), OK)) then Ok else Err(RenameFailed)
      ensures ch.honest ==> ch.fs.handles == old(ch.fs.handles) && ch.fs.dirs == old(ch.fs.dirs)
      ensures ch.honest ==>
        || ch.fs.files == old(ch.fs.files)
        || (from in old(ch.fs.files) && !Exists(old(ch.fs), to) && ch.fs.files == Moved(old(ch.fs.files), from, to))
      ensures ch.honest && st.Ok? ==>
        from in old(ch.fs.files) && !Exists(old(ch.fs), to) && ch.fs.files == Moved(old(ch.fs.files), from, to)
      ensures ch.honest && ch.alive && st.Err? ==> ch.fs == old(ch.fs)
      ensures initialized && |from| < MAX_PATH && |to| < MAX_PATH && ch.Willing() ==> st.Ok?
    {
      hide Moved;
      if !initialized {
        return Err(ChannelNotConnected);
      }
      var id := NextId();
      if MAX_PATH <= |from| || MAX_PATH <= |to| {
        return Err(RenameFailed);
      }
      var sent, e, reply := Exchange(Request.Rename(id, from, to));
      st := if e.Ok? && reply == StatusReply(id, OK) then Ok else Err(RenameFailed);
    }

    /** Already gone is success. */
    method Remove(path: string) returns (st: Status)
      requires Valid()
      modifies this, ch
      ensures Valid() && ch.Onward() && initialized == old(initialized)
      ensures ch.TouchedOnly({path})
      ensures ch.trace == old(ch.trace) || ch.trace == old(ch.trace) + [ch.fs]
      ensures !initialized ==> st == Err(ChannelNotConnected)
      ensures initialized && MAX_PATH <= |path| ==> st == Err(RemoveFailed)
      ensures !initialized || MAX_PATH <= |path| ==> log == old(log)
      ensures initialized && |path| < MAX_PATH ==>
        && log == old(log) + [Said(Request.Remove(old(nextId), path), Last())]
        && st == if Last() == Replied(StatusReply(old(nextId), OK)) || Last() == Replied(StatusReply(old(nextId), NO_SUCH_FILE))
                 then Ok else Err(RemoveFailed)
      ensures ch.honest ==> ch.fs.handles == old(ch.fs.handles) && ch.fs.dirs == old(ch.fs.dirs)
      ensures ch.honest ==> ch.fs.files == old(ch.fs.files) || ch.fs.files == old(ch.fs.files) - {path}
      ensures ch.honest && st.Ok? ==> path !in ch.fs.files
      ensures initialized && |path| < MAX_PATH ==> ch.tick == old(ch.tick) + 1
      ensures initialized && |path| < MAX_PATH && ch.honest && ch.alive && st.Err? ==> ch.script(old(ch.tick)).refuse.Some?
      ensures ch.honest && ch.alive && st.Err? ==> ch.fs == old(ch.fs)
      ensures initialized && |path| < MAX_PATH && ch.Willing() ==> st.Ok?
    {
      if !initialized {
        return Err(ChannelNotConnected);
      }
      var id := NextId();
      if MAX_PATH <= |path| {
        return Err(RemoveFailed);
      }
      var sent, e, reply := Exchange(Request.Remove(id, path));
      var gone := e.Ok? && (reply == StatusReply(id, OK) || reply == StatusReply(id, NO_SUCH_FILE));
      st := if gone then Ok else Err(RemoveFailed);
    }

    /** Appends one component to the level reached and creates that directory. */
    method MkdirNext(path: string, ghost made: nat, level: string, part: string) returns (st: Status, cur: string)
      requires Valid() && made < |Parts(path)| && level == Level(path, made) && part == Parts(path)[made]
      modifies this, ch
      ensures Valid() && ch.Onward() && initialized == old(initialized)
      ensures ch.TouchedOnly({})
      ensures st.Ok? ==> cur == Level(path, made + 1)
      ensures old(log) <= log && (st.Ok? ==> Stands(log[|old(log)|..], Level(path, made + 1)))
      ensures MAX_PATH <= |Level(path, made + 1)| ==> st == Err(MkdirFailed) && log == old(log)
      ensures ch.honest ==>
        && ch.fs.files == old(ch.fs.files) && ch.fs.handles == old(ch.fs.handles)
        && (ch.fs.dirs == old(ch.fs.dirs) || ch.fs.dirs == old(ch.fs.dirs) + {Level(path, made + 1)})
      ensures ch.honest && st.Ok? ==> Exists(ch.fs, Level(path, made + 1))
      ensures initialized && |Level(path, |Parts(path)|)| < MAX_PATH && ch.Willing() ==> st.Ok?
    {
      hide Parts, Serve;
      LevelGrows(path, made + 1);
      cur := level;
      if cur != [] && cur[|cur| - 1] != '/' {
        if MAX_PATH <= |cur| + 1 {
          assert part != [] by { PartsAreSolid(path); }
          return Err(MkdirFailed), cur;
        }
        cur := cur + "/";
      } else {
        assert level + "" == level;
      }
      if MAX_PATH <= |cur| + |part| {
        return Err(MkdirFailed), cur;
      }
      cur := cur + part;
      st := Mkdir(cur);
    }

    /** The same, with what it adds to the levels made since `start`. */
    method MkdirLevel(path: string, ghost made: nat, level: string, part: string,
                      ghost start: seq<Fs>, ghost base: Fs, ghost from: nat)
      returns (st: Status, cur: string)
      requires Valid() && made < |Parts(path)| && level == Level(path, made) && part == Parts(path)[made]
      requires start != [] && Confined(start, ch.trace, ch.honest, {})
      requires from <= |log| && Descended(base, ch.fs, ch.honest, log[from..], path, made)
      modifies this, ch
      ensures Valid() && ch.Onward() && initialized == old(initialized)
      ensures Confined(start, ch.trace, ch.honest, {})
      ensures st.Ok? || st == Err(MkdirFailed)
      ensures old(log) <= log
      ensures st.Ok? ==> cur == Level(path, made + 1) && Descended(base, ch.fs, ch.honest, log[from..], path, made + 1)
      ensures ch.honest ==> LevelsMade(base, ch.fs, path, 0)
      ensures initialized && |Level(path, |Parts(path)|)| < MAX_PATH && ch.Willing() ==> st.Ok?
    {
      hide Parts, Level, LevelsMade, Confined, Exists, Climbed, Stands, Serve;
      st, cur := MkdirNext(path, made, level, part);
      ConfinedThen(start, old(ch.trace), ch.trace, old(ch.honest), ch.honest, {}, {});
      if ch.honest {
        LevelsStep(base, old(ch.fs), ch.fs, path, made, st.Ok?);
      }
      if st.Err? {
        return Err(MkdirFailed), cur;
      }
      ClimbedOn(old(log)[from..], log[|old(log)|..], path, made);
      assert log[from..] == old(log)[from..] + log[|old(log)|..];
    }

    /** Creates every level of a path, one at a time. */
    method MkdirAll(path: string) returns (st: Status)
      requires Valid()
      modifies this, ch
      ensures Valid() && ch.Onward() && initialized == old(initialized)
      ensures ch.TouchedOnly({})
      ensures st.Ok? || st == Err(MkdirFailed)
      ensures old(log) <= log && (st.Ok? ==> Climbed(log[|old(log)|..], path, |Parts(path)|))
      ensures ch.honest ==> LevelsMade(old(ch.fs), ch.fs, path, if st.Ok? then |Parts(path)| else 0)
      ensures path == [] ==> st.Err?
      ensures initialized && path != [] && |Level(path, |Parts(path)|)| < MAX_PATH && ch.Willing()
        ==> st.Ok?
    {
      ConfinedStill(ch.trace, ch.honest, {});
      LevelsStart(ch.fs, path);
      ClimbedNothing(path);
      assert log[|log|..] == [] && Descended(ch.fs, ch.fs, ch.honest, [], path, 0);
      hide Parts, Level, LevelsMade, Walked, Confined, Exists, Climbed, Stands, Serve, Named, Descended;
      if path == [] {
        return Err(MkdirFailed);
      }
      var cur, i := "", 0;
      if path[0] == '/' {
        cur, i := "/", 1;
      }
      ghost var made := 0;
      while i < |path|
        invariant i <= |path| && Walked(path, i, made, cur)
        invariant old(log) <= log && Descended(old(ch.fs), ch.fs, ch.honest, log[|old(log)|..], path, made)
        invariant Valid() && ch.Onward() && initialized == old(initialized) && ch.TouchedOnly({})
      {
        var start := i;
        i := ComponentEnd(path, start);
        WalkOn(path, start, i, made, cur);
        if start < i {
          st, cur := MkdirLevel(path, made, cur, path[start..i], old(ch.trace), old(ch.fs), |old(log)|);
          if st.Err? {
            return;
          }
          made := made + 1;
        }
        i := if i < |path| then i + 1 else i;
      }
      WalkEnds(path, made, cur);
      DescendedMeans(old(ch.fs), ch.fs, ch.honest, log[|old(log)|..], path, made);
      st := Ok;
    }

    // ----- whole files ----------------------------------------------------------------

    /** The WRITEs and the CLOSE of an upload whose OPEN gave a handle. */
    method StreamOpened(f: LocalFile, handle: Bytes, ghost remote: string) returns (st: Status, offset: nat)
      requires Valid() && f.pos == 0 && |handle| <= MAX_HANDLE
      requires ch.honest ==> Target(ch.fs, handle, remote) && ch.fs.files[remote] == []
      modifies this, ch, f
      ensures Valid() && ch.Onward() && initialized == old(initialized) && f.isOpen == old(f.isOpen)
      ensures ch.TouchedOnly({remote})
      ensures old(log) < log
      ensures st.Ok? ==>
        Stored(log[|old(log)|..|log| - 1], handle, f.content) && ClosedBy(log[|log| - 1], handle) && offset == |f.content|
      ensures ch.honest && ch.alive ==> ch.fs.handles == old(ch.fs.handles) - {handle}
      ensures ch.honest ==> remote in ch.fs.files && ch.fs.files == old(ch.fs.files)[remote := ch.fs.files[remote]]
      ensures ch.honest && st.Ok? ==> ch.alive && ch.fs.files[remote] == f.content
      ensures st.Err? ==> st.error in {WriteFailed, CloseFailed}
      ensures log[|log| - 1].req.Close? && log[|log| - 1].req.handle == handle
      ensures st == Err(CloseFailed) ==>
        && log[|log| - 1].heard != Replied(StatusReply(log[|log| - 1].req.id, OK))
        && Stored(log[|old(log)|..|log| - 1], handle, f.content)
      ensures !f.failed && ch.Willing() ==> st.Ok?
    {
      hide Serve, Thwarted, Confined, Named, Stored, Target, Channel.Quiet, Channel.Answering;
      st, offset := StreamWrites(f, handle, remote);
      ghost var seen, was, said := ch.trace, ch.honest, log;
      var closed := CloseHandle(handle);
      ConfinedThen(old(ch.trace), seen, ch.trace, was, ch.honest, {remote}, {});
      assert log[|old(log)|..|log| - 1] == said[|old(log)|..];
      st := if closed.Err? && st.Ok? then Err(CloseFailed) else st;
    }

    /** OPEN, the WRITEs and CLOSE of an upload. The handle is closed even when a WRITE has
        failed, and a missing path writes nothing. */
    method UploadBody(remote: string, f: LocalFile) returns (st: Status, offset: nat)
      requires Valid() && f.pos == 0
      modifies this, ch, f
      ensures Valid() && ch.Onward() && initialized == old(initialized) && f.isOpen == old(f.isOpen)
      ensures ch.TouchedOnly({remote}) && ch.HandlesKept()
      ensures st.Ok? ==> initialized && |remote| < MAX_PATH
      ensures old(log) <= log && (st.Ok? ==> BodySaid(log[|old(log)|..], remote, f.content, offset))
      ensures ch.honest && st.Ok? ==>
        || (!Exists(old(ch.fs), remote) && ch.fs == old(ch.fs))
        || (ch.fs.files == old(ch.fs.files)[remote := f.content] && offset == |f.content|)
      ensures st.Err? ==> st.error in {OpenFailed, WriteFailed, CloseFailed}
      ensures st.Err? ==> UploadBroke(log[|old(log)|..], remote, f.content, st.error)
      ensures initialized && !f.failed && |remote| < MAX_PATH && ch.Willing()
        ==> st.Ok? && remote in ch.fs.files
    {
      hide Serve, Thwarted, Confined, Named, Stored, WholeWritten, OpenSays, OpenedAs, NotThere, ClosedBy, Exists,
        Channel.Quiet, Channel.Answering, UploadBroke, BodySaid;
      offset := 0;
      var handle, missing;
      st, handle, missing := OpenHandle(ForWrite, remote);
      if st.Err? {
        BrokeAtOpen(old(log), log, remote, f.content);
        st := Err(OpenFailed);
      } else if handle != [] {
        ghost var begun, seen, was := log, ch.trace, ch.honest;
        if ch.honest {
          OpenedAndClosed(old(ch.fs.handles), handle, ch.fs.handles[handle]);
        }
        st, offset := StreamOpened(f, handle, remote);
        ConfinedThen(old(ch.trace), seen, ch.trace, was, ch.honest, {remote}, {remote});
        BodyEnds(old(log), begun, log, remote, f.content, handle, st);
      } else {
        BodyMissing(old(log), log, remote, f.content);
      }
    }

    /** Streams a local file to a remote one and checks both sizes. */
    method UploadFile(remote: string, f: LocalFile) returns (st: Status)
      requires Valid()
      modifies this, ch, f
      ensures Valid() && ch.Onward() && initialized == old(initialized) && !f.isOpen
      ensures ch.TouchedOnly({remote}) && ch.HandlesKept()
      ensures st.Ok? ==> initialized && f.canOpen && f.canStat && |remote| < MAX_PATH
      ensures old(log) <= log && (st.Ok? ==> UploadSaid(log[|old(log)|..], remote, f.content))
      ensures ch.honest && st.Ok? ==> ch.fs.files == old(ch.fs.files)[remote := f.content]
      ensures st.Err? ==> st.error in {OpenFailed, WriteFailed, CloseFailed, StatFailed, SizeMismatch}
      ensures st.Err? ==> UploadBroke(log[|old(log)|..], remote, f.content, st.error)
      ensures !f.canOpen || !f.canStat ==> st == Err(OpenFailed) && log == old(log)
      ensures initialized && f.canOpen && f.canStat && !f.failed && |remote| < MAX_PATH ==>
                st.Ok? || !ch.Willing()
    {
      hide Serve, Thwarted, Confined, Named, BodySaid, SizeSays, Exists, UploadBroke;
      ConfinedStill(ch.trace, ch.honest, {remote});
      BrokeAtOpen(log, log, remote, f.content);
      var there := f.Open();
      if !there {
        return Err(OpenFailed);
      }
      st := if f.canStat then Ok else Err(OpenFailed);
      var localSize, offset := |f.content|, 0;
      if st.Ok? {
        st, offset := UploadBody(remote, f);
      }
      if st.Ok? {
        ghost var seen, was, said := ch.trace, ch.honest, log;
        var size := StatSize(remote);
        ConfinedThen(old(ch.trace), seen, ch.trace, was, ch.honest, {remote}, {});
        if size.Success? {
          Since(said, |old(log)|, log[|said|]);
          SizeTold(log[|said|], remote, size);
        }
        BrokeAtStat(old(log), said, log, remote, f.content, size);
        st := if size.Failure? then Err(StatFailed)
              else if size.value != localSize || offset != localSize then Err(SizeMismatch)
              else Ok;
      }
      f.Close();
    }

    /** The WRITE of the chunk of `bytes` at `pos`, behind what has been written of them. */
    method WriteChunkAt(handle: Bytes, bytes: Bytes, pos: nat, chunk: nat, ghost path: string,
                        ghost start: seq<Fs>, ghost base: Fs, ghost from: seq<Said>, ghost part: seq<Said>)
      returns (st: Status, ghost grown: seq<Said>)
      requires Valid() && pos < |bytes| && chunk == Min(|bytes| - pos, WRITE_CHUNK) && Aligned(pos) && |handle| <= MAX_HANDLE
      requires start != [] && Confined(start, ch.trace, ch.honest, {path})
      requires log == from + part && Stored(part, handle, bytes[..pos])
      requires ch.honest ==> Holding(base, ch.fs, handle, path, bytes[..pos])
      modifies this, ch
      ensures Valid() && ch.Onward() && initialized == old(initialized)
      ensures Confined(start, ch.trace, ch.honest, {path})
      ensures st.Ok? || st == Err(if Last().NotSent? then ChannelWriteFailed else WriteFailed)
      ensures log == from + grown && part <= grown && |grown| == |part| + 1
      ensures WriteRefused(grown) <==> st == Err(WriteFailed)
      ensures st.Ok? ==> Stored(grown, handle, bytes[..pos + chunk]) && (Aligned(pos + chunk) || pos + chunk == |bytes|)
      ensures ch.honest ==>
        Holding(base, ch.fs, handle, path, if st.Ok? then bytes[..pos + chunk] else ContentAt(ch.fs, path))
      ensures ch.honest && handle == [] ==> st.Err?
      ensures handle != [] && ch.Willing() ==> st.Ok?
      ensures ch.Answering() ==>
        WritesRun(ch.script, old(Now()), handle, bytes, pos)
        == if st.Err? then (Now(), st) else WritesRun(ch.script, Now(), handle, bytes, pos + chunk)
    {
      hide Serve, Thwarted, Stored, Aligned, Confined, Holding, Target, WritesRun, WriteRun, WriteRefused;
      PrefixGrows(bytes, pos, pos + chunk);
      AlignedNext(pos);
      WritesGoOn(ch.script, Now(), handle, bytes, pos);
      st, grown := WriteNext(handle, pos, bytes[pos..pos + chunk], ChannelWriteFailed, path, start, base, from, part, bytes[..pos]);
    }

    /** The WRITEs of WriteFile. */
    method WriteChunks(handle: Bytes, bytes: Bytes, ghost path: string) returns (st: Status)
      requires Valid() && |handle| <= MAX_HANDLE
      requires ch.honest && handle != [] ==> Target(ch.fs, handle, path) && ch.fs.files[path] == []
      modifies this, ch
      ensures Valid() && ch.Onward() && initialized == old(initialized)
      ensures ch.TouchedOnly({path})
      ensures st.Ok? || st == Err(WriteFailed) || st == Err(ChannelWriteFailed)
      ensures old(log) <= log && (st.Ok? ==> Stored(log[|old(log)|..], handle, bytes))
      ensures st == Err(WriteFailed) <==> WriteRefused(log[|old(log)|..])
      ensures ch.Answering() ==> (Now(), st) == WritesRun(ch.script, old(Now()), handle, bytes, 0)
      ensures ch.honest ==> ch.fs.handles == old(ch.fs.handles)
      ensures ch.honest && handle == [] ==> ch.fs == old(ch.fs) && (st.Ok? <==> bytes == [])
      ensures ch.honest && handle != [] && st.Ok? ==> ch.fs.files == old(ch.fs.files)[path := bytes]
      ensures handle != [] && ch.Willing() ==> st.Ok?
    {
      ConfinedStill(ch.trace, ch.honest, {path});
      hide Serve, Thwarted, Stored, Aligned, Named, Confined, Holding, Target, WritesRun, WriteRefused;
      AlignedNext(0);
      StoredNothing(handle, bytes);
      NothingRefused();
      if ch.honest {
        HoldingFirst(ch.fs, handle, path);
      }
      var pos := 0;
      ghost var part: seq<Said> := [];
      while pos < |bytes|
        invariant Valid() && ch.Onward() && initialized == old(initialized) && pos <= |bytes|
        invariant ch.TouchedOnly({path})
        invariant log == old(log) + part && Stored(part, handle, bytes[..pos])
        invariant ch.Answering() ==>
          WritesRun(ch.script, old(Now()), handle, bytes, 0) == WritesRun(ch.script, Now(), handle, bytes, pos)
        invariant !WriteRefused(part)
        invariant Aligned(pos) || pos == |bytes|
        invariant ch.honest ==> Holding(old(ch.fs), ch.fs, handle, path, bytes[..pos]) && (handle == [] ==> pos == 0)
      {
        var chunk := Min(|bytes| - pos, WRITE_CHUNK);
        if TX_BYTES < WriteDataOffset(|handle|) + chunk {
          return Err(WriteFailed);
        }
        st, part := WriteChunkAt(handle, bytes, pos, chunk, path, old(ch.trace), old(ch.fs), old(log), part);
        if st.Err? {
          assert log[|old(log)|..] == part;
          if ch.honest {
            HoldingMeans(old(ch.fs), ch.fs, handle, path, ContentAt(ch.fs, path));
          }
          return;
        }
        pos := pos + chunk;
      }
      st := Ok;
      WritesEnd(ch.script, Now(), handle, bytes);
      assert bytes[..|bytes|] == bytes && log[|old(log)|..] == part;
      if ch.honest {
        HoldingMeans(old(ch.fs), ch.fs, handle, path, bytes);
      }
    }

    /** The WRITEs and the CLOSE of a WriteFile whose OPEN did not fail. */
    method WriteOpened(handle: Bytes, bytes: Bytes, ghost path: string) returns (st: Status)
      requires Valid() && |handle| <= MAX_HANDLE
      requires ch.honest && handle != [] ==> Target(ch.fs, handle, path) && ch.fs.files[path] == []
      modifies this, ch
      ensures Valid() && ch.Onward() && initialized == old(initialized)
      ensures ch.TouchedOnly({path})
      ensures old(log) < log && log[|log| - 1].req.Close?
      ensures st.Ok? ==> Stored(log[|old(log)|..|log| - 1], handle, bytes) && ClosedBy(log[|log| - 1], handle)
      ensures st == Err(WriteFailed) <==> WriteRefused(log[|old(log)|..|log| - 1])
      ensures ch.Answering() ==> (Now(), st) == WrittenRun(ch.script, old(Now()), handle, bytes)
      ensures ch.honest && ch.alive ==> ch.fs.handles == old(ch.fs.handles) - {handle}
      ensures ch.honest && st.Ok? ==>
        ch.alive && handle in old(ch.fs.handles) && (handle != [] ==> ch.fs.files == old(ch.fs.files)[path := bytes])
      ensures st.Err? ==> st.error in {WriteFailed, ChannelWriteFailed, CloseFailed}
      ensures handle != [] && ch.Willing() ==> st.Ok?
    {
      hide Serve, Thwarted, Confined, Stored, WritesRun, CloseRun, WriteRefused, Target;
      st := WriteChunks(handle, bytes, path);
      ghost var seen, was, said := ch.trace, ch.honest, log;
      var closed := CloseHandle(handle);
      ConfinedThen(old(ch.trace), seen, ch.trace, was, ch.honest, {path}, {});
      assert log[|old(log)|..|log| - 1] == said[|old(log)|..];
      st := if st.Err? then st else closed;
    }

    /** Replaces a remote file by the given bytes. A path the server calls missing is not
        noticed: the writes go out under an empty handle and fail. */
    method WriteFile(path: string, bytes: Bytes) returns (st: Status)
      requires Valid()
      modifies this, ch
      ensures Valid() && ch.Onward() && initialized == old(initialized)
      ensures ch.TouchedOnly({path}) && ch.HandlesKept()
      ensures st.Ok? ==> initialized
      ensures old(log) <= log && (st.Ok? ==> FileSaid(log[|old(log)|..], path, bytes))
      ensures st == Err(WriteFailed) <==> WriteRefused(log[|old(log)|..])
      ensures ch.Answering() && initialized && |path| < MAX_PATH ==> (Now(), st) == FileRun(ch.script, old(Now()), path, bytes)
      ensures ch.honest && st.Ok? ==> ch.alive && ch.fs.files == old(ch.fs.files)[path := bytes]
      ensures !initialized ==> st == Err(ChannelNotConnected)
      ensures st.Err? && initialized ==>
        st.error in {OpenFailed, SftpProtocolError, WriteFailed, ChannelWriteFailed, CloseFailed}
      ensures initialized && |path| < MAX_PATH && ch.Willing() ==> st.Ok?
    {
      hide Serve, Thwarted, Confined, Stored, FileSaid, OpenSays, OpenedAs, NotThere, ClosedBy, Exists, OpenRun, WrittenRun,
        WriteRefused, Unacknowledged;
      var handle, missing;
      st, handle, missing := OpenHandle(ForWrite, path);
      if st.Err? {
        NoWriteRefused(old(log), log);
        return;
      }
      ghost var begun, seen, was := log, ch.trace, ch.honest;
      if ch.honest && !missing {
        OpenedAndClosed(old(ch.fs.handles), handle, ch.fs.handles[handle]);
      }
      st := WriteOpened(handle, bytes, path);
      ConfinedThen(old(ch.trace), seen, ch.trace, was, ch.honest, {path}, {path});
      ghost var said, close := log[..|log| - 1], log[|log| - 1];
      assert log == said + [close] && log[|begun|..|log| - 1] == said[|begun|..];
      RefusedOnlyWrites(begun[|old(log)|]);
      RefusedOnlyWrites(close);
      RefusedInside(old(log), begun[|old(log)|], said, close);
      if st.Ok? {
        FileFramed(old(log), begun[|old(log)|], said, close, path, bytes, handle);
      }
    }

    // ----- reading ------------------------------------------------------------------

    /** One READ: a part of the file, its end, or an error. */
    method ReadChunk(handle: Bytes, offset: nat, ask: nat, ghost path: string)
      returns (err: Status, data: Bytes, eof: bool)
      requires Valid()
      requires ch.honest ==> Source(ch.fs, handle, path)
      modifies this, ch
      ensures Valid() && ch.Onward() && initialized == old(initialized)
      ensures ch.TouchedOnly({})
      ensures log == old(log) + [Said(Read(old(nextId), handle, offset, ask), Last())]
      ensures ReadSays(Last(), old(nextId), err, data, eof)
      ensures ch.Answering() ==> (Now(), err, data, eof) == ReadRun(ch.script, old(Now()), handle, offset, ask)
      ensures err.Err? ==> err.error in {ChannelWriteFailed, ChannelReadFailed, SftpProtocolError, OpenFailed}
      ensures ch.honest && ch.alive && err.Err? ==> err == Err(OpenFailed) && !ch.Willing()
      ensures ch.honest ==> ch.fs == old(ch.fs)
      ensures ch.honest && err.Ok? ==>
        var content := ch.fs.files[path];
        if eof then |content| <= offset
        else
          && offset < |content| && |data| <= ask && offset + |data| <= |content|
          && data == content[offset..offset + |data|]
          && (data == [] ==> !ch.Willing())
    {
      data, eof := [], false;
      var id := NextId();
      var sent, e, reply := Exchange(Read(id, handle, offset, ask));
      if e.Err? {
        return e, [], false;
      }
      if IdOf(reply) != Some(id) {
        return Err(SftpProtocolError), [], false;
      }
      match reply
      case StatusReply(_, code) =>
        eof := code == EOF;
        err := if eof then Ok else Err(OpenFailed);
      case DataReply(_, bytes) =>
        err, data := Ok, bytes;
      case _ =>
        err := Err(SftpProtocolError);
    }

    /** The same, with what it adds to the bytes fetched before. */
    method NextChunk(handle: Bytes, offset: nat, ask: nat, ghost path: string,
                     ghost from: seq<Said>, ghost part: seq<Said>, ghost before: Bytes)
      returns (err: Status, data: Bytes, eof: bool, ghost grown: seq<Said>)
      requires Valid() && log == from + part && Fetched(part, handle, before) && offset == |before|
      requires ch.honest ==> Source(ch.fs, handle, path) && before <= ch.fs.files[path]
      modifies this, ch
      ensures Valid() && ch.Onward() && initialized == old(initialized)
      ensures ch.TouchedOnly({})
      ensures log == from + grown && grown != [] && (eof ==> data == [])
      ensures err.Ok? ==> (eof <==> AtEof(grown[|grown| - 1]))
      ensures err.Ok? ==> Fetched(grown, handle, before + data) && (data == [] ==> Drained(grown, handle, offset))
      ensures ch.Answering() ==> (Now(), err, data, eof) == ReadRun(ch.script, old(Now()), handle, offset, ask)
      ensures err.Err? ==> err.error in {ChannelWriteFailed, ChannelReadFailed, SftpProtocolError, OpenFailed}
      ensures ch.honest && ch.alive && err.Err? ==> err == Err(OpenFailed) && !ch.Willing()
      ensures ch.honest ==> ch.fs == old(ch.fs)
      ensures ch.honest && err.Ok? ==>
        var content := ch.fs.files[path];
        && before + data <= content && (data != [] ==> |data| <= ask)
        && (data == [] ==> (offset == |content| <==> eof) && (eof || !ch.Willing()))
    {
      hide Fetched, Drained, Serve, Thwarted, Confined, Named, ReadRun;
      err, data, eof := ReadChunk(handle, offset, ask, path);
      ghost var said := log[|old(log)|];
      grown := part + [said];
      if err.Ok? {
        FetchedNext(part, said, handle, before, data);
      }
    }

    /** The READs of ReadFile, into the front of the buffer. */
    method ReadChunks(handle: Bytes, buffer: array<byte>, capacity: nat, ghost path: string)
      returns (err: Status, size: nat)
      requires Valid() && capacity <= buffer.Length
      requires ch.honest ==> Source(ch.fs, handle, path)
      modifies this, ch, buffer
      ensures Valid() && ch.Onward() && initialized == old(initialized)
      ensures ch.TouchedOnly({})
      ensures size <= capacity && buffer[capacity..] == old(buffer[capacity..])
      ensures old(log) <= log
      ensures err.Ok? ==>
        Fetched(log[|old(log)|..], handle, buffer[..size]) && Drained(log[|old(log)|..], handle, size)
      ensures err.Err? ==>
        err.error in {ChannelWriteFailed, ChannelReadFailed, SftpProtocolError, OpenFailed, BufferTooSmall}
      ensures ch.Answering() ==> (Now(), err, buffer[..size]) == ReadsRun(ch.script, old(Now()), handle, capacity, [])
      ensures ch.honest ==> ch.fs == old(ch.fs)
      ensures ch.honest ==> size <= |ch.fs.files[path]| && buffer[..size] == ch.fs.files[path][..size]
      ensures ch.honest && err.Ok? ==> (size == |ch.fs.files[path]| <==> AtEof(log[|log| - 1]))
      ensures ch.Willing() && err.Ok? ==> size == |ch.fs.files[path]|
      ensures ch.honest && err == Err(BufferTooSmall) ==> capacity < |ch.fs.files[path]|
      ensures ch.Willing() && err.Err? ==> err == Err(BufferTooSmall)
    {
      hide Serve, Thwarted, Fetched, Drained, ReadSays, AtEof, ReadRun, ReadsRun;
      size := 0;
      FetchedNothing(handle, buffer[..0]);
      ghost var part: seq<Said> := [];
      while true
        invariant Valid() && ch.Onward() && initialized == old(initialized)
        invariant ch.TouchedOnly({})
        invariant size <= capacity && buffer[capacity..] == old(buffer[capacity..])
        invariant log == old(log) + part && Fetched(part, handle, buffer[..size])
        invariant ch.Answering() ==>
          ReadsRun(ch.script, old(Now()), handle, capacity, [])
          == ReadsRun(ch.script, Now(), handle, capacity, buffer[..size])
        invariant ch.honest ==> ch.fs == old(ch.fs)
        invariant ch.honest ==> size <= |ch.fs.files[path]| && buffer[..size] == ch.fs.files[path][..size]
        decreases capacity - size
      {
        var ask := if size == capacity then 1 else Min(capacity - size, READ_CHUNK);
        var data, eof;
        ReadsGoOn(ch.script, Now(), handle, capacity, buffer[..size]);
        err, data, eof, part := NextChunk(handle, size, ask, path, old(log), part, buffer[..size]);
        if err.Err? || eof || data == [] {
          assert buffer[..size] + [] == buffer[..size] && log[|old(log)|..] == part;
          return;
        }
        if capacity - size < |data| {
          return Err(BufferTooSmall), size;
        }
        CopyInto(buffer, size, data);
        size := size + |data|;
      }
    }

    /** The READs and the CLOSE of a ReadFile whose OPEN gave a handle. */
    method ReadOpened(handle: Bytes, buffer: array<byte>, capacity: nat, ghost path: string) returns (st: Status, size: nat)
      requires Valid() && capacity <= buffer.Length
      requires ch.honest ==> Source(ch.fs, handle, path)
      modifies this, ch, buffer
      ensures Valid() && ch.Onward() && initialized == old(initialized)
      ensures ch.TouchedOnly({})
      ensures size <= capacity && buffer[capacity..] == old(buffer[capacity..])
      ensures old(log) < log
      ensures st.Ok? ==>
        && Fetched(log[|old(log)|..|log| - 1], handle, buffer[..size]) && Drained(log[|old(log)|..|log| - 1], handle, size)
        && ClosedBy(log[|log| - 1], handle) && |old(log)| + 2 <= |log|
      ensures ch.Answering() ==> (Now(), st, buffer[..size]) == FetchedRun(ch.script, old(Now()), handle, capacity)
      ensures ch.honest ==> ch.fs.files == old(ch.fs.files) && ch.fs.dirs == old(ch.fs.dirs)
      ensures ch.honest && ch.alive ==> ch.fs.handles == old(ch.fs.handles) - {handle}
      ensures ch.honest && st.Ok? ==>
        ReadBack(ch.fs, path, buffer[..size], AtEof(log[|log| - 2]))
      ensures ch.Willing() && st.Ok? ==> buffer[..size] == ch.fs.files[path]
      ensures ch.honest && st == Err(BufferTooSmall) ==> capacity < |ch.fs.files[path]|
      ensures st.Err? ==>
        st.error in {ChannelWriteFailed, ChannelReadFailed, SftpProtocolError, OpenFailed, BufferTooSmall, CloseFailed}
      ensures ch.Willing() ==> st == if capacity < |ch.fs.files[path]| then Err(BufferTooSmall) else Ok
    {
      hide Serve, Thwarted, Confined, Fetched, Drained, ReadsRun, CloseRun, AtEof, Channel.Quiet, Channel.Answering;
      st, size := ReadChunks(handle, buffer, capacity, path);
      ghost var seen, was, said := ch.trace, ch.honest, log;
      var closed := CloseHandle(handle);
      ConfinedThen(old(ch.trace), seen, ch.trace, was, ch.honest, {}, {});
      assert log[|old(log)|..|log| - 1] == said[|old(log)|..];
      DrainedSomething(said[|old(log)|..], handle, size);
      st := if st.Err? then st else closed;
    }

    /** Reads a remote file into memory that the caller owns. */
    method ReadFile(path: string, buffer: array<byte>, capacity: nat) returns (st: Status, size: nat, missing: bool)
      requires Valid() && capacity <= buffer.Length
      modifies this, ch, buffer
      ensures Valid() && ch.Onward() && initialized == old(initialized)
      ensures ch.TouchedOnly({}) && ch.HandlesKept()
      ensures ch.honest ==> ch.fs.files == old(ch.fs.files) && ch.fs.dirs == old(ch.fs.dirs)
      ensures size <= capacity && buffer[capacity..] == old(buffer[capacity..])
      ensures ch.Answering() && initialized && |path| < MAX_PATH ==>
        (Now(), st, buffer[..size], missing) == FetchRun(ch.script, old(Now()), path, capacity)
      ensures st.Ok? ==> initialized && (missing ==> size == 0)
      ensures !initialized ==> st == Err(ChannelNotConnected)
      ensures old(log) <= log
      ensures st.Ok? ==>
        var part := log[|old(log)|..];
        if missing then |part| == 1 && NotThere(part[0], ForRead, path) else ReadBackSaid(part, path, buffer[..size])
      ensures ch.honest && st.Ok? ==>
        if missing then !Exists(ch.fs, path) else ReadBack(ch.fs, path, buffer[..size], MetEof(log[|old(log)|..]))
      ensures ch.Willing() && st.Ok? && !missing ==> path in ch.fs.files && buffer[..size] == ch.fs.files[path]
      ensures ch.honest && st == Err(BufferTooSmall) ==> path in ch.fs.files && capacity < |ch.fs.files[path]|
      ensures st.Err? && initialized ==>
        st.error in {ChannelWriteFailed, ChannelReadFailed, SftpProtocolError, OpenFailed, BufferTooSmall, CloseFailed}
      ensures initialized && |path| < MAX_PATH && ch.Willing() ==>
        path in ch.fs.files && !missing &&
        st == if capacity < |ch.fs.files[path]| then Err(BufferTooSmall) else Ok
    {
      hide Serve, Thwarted, Confined, Fetched, Drained, ReadBackSaid, OpenSays, OpenedAs, NotThere, ClosedBy, Exists, OpenRun,
        FetchedRun, ReadBack, AtEof, Channel.Quiet, Channel.Answering;
      var handle;
      size := 0;
      st, handle, missing := OpenHandle(ForRead, path);
      if st.Ok? && !missing {
        ghost var begun, seen, was := log, ch.trace, ch.honest;
        if ch.honest {
          OpenedAndClosed(old(ch.fs.handles), handle, ch.fs.handles[handle]);
        }
        st, size := ReadOpened(handle, buffer, capacity, path);
        ConfinedThen(old(ch.trace), seen, ch.trace, was, ch.honest, {}, {});
        ghost var said, close := log[..|log| - 1], log[|log| - 1];
        assert log == said + [close] && log[|begun|..|log| - 1] == said[|begun|..];
        if st.Ok? {
          ReadFramed(old(log), begun[|old(log)|], said, close, path, buffer[..size], handle);
          assert MetEof(log[|old(log)|..]) == AtEof(log[|log| - 2]);
        }
      }
    }

    // ----- listing --------------------------------------------------------------------

    /** One READDIR: some entries, the end of the directory, or an error. */
    method ReadNames(handle: Bytes) returns (err: Status, eof: bool, entries: seq<Entry>)
      requires Valid()
      requires ch.honest ==> handle in ch.fs.handles && ch.fs.handles[handle].OpenDir?
      modifies this, ch
      ensures Valid() && ch.Onward() && initialized == old(initialized)
      ensures ch.TouchedOnly({})
      ensures ch.honest ==> ch.fs.files == old(ch.fs.files) && ch.fs.dirs == old(ch.fs.dirs)
      ensures ch.honest && ch.alive && err.Err? ==> ch.fs.handles == old(ch.fs.handles) && !ch.Willing()
      ensures ch.honest && err.Ok? ==>
        var left := old(ch.fs.handles)[handle].left;
        && ch.alive && entries <= left
        && ch.fs.handles == old(ch.fs.handles)[handle := OpenDir(left[|entries|..])]
        && if eof then left == [] else entries != []
      ensures err.Err? ==> err.error in {ChannelWriteFailed, ChannelReadFailed, SftpProtocolError, SftpStatusError}
      ensures log == old(log) + [Said(Readdir(old(nextId), handle), Last())]
      ensures NamesSay(Last(), old(nextId), err, eof, entries)
      ensures err.Ok? && !old(ch.honest) ==>
        ch.patience < old(ch.patience) || (!ch.alive && (old(ch.alive) || |ch.inbox| < |old(ch.inbox)|))
    {
      eof, entries := false, [];
      var id := NextId();
      var sent, e, reply := Exchange(Readdir(id, handle));
      if e.Err? {
        return e, false, [];
      }
      if IdOf(reply) != Some(id) {
        return Err(SftpProtocolError), false, [];
      }
      match reply
      case StatusReply(_, code) =>
        eof := code == EOF;
        err := if eof then Ok else Err(SftpStatusError);
      case NameReply(_, names) =>
        if names == [] || MAX_ENTRIES_PER_FRAME < |names| {
          return Err(SftpProtocolError), false, [];
        }
        err, entries := Ok, names;
      case _ =>
        err := Err(SftpProtocolError);
    }

    /** The same, with what it adds to a listing begun in `start`. */
    method NextNames(handle: Bytes, ghost from: seq<Said>, ghost part: seq<Said>,
                     ghost history: seq<Fs>, ghost start: Fs, ghost entries: seq<Entry>)
      returns (err: Status, eof: bool, names: seq<Entry>, ghost grown: seq<Said>)
      requires Valid() && log == from + part && Paged(part, handle) && OnlyLooks(part)
      requires history != [] && Confined(history, ch.trace, ch.honest, {})
      requires ch.honest ==> Progress(start, ch.fs, handle, Listed(part), entries)
      modifies this, ch
      ensures Valid() && ch.Onward() && initialized == old(initialized)
      ensures Confined(history, ch.trace, ch.honest, {})
      ensures log == from + grown && grown != [] && OnlyLooks(grown)
      ensures err.Ok? ==>
        && Paged(grown, handle) && Listed(grown) == Listed(part) + names
        && (eof ==> names == [] && AtEnd(grown[|grown| - 1]))
      ensures ch.honest && err.Ok? ==>
        && ch.alive && Progress(start, ch.fs, handle, Listed(grown), entries)
        && |Listed(part)| <= |Listed(grown)| <= |entries|
        && (if eof then Listed(grown) == entries else |Listed(part)| < |Listed(grown)|)
      ensures ch.honest ==> ch.fs.files == start.files && ch.fs.dirs == start.dirs
      ensures ch.honest && ch.alive && err.Err? ==> ch.fs.handles - {handle} == start.handles - {handle} && !ch.Willing()
      ensures err.Err? ==> err.error in {ChannelWriteFailed, ChannelReadFailed, SftpProtocolError, SftpStatusError}
      ensures err.Ok? && !old(ch.honest) ==>
        ch.patience < old(ch.patience) || (!ch.alive && (old(ch.alive) || |ch.inbox| < |old(ch.inbox)|))
    {
      hide Serve, Thwarted, Listed, Paged, Confined, Progress, Named, OnlyLooks;
      if ch.honest {
        ProgressHere(start, ch.fs, handle, Listed(part), entries);
      }
      err, eof, names := ReadNames(handle);
      ConfinedThen(history, old(ch.trace), ch.trace, old(ch.honest), ch.honest, {}, {});
      ghost var said := log[|old(log)|];
      grown := part + [said];
      LooksOn(part, said);
      if err.Ok? {
        ListedNext(part, said, handle);
        assert Listed(part) + [] == Listed(part);
        if ch.honest {
          ProgressStep(start, old(ch.fs), ch.fs, handle, Listed(part), names, entries);
          ProgressHere(start, ch.fs, handle, Listed(grown), entries);
        }
      }
    }

    /** Keeps the upload names of one frame, up to the first that does not fit. */
    method TakeNames(so: Listing, entries: seq<Entry>, ghost seen: seq<Entry>) returns (out: Listing)
      requires so == Scan(seen) && !so.truncated
      ensures out == Scan(seen + entries) && out.dirMissing == so.dirMissing
    {
      hide Scan;
      out := so;
      assert seen + entries[..0] == seen;
      for i := 0 to |entries|
        invariant out == Scan(seen + entries[..i]) && !out.truncated && out.dirMissing == so.dirMissing
      {
        assert seen + entries[..i + 1] == (seen + entries[..i]) + [entries[i]];
        ScanNext(seen + entries[..i], entries[i]);
        ScanKeepsOurs(seen + entries[..i]);
        var ours := MatchesUploadName(entries[i].name);
        if !ours {
          out := out.(skipped := out.skipped + 1);
        } else if |out.entries| == MAX_LISTED {
          out := out.(truncated := true);
          ScanStops(seen + entries[..i + 1], entries[i + 1..]);
          assert seen + entries == (seen + entries[..i + 1]) + entries[i + 1..];
          return;
        } else {
          out := out.(entries := out.entries + [entries[i]]);
        }
      }
      assert entries[..|entries|] == entries;
    }

    /** The READDIRs of a listing. However the server splits the directory into frames, the
        result is the one of taking its entries one by one. */
    method ReadListing(handle: Bytes, ghost entries: seq<Entry>) returns (err: Status, out: Listing)
      requires Valid()
      requires ch.honest ==> handle in ch.fs.handles && ch.fs.handles[handle] == OpenDir(entries)
      modifies this, ch
      ensures Valid() && ch.Onward() && initialized == old(initialized)
      ensures ch.TouchedOnly({})
      ensures ch.honest ==> ch.fs.files == old(ch.fs.files) && ch.fs.dirs == old(ch.fs.dirs)
      ensures ch.honest && ch.alive ==> ch.fs.handles - {handle} == old(ch.fs.handles) - {handle}
      ensures ch.honest && err.Ok? ==> ch.alive && out == Scan(entries)
      ensures ch.Willing() ==> err.Ok?
      ensures old(log) <= log && !out.dirMissing && OnlyLooks(log[|old(log)|..])
      ensures err.Ok? ==>
        var part := log[|old(log)|..];
        && out == Scan(Listed(part)) && Paged(part, handle)
        && part != [] && (out.truncated || AtEnd(part[|part| - 1]))
      ensures err.Err? ==> err.error in {ChannelWriteFailed, ChannelReadFailed, SftpProtocolError, SftpStatusError}
    {
      out, err := EMPTY, Ok;
      ghost var part: seq<Said>, start := [], ch.fs;
      ListedNothing(handle);
      assert OnlyLooks([]);
      assert out == Scan(Listed(part)) && (ch.honest ==> Progress(start, ch.fs, handle, Listed(part), entries));
      ConfinedStill(ch.trace, ch.honest, {});
      hide Serve, Thwarted, Scan, Progress, Confined, Named, Listed, Paged, AtEnd, OnlyLooks;
      var done := false;
      while !done
        invariant Valid() && ch.Onward() && initialized == old(initialized) && err.Ok?
        invariant ch.TouchedOnly({}) && log == old(log) + part && Paged(part, handle) && OnlyLooks(part)
        invariant out == Scan(Listed(part)) && (out.truncated ==> done) && !out.dirMissing
        invariant ch.honest ==> Progress(start, ch.fs, handle, Listed(part), entries) && |Listed(part)| <= |entries|
        invariant done ==> part != [] && (out.truncated || AtEnd(part[|part| - 1]))
        invariant ch.honest && done ==> ch.alive && out == Scan(entries)
        decreases !done, ch.honest, ch.alive, if ch.honest then |entries| - |Listed(part)| else ch.patience, |ch.inbox|
      {
        var eof, names;
        ghost var seen := Listed(part);
        err, eof, names, part := NextNames(handle, old(log), part, old(ch.trace), start, entries);
        if err.Err? {
          assert log[|old(log)|..] == part;
          return;
        }
        if eof {
          assert seen + [] == seen;
          done := true;
        } else {
          out := TakeNames(out, names, seen);
          done := out.truncated;
          if ch.honest && done {
            ProgressHere(start, ch.fs, handle, Listed(part), entries);
            ScanStops(Listed(part), ch.fs.handles[handle].left);
          }
        }
      }
      assert log[|old(log)|..] == part;
      if ch.honest {
        ProgressHere(start, ch.fs, handle, Listed(part), entries);
      }
    }

    /** The listing of an opened directory, whose handle is closed on every path. */
    method ListOpened(handle: Bytes, ghost entries: seq<Entry>) returns (r: Result<Listing>)
      requires Valid()
      requires ch.honest ==> handle in ch.fs.handles && ch.fs.handles[handle] == OpenDir(entries)
      modifies this, ch
      ensures Valid() && ch.Onward() && initialized == old(initialized)
      ensures ch.TouchedOnly({})
      ensures ch.honest ==> ch.fs.files == old(ch.fs.files) && ch.fs.dirs == old(ch.fs.dirs)
      ensures ch.honest && ch.alive ==> ch.fs.handles == old(ch.fs.handles) - {handle}
      ensures ch.honest && r.Success? ==> r.value == Scan(entries)
      ensures old(log) < log && OnlyLooks(log[|old(log)|..])
      ensures r.Success? ==>
        var part := log[|old(log)|..|log| - 1];
        && !r.value.dirMissing && r.value == Scan(Listed(part)) && Paged(part, handle) && part != []
        && (r.value.truncated || AtEnd(part[|part| - 1])) && ClosedBy(log[|log| - 1], handle)
      ensures r.Failure? ==>
        r.error in {ChannelWriteFailed, ChannelReadFailed, SftpProtocolError, SftpStatusError, CloseFailed}
      ensures ch.Willing() ==> r.Success?
    {
      hide Serve, Thwarted, Scan, Confined, Listed, Paged, Named, AtEnd, OnlyLooks;
      var err, out := ReadListing(handle, entries);
      ghost var seen, was, said := ch.trace, ch.honest, log;
      var closed := CloseHandle(handle);
      ConfinedThen(old(ch.trace), seen, ch.trace, was, ch.honest, {}, {});
      assert log[|old(log)|..|log| - 1] == said[|old(log)|..];
      LooksOn(said[|old(log)|..], log[|said|]);
      assert log[|old(log)|..] == said[|old(log)|..] + [log[|said|]];
      r := if err.Err? then Failure(err.error) else if closed.Err? then Failure(CloseFailed) else Success(out);
    }

    /** The upload names in a directory, and how many foreign ones were met. */
    method ListDir(dir: string) returns (r: Result<Listing>)
      requires Valid()
      modifies this, ch
      ensures Valid() && ch.Onward() && initialized == old(initialized)
      ensures ch.TouchedOnly({}) && ch.HandlesKept()
      ensures ch.honest ==> ch.fs.files == old(ch.fs.files) && ch.fs.dirs == old(ch.fs.dirs)
      ensures dir == [] || !initialized ==> r == Failure(ChannelNotConnected) && log == old(log)
      ensures ch.honest && r.Success? ==>
        if r.value.dirMissing then r.value == EMPTY.(dirMissing := true) && !Exists(ch.fs, dir)
        else r.value == Scan(ch.script(old(ch.tick)).entries)
      ensures old(log) <= log && (r.Success? ==> ListDirSaid(log[|old(log)|..], dir, r.value))
      ensures OnlyLooks(log[|old(log)|..])
      ensures r.Failure? && dir != [] && initialized ==>
        r.error in {OpenFailed, ChannelWriteFailed, ChannelReadFailed, SftpProtocolError, SftpStatusError, CloseFailed}
      ensures initialized && dir != [] && |dir| < MAX_PATH && ch.Willing()
        ==> r.Success? && !r.value.dirMissing
    {
      hide Serve, Thwarted, Scan, Confined, Listed, Paged, OpenSays, OpenedAs, NotThere, ClosedBy, Named, AtEnd, ListDirSaid,
        Exists;
      ConfinedStill(ch.trace, ch.honest, {});
      if dir == [] {
        return Failure(ChannelNotConnected);
      }
      var st, handle, missing := OpenHandle(ForListing, dir);
      if st.Err? {
        r := Failure(st.error);
      } else if missing {
        MissingSaid(old(log), log[|old(log)|], dir);
        r := Success(EMPTY.(dirMissing := true));
      } else {
        ghost var seen, was, begun := ch.trace, ch.honest, log;
        if ch.honest {
          OpenedAndClosed(old(ch.fs.handles), handle, ch.fs.handles[handle]);
        }
        r := ListOpened(handle, if ch.honest then ch.script(old(ch.tick)).entries else []);
        LooksAfter(old(log), begun, log);
        ConfinedThen(old(ch.trace), seen, ch.trace, was, ch.honest, {}, {});
        if r.Success? {
          ListingFramed(old(log), begun[|old(log)|], log[..|log| - 1], log[|log| - 1], dir, r.value, handle);
          assert log == log[..|log| - 1] + [log[|log| - 1]];
        }
      }
    }
  }

  lemma LooksAfter(log: seq<Said>, mid: seq<Said>, end: seq<Said>)
    requires log <= mid <= end && OnlyLooks(mid[|log|..]) && OnlyLooks(end[|mid|..])
    ensures OnlyLooks(end[|log|..])
  {
    assert end[|log|..] == mid[|log|..] + end[|mid|..];
  }

  lemma OpenTold(s: Said, kind: OpenKind, path: string, st: Status, handle: Bytes, missing: bool)
    requires s.req.Open? && s.req.kind == kind && s.req.path == path && OpenSays(s.heard, s.req.id, st, handle, missing)
    requires st.Ok? && !missing ==> handle != []
    ensures st.Ok? ==> if missing then NotThere(s, kind, path) else OpenedAs(s, kind, path, handle)
  {
  }

  /** What an honest server makes of an OPEN: a fresh handle on the file or the directory, or an
      error status, which may leave the file created or emptied. */
  lemma OpenServed(fs: Fs, id: nat, kind: OpenKind, path: string, d: Decision)
    ensures var (after, reply) := Serve(fs, Open(id, kind, path), d);
      && after.dirs == fs.dirs
      && (reply.StatusReply? || reply.HandleReply?) && reply.id == id
      && (reply.StatusReply? ==>
            && after.handles == fs.handles && Thwarted(fs, Open(id, kind, path), reply)
            && (after.files == fs.files || (kind == ForWrite && after.files == fs.files[path := []]))
            && (reply.code == NO_SUCH_FILE ==> after == fs && !Exists(fs, path)))
      && (reply.HandleReply? ==>
            && 1 <= |reply.handle| <= MAX_HANDLE && reply.handle !in fs.handles
            && (kind == ForRead ==> path in fs.files)
            && after.files == (if kind == ForWrite then fs.files[path := []] else fs.files)
            && after.handles == fs.handles[reply.handle :=
                 if kind == ForListing then OpenDir(d.entries) else OpenFile(path, kind == ForWrite)])
  {
  }

  /** What lets `ListDir` succeed: a missing directory, or the listing of what the READDIRs of one
      opened handle brought. */
  ghost predicate ListDirSaid(part: seq<Said>, dir: string, l: Listing) {
    if l.dirMissing then |part| == 1 && NotThere(part[0], ForListing, dir) && l == EMPTY.(dirMissing := true)
    else exists seen :: l == Scan(seen) && ListingSaid(part, dir, seen, l.truncated)
  }

  lemma MissingSaid(log: seq<Said>, s: Said, dir: string)
    requires NotThere(s, ForListing, dir)
    ensures ListDirSaid((log + [s])[|log|..], dir, EMPTY.(dirMissing := true))
  {
    assert (log + [s])[|log|..] == [s];
  }

  lemma ListingFramed(log: seq<Said>, open: Said, mid: seq<Said>, close: Said, dir: string, l: Listing, handle: Bytes)
    requires log + [open] < mid && Paged(mid[|log| + 1..], handle) && (l.truncated || AtEnd(mid[|mid| - 1]))
    requires OpenedAs(open, ForListing, dir, handle) && ClosedBy(close, handle)
    requires !l.dirMissing && l == Scan(Listed(mid[|log| + 1..]))
    ensures ListDirSaid((mid + [close])[|log|..], dir, l)
  {
    hide Paged, Listed, Scan;
    Framed(log, open, mid, close);
    assert ListingSaid((mid + [close])[|log|..], dir, Listed(mid[|log| + 1..]), l.truncated);
  }

  lemma OpenedAndClosed(handles: map<Bytes, Opened>, handle: Bytes, o: Opened)
    requires handle !in handles
    ensures handles[handle := o] - {handle} == handles
  {
  }

  /** An upload that breaks before anything is stored has sent nothing, or an OPEN. */
  lemma BrokeAtOpen(log: seq<Said>, end: seq<Said>, path: string, content: Bytes)
    requires end == log || (log < end && |end| == |log| + 1 && end[|log|].req.Open?)
    ensures UploadBroke(end[|log|..], path, content, OpenFailed)
  {
  }

  lemma BodyMissing(log: seq<Said>, end: seq<Said>, path: string, content: Bytes)
    requires log < end && |end| == |log| + 1 && NotThere(end[|log|], ForWrite, path)
    ensures BodySaid(end[|log|..], path, content, 0)
  {
    hide NotThere;
  }

  /** The end of an upload whose OPEN gave a handle: whole, or broken in a WRITE or the CLOSE. */
  lemma BodyEnds(log: seq<Said>, begun: seq<Said>, end: seq<Said>, path: string, content: Bytes, handle: Bytes, st: Status)
    requires log < begun < end && |begun| == |log| + 1 && OpenedAs(begun[|log|], ForWrite, path, handle)
    requires end[|end| - 1].req.Close? && end[|end| - 1].req.handle == handle
    requires st.Ok? || st == Err(WriteFailed) || st == Err(CloseFailed)
    requires st.Ok? ==> Stored(end[|begun|..|end| - 1], handle, content) && ClosedBy(end[|end| - 1], handle)
    requires st == Err(CloseFailed) ==>
      && end[|end| - 1].heard != Replied(StatusReply(end[|end| - 1].req.id, OK))
      && Stored(end[|begun|..|end| - 1], handle, content)
    ensures if st.Ok? then BodySaid(end[|log|..], path, content, |content|)
            else UploadBroke(end[|log|..], path, content, st.error)
  {
    hide Stored, OpenedAs, ClosedBy;
    var part := end[|log|..];
    assert part[1..|part| - 1] == end[|begun|..|end| - 1];
  }

  lemma BrokeAtStat(log: seq<Said>, said: seq<Said>, end: seq<Said>, path: string, content: Bytes, r: Result<nat>)
    requires log <= said < end && |end| == |said| + 1
    requires end[|said|].req.Stat? && end[|said|].req.path == path && SizeSays(end[|said|].heard, end[|said|].req.id, r)
    ensures UploadBroke(end[|log|..], path, content, if r.Failure? then StatFailed else SizeMismatch)
  {
    hide Stored;
    assert end[|log|..][|end| - |log| - 1] == end[|said|];
  }

  lemma SizeTold(s: Said, path: string, r: Result<nat>)
    requires s.req.Stat? && s.req.path == path && SizeSays(s.heard, s.req.id, r) && r.Success?
    ensures SizeSaid(s, path, r.value)
  {
  }

  /** What an honest server makes of a MKDIR: a new directory, or an error and no change. */
  lemma MkdirServed(fs: Fs, id: nat, path: string, d: Decision)
    ensures var req := Request.Mkdir(id, path); var (after, reply) := Serve(fs, req, d);
      && after.files == fs.files && after.handles == fs.handles
      && reply.StatusReply? && reply.id == id
      && (reply.code == OK ==> after.dirs == fs.dirs + {path})
      && (reply.code != OK ==> after == fs)
      && (reply.code == OK || (reply.code == FAILURE && Exists(fs, path)) || Thwarted(fs, req, reply))
  {
  }

  /** Where the chunk begins inside a WRITE payload. */
  function WriteDataOffset(handleLen: nat): nat { 4 + 4 + handleLen + 8 + 4 }

  /** It begins behind the id, the handle, the offset and the length word, as the codec lays them down;
      and behind any legal handle there is room for a full chunk. */
  lemma WriteDataComesLast(id: nat, handle: Bytes, offset: nat, data: Bytes)
    requires id < U32 && |handle| < U32 && offset < U64 && |data| < U32
    ensures var payload := Wire.Be32(id) + Wire.Str(handle) + Wire.Be64(offset) + Wire.Str(data);
      WriteDataOffset(|handle|) <= |payload| && payload[WriteDataOffset(|handle|)..] == data
    ensures |handle| <= MAX_HANDLE && |data| <= WRITE_CHUNK ==> WriteDataOffset(|handle|) + |data| <= TX_BYTES
  {
    var front := Wire.Be32(id) + Wire.Str(handle) + Wire.Be64(offset) + Wire.Be32(|data|);
    assert Wire.Be32(id) + Wire.Str(handle) + Wire.Be64(offset) + Wire.Str(data) == front + data;
  }

  /** `handle` writes to the existing file `path`. */
  ghost predicate Target(fs: Fs, handle: Bytes, path: string) {
    handle in fs.handles && fs.handles[handle] == OpenFile(path, true) && path in fs.files
  }

  /** Since `base` only the file behind `handle` has changed, and it holds `data`; through the
      empty handle nothing can be written. */
  ghost predicate Holding(base: Fs, fs: Fs, handle: Bytes, path: string, data: Bytes) {
    if handle == [] then fs == base
    else Target(fs, handle, path) && fs.handles == base.handles && fs.files == base.files[path := data]
  }

  /** A missing file reads as an empty one. */
  function ContentAt(fs: Fs, path: string): Bytes { if path in fs.files then fs.files[path] else [] }

  lemma HoldingFirst(fs: Fs, handle: Bytes, path: string)
    requires handle != [] ==> Target(fs, handle, path) && fs.files[path] == []
    ensures Holding(fs, fs, handle, path, [])
  {
    if handle != [] {
      assert fs.files == fs.files[path := []];
    }
  }

  lemma HoldingMeans(base: Fs, fs: Fs, handle: Bytes, path: string, data: Bytes)
    requires Holding(base, fs, handle, path, data)
    ensures if handle == [] then fs == base
            else path in fs.files && fs.handles == base.handles && fs.files == base.files[path := data] && data == fs.files[path]
  {
  }

  /** `handle` reads from the existing file `path`. */
  ghost predicate Source(fs: Fs, handle: Bytes, path: string) {
    handle in fs.handles && fs.handles[handle] == OpenFile(path, false) && path in fs.files
  }

  /** What a successful read brings back: a front part of the file, and all of it exactly when the
      server said where the file ends. */
  ghost predicate ReadBack(fs: Fs, path: string, got: Bytes, ended: bool) {
    && path in fs.files
    && got <= fs.files[path]
    && (got == fs.files[path] <==> ended)
  }

  /** Since `start`, the READDIRs on `handle` have delivered `seen` and nothing else changed. */
  ghost predicate Progress(start: Fs, fs: Fs, handle: Bytes, seen: seq<Entry>, entries: seq<Entry>) {
    && fs.files == start.files && fs.dirs == start.dirs
    && handle in fs.handles && fs.handles[handle].OpenDir?
    && fs.handles == start.handles[handle := fs.handles[handle]]
    && seen + fs.handles[handle].left == entries
  }

  lemma ProgressHere(start: Fs, fs: Fs, handle: Bytes, seen: seq<Entry>, entries: seq<Entry>)
    requires Progress(start, fs, handle, seen, entries)
    ensures handle in fs.handles && fs.handles[handle].OpenDir? && seen + fs.handles[handle].left == entries
    ensures fs.files == start.files && fs.dirs == start.dirs
    ensures fs.handles - {handle} == start.handles - {handle}
    ensures fs.handles[handle].left == [] ==> seen == entries
  {
  }

  lemma ProgressStep(start: Fs, before: Fs, after: Fs, handle: Bytes, seen: seq<Entry>, names: seq<Entry>, entries: seq<Entry>)
    requires Progress(start, before, handle, seen, entries)
    requires after.files == before.files && after.dirs == before.dirs && names <= before.handles[handle].left
    requires after.handles == before.handles[handle := OpenDir(before.handles[handle].left[|names|..])]
    ensures Progress(start, after, handle, seen + names, entries)
    ensures |seen + names| <= |entries|
  {
    var left := before.handles[handle].left;
    assert names + left[|names|..] == left;
    assert (seen + names) + left[|names|..] == seen + left;
  }

  method CopyInto(buffer: array<byte>, at: nat, data: Bytes)
    requires at + |data| <= buffer.Length
    modifies buffer
    ensures buffer[..at] == old(buffer[..at])
    ensures buffer[at..at + |data|] == data
    ensures buffer[..at + |data|] == old(buffer[..at]) + data
    ensures forall c :: at + |data| <= c <= buffer.Length ==> buffer[c..] == old(buffer[c..])
  {
    forall k | 0 <= k < |data| {
      buffer[at + k] := data[k];
    }
    assert buffer[..at + |data|] == buffer[..at] + buffer[at..at + |data|];
  }

  // ----- the levels of a path -------------------------------------------------------

  method ComponentEnd(path: string, start: nat) returns (end: nat)
    requires start <= |path|
    ensures start <= end <= |path| && (forall k :: start <= k < end ==> path[k] != '/')
    ensures end < |path| ==> path[end] == '/'
  {
    end := start;
    while end < |path| && path[end] != '/'
      invariant start <= end <= |path|
      invariant forall k :: start <= k < end ==> path[k] != '/'
    {
      end := end + 1;
    }
  }

  /** The non-empty components of a path. */
  function Parts(path: string): seq<string> {
    if path == [] then []
    else if path[0] == '/' then Parts(path[1..])
    else
      var n := FirstSlash(path);
      [path[..n]] + Parts(path[n..])
  }

  function FirstSlash(path: string): (n: nat)
    ensures n <= |path| && (forall k :: 0 <= k < n ==> path[k] != '/')
    ensures n < |path| ==> path[n] == '/'
    ensures path != [] && path[0] != '/' ==> 0 < n
  {
    if path == [] || path[0] == '/' then 0 else 1 + FirstSlash(path[1..])
  }

  /** The directory made of the first `k` components. */
  function Level(path: string, k: nat): string
    requires k <= |Parts(path)|
  {
    if k == 0 then if path != [] && path[0] == '/' then "/" else ""
    else
      var above := Level(path, k - 1);
      above + (if above != [] && above[|above| - 1] != '/' then "/" else "") + Parts(path)[k - 1]
  }

  /** The first `n` directories on the way down `path` exist, and nothing else is new. */
  ghost predicate LevelsMade(before: Fs, after: Fs, path: string, n: nat) {
    && after.files == before.files && after.handles == before.handles
    && before.dirs <= after.dirs
    && (forall d :: d in after.dirs - before.dirs ==> IsLevel(path, d))
    && n <= |Parts(path)|
    && (forall k :: 1 <= k <= n ==> Exists(after, Level(path, k)))
  }

  ghost predicate IsLevel(path: string, d: string) { exists k :: 1 <= k <= |Parts(path)| && d == Level(path, k) }

  /** At index `i` of the path `made` components have been passed and `cur` names them. */
  ghost predicate Walked(path: string, i: nat, made: nat, cur: string) {
    i <= |path| && made <= |Parts(path)| && Parts(path)[made..] == Parts(path[i..]) && cur == Level(path, made)
  }

  /** Level by level, from the first down to the `n`th, the transcript shows each one standing. */
  ghost predicate Climbed(part: seq<Said>, path: string, n: nat)
    decreases n
  {
    if n == 0 then part == []
    else n <= |Parts(path)| && exists k :: 0 <= k <= |part| && Stands(part[k..], Level(path, n)) && Climbed(part[..k], path, n - 1)
  }

  /** The levels passed so far, on the server and in the transcript. */
  ghost predicate Descended(base: Fs, fs: Fs, honest: bool, part: seq<Said>, path: string, made: nat) {
    (honest ==> LevelsMade(base, fs, path, made)) && Climbed(part, path, made)
  }

  lemma DescendedMeans(base: Fs, fs: Fs, honest: bool, part: seq<Said>, path: string, made: nat)
    requires Descended(base, fs, honest, part, path, made)
    ensures (honest ==> LevelsMade(base, fs, path, made)) && Climbed(part, path, made)
  {
  }

  lemma ClimbedNothing(path: string)
    ensures Climbed([], path, 0)
  {
  }

  lemma ClimbedOn(part: seq<Said>, step: seq<Said>, path: string, made: nat)
    requires made < |Parts(path)| && Climbed(part, path, made) && Stands(step, Level(path, made + 1))
    ensures Climbed(part + step, path, made + 1)
  {
    hide Parts, Level, Stands;
    assert (part + step)[|part|..] == step && (part + step)[..|part|] == part;
  }

  lemma LevelsStart(fs: Fs, path: string)
    ensures LevelsMade(fs, fs, path, 0)
    ensures path != [] ==> var n := if path[0] == '/' then 1 else 0; Walked(path, n, 0, path[..n])
  {
    assert path[0..] == path;
  }

  lemma LevelsStep(base: Fs, before: Fs, after: Fs, path: string, made: nat, ok: bool)
    requires made < |Parts(path)| && LevelsMade(base, before, path, made)
    requires after.files == before.files && after.handles == before.handles
    requires after.dirs == before.dirs || after.dirs == before.dirs + {Level(path, made + 1)}
    requires ok ==> Exists(after, Level(path, made + 1))
    ensures LevelsMade(base, after, path, if ok then made + 1 else 0)
    ensures LevelsMade(base, after, path, 0)
  {
    hide Parts, Level;
  }

  lemma WalkOn(path: string, start: nat, end: nat, made: nat, cur: string)
    requires Walked(path, start, made, cur) && start <= end <= |path|
    requires forall k :: start <= k < end ==> path[k] != '/'
    requires end < |path| ==> path[end] == '/'
    ensures var next := if end < |path| then end + 1 else end;
      if start < end then
        && made < |Parts(path)| && Parts(path)[made] == path[start..end] && cur == Level(path, made)
        && Walked(path, next, made + 1, Level(path, made + 1))
      else Walked(path, next, made, cur)
  {
    hide Parts, Level;
    PartsStep(path, start, end);
    var left := Parts(path)[made..];
    if start < end {
      assert left[0] == path[start..end] && left[1..] == Parts(path)[made + 1..];
    }
  }

  lemma WalkEnds(path: string, made: nat, cur: string)
    requires Walked(path, |path|, made, cur)
    ensures made == |Parts(path)|
  {
  }

  /** One turn of the walk along a path: a component, then its separator. */
  lemma PartsStep(path: string, start: nat, end: nat)
    requires start <= end <= |path|
    requires forall k :: start <= k < end ==> path[k] != '/'
    requires end < |path| ==> path[end] == '/'
    ensures Parts(path[start..]) ==
            (if start < end then [path[start..end]] else []) + Parts(path[if end < |path| then end + 1 else end..])
  {
    var rest := path[start..];
    if start < end {
      var n := FirstSlash(rest);
      assert n == end - start by {
        assert forall k :: 0 <= k < end - start ==> rest[k] == path[start + k];
        if end < |path| { assert rest[end - start] == '/'; }
      }
      assert rest[..n] == path[start..end] && rest[n..] == path[end..];
    }
    if end < |path| {
      assert path[end..][1..] == path[end + 1..];
    }
  }

  lemma PartsAreSolid(path: string)
    ensures forall k :: 0 <= k < |Parts(path)| ==> Parts(path)[k] != [] && '/' !in Parts(path)[k]
  {
  }

  lemma {:induction false} LevelGrows(path: string, k: nat)
    requires k <= |Parts(path)|
    ensures |Level(path, k)| <= |Level(path, |Parts(path)|)|
    decreases |Parts(path)| - k
  {
    if k < |Parts(path)| {
      LevelGrows(path, k + 1);
    }
  }

  lemma PartsOfOne(part: string)
    requires part != [] && '/' !in part
    ensures Parts(part) == [part] && Parts([]) == []
  {
    PartsStep(part, 0, |part|);
    assert part[0..] == part && part[0..|part|] == part && part[|part|..] == [];
  }

  lemma {:induction false} PartsOfJoined(dir: string, part: string)
    requires part != [] && '/' !in part
    requires dir != [] ==> dir[|dir| - 1] == '/'
    ensures Parts(dir + part) == Parts(dir) + [part]
    decreases |dir|
  {
    hide Parts, FirstSlash;
    if dir == [] {
      assert dir + part == part;
      PartsOfOne(part);
    } else {
      var n := FirstSlash(dir);
      PartsStep(dir, 0, n);
      PartsStep(dir + part, 0, n);
      assert dir[0..] == dir && (dir + part)[0..] == dir + part;
      assert (dir + part)[0..n] == dir[0..n];
      assert (dir + part)[n + 1..] == dir[n + 1..] + part;
      PartsOfJoined(dir[n + 1..], part);
    }
  }

  lemma {:induction false} PartsWithSlash(dir: string)
    ensures Parts(dir + "/") == Parts(dir)
    decreases |dir|
  {
    if dir == [] {
      assert dir + "/" == "/" && "/"[1..] == [];
    } else {
      var n := FirstSlash(dir);
      PartsStep(dir, 0, n);
      assert dir[0..] == dir && (dir + "/")[0..] == dir + "/";
      PartsStep(dir + "/", 0, n);
      assert (dir + "/")[0..n] == dir[0..n];
      if n < |dir| {
        assert (dir + "/")[n + 1..] == dir[n + 1..] + "/";
        PartsWithSlash(dir[n + 1..]);
      } else {
        assert (dir + "/")[n + 1..] == [];
      }
    }
  }

  /** What MkdirAll creates: the directories named by the first 1, 2, ... components. */
  lemma {:induction false} LevelNamesAPrefix(path: string, k: nat)
    requires k <= |Parts(path)|
    ensures Parts(Level(path, k)) == Parts(path)[..k]
  {
    if k > 0 {
      var above := Level(path, k - 1);
      LevelNamesAPrefix(path, k - 1);
      PartsAreSolid(path);
      var part := Parts(path)[k - 1];
      var joined := above + (if above != [] && above[|above| - 1] != '/' then "/" else "");
      PartsWithSlash(above);
      assert joined == above || joined == above + "/";
      PartsOfJoined(joined, part);
      assert Parts(path)[..k] == Parts(path)[..k - 1] + [part];
    }
  }

  /** Names with one slash between them. */
  function WithSlashes(names: seq<string>): string {
    if names == [] then "" else if |names| == 1 then names[0] else names[0] + "/" + WithSlashes(names[1..])
  }

  lemma {:induction false} OneNameMore(names: seq<string>, name: string)
    requires names != []
    ensures WithSlashes(names + [name]) == WithSlashes(names) + "/" + name
  {
    var all := names + [name];
    assert all[1..] == names[1..] + [name];
    if |names| == 1 {
      assert all[1..] == [name];
    } else {
      OneNameMore(names[1..], name);
    }
  }

  lemma LevelEnds(path: string, k: nat)
    requires 1 <= k <= |Parts(path)|
    ensures path != [] && Level(path, k) != [] && Level(path, k)[|Level(path, k)| - 1] != '/'
  {
    PartsAreSolid(path);
    var last := Parts(path)[k - 1];
    LevelNext(path, k - 1);
    hide Parts, Level;
    assert last[|last| - 1] in last;
  }

  lemma Regrouped(root: string, front: string, last: string)
    ensures root + front + "/" + last == root + (front + "/" + last)
  {
  }

  /** A level, letter by letter: the root when the path begins there, and the names so far. */
  lemma {:induction false} LevelIs(path: string, k: nat)
    requires 1 <= k <= |Parts(path)| && path != []
    ensures Level(path, k) == (if path[0] == '/' then "/" else "") + WithSlashes(Parts(path)[..k])
  {
    hide Parts, Level, WithSlashes;
    LevelNext(path, k - 1);
    var names, last := Parts(path)[..k], Parts(path)[k - 1];
    if k == 1 {
      assert names == [last];
      OneName(last);
    } else {
      LevelIs(path, k - 1);
      LevelEnds(path, k - 1);
      assert names == Parts(path)[..k - 1] + [last];
      OneNameMore(Parts(path)[..k - 1], last);
      Regrouped(if path[0] == '/' then "/" else "", WithSlashes(Parts(path)[..k - 1]), last);
    }
  }

  lemma LevelNext(path: string, k: nat)
    requires k < |Parts(path)|
    ensures Level(path, 0) == if path != [] && path[0] == '/' then "/" else ""
    ensures var above := Level(path, k);
      Level(path, k + 1) == above + (if above != [] && above[|above| - 1] != '/' then "/" else "") + Parts(path)[k]
  {
  }

  /** A path in which no slash follows another and none comes last is its own names again. */
  lemma {:induction false} PartsMakeThePath(path: string)
    requires path != [] && path[|path| - 1] != '/' && forall k :: 0 < k < |path| ==> path[k - 1] != '/' || path[k] != '/'
    ensures Parts(path) != [] && path == (if path[0] == '/' then "/" else "") + WithSlashes(Parts(path))
    decreases |path|
  {
    hide WithSlashes;
    if path[0] == '/' {
      PartsMakeThePath(path[1..]);
      assert path == "/" + path[1..];
    } else {
      var n := FirstSlash(path);
      hide FirstSlash;
      if n < |path| {
        var rest := path[n..];
        PartsMakeThePath(rest);
        FirstAndRest(path[..n], Parts(rest));
        assert path == path[..n] + rest;
      } else {
        OneName(path);
        assert path[..n] == path && path[n..] == [] && Parts(path) == [path];
      }
    }
  }

  lemma FirstAndRest(name: string, names: seq<string>)
    requires names != []
    ensures WithSlashes([name] + names) == name + ("/" + WithSlashes(names))
  {
    assert ([name] + names)[1..] == names;
  }

  lemma OneName(name: string)
    ensures WithSlashes([name]) == name && Parts([]) == []
  {
  }

  /** So the last level of such a path is the path itself. */
  lemma LastLevelIsThePath(path: string)
    requires path != [] && path[|path| - 1] != '/' && forall k :: 0 < k < |path| ==> path[k - 1] != '/' || path[k] != '/'
    ensures Parts(path) != [] && Level(path, |Parts(path)|) == path
  {
    PartsMakeThePath(path);
    LevelIs(path, |Parts(path)|);
    assert Parts(path)[..|Parts(path)|] == Parts(path);
  }
}
