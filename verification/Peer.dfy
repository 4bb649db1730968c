/** The other end of the channel: an SFTP v3 server as a small state machine, and the
    byte stream that carries requests to it and replies back, one message at a time. */
module Peer {
  import opened Types

  // ----- messages -----------------------------------------------------------------

  const OK: nat := 0
  const EOF: nat := 1
  const NO_SUCH_FILE: nat := 2
  const FAILURE: nat := 4

  datatype Entry = Entry(name: string, mtime: Option<nat>, size: Option<nat>)

  /** The three ways this client opens a path: READ, WRITE|CREAT|TRUNC and OPENDIR. */
  datatype OpenKind = ForRead | ForWrite | ForListing

  datatype Request =
    | Init(version: nat)
    | Open(id: nat, kind: OpenKind, path: string)
    | Close(id: nat, handle: Bytes)
    | Read(id: nat, handle: Bytes, offset: nat, ask: nat)
    | Write(id: nat, handle: Bytes, offset: nat, data: Bytes)
    | Readdir(id: nat, handle: Bytes)
    | Remove(id: nat, path: string)
    | Mkdir(id: nat, path: string)
    | Realpath(id: nat, path: string)
    | Stat(id: nat, path: string)
    | Rename(id: nat, from: string, to: string)

  datatype Kind = VersionKind | StatusKind | HandleKind | DataKind | NameKind | AttrsKind | OtherKind

  /** A reply frame as the client's parsers see it. `Broken` is a frame of that kind whose
      payload does not parse; it may lack even the request id. */
  datatype Reply =
    | VersionReply(version: nat)
    | StatusReply(id: nat, code: nat)
    | HandleReply(id: nat, handle: Bytes)
    | DataReply(id: nat, data: Bytes)
    | NameReply(id: nat, entries: seq<Entry>)
    | AttrsReply(id: nat, size: Option<nat>)
    | Broken(kind: Kind, echoed: Option<nat>)

  /** What came of one request: it never left, nothing came back, or this did. */
  datatype Heard = NotSent | NoReply(error: Error) | Replied(reply: Reply)

  datatype Said = Said(req: Request, heard: Heard)

  // ----- the server ---------------------------------------------------------------

  datatype Opened = OpenFile(path: string, writable: bool) | OpenDir(left: seq<Entry>)

  datatype Fs = Fs(files: map<string, Bytes>, dirs: set<string>, handles: map<Bytes, Opened>)

  /** What is free in the peer's behaviour at one exchange. An honest server may refuse
      any request, choose its handles, split its answers and list what it likes; `fate`
      says what the channel does to the exchange. */
  datatype Decision = Decision(
    fate: Fate, refuse: Option<nat>, handle: Bytes, amount: nat, applied: nat, entries: seq<Entry>,
    resolved: string, size: Option<nat>)

  datatype Fate =
    | Answered
    | WriteFails                      // the request never leaves
    | Lost(served: bool, mid: bool)   // the channel dies before or after the server acts
    | Lied(wreck: Fs, replies: seq<Reply>) // a peer that breaks the protocol

  const MAX_HANDLE: nat := 128
  const MAX_ENTRIES_PER_FRAME: nat := 1024

  function Min(x: nat, y: nat): nat { if x < y then x else y }

  /** A refusal carries an error status; OK and EOF are not errors. */
  function Refusal(id: nat, code: nat): (r: Reply)
    ensures r.StatusReply?
  {
    StatusReply(id, if code == OK || code == EOF then FAILURE else code)
  }

  predicate Exists(fs: Fs, path: string) { path in fs.files || path in fs.dirs }

  /** A refusal that cannot claim an existing path is missing. */
  function RefusalFor(fs: Fs, id: nat, path: string, code: nat): (r: Reply)
    ensures r.StatusReply?
  {
    Refusal(id, if code == NO_SUCH_FILE && Exists(fs, path) then FAILURE else code)
  }

  predicate FreshHandle(fs: Fs, h: Bytes) { 1 <= |h| <= MAX_HANDLE && h !in fs.handles }

  /** A refused OPEN may have created or emptied the file, unless it is said to be missing. */
  function ServeOpen(fs: Fs, id: nat, kind: OpenKind, path: string, d: Decision): (Fs, Reply) {
    if d.refuse.Some? then
      var reply := RefusalFor(fs, id, path, d.refuse.value);
      (if kind == ForWrite && 0 < d.applied && path !in fs.dirs && reply.code != NO_SUCH_FILE
       then fs.(files := fs.files[path := []]) else fs, reply)
    else if kind == ForRead && path !in fs.files then
      (fs, StatusReply(id, if Exists(fs, path) then FAILURE else NO_SUCH_FILE))
    else if kind == ForWrite && path in fs.dirs then (fs, StatusReply(id, FAILURE))
    else if !FreshHandle(fs, d.handle) then (fs, StatusReply(id, FAILURE))
    else
      var file := if kind == ForListing then OpenDir(d.entries) else OpenFile(path, kind == ForWrite);
      var files := if kind == ForWrite then fs.files[path := []] else fs.files;
      (Fs(files, fs.dirs, fs.handles[d.handle := file]), HandleReply(id, d.handle))
  }

  /** Closing always releases the handle, even when the server reports a failure. */
  function ServeClose(fs: Fs, id: nat, h: Bytes, d: Decision): (Fs, Reply) {
    if h !in fs.handles then (fs, StatusReply(id, FAILURE))
    else (fs.(handles := fs.handles - {h}), if d.refuse.Some? then Refusal(id, d.refuse.value) else StatusReply(id, OK))
  }

  /** A READ inside the file answers any part of what was asked, from its front. */
  function ServeRead(fs: Fs, id: nat, h: Bytes, offset: nat, ask: nat, d: Decision): (Fs, Reply) {
    if d.refuse.Some? then (fs, Refusal(id, d.refuse.value))
    else if h !in fs.handles || !fs.handles[h].OpenFile? || fs.handles[h].path !in fs.files then (fs, StatusReply(id, FAILURE))
    else
      var content := fs.files[fs.handles[h].path];
      if |content| <= offset then (fs, StatusReply(id, EOF))
      else (fs, DataReply(id, content[offset..offset + Min(d.amount, Min(ask, |content| - offset))]))
  }

  function WriteAt(content: Bytes, offset: nat, data: Bytes): Bytes {
    var padded := if |content| < offset then content + seq(offset - |content|, _ => 0 as byte) else content;
    padded[..offset] + data + if offset + |data| < |padded| then padded[offset + |data|..] else []
  }

  lemma WriteAtEnd(content: Bytes, data: Bytes)
    ensures WriteAt(content, |content|, data) == content + data
  {
  }

  /** An acknowledged WRITE has stored all its bytes; a refused one may have stored some. */
  function ServeWrite(fs: Fs, id: nat, h: Bytes, offset: nat, data: Bytes, d: Decision): (Fs, Reply) {
    if h !in fs.handles || !fs.handles[h].OpenFile? || !fs.handles[h].writable || fs.handles[h].path !in fs.files
    then (fs, StatusReply(id, FAILURE))
    else
      var path := fs.handles[h].path;
      if d.refuse.Some? then
        (fs.(files := fs.files[path := WriteAt(fs.files[path], offset, data[..Min(d.applied, |data|)])]),
         Refusal(id, d.refuse.value))
      else (fs.(files := fs.files[path := WriteAt(fs.files[path], offset, data)]), StatusReply(id, OK))
  }

  function ServeReaddir(fs: Fs, id: nat, h: Bytes, d: Decision): (Fs, Reply) {
    if d.refuse.Some? then (fs, Refusal(id, d.refuse.value))
    else if h !in fs.handles || !fs.handles[h].OpenDir? then (fs, StatusReply(id, FAILURE))
    else
      var left := fs.handles[h].left;
      if left == [] then (fs, StatusReply(id, EOF))
      else
        var n := Min(if d.amount == 0 then 1 else d.amount, Min(MAX_ENTRIES_PER_FRAME, |left|));
        (fs.(handles := fs.handles[h := OpenDir(left[n..])]), NameReply(id, left[..n]))
  }

  function ServeRemove(fs: Fs, id: nat, path: string, d: Decision): (Fs, Reply) {
    if d.refuse.Some? then (fs, RefusalFor(fs, id, path, d.refuse.value))
    else if path !in fs.files then (fs, StatusReply(id, NO_SUCH_FILE))
    else (fs.(files := fs.files - {path}), StatusReply(id, OK))
  }

  /** OpenSSH answers FAILURE for a directory that already exists. */
  function ServeMkdir(fs: Fs, id: nat, path: string, d: Decision): (Fs, Reply) {
    if d.refuse.Some? then (fs, Refusal(id, d.refuse.value))
    else if Exists(fs, path) then (fs, StatusReply(id, FAILURE))
    else (fs.(dirs := fs.dirs + {path}), StatusReply(id, OK))
  }

  function ServeStat(fs: Fs, id: nat, path: string, d: Decision): Reply {
    if d.refuse.Some? then RefusalFor(fs, id, path, d.refuse.value)
    else if path in fs.files then AttrsReply(id, if d.size.Some? then Some(|fs.files[path]|) else None)
    else if path in fs.dirs then AttrsReply(id, d.size)
    else StatusReply(id, NO_SUCH_FILE)
  }

  /** RENAME never overwrites: an existing target answers FAILURE. */
  function ServeRename(fs: Fs, id: nat, from: string, to: string, d: Decision): (Fs, Reply) {
    if d.refuse.Some? then (fs, Refusal(id, d.refuse.value))
    else if from !in fs.files then (fs, StatusReply(id, NO_SUCH_FILE))
    else if Exists(fs, to) then (fs, StatusReply(id, FAILURE))
    else (fs.(files := Moved(fs.files, from, to)), StatusReply(id, OK))
  }

  function Moved(files: map<string, Bytes>, from: string, to: string): map<string, Bytes>
    requires from in files
  {
    (files - {from})[to := files[from]]
  }

  /** An honest server's answer: the request id echoed, exactly one reply. */
  function Serve(fs: Fs, req: Request, d: Decision): (Fs, Reply) {
    match req
    case Init(_) => (fs, if d.refuse.Some? then VersionReply(d.refuse.value) else VersionReply(3))
    case Open(id, kind, path) => ServeOpen(fs, id, kind, path, d)
    case Close(id, h) => ServeClose(fs, id, h, d)
    case Read(id, h, offset, ask) => ServeRead(fs, id, h, offset, ask, d)
    case Write(id, h, offset, data) => ServeWrite(fs, id, h, offset, data, d)
    case Readdir(id, h) => ServeReaddir(fs, id, h, d)
    case Remove(id, path) => ServeRemove(fs, id, path, d)
    case Mkdir(id, path) => ServeMkdir(fs, id, path, d)
    case Realpath(id, _) =>
      (fs, if d.refuse.Some? then Refusal(id, d.refuse.value) else NameReply(id, [Entry(d.resolved, None, None)]))
    case Stat(id, path) => (fs, ServeStat(fs, id, path, d))
    case Rename(id, from, to) => ServeRename(fs, id, from, to, d)
  }

  /** Answers a client cannot build on: an error status, attributes without a size, or no data. */
  predicate Refusing(r: Reply) {
    match r
    case StatusReply(_, code) => code != OK && code != EOF
    case AttrsReply(_, size) => size.None?
    case DataReply(_, data) => data == []
    case VersionReply(v) => v != 3
    case _ => false
  }

  /** A refusal, except the one that tells a client its directory is already there. */
  predicate Thwarted(fs: Fs, req: Request, r: Reply) {
    Refusing(r) && !(req.Mkdir? && Exists(fs, req.path) && r.StatusReply? && r.code == FAILURE)
  }

  /** Handles are never empty. */
  predicate Named(fs: Fs) { [] !in fs.handles }

  lemma ServeKeepsNamed(fs: Fs, req: Request, d: Decision)
    requires Named(fs)
    ensures Named(Serve(fs, req, d).0)
  {
    if req.Open? {
      assert Named(ServeOpen(fs, req.id, req.kind, req.path, d).0);
    }
  }

  // ----- the channel --------------------------------------------------------------

  /** The byte stream to the peer. `script` is everything the outside world decides, so
      what is proved for every channel is proved for every server and every failure. */
  class Channel {
    const script: nat -> Decision
    var tick: nat
    var fs: Fs               // the server's state
    var inbox: seq<Reply>    // sent by the peer, not yet read
    var alive: bool
    var honest: bool         // the peer has kept to the protocol so far
    var patience: nat        // exchanges it will answer once it no longer does
    ghost var refusals: nat  // answers so far that a client cannot build on
    ghost var trace: seq<Fs> // every server state so far

    constructor (script: nat -> Decision, fs: Fs, patience: nat)
      requires Named(fs)
      ensures Valid() && alive && honest && inbox == [] && this.fs == fs && trace == [fs] && this.script == script
      ensures tick == 0 && refusals == 0 && this.patience == patience
    {
      this.script := script;
      this.fs := fs;
      this.patience := patience;
      tick, inbox, alive, honest, refusals, trace := 0, [], true, true, 0, [fs];
    }

    /** Nothing is left unread. */
    ghost predicate Quiet() reads this { honest ==> inbox == [] && Named(fs) }

    /** The outside world lets every exchange through. */
    ghost predicate Answering() { forall k :: script(k).fate.Answered? }

    ghost predicate Valid() reads this {
      Quiet() && trace != [] && trace[|trace| - 1] == fs && (Answering() ==> honest && alive)
    }

    /** What no call can undo. */
    twostate predicate Onward()
      reads this
    {
      && (alive ==> old(alive))
      && (honest ==> old(honest))
      && old(refusals) <= refusals
      && old(tick) <= tick
      && patience <= old(patience)
    }

    /** The peer is honest and live, and has refused nothing since. */
    twostate predicate Willing()
      reads this
    {
      honest && alive && refusals == old(refusals)
    }

    /** No file outside `paths` was any different at any moment since. */
    twostate predicate TouchedOnly(paths: set<string>)
      reads this
    {
      Confined(old(trace), trace, honest, paths)
    }

    /** Whatever was opened at the server has been closed again. */
    twostate predicate HandlesKept()
      reads this
    {
      honest && alive ==> fs.handles == old(fs.handles)
    }

    method Send(req: Request) returns (ok: bool)
      requires Valid()
      modifies this
      ensures trace == old(trace) + [fs] && tick == old(tick) + 1
      ensures alive ==> old(alive) && ok
      ensures honest ==> old(honest) && Named(fs)
      ensures old(refusals) <= refusals
      ensures patience <= old(patience) && (alive && !old(honest) ==> patience < old(patience))
      ensures !old(alive) ==> inbox == old(inbox)
      ensures honest && alive ==>
        var answer := Serve(old(fs), req, script(old(tick)));
        && fs == answer.0
        && inbox == [answer.1]
        && refusals == old(refusals) + if Thwarted(old(fs), req, answer.1) then 1 else 0
      ensures honest && !alive ==> inbox == []
      ensures honest && !alive ==>
        fs == old(fs) || fs == Serve(old(fs), req, script(old(tick))).0
      ensures old(alive) && old(honest) ==>
        match script(old(tick)).fate
        case Answered => alive && honest && ok
        case WriteFails => !alive && honest && !ok && fs == old(fs)
        case Lost(served, _) => !alive && honest && ok && (!served ==> fs == old(fs))
                                && (served ==> fs == Serve(old(fs), req, script(old(tick))).0)
        case Lied(wreck, replies) => alive && !honest && ok && fs == wreck && inbox == old(inbox) + replies
    {
      var d := script(tick);
      tick := tick + 1;
      ok := true;
      if honest {
        ServeKeepsNamed(fs, req, d);
      } else if patience == 0 {
        alive := false;
      } else {
        patience := patience - 1;
      }
      hide Serve, Thwarted;
      if !alive || d.fate.WriteFails? {
        alive := false;
        ok := !d.fate.WriteFails?;
      } else if d.fate.Lied? {
        honest := false;
        fs := d.fate.wreck;
        inbox := inbox + d.fate.replies;
      } else {
        var (after, reply) := Serve(fs, req, d);
        if d.fate.Answered? {
          refusals := refusals + if Thwarted(fs, req, reply) then 1 else 0;
          fs := after;
          inbox := inbox + [reply];
        } else {
          fs := if d.fate.served then after else fs;
          alive := false;
        }
      }
      trace := trace + [fs];
    }

    /** Reads one frame. With nothing to read the call returns only when the channel dies:
        before the frame, or in the middle of it. */
    method ReadFrame() returns (e: Status, reply: Reply)
      modifies this
      ensures fs == old(fs) && trace == old(trace) && honest == old(honest) && refusals == old(refusals)
      ensures patience == old(patience)
      ensures tick == old(tick)
      ensures old(inbox) != [] ==> e.Ok? && reply == old(inbox)[0] && inbox == old(inbox)[1..] && alive == old(alive)
      ensures old(inbox) == [] ==> !alive && inbox == [] && (e == Err(ChannelReadFailed) || e == Err(SftpProtocolError))
    {
      reply := Broken(OtherKind, None);
      if inbox != [] {
        e, reply, inbox := Ok, inbox[0], inbox[1..];
      } else {
        alive := false;
        var fate := script(tick).fate;
        e := Err(if fate.Lost? && fate.mid then SftpProtocolError else ChannelReadFailed);
      }
    }
  }

  /** The two states agree on every file outside `paths`. */
  ghost predicate SameBut(before: Fs, after: Fs, paths: set<string>) {
    forall p :: p !in paths ==> (p in before.files <==> p in after.files) &&
                                (p in before.files ==> after.files[p] == before.files[p])
  }

  /** The history goes on, and while the peer is honest every new state agrees with the
      last one before it outside `paths`. */
  ghost predicate Confined(before: seq<Fs>, after: seq<Fs>, honest: bool, paths: set<string>) {
    && before <= after
    && (honest && before != [] ==>
          forall k {:trigger after[k]} :: |before| <= k < |after| ==> SameBut(before[|before| - 1], after[k], paths))
  }

  /** Two stretches of a run, one after the other. */
  lemma ConfinedThen(start: seq<Fs>, mid: seq<Fs>, end: seq<Fs>, was: bool, honest: bool, paths: set<string>, part: set<string>)
    requires Confined(start, mid, was, paths) && Confined(mid, end, honest, part) && part <= paths
    requires start != [] && (honest ==> was)
    ensures Confined(start, end, honest, paths)
  {
    if honest {
      var base := start[|start| - 1];
      forall k | |start| <= k < |end| ensures SameBut(base, end[k], paths) {
        assert SameBut(base, mid[|mid| - 1], paths);
        if k < |mid| {
          assert end[k] == mid[k];
        } else {
          assert SameBut(mid[|mid| - 1], end[k], part);
        }
      }
    }
  }

  lemma ConfinedStill(now: seq<Fs>, honest: bool, paths: set<string>)
    ensures Confined(now, now, honest, paths)
  {
  }

  lemma ConfinedWiden(start: seq<Fs>, end: seq<Fs>, honest: bool, paths: set<string>, more: set<string>)
    requires Confined(start, end, honest, paths) && paths <= more
    ensures Confined(start, end, honest, more)
  {
    if honest && start != [] {
      forall k | |start| <= k < |end| ensures SameBut(start[|start| - 1], end[k], more) {
        assert SameBut(start[|start| - 1], end[k], paths);
      }
    }
  }
}
