/** What a client can know of its peer: the requests it sent and what came of each. The predicates
    here speak of any peer, also one that breaks the protocol. */
module Transcript {
  import opened Types
  import opened Peer

  const WRITE_CHUNK: nat := 65536
  const MAX_PATH: nat := 512

  function IdOf(r: Reply): Option<nat> {
    match r
    case VersionReply(v) => Some(v)
    case Broken(_, echoed) => echoed
    case StatusReply(id, _) => Some(id)
    case HandleReply(id, _) => Some(id)
    case DataReply(id, _) => Some(id)
    case NameReply(id, _) => Some(id)
    case AttrsReply(id, _) => Some(id)
  }

  // ----- one answer -----------------------------------------------------------------------

  /** A legal handle, or word that the path is missing, under the id of the request; a frame of
      another kind or under another id is a protocol error. */
  ghost predicate OpenSays(h: Heard, id: nat, st: Status, handle: Bytes, missing: bool) {
    && (st.Ok? && missing <==> h == Replied(StatusReply(id, NO_SUCH_FILE)))
    && (st.Ok? && !missing ==> h == Replied(HandleReply(id, handle)))
    && (h.Replied? && h.reply.HandleReply? && h.reply.id == id && 1 <= |h.reply.handle| <= MAX_HANDLE ==> st.Ok?)
    && (st == Err(SftpProtocolError) <==>
          h == NoReply(SftpProtocolError) ||
          (h.Replied? && !(IdOf(h.reply) == Some(id) &&
             (h.reply.StatusReply? || h.reply.HandleReply? || (h.reply.Broken? && h.reply.kind == HandleKind)))))
  }

  ghost predicate RealpathSays(h: Heard, id: nat, r: Result<string>) {
    && (r.Success? <==> h.Replied? && h.reply.NameReply? && h.reply.id == id && h.reply.entries != []
                        && |h.reply.entries[0].name| <= MAX_PATH)
    && (r.Success? ==> r.value == h.reply.entries[0].name)
    && (r.Failure? ==> r.error == RealpathFailed || r.error == SftpProtocolError)
    && (r == Failure(SftpProtocolError) <==>
          h.Replied? && !(IdOf(h.reply) == Some(id) && (h.reply.StatusReply? || (h.reply.NameReply? && h.reply.entries != []))))
  }

  ghost predicate SizeSays(h: Heard, id: nat, r: Result<nat>) {
    && (r.Success? <==> h.Replied? && h.reply.AttrsReply? && h.reply.id == id && h.reply.size.Some?)
    && (r.Success? ==> h.reply.size == Some(r.value))
    && (r.Failure? ==> r.error == StatFailed || r.error == SftpProtocolError)
    && (r == Failure(SftpProtocolError) <==>
          h.Replied? && !(IdOf(h.reply) == Some(id) &&
            (h.reply.StatusReply? || h.reply.AttrsReply? || (h.reply.Broken? && h.reply.kind == AttrsKind))))
  }

  /** The answer to a STAT shows that the path is there. */
  predicate ShowsPath(r: Reply) {
    r.AttrsReply? || (r.Broken? && r.kind == AttrsKind) || (r.StatusReply? && r.code == OK)
  }

  ghost predicate ExistsSays(h: Heard, id: nat, e: Status, found: bool) {
    var sound := h.Replied? && IdOf(h.reply) == Some(id) && !(h.reply.Broken? && h.reply.kind == StatusKind);
    && e == (if sound then Ok else Err(if h.Replied? then SftpProtocolError else MkdirFailed))
    && (found <==> sound && ShowsPath(h.reply))
  }

  /** Data, the end of the file, or an error. */
  ghost predicate ReadSays(h: Heard, id: nat, err: Status, data: Bytes, eof: bool) {
    && (err.Ok? && eof <==> h == Replied(StatusReply(id, EOF)))
    && (err.Ok? && !eof ==> h == Replied(DataReply(id, data)))
    && (err.Err? || eof ==> data == []) && (err.Err? ==> !eof)
    && (err.Err? ==> err.error == match h
          case NotSent => ChannelWriteFailed
          case NoReply(e) => e
          case Replied(r) => if r.StatusReply? && r.id == id then OpenFailed else SftpProtocolError)
  }

  /** Some names, the end of the directory, or an error. */
  ghost predicate NamesSay(h: Heard, id: nat, err: Status, eof: bool, entries: seq<Entry>) {
    && (err.Ok? && eof <==> h == Replied(StatusReply(id, EOF)))
    && (err.Ok? && !eof ==> h == Replied(NameReply(id, entries)) && 1 <= |entries| <= MAX_ENTRIES_PER_FRAME)
    && (err.Err? || eof ==> entries == []) && (err.Err? ==> !eof)
    && (err.Err? ==> err.error == match h
          case NotSent => ChannelWriteFailed
          case NoReply(e) => e
          case Replied(r) => if r.StatusReply? && r.id == id then SftpStatusError else SftpProtocolError)
  }

  // ----- one request and its answer ---------------------------------------------------------

  ghost predicate OpenedAs(s: Said, kind: OpenKind, path: string, handle: Bytes) {
    && s.req.Open? && s.req.kind == kind && s.req.path == path
    && s.heard == Replied(HandleReply(s.req.id, handle)) && handle != []
  }

  ghost predicate NotThere(s: Said, kind: OpenKind, path: string) {
    s.req.Open? && s.req.kind == kind && s.req.path == path && s.heard == Replied(StatusReply(s.req.id, NO_SUCH_FILE))
  }

  ghost predicate ClosedBy(s: Said, handle: Bytes) {
    s.req.Close? && s.req.handle == handle && s.heard == Replied(StatusReply(s.req.id, OK))
  }

  ghost predicate SizeSaid(s: Said, path: string, size: nat) {
    s.req.Stat? && s.req.path == path && s.heard == Replied(AttrsReply(s.req.id, Some(size)))
  }

  /** The answer to a STAT tells a size. */
  ghost predicate TellsSize(s: Said) {
    s.req.Stat? && s.heard.Replied? && s.heard.reply.AttrsReply? && s.heard.reply.id == s.req.id && s.heard.reply.size.Some?
  }

  /** What an upload of `content` to `path` that broke off with this error had sent: nothing or an OPEN; a
      CLOSE, that is at fault only when every byte was stored before it; or a STAT of the path, answered
      without a size or with another one. */
  ghost predicate UploadBroke(part: seq<Said>, path: string, content: Bytes, e: Error) {
    if part == [] then e == OpenFailed
    else
      var last := part[|part| - 1];
      match last.req
      case Open(_, _, _) => e == OpenFailed && |part| == 1
      case Close(_, handle) =>
        e == WriteFailed
        || (e == CloseFailed && last.heard != Replied(StatusReply(last.req.id, OK))
            && 2 <= |part| && Stored(part[1..|part| - 1], handle, content))
      case Stat(_, p) => p == path && e == (if TellsSize(last) then SizeMismatch else StatFailed)
      case _ => false
  }

  ghost predicate RenamedBy(s: Said, from: string, to: string) {
    s.req.Rename? && s.req.from == from && s.req.to == to && s.heard == Replied(StatusReply(s.req.id, OK))
  }

  /** Where a full chunk can begin. */
  predicate Aligned(offset: nat) { offset % WRITE_CHUNK == 0 }

  lemma AlignedNext(offset: nat)
    ensures Aligned(0) && (Aligned(offset) ==> Aligned(offset + WRITE_CHUNK))
  {
  }

  lemma PrefixGrows(data: Bytes, from: nat, to: nat)
    requires from <= to <= |data|
    ensures data[..from] + data[from..to] == data[..to]
  {
  }

  /** An acknowledged WRITE at a chunk boundary, of at most one chunk. */
  ghost predicate WrittenBy(s: Said, handle: Bytes, offset: nat, data: Bytes) {
    && s.req.Write? && s.req.handle == handle && s.req.offset == offset && s.req.data == data
    && s.heard == Replied(StatusReply(s.req.id, OK))
    && Aligned(offset) && 0 < |data| <= WRITE_CHUNK
  }

  /** A WRITE that went out and was not acknowledged. */
  ghost predicate Unacknowledged(s: Said) {
    s.req.Write? && !s.heard.NotSent? && s.heard != Replied(StatusReply(s.req.id, OK))
  }

  ghost predicate WriteRefused(part: seq<Said>) { exists k :: 0 <= k < |part| && Unacknowledged(part[k]) }

  ghost predicate ReadBy(s: Said, handle: Bytes, offset: nat, data: Bytes) {
    && s.req.Read? && s.req.handle == handle && s.req.offset == offset && s.heard.Replied?
    && (s.heard.reply == DataReply(s.req.id, data) || (s.heard.reply == StatusReply(s.req.id, EOF) && data == []))
  }

  // ----- whole conversations ----------------------------------------------------------------

  /** One MKDIR was acknowledged, or the server said FAILURE and a STAT shows the path. */
  ghost predicate Stands(part: seq<Said>, path: string) {
    && 1 <= |part| <= 2 && part[0].req.Mkdir? && part[0].req.path == path
    && if |part| == 1 then part[0].heard == Replied(StatusReply(part[0].req.id, OK))
       else
         && part[0].heard == Replied(StatusReply(part[0].req.id, FAILURE))
         && part[1].req.Stat? && part[1].req.path == path
         && part[1].heard.Replied? && IdOf(part[1].heard.reply) == Some(part[1].req.id) && ShowsPath(part[1].heard.reply)
  }

  /** The acknowledged WRITEs make up exactly `data`, one behind the other. */
  ghost predicate Stored(part: seq<Said>, handle: Bytes, data: Bytes) {
    if part == [] then data == []
    else
      var last := part[|part| - 1];
      && last.req.Write? && |last.req.data| <= |data|
      && var n := |data| - |last.req.data|;
         WrittenBy(last, handle, n, data[n..]) && Stored(part[..|part| - 1], handle, data[..n])
  }

  /** The READs asked for `data` from front to back and were answered by it. */
  ghost predicate Fetched(part: seq<Said>, handle: Bytes, data: Bytes) {
    if part == [] then data == []
    else
      var last := part[|part| - 1];
      exists n :: 0 <= n <= |data| && ReadBy(last, handle, n, data[n..]) && Fetched(part[..|part| - 1], handle, data[..n])
  }

  /** The last READ brought nothing more. */
  ghost predicate Drained(part: seq<Said>, handle: Bytes, size: nat) {
    part != [] && ReadBy(part[|part| - 1], handle, size, [])
  }

  /** The names that READDIRs on the handle brought, in order. */
  ghost function Listed(part: seq<Said>): seq<Entry> {
    if part == [] then []
    else
      var last := part[|part| - 1].heard;
      Listed(part[..|part| - 1]) + if last.Replied? && last.reply.NameReply? then last.reply.entries else []
  }

  /** Every request was a READDIR on the handle, answered under its id. */
  ghost predicate Paged(part: seq<Said>, handle: Bytes) {
    forall k :: 0 <= k < |part| ==>
      part[k].req.Readdir? && part[k].req.handle == handle
      && part[k].heard.Replied? && IdOf(part[k].heard.reply) == Some(part[k].req.id)
  }

  /** OPEN, the WRITEs of all of `data`, and CLOSE, each acknowledged. */
  ghost predicate WholeWritten(part: seq<Said>, path: string, data: Bytes) {
    && 2 <= |part|
    && exists handle :: OpenedAs(part[0], ForWrite, path, handle) && Stored(part[1..|part| - 1], handle, data)
                        && ClosedBy(part[|part| - 1], handle)
  }

  /** What lets `UploadBody` succeed: the whole file, or an empty one under a path the server
      calls missing. */
  ghost predicate BodySaid(part: seq<Said>, path: string, data: Bytes, offset: nat) {
    || (WholeWritten(part, path, data) && offset == |data|)
    || (|part| == 1 && NotThere(part[0], ForWrite, path) && offset == 0)
  }

  /** What lets `WriteFile` succeed; under a path the server calls missing it must acknowledge
      the same requests for the empty handle. */
  ghost predicate FileSaid(part: seq<Said>, path: string, data: Bytes) {
    || WholeWritten(part, path, data)
    || (2 <= |part| && NotThere(part[0], ForWrite, path) && Stored(part[1..|part| - 1], [], data)
        && ClosedBy(part[|part| - 1], []))
  }

  /** The whole file, and then the size the server reports for it. */
  ghost predicate UploadSaid(part: seq<Said>, path: string, data: Bytes) {
    && part != [] && SizeSaid(part[|part| - 1], path, |data|)
    && BodySaid(part[..|part| - 1], path, data, |data|)
  }

  /** OPEN, the READs of all of `data`, and CLOSE. */
  ghost predicate ReadBackSaid(part: seq<Said>, path: string, data: Bytes) {
    && 3 <= |part|
    && exists handle :: OpenedAs(part[0], ForRead, path, handle)
                        && Fetched(part[1..|part| - 1], handle, data) && Drained(part[1..|part| - 1], handle, |data|)
                        && ClosedBy(part[|part| - 1], handle)
  }

  /** OPENDIR, the READDIRs that brought `entries`, and CLOSE; the last READDIR met the end
      unless the reader had enough. */
  ghost predicate ListingSaid(part: seq<Said>, dir: string, entries: seq<Entry>, enough: bool) {
    && 3 <= |part|
    && exists handle :: OpenedAs(part[0], ForListing, dir, handle) && Paged(part[1..|part| - 1], handle)
                        && Listed(part[1..|part| - 1]) == entries
                        && (enough || AtEnd(part[|part| - 2]))
                        && ClosedBy(part[|part| - 1], handle)
  }

  /** The peer said where the file ends. */
  ghost predicate AtEof(s: Said) { s.req.Read? && s.heard == Replied(StatusReply(s.req.id, EOF)) }

  /** So did the last READ before the CLOSE. */
  ghost predicate MetEof(part: seq<Said>) { 2 <= |part| && AtEof(part[|part| - 2]) }

  ghost predicate AtEnd(s: Said) { s.req.Readdir? && s.heard == Replied(StatusReply(s.req.id, EOF)) }

  /** Nothing was asked that changes a file or a directory. */
  ghost predicate OnlyLooks(part: seq<Said>) {
    forall k :: 0 <= k < |part| ==> part[k].req.Readdir? || part[k].req.Close? || (part[k].req.Open? && part[k].req.kind != ForWrite)
  }

  lemma LooksOn(part: seq<Said>, s: Said)
    requires OnlyLooks(part) && (s.req.Readdir? || s.req.Close? || (s.req.Open? && s.req.kind != ForWrite))
    ensures OnlyLooks(part + [s])
  {
  }

  // ----- growing ----------------------------------------------------------------------------

  /** The part of a transcript since it was `from` long grows with it. */
  lemma Since(log: seq<Said>, from: nat, s: Said)
    requires from <= |log|
    ensures (log + [s])[from..] == log[from..] + [s]
  {
  }

  lemma StoredNothing(handle: Bytes, data: Bytes)
    ensures Stored([], handle, data[..0])
  {
  }

  lemma FetchedNothing(handle: Bytes, data: Bytes)
    ensures data == [] ==> Fetched([], handle, data)
  {
  }

  lemma ListedNothing(handle: Bytes)
    ensures Listed([]) == [] && Paged([], handle)
  {
  }

  lemma DrainedSomething(part: seq<Said>, handle: Bytes, size: nat)
    ensures Drained(part, handle, size) ==> part != []
  {
  }

  lemma StoredNext(part: seq<Said>, s: Said, handle: Bytes, data: Bytes, chunk: Bytes)
    requires Stored(part, handle, data) && WrittenBy(s, handle, |data|, chunk)
    ensures Stored(part + [s], handle, data + chunk)
  {
    assert (part + [s])[..|part|] == part;
    assert (data + chunk)[..|data|] == data && (data + chunk)[|data|..] == chunk;
  }

  lemma NothingRefused()
    ensures !WriteRefused([])
  {
  }

  lemma RefusedOnlyWrites(s: Said)
    ensures !s.req.Write? ==> !Unacknowledged(s)
  {
  }

  /** One OPEN, or nothing at all, is no refused WRITE. */
  lemma NoWriteRefused(log: seq<Said>, end: seq<Said>)
    requires end == log || (|end| == |log| + 1 && log <= end && end[|log|].req.Open?)
    ensures !WriteRefused(end[|log|..])
  {
    var part := end[|log|..];
    forall k | 0 <= k < |part| ensures !Unacknowledged(part[k]) {
      assert part[k] == end[|log| + k];
    }
  }

  /** A stored part holds no refused WRITE, so one more request decides. */
  lemma {:induction false} RefusedLast(part: seq<Said>, s: Said, handle: Bytes, data: Bytes)
    requires Stored(part, handle, data)
    ensures !WriteRefused(part) && (WriteRefused(part + [s]) <==> Unacknowledged(s))
  {
    if part != [] {
      var last := part[|part| - 1];
      var n := |data| - |last.req.data|;
      RefusedLast(part[..|part| - 1], last, handle, data[..n]);
      assert part[..|part| - 1] + [last] == part;
    }
    assert (part + [s])[|part|] == s;
    forall k | 0 <= k < |part| ensures !Unacknowledged((part + [s])[k]) {
      assert !Unacknowledged(part[k]);
    }
  }

  /** What comes before and after the WRITEs does not matter. */
  lemma RefusedInside(log: seq<Said>, open: Said, mid: seq<Said>, close: Said)
    requires log + [open] <= mid && !Unacknowledged(open) && !Unacknowledged(close)
    ensures WriteRefused((mid + [close])[|log|..]) <==> WriteRefused(mid[|log| + 1..])
  {
    Framed(log, open, mid, close);
    var part, inner := (mid + [close])[|log|..], mid[|log| + 1..];
    if WriteRefused(part) {
      var k :| 0 <= k < |part| && Unacknowledged(part[k]);
      assert part[1..|part| - 1][k - 1] == part[k];
    }
    if WriteRefused(inner) {
      var k :| 0 <= k < |inner| && Unacknowledged(inner[k]);
      assert part[k + 1] == part[1..|part| - 1][k];
    }
  }

  lemma FetchedNext(part: seq<Said>, s: Said, handle: Bytes, data: Bytes, chunk: Bytes)
    requires Fetched(part, handle, data) && ReadBy(s, handle, |data|, chunk)
    ensures Fetched(part + [s], handle, data + chunk)
    ensures chunk == [] ==> Drained(part + [s], handle, |data|)
  {
    assert (part + [s])[..|part|] == part;
    assert (data + chunk)[..|data|] == data && (data + chunk)[|data|..] == chunk;
  }

  lemma ListedNext(part: seq<Said>, s: Said, handle: Bytes)
    requires Paged(part, handle) && s.req.Readdir? && s.req.handle == handle
    requires s.heard.Replied? && IdOf(s.heard.reply) == Some(s.req.id)
    ensures Paged(part + [s], handle)
    ensures Listed(part + [s]) == Listed(part) + if s.heard.reply.NameReply? then s.heard.reply.entries else []
  {
    assert (part + [s])[..|part|] == part;
  }

  /** An opening, a middle and a closing make one conversation. */
  lemma Framed(log: seq<Said>, open: Said, mid: seq<Said>, close: Said)
    requires log + [open] <= mid
    ensures var part := (mid + [close])[|log|..];
      && 2 <= |part| && part[0] == open && part[|part| - 1] == close
      && part[1..|part| - 1] == mid[|log| + 1..]
  {
    var part := (mid + [close])[|log|..];
    assert part[0] == mid[|log|] == (log + [open])[|log|];
  }

  lemma WholeFramed(log: seq<Said>, open: Said, mid: seq<Said>, close: Said, path: string, data: Bytes, handle: Bytes)
    requires log + [open] <= mid && Stored(mid[|log| + 1..], handle, data)
    requires OpenedAs(open, ForWrite, path, handle) && ClosedBy(close, handle)
    ensures WholeWritten((mid + [close])[|log|..], path, data)
  {
    hide Stored;
    Framed(log, open, mid, close);
  }

  lemma FileFramed(log: seq<Said>, open: Said, mid: seq<Said>, close: Said, path: string, data: Bytes, handle: Bytes)
    requires log + [open] <= mid && Stored(mid[|log| + 1..], handle, data) && ClosedBy(close, handle)
    requires OpenedAs(open, ForWrite, path, handle) || (NotThere(open, ForWrite, path) && handle == [])
    ensures FileSaid((mid + [close])[|log|..], path, data)
  {
    hide Stored;
    Framed(log, open, mid, close);
    if OpenedAs(open, ForWrite, path, handle) {
      WholeFramed(log, open, mid, close, path, data, handle);
    }
  }

  lemma ReadFramed(log: seq<Said>, open: Said, mid: seq<Said>, close: Said, path: string, data: Bytes, handle: Bytes)
    requires log + [open] <= mid && Fetched(mid[|log| + 1..], handle, data) && Drained(mid[|log| + 1..], handle, |data|)
    requires OpenedAs(open, ForRead, path, handle) && ClosedBy(close, handle)
    ensures ReadBackSaid((mid + [close])[|log|..], path, data)
  {
    hide Fetched;
    Framed(log, open, mid, close);
  }

  // ----- what the conversations mean ----------------------------------------------------------

  /** The bytes that acknowledged WRITEs carried, in order. */
  ghost function Sent(part: seq<Said>): Bytes {
    if part == [] then []
    else
      var last := part[|part| - 1];
      Sent(part[..|part| - 1]) +
      if last.req.Write? && last.heard == Replied(StatusReply(last.req.id, OK)) then last.req.data else []
  }

  /** The bytes that DATA replies brought, in order. */
  ghost function Received(part: seq<Said>): Bytes {
    if part == [] then []
    else
      var last := part[|part| - 1].heard;
      Received(part[..|part| - 1]) + if last.Replied? && last.reply.DataReply? then last.reply.data else []
  }

  /** What was stored is what was sent and acknowledged, in as few chunks as will hold it. */
  lemma {:induction false} StoredIsWhatWasSent(part: seq<Said>, handle: Bytes, data: Bytes)
    requires Stored(part, handle, data)
    ensures Sent(part) == data && |part| == (|data| + 65535) / 65536
  {
    if part != [] {
      var n := |data| - |part[|part| - 1].req.data|;
      StoredIsWhatWasSent(part[..|part| - 1], handle, data[..n]);
      assert data[..n] + data[n..] == data;
    }
  }

  /** What was fetched is what the peer sent. */
  lemma {:induction false} FetchedIsWhatCame(part: seq<Said>, handle: Bytes, data: Bytes)
    requires Fetched(part, handle, data)
    ensures Received(part) == data
  {
    if part != [] {
      var init, last := part[..|part| - 1], part[|part| - 1];
      var n :| 0 <= n <= |data| && ReadBy(last, handle, n, data[n..]) && Fetched(init, handle, data[..n]);
      FetchedIsWhatCame(init, handle, data[..n]);
      assert data[..n] + data[n..] == data;
    }
  }
}
