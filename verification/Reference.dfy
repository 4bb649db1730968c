/** The client as a function: what a whole-file read or write comes to against an honest server
    that the outside world lets answer everything. */
module Reference {
  import opened Types
  import opened Peer
  import opened Transcript

  const READ_CHUNK: nat := 61440

  /** The server, the next of the outside world's decisions, the next request id, and how many
      answers so far could not be built on. */
  datatype Turn = Turn(fs: Fs, tick: nat, id: nat, refusals: nat)

  type Script = nat -> Decision

  /** One request under the next id, and its reply. */
  function Ask(script: Script, t: Turn, req: Request): (Turn, Reply) {
    var (fs, reply) := Serve(t.fs, req, script(t.tick));
    (Turn(fs, t.tick + 1, t.id, t.refusals + if Thwarted(t.fs, req, reply) then 1 else 0), reply)
  }

  function Numbered(t: Turn): Turn { t.(id := (t.id + 1) % U32) }

  function OpenRun(script: Script, t: Turn, kind: OpenKind, path: string): (Turn, Status, Bytes, bool) {
    var (u, reply) := Ask(script, Numbered(t), Open(t.id, kind, path));
    match reply
    case HandleReply(_, handle) => (u, Ok, handle, false)
    case StatusReply(_, code) => if code == NO_SUCH_FILE then (u, Ok, [], true) else (u, Err(OpenFailed), [], false)
    case _ => (u, Err(SftpProtocolError), [], false)
  }

  function CloseRun(script: Script, t: Turn, handle: Bytes): (Turn, Status) {
    var (u, reply) := Ask(script, Numbered(t), Close(t.id, handle));
    (u, if reply == StatusReply(t.id, OK) then Ok else Err(CloseFailed))
  }

  function WriteRun(script: Script, t: Turn, handle: Bytes, offset: nat, data: Bytes): (Turn, Status) {
    var (u, reply) := Ask(script, Numbered(t), Write(t.id, handle, offset, data));
    (u, if reply == StatusReply(t.id, OK) then Ok else Err(WriteFailed))
  }

  /** The WRITEs of what is left of `data` from `pos` on. */
  function WritesRun(script: Script, t: Turn, handle: Bytes, data: Bytes, pos: nat): (Turn, Status)
    decreases |data| - pos
  {
    if |data| <= pos then (t, Ok)
    else
      var n := Min(|data| - pos, WRITE_CHUNK);
      var (u, st) := WriteRun(script, t, handle, pos, data[pos..pos + n]);
      if st.Err? then (u, st) else WritesRun(script, u, handle, data, pos + n)
  }

  lemma WritesGoOn(script: Script, t: Turn, handle: Bytes, data: Bytes, pos: nat)
    requires pos < |data|
    ensures var n := Min(|data| - pos, WRITE_CHUNK);
      var (u, st) := WriteRun(script, t, handle, pos, data[pos..pos + n]);
      WritesRun(script, t, handle, data, pos) == if st.Err? then (u, st) else WritesRun(script, u, handle, data, pos + n)
  {
    hide WriteRun;
  }

  lemma WritesEnd(script: Script, t: Turn, handle: Bytes, data: Bytes)
    ensures WritesRun(script, t, handle, data, |data|) == (t, Ok)
  {
  }

  /** The WRITEs, and a CLOSE in any case. */
  function WrittenRun(script: Script, t: Turn, handle: Bytes, data: Bytes): (Turn, Status) {
    var (v, wrote) := WritesRun(script, t, handle, data, 0);
    var (w, closed) := CloseRun(script, v, handle);
    (w, if wrote.Err? then wrote else closed)
  }

  /** A whole file written. */
  function FileRun(script: Script, t: Turn, path: string, data: Bytes): (Turn, Status) {
    var (u, st, handle, missing) := OpenRun(script, t, ForWrite, path);
    if st.Err? then (u, st) else WrittenRun(script, u, handle, data)
  }

  function ReadRun(script: Script, t: Turn, handle: Bytes, offset: nat, ask: nat): (Turn, Status, Bytes, bool) {
    var (u, reply) := Ask(script, Numbered(t), Read(t.id, handle, offset, ask));
    match reply
    case DataReply(_, data) => (u, Ok, data, false)
    case StatusReply(_, code) => if code == EOF then (u, Ok, [], true) else (u, Err(OpenFailed), [], false)
    case _ => (u, Err(SftpProtocolError), [], false)
  }

  /** The READs that follow on `got`. */
  function ReadsRun(script: Script, t: Turn, handle: Bytes, capacity: nat, got: Bytes): (r: (Turn, Status, Bytes))
    requires |got| <= capacity
    ensures |r.2| <= capacity
    decreases capacity - |got|
  {
    var ask := if |got| == capacity then 1 else Min(capacity - |got|, READ_CHUNK);
    var (u, st, data, eof) := ReadRun(script, t, handle, |got|, ask);
    if st.Err? || eof || data == [] then (u, st, got)
    else if capacity - |got| < |data| then (u, Err(BufferTooSmall), got)
    else ReadsRun(script, u, handle, capacity, got + data)
  }

  lemma ReadsGoOn(script: Script, t: Turn, handle: Bytes, capacity: nat, got: Bytes)
    requires |got| <= capacity
    ensures var ask := if |got| == capacity then 1 else Min(capacity - |got|, READ_CHUNK);
      var (u, st, data, eof) := ReadRun(script, t, handle, |got|, ask);
      ReadsRun(script, t, handle, capacity, got) ==
        if st.Err? || eof || data == [] then (u, st, got)
        else if capacity - |got| < |data| then (u, Err(BufferTooSmall), got)
        else ReadsRun(script, u, handle, capacity, got + data)
  {
    hide ReadRun;
  }

  /** The READs, and a CLOSE in any case. */
  function FetchedRun(script: Script, t: Turn, handle: Bytes, capacity: nat): (Turn, Status, Bytes) {
    var (v, read, got) := ReadsRun(script, t, handle, capacity, []);
    var (w, closed) := CloseRun(script, v, handle);
    (w, if read.Err? then read else closed, got)
  }

  /** A whole file read; a missing file has nothing to read. */
  function FetchRun(script: Script, t: Turn, path: string, capacity: nat): (Turn, Status, Bytes, bool) {
    var (u, st, handle, missing) := OpenRun(script, t, ForRead, path);
    if st.Err? || missing then (u, st, [], missing)
    else
      var (w, read, got) := FetchedRun(script, u, handle, capacity);
      (w, read, got, false)
  }
}
