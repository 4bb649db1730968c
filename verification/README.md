# picopaste: a model and its proofs

picopaste watches for a hotkey, takes the image on the clipboard, uploads it over an SFTP
channel and pastes the remote path. This project models the parts of it that have a protocol in
them and proves what they promise.

- `Deadline` is the upload deadline: any number of threads in `Run` against one watchdog in
  `UploadOverdue`, over seven atomics. An interleaving is a sequence of labels, and the theorems
  speak of all of them.
- `Wire` and `AttrsCodec` are the packet codec, `UploadName` and `ObjectName` the names of uploads.
- `Peer` is the other end of the channel: an SFTP version 3 server as a small state machine (files,
  directories, open handles), and the channel to it. Everything the outside decides, refusals,
  handles, how answers are split, where the channel breaks, and a peer that breaks the protocol
  altogether, comes from one arbitrary script, so what is proved for a channel is proved for every
  server and every failure. The channel keeps the history of all server states, and
  `Confined` speaks of every moment of it.
- `Client` is the SFTP client with all its loops, `Listings`, `Retention` and `DirOps` the listing
  and the retention pass.
- `Transcript` is what a client can know of its peer: the list of its requests and of what came of
  each. Every contract of `Client` and above it has two halves: what the server's files are when the
  peer is honest, and what the transcript shows for any peer at all, also one that lies.
- `Reference` is the client once more as a function: what reading or writing a whole file comes to
  against an honest server when the outside world lets every exchange through. The contracts of
  `Client` and `Settings` say that there the loops do exactly this.
- `Publication` and `Pipeline` are one upload from capture to retention: what may stand on the
  server at any moment, and in what order the desktop is touched.
- `HookJson` and `Settings` edit the remote settings file without ever losing it, as far as it has
  been read whole. `Outcomes` holds two whole runs that show where the promises end.
- `Lifecycle`, `Worker` and `StopHandshake` are the seven-state machine with its backoff, the loop
  that owns the channel, and the exit handshake of the two threads.
- `LogSink` is the rotating log, `Dib` the bitmap reader.

An honest server (`honest`) echoes request ids, answers each request with one frame of at most
64 KB, hands out fresh handles of 1 to 128 bytes, and does to its files what its acknowledgements
say. `refusals` counts the answers that a client cannot build on, an error status or a READ answered
with no bytes; `Willing` says of one call that the peer was honest, alive and gave no such answer
meanwhile, and it is under this condition that a call must succeed.

## Code and comments that disagree

The model follows the code.

- src/core/sftp/packet.hpp:105-106 says that a failed read leaves the cursor unchanged; a string
  whose body is short leaves it behind the length word (src/core/sftp/packet.cpp:166-178).
- src/core/app/upload_pipeline.cpp:322-324 says that no latch can land after retirement. One can,
  exactly when the watchdog had already re-read the generation (line 132) when the flight retired
  (`Deadline.LatchCanFollowRetirement`; `Deadline.LateLatchCanFollowDelivery` is such a run, of a
  flight that was delivered). The late latch harms no later flight.
- src/core/app/hook_install.cpp:370-372 calls the error of a failed roll-back distinct; it is the
  code of a plain write failure too (src/core/sftp/client.cpp:251-253). With a backup a failed write
  ends in `WriteFailed` exactly when the roll-back failed or a WRITE had been answered with anything
  but OK (`Settings.RemoteSettings.WriteVerified`), and in the second case the original may well
  stand again (`Outcomes.RefusedWriteIsRolledBack`).
- src/core/app/hook_install.hpp:114-116 promises a backup of the original before the merged document
  is written. A READ answered with no bytes ends a read as the end of the file does
  (src/core/sftp/client.cpp:808-810), so what is backed up is what had come until then. The backup
  holds the original exactly when the read of it met the end of the file
  (`Settings.RemoteSettings.Install`); `Outcomes.EmptyReadLosesTheSettings` loses the file.
- src/platform/win32/clipboard.cpp:397-399 means to refuse a buffer that is too small, but compares
  the size with the pixels of the rectangle and not with the stride. Every row fits exactly when the
  last one does (`Dib.RowsFitExactly`), which the guard does not ensure (`Dib.GuardIsNotEnough`); it
  does for rows without padding (`Dib.TightRowsFit`).

## Model

| member | source | states |
|---|---|---|
| `Deadline.Reachable` | src/core/app/upload_pipeline.cpp:110-332 | Every interleaving of `Run` callers with one watchdog, step by atomic step, keeps the deadline bookkeeping: one live flight, its generation and start time, latches only of flights that are late. |
| `Deadline.LatchIsLate` | src/core/app/upload_pipeline.cpp:110-138 | A latch of a generation is stored only after the clock has passed that flight's own start plus the timeout; with timeout 0 nothing is ever latched or counted. |
| `Deadline.TimeoutHasGoneBy` | src/core/app/upload_pipeline.cpp:110-138 | No flight is cut short: when one is latched, at least the timeout has gone by on the clock since every moment at which it had not been numbered yet. |
| `Deadline.EachFlightCountedOnce` | src/core/app/upload_pipeline.cpp:135-137 | The expiry counter is the number of latched generations, so no upload is counted twice. |
| `Deadline.LatchedAtMostOnce` | src/core/app/upload_pipeline.cpp:110-138 | A generation that has been latched is never latched again. |
| `Deadline.OnlyItsOwnLatchEndsAFlight` | src/core/app/upload_pipeline.cpp:281-331 | A run returns a timeout only when its own generation was latched, and a flight latched before it retires never returns success. |
| `Deadline.LoadsTellTheEnd` | src/core/app/upload_pipeline.cpp:281-331 | A flight is delivered exactly when five loads of the latch found nothing, and times out exactly when the last load, and only that, found it. |
| `Deadline.AtMostOneFlight` | src/core/app/upload_pipeline.cpp:256-261 | The in-flight flag is set exactly while one caller is past the exchange; there is never a second. |
| `Deadline.LoadsAreExact` | src/core/app/upload_pipeline.hpp:169-174 | The latch checks of a run answer whether its own generation is latched so far, whatever older latch the watchdog may still be storing. |
| `Deadline.LatchCanFollowRetirement` | src/core/app/upload_pipeline.cpp:110-138 | In every reachable state, a flight that has retired without a latch can still be latched exactly when the watchdog has passed its re-read of that generation and is about to store it. |
| `Deadline.ArmedReachable` | src/core/app/upload_pipeline.cpp:266-324 | In every interleaving the armed flag is up exactly while the one flight is between the store of its start time and the end of its retention pass, or until a step has broken. |
| `Deadline.WatchdogFires` | src/core/app/upload_pipeline.cpp:110-138 | The watchdog does fire: one full pass of it, seven steps with any steps of others in between, latches a flight that is past its deadline while it is still in a step, a check or the retention pass. |
| `Deadline.LateLatchCanFollowDelivery` | src/core/app/upload_pipeline.cpp:320-328 | A concrete run in which the watchdog latches a flight after that flight has retired and reported success. |
| `Deadline.GenerationZeroIsUnwatched` | src/core/app/upload_pipeline.cpp:266-269 | After 2^32 - 1 flights, which some run does make, the next one is armed under generation 0 and never watched, so the bound on the number of flights is needed. |
| `UploadName.MatchesUploadName` | src/core/sftp/client.cpp:1125-1135 | Accepts a name exactly when it is a dated, range-checked, lower-case-hex upload name. |
| `ObjectName.NameIsRecognised` | src/core/app/upload_pipeline.cpp:77-96 | Every object name is accepted by the recogniser and its `.tmp-` form is not. |
| `ObjectName.NameReads` | src/core/app/upload_pipeline.cpp:77-96 | Year, month, day, hour, minute and second can be read off a name at their places, and the suffix as its hexadecimal digits. |
| `ObjectName.RecognisedAreDated` | src/core/sftp/client.cpp:1125-1135 | The listing filter accepts exactly the names that show a date, a time and up to 64 hexadecimal digits. |
| `ObjectName.NameInjective` | src/core/app/upload_pipeline.cpp:77-96 | Two object names are equal only for equal dates and equal suffixes. |
| `ObjectName.FactorCancels` | src/core/app/upload_pipeline.cpp:175 | Multiplying by an odd constant modulo 2^32 loses nothing. |
| `ObjectName.XorCancels` | src/core/app/upload_pipeline.cpp:175 | Mixing with one fixed word by exclusive or loses nothing. |
| `ObjectName.SuffixInjective` | src/core/app/upload_pipeline.cpp:175-176 | For one second, different counters give different suffixes. |
| `ObjectName.SuffixBits` | src/core/app/upload_pipeline.cpp:175 | The suffix is, bit by bit, the exclusive or of the two 32-bit products of time and counter. |
| `ObjectName.NamesNeverCollide` | src/core/app/upload_pipeline.cpp:173-178 | Fewer than 2^32 uploads of one pipeline all get different names, in the same second or not. |
| `Wire.Be32RoundTrip` | src/core/sftp/packet.cpp:35-49 | Reading back a written 32-bit field gives the value. |
| `Wire.Be64RoundTrip` | src/core/sftp/packet.cpp:40-54 | Reading back a written 64-bit field gives the value. |
| `Wire.Be32Weights` | src/core/sftp/packet.cpp:35-49 | The most significant of four bytes comes first. |
| `Wire.Be64Weights` | src/core/sftp/packet.cpp:40-54 | The most significant of eight bytes comes first. |
| `Wire.BufferWriter.WriteBytes` | src/core/sftp/packet.cpp:90-100 | Appends the bytes or, when they do not fit or an earlier write failed, nothing, for good. |
| `Wire.BufferWriter.WriteU32` | src/core/sftp/packet.cpp:70-78 | Appends four bytes whose weights, most significant first, make up the value, or fails for good. |
| `Wire.BufferWriter.WriteU64` | src/core/sftp/packet.cpp:80-88 | Appends eight bytes whose weights, most significant first, make up the value, or fails for good. |
| `Wire.BufferWriter.WriteString` | src/core/sftp/packet.cpp:102-107 | Appends the length as four bytes, most significant first, and then the bytes; when only those do not fit, the length word stays. |
| `Wire.BufferWriter.WriteCString` | src/core/sftp/packet.cpp:109-124 | Refuses, rather than cuts, a string that does not end within the limit. |
| `Wire.BufferReader.ReadU32` | src/core/sftp/packet.cpp:139-146 | Takes the value that the next four bytes make up, most significant first, or leaves the cursor when the buffer is short. |
| `Wire.BufferReader.ReadU64` | src/core/sftp/packet.cpp:148-155 | Takes the value that the next eight bytes make up, most significant first, or leaves the cursor when the buffer is short. |
| `Wire.BufferReader.ReadBytes` | src/core/sftp/packet.cpp:157-164 | Takes the next bytes, or leaves the cursor when the buffer is short. |
| `Wire.BufferReader.ReadString` | src/core/sftp/packet.cpp:166-178 | Takes as many bytes as the length word in front of them says; a string whose body is short leaves the cursor behind the length word. |
| `Wire.StringRoundTrip` | src/core/sftp/packet.cpp:102-178 | Reading a written string, whatever follows, gives it back and stops behind it. |
| `Wire.StringSound` | src/core/sftp/packet.cpp:166-178 | A string that reads was written that way. |
| `AttrsCodec.ParseExtendedAttrs` | src/core/sftp/packet.cpp:223-236 | Consumes exactly the announced number of extended pairs, for any number, or rejects. |
| `AttrsCodec.ParseHead` | src/core/sftp/packet.cpp:240-251 | Consumes the size and owner groups that the flags announce. |
| `AttrsCodec.ParseTail` | src/core/sftp/packet.cpp:252-263 | Consumes the permission, time and extended groups that the flags announce. |
| `AttrsCodec.ParseAttrs` | src/core/sftp/packet.cpp:240-264 | Accepts exactly the complete blocks without an unknown flag, consumes exactly the structure, and reports each field as the big-endian word at its place. |
| `AttrsCodec.DecodeReads` | src/core/sftp/packet.cpp:189-264 | What a block of bytes decodes to: it is accepted exactly when it is complete and has no unknown flag, and each field is the big-endian word at the place that the flags before it leave. |
| `AttrsCodec.DecodeInvertsEncode` | src/core/sftp/packet.cpp:189-264 | Decoding an encoded structure followed by any bytes gives it back, for every flag combination and any number of pairs, and leaves those bytes. |
| `AttrsCodec.DecodeSound` | src/core/sftp/packet.cpp:189-264 | Every accepted input is the encoding of what was read, followed by what was left. |
| `AttrsCodec.StrictPrefixRejected` | src/core/sftp/packet.cpp:189-264 | Every strict prefix of an encoding is rejected. |
| `AttrsCodec.PairRoundTrip` | src/core/sftp/packet.cpp:223-236 | One extended pair reads back as written. |
| `Peer.Channel.Send` | src/core/sftp/client.cpp:210-224 | A request changes the server as an honest server would, is lost, or meets a peer that lies; a refused OPEN may have created or emptied the file, and a refused WRITE may have stored a part; whatever the outside world decides. |
| `Peer.Channel.ReadFrame` | src/core/sftp/client.cpp:133-151 | Takes the oldest unread frame; with nothing to read it returns only when the channel is gone. |
| `Peer.ServeKeepsNamed` | src/core/sftp/client.cpp:517-524 | An honest server never hands out an empty handle. |
| `Peer.WriteAtEnd` | src/core/sftp/client.cpp:287-317 | Chunks written one behind the other append. |
| `Peer.ConfinedThen` | src/core/sftp/client.cpp:714-768 | Stretches of a run that touch only some files compose. |
| `Transcript.StoredIsWhatWasSent` | src/core/sftp/client.cpp:287-317 | A conversation of WRITEs that stores a file sent exactly its bytes, each acknowledged, in as few chunks as will hold them. |
| `Transcript.FetchedIsWhatCame` | src/core/sftp/client.cpp:790-818 | A conversation of READs that fetches a file brought exactly its bytes. |
| `Client.LocalFile.Read` | src/core/sftp/client.cpp:102-104 | One local read: some bytes, none only at the end, an interruption or an error. |
| `Client.ReadFull` | src/core/sftp/client.cpp:107-125 | Reads through interruptions until the chunk is full or the file ends, and gives exactly that part of the file. |
| `Client.Client.Exchange` | src/core/sftp/client.cpp:133-224 | One request and one reply, both entered in the transcript: with an honest peer the reply read is the one to this request. |
| `Client.Client.NextId` | src/core/sftp/client.cpp:483 | Ids are consecutive modulo 2^32. |
| `Client.WriteDataComesLast` | src/core/sftp/client.cpp:70-72 | The chunk of a WRITE stands behind the id, the handle, the offset and the length word as the codec lays them down, and a full chunk fits behind any legal handle. |
| `Client.Client.OpenReply` | src/core/sftp/client.cpp:504-535 | What one reply to an OPEN is taken for: a handle of 1 to 128 bytes, a missing path, or an error. |
| `Client.Client.OpenHandle` | src/core/sftp/client.cpp:476-535 | A handle of 1 to 128 bytes that the server has opened, or none; a missing path is no error; on failure nothing is left open. With any peer the answer is taken only under the id of the request, and a path that would not fit sends nothing. |
| `Client.OpenServed` | src/core/sftp/client.cpp:476-535 | What an honest server makes of an OPEN. |
| `Client.Client.CloseHandle` | src/core/sftp/client.cpp:537-554 | On a live channel the handle is released even when the server reports a failure; success exactly on an OK under the id of the request. |
| `Client.Client.SendWriteChunk` | src/core/sftp/client.cpp:231-255 | An acknowledged chunk stands at its offset; a failed one touched no other file; a chunk that does not fit the buffer is not sent. |
| `Client.Client.WriteNext` | src/core/sftp/client.cpp:231-255 | One WRITE behind what already stands: the file and the transcript both grow by exactly the chunk. |
| `Client.Client.StreamWrites` | src/core/sftp/client.cpp:287-317 | Success means the remote file equals the local one and, with any peer, that the acknowledged WRITEs make it up chunk by chunk; at every moment nothing else has changed. |
| `Client.Client.Init` | src/core/sftp/client.cpp:560-585 | Ready exactly when the peer has answered version 3. |
| `Client.Client.Realpath` | src/core/sftp/client.cpp:591-616 | The name the peer gave under the id of the request, never cut to fit. |
| `Client.Client.StatSize` | src/core/sftp/client.cpp:873-894 | The size of the file as it stands; with any peer the size reported under the id of the request. |
| `Client.Client.StatExists` | src/core/sftp/client.cpp:359-389 | Says that a path exists only when it does, and exactly when the answer shows it. |
| `Client.Client.Mkdir` | src/core/sftp/client.cpp:622-663 | After success the path exists; an existing directory is no failure, and is asked about exactly when MKDIR answered FAILURE; no file is touched. |
| `Client.Client.MkdirNext` | src/core/sftp/client.cpp:679-702 | Extends the level reached by one component and creates it, or fails when it would not fit. |
| `Client.Client.MkdirLevel` | src/core/sftp/client.cpp:679-702 | One more level of the path stands, on the server and in the transcript. |
| `Client.Client.MkdirAll` | src/core/sftp/client.cpp:665-708 | After success every level of the path exists, nothing but levels of the path was created, and with any peer each level was acknowledged or shown in turn. |
| `Client.LevelNamesAPrefix` | src/core/sftp/client.cpp:665-708 | The directories created are the path's first 1, 2, ... components. |
| `Client.LevelIs` | src/core/sftp/client.cpp:665-708 | A level is, letter by letter, the root when the path begins there and the names so far with one slash between them. |
| `Client.LastLevelIsThePath` | src/core/sftp/client.cpp:665-708 | For a path without a doubled or a final slash the last level is the path itself. |
| `Client.Client.StreamOpened` | src/core/sftp/client.cpp:739-752 | The WRITEs of an upload behind its OPEN, and the CLOSE, which is sent and releases the handle whatever became of them. |
| `Client.Client.UploadBody` | src/core/sftp/client.cpp:729-752 | OPEN, WRITEs and CLOSE: the handle is closed also when a WRITE fails. |
| `Client.Client.UploadFile` | src/core/sftp/client.cpp:714-768 | Success means the remote file holds exactly the local bytes; with any peer, that the whole upload was acknowledged and its size reported after it. On every path the local file and the remote handle are closed and no other remote file has changed at any moment; when it fails, its error tells whether nothing was opened, a WRITE or the CLOSE broke, no size came or another one. |
| `Client.Client.WriteChunkAt` | src/core/sftp/client.cpp:845-868 | One chunk of a WriteFile: on the server, in the transcript and against `Reference` it adds exactly the next part of the bytes. |
| `Client.Client.WriteChunks` | src/core/sftp/client.cpp:847-866 | The chunks make up exactly the given bytes; under an empty handle they fail. |
| `Client.Client.WriteOpened` | src/core/sftp/client.cpp:834-871 | The WRITEs of a WriteFile behind its OPEN, also under an empty handle, and the CLOSE in any case. |
| `Client.Client.WriteFile` | src/core/sftp/client.cpp:826-871 | Success means the file holds exactly the bytes; `WriteFailed` means exactly that a WRITE was not acknowledged; against a server that answers everything it does what `Reference.FileRun` says. |
| `Client.Client.ReadChunk` | src/core/sftp/client.cpp:396-440 | One READ: a part of the file from the asked offset, its end, or an error, each decided by the answer under its id. |
| `Client.Client.NextChunk` | src/core/sftp/client.cpp:396-440 | The same, behind the bytes fetched before. |
| `Client.Client.ReadChunks` | src/core/sftp/client.cpp:790-818 | However the server splits its replies, the buffer holds the front of the file, and all of it exactly when the last READ was told that the file ends there; ends against every peer. |
| `Client.Client.ReadOpened` | src/core/sftp/client.cpp:784-824 | The READs of a ReadFile behind its OPEN, and the CLOSE in any case; an unacknowledged close is a failure. |
| `Client.Client.ReadFile` | src/core/sftp/client.cpp:770-824 | Returns the front of the file, all of it exactly when the last READ of this conversation met the end of the file; with a peer that is willing exactly the file, or `BufferTooSmall` exactly when it does not fit; with any peer, exactly the bytes it sent between OPEN and an acknowledged CLOSE. |
| `Client.Client.Rename` | src/core/sftp/client.cpp:900-922 | Never overwrites: at every moment the file stands under exactly one of the two names; success exactly on the OK to this request. |
| `Client.Client.Remove` | src/core/sftp/client.cpp:924-946 | After success the path is gone; "already gone" is success; nothing else is touched. |
| `Client.Client.ReadNames` | src/core/sftp/client.cpp:974-1022 | One READDIR: the next entries, the end, or an error, each decided by the answer under its id. |
| `Client.Client.NextNames` | src/core/sftp/client.cpp:974-1022 | The same, behind the entries listed before. |
| `Client.Client.TakeNames` | src/core/sftp/client.cpp:1023-1055 | Keeps the upload names of a frame in order, up to the first that does not fit. |
| `Client.Client.ReadListing` | src/core/sftp/client.cpp:970-1056 | For any split of the directory into frames the listing is the one of its entries in order; with any peer it is the one of the entries it sent, read to the end unless it was truncated. |
| `Client.Client.ListOpened` | src/core/sftp/client.cpp:970-1063 | The listing of an opened directory; the handle is closed on every path. |
| `Client.Client.ListDir` | src/core/sftp/client.cpp:952-1063 | The listing depends only on the directory's entries, not on the frames; a missing directory is no error; the handle is closed, and an unacknowledged close is a failure. |
| `Listings.ScanMeaning` | include/picopaste/sftp/client.hpp:100-105 | The listing is the first 512 upload names in order, truncated exactly when there is a 513th, with the foreign names met before it counted. |
| `Listings.ScanStops` | src/core/sftp/client.cpp:1039-1043 | Nothing behind the entry that did not fit can change the listing. |
| `Listings.ScanKeepsOurs` | include/picopaste/sftp/client.hpp:88-105 | From any peer, every listed name is an upload name and there are at most 512. |
| `Retention.PrecedesIsTotal` | src/core/sftp/dir_ops.cpp:42-59 | The sort order decides between any two entries, one way only. |
| `Retention.PrecedesIsTransitive` | src/core/sftp/dir_ops.cpp:42-59 | The sort order is transitive. |
| `Retention.NameGreaterMeans` | src/core/sftp/dir_ops.cpp:42-52 | Of two names the greater has the larger character where they first differ, or goes on where the other ends. |
| `Retention.InsertKey` | src/core/sftp/dir_ops.cpp:130-137 | Moves one index in place past every entry it is newer than: no entry comes before a newer one afterwards when none did before. |
| `Retention.SortNewestFirst` | src/core/sftp/dir_ops.cpp:129-138 | The array ends as the insertion sort of what it held: the same indices, and no entry before one with a later time, or with the same time and a greater name. |
| `Retention.SortOfDescends` | src/core/sftp/dir_ops.cpp:129-138 | That sort keeps its members and puts no entry before a newer one. |
| `Retention.SortOfIsSorted` | src/core/sftp/dir_ops.cpp:129-138 | That sort is in order and keeps exactly the indices it was given. |
| `Retention.RankOfSorted` | src/core/sftp/dir_ops.cpp:122-143 | The k-th entry of the sort has exactly k dated entries before it. |
| `Retention.RankTellsAge` | src/core/sftp/dir_ops.cpp:122-143 | Of two entries the one with the lower rank is not the older one. |
| `Retention.AddUnique` | src/core/sftp/dir_ops.cpp:65-72 | Each index is in the plan once, and the fixed capacity never drops one. |
| `Retention.RoomForOneMore` | src/core/sftp/dir_ops.cpp:71 | Distinct indices of a full listing cannot overflow the plan. |
| `Retention.PlanByAge` | src/core/sftp/dir_ops.cpp:113-120 | Names exactly the entries with a time that is too long ago. |
| `Retention.OrderNewestFirst` | src/core/sftp/dir_ops.cpp:123-138 | The dated entries, each once, no entry before a newer one. |
| `Retention.PlanByCount` | src/core/sftp/dir_ops.cpp:122-143 | Adds exactly the dated entries that `keep_newest` others precede; what stays is not older than what goes. |
| `Retention.PlanRetention` | src/core/sftp/dir_ops.cpp:99-145 | On a complete listing names exactly the entries that are too old or outranked, each once, never one without a time; of two dated entries of which one stays and the other goes without being too old, the one with the later time stays, or at one time the one with the greater name; the number that stays is the one asked for. On a truncated listing names nothing. |
| `Retention.ReplanRemovesNothing` | src/core/sftp/dir_ops.cpp:99-145 | Planning again for what is left removes nothing. |
| `Retention.PlanGrowsWithTime` | src/core/sftp/dir_ops.cpp:113-120 | As time passes the plan only grows. |
| `Retention.NewestAreKept` | src/core/sftp/dir_ops.cpp:122-143 | With the age rule off `keep_newest` dated entries stay, or all of them, and those are the newest. |
| `DirOps.RemoveOne` | src/core/sftp/dir_ops.cpp:171-188 | One REMOVE of a planned path, the directory and the name with one slash between them, or none when it would not fit; counted as removed exactly when the peer says that it is gone. |
| `DirOps.RemovePlanned` | src/core/sftp/dir_ops.cpp:171-188 | Asks to remove the planned paths and nothing else, whoever the peer is; removed counts the acknowledgements, and with failed adds up to the plan; at every moment files have only disappeared. |
| `DirOps.Cleanup` | src/core/sftp/dir_ops.cpp:151-190 | Touches only the upload names that the plan names, nothing on a truncated or failed listing, and reports removed + failed = planned. |
| `DirOps.CleanupHeard` | src/core/sftp/dir_ops.cpp:151-190 | A pass with any peer is one whole listing followed by REMOVEs of planned paths only. |
| `DirOps.CleanupAsks` | src/core/sftp/dir_ops.cpp:74-91 | With any peer a pass asks to remove `dir/name`, or `dirname` when the directory ends in a slash, where the name is an upload name that it has listed and that the plan names; and it asks for nothing else that changes anything. |
| `Publication.SafelyPublished` | src/core/app/upload_pipeline.cpp:203-205 | Renaming the temporary file is safe when it holds the whole image. |
| `Publication.SafelyPruned` | src/core/app/upload_pipeline.cpp:239-252 | Retention after delivery is safe. |
| `Publication.TempNeverLooksPublished` | src/core/app/upload_pipeline.cpp:182-183 | The temporary path never looks like an upload to a consumer, the final one always does. |
| `Publication.OnlyWholeImagesAppear` | src/core/app/upload_pipeline.cpp:173-213 | At every moment of a run, a file that newly appears under an upload name holds exactly the bytes of the local file, and as many as were captured. |
| `Pipeline.UploadPipeline.CaptureLocal` | src/core/app/upload_pipeline.cpp:140-153 | Succeeds exactly for a capture that holds an image, passes on its error, and a token even when it fails. |
| `Pipeline.UploadPipeline.ResolveRemoteDir` | src/core/app/upload_pipeline.cpp:53-71 | Expands a leading "~/" by the name that the peer gives for its own directory and refuses what would not fit. |
| `Pipeline.UploadPipeline.EnsureRemoteDir` | src/core/app/upload_pipeline.cpp:155-171 | After success every level of the resolved directory exists; no file is touched. |
| `Pipeline.UploadPipeline.TakeName` | src/core/app/upload_pipeline.cpp:175-178 | Each upload takes the next name of the pipeline. |
| `Pipeline.UploadPipeline.UploadSized` | src/core/app/upload_pipeline.cpp:192-202 | Success means the temporary file holds the image, as large as captured; with any peer, that both sizes were reported after the whole upload; a failure is that of the upload, or tells a missing size from another one. |
| `Pipeline.UploadPipeline.MoveWhole` | src/core/app/upload_pipeline.cpp:203-212 | The rename of a temporary file that holds the whole image: safe at every moment, and after success the image stands under its final name alone. |
| `Pipeline.UploadPipeline.UploadAs` | src/core/app/upload_pipeline.cpp:192-212 | The final name appears only by renaming a verified temporary file, with any peer only after both sizes; a failed upload leaves no temporary file unless its removal is refused; paths that would not fit send nothing. |
| `Pipeline.UploadPipeline.UploadAndVerify` | src/core/app/upload_pipeline.cpp:173-213 | The same under a fresh name: success means the whole image stands under a name that was free. |
| `Pipeline.UploadPipeline.Publish` | src/core/app/upload_pipeline.cpp:215-237 | The text, then the chord, then the restore that was asked for; success exactly when text and chord were accepted, and else the error of the one that was not. |
| `Pipeline.UploadPipeline.Prune` | src/core/app/upload_pipeline.cpp:239-252 | A whole retention pass over the directory, unless both rules are off; only uploads disappear, the report counts what the pass removed, and a failure, which only marks the report, sent no more than a listing. |
| `Pipeline.UploadPipeline.Tidy` | src/core/app/upload_pipeline.cpp:317-331 | Retention and the last check of the latch, after a delivery in time: only that check can still fail the run. |
| `Pipeline.UploadPipeline.Prepare` | src/core/app/upload_pipeline.cpp:281-290 | Capture and directory, each followed by a deadline check; nothing remote changes but directories. |
| `Pipeline.UploadPipeline.Deliver` | src/core/app/upload_pipeline.cpp:291-302 | Upload and publish, each followed by a deadline check; nothing is announced unless the image stands. |
| `Pipeline.UploadPipeline.Settle` | src/core/app/upload_pipeline.cpp:291-331 | Delivery, retention, and the last check of the latch: retention follows exactly the deliveries in time and is the last that the peer hears. |
| `Pipeline.UploadPipeline.Conclude` | src/core/app/upload_pipeline.cpp:291-331 | The second half of a run joined to the first: the server's files are safe since the start, and whatever is announced was vouched for since then. |
| `Pipeline.UploadPipeline.Fly` | src/core/app/upload_pipeline.cpp:271-331 | Everything a run does while it holds the flag, and whose error it ends with. |
| `Pipeline.UploadPipeline.Run` | src/core/app/upload_pipeline.cpp:254-332 | A refused trigger touches nothing; the desktop is touched only after capture, mkdir, upload, both size checks and rename succeeded in time, on the server of an honest peer and in the transcript of any; at every moment the server's files are safe; the upload goes by the next name of the pipeline; a delivery in time, and nothing else, is followed by a retention pass over the same directory; a broken step on the desktop gives the run its error; the deadline checks are placed as those of a flight in `Deadline`, and the one that finds the latch is the last and makes the run a timeout. |
| `Pipeline.UploadPipeline.Land` | src/core/app/upload_pipeline.cpp:17-47 | Every exit releases the capture once and only then clears the flag. |
| `Pipeline.RunKeepsOrder` | src/core/app/upload_pipeline.hpp:51-80 | Over a whole run the text is set at most once, the chord sent at most once right after it, the restore comes after the chord, and the release comes once and last, with the flag still set. |
| `Pipeline.VouchedHere` | src/core/app/upload_pipeline.cpp:281-302 | For any peer and every reply sequence, nothing is announced unless the peer has acknowledged the directory, the whole upload, both sizes and the rename, in this order. |
| `Pipeline.PassNamesThePublished` | src/core/app/upload_pipeline.cpp:182-183 | The path by which retention asks for an upload is the path of its publication, exactly when the directory is not given with a slash at its end. |
| `Pipeline.AnnouncedMeans` | src/core/app/upload_pipeline.cpp:215-237 | The text that is set is the path of the upload, which held the whole image on the server of an honest peer at that moment; a restore puts back the capture's own token. |
| `Pipeline.DeadlineDecides` | src/core/app/upload_pipeline.cpp:281-331 | The deadline checks of a run, read as the latch loads of a flight in any interleaving with the watchdog: the run succeeds exactly when that flight is delivered, and then no latch of its own came before it retired; a check that says "too late" found a latch stored no earlier than the timeout after this flight's own start. |
| `Lifecycle.BackoffDelayMs` | src/core/app/lifecycle.cpp:47-62 | The base after a stable link, otherwise the base doubled once per failure and capped. |
| `Lifecycle.RampRises` | src/core/app/lifecycle.cpp:47-62 | The ramp lies between 5 and 60 seconds and never falls. |
| `Lifecycle.RampSteps` | src/core/app/lifecycle.cpp:40-62 | The ramp is 5, 10, 20, 40 and then 60 seconds. |
| `Lifecycle.VerdictTells` | src/core/app/lifecycle.cpp:149-264 | An event that a state has no use for changes nothing, and only a transition changes the state. |
| `Lifecycle.Machine.HandleInit` | src/core/app/lifecycle.cpp:149-158 | Init goes to Connecting or Stopping and nowhere else. |
| `Lifecycle.Machine.HandleConnecting` | src/core/app/lifecycle.cpp:160-175 | Connecting: a success is Ready, a failure is one more attempt and Reconnecting. |
| `Lifecycle.Machine.DegradeNow` | src/core/app/lifecycle.cpp:64-71 | A lost link is measured, a stable one forgives the failures, and the machine shows Degraded. |
| `Lifecycle.Machine.HandleReady` | src/core/app/lifecycle.cpp:177-198 | Ready: a lost channel and a failed upload both degrade. |
| `Lifecycle.Machine.HandleDegraded` | src/core/app/lifecycle.cpp:200-225 | Degraded: a rebuilt channel is Ready, a failed rebuild stays and takes the next delay. |
| `Lifecycle.Machine.HandleReconnecting` | src/core/app/lifecycle.cpp:227-243 | Reconnecting: a failure takes the next delay from the ramp, stable link or not. |
| `Lifecycle.Machine.HandleStopping` | src/core/app/lifecycle.cpp:245-254 | Stopping goes to Stopped only. |
| `Lifecycle.Machine.Enter` | src/core/app/lifecycle.cpp:144-147 | Entering Ready starts its clock. |
| `Lifecycle.Machine.Dispatch` | src/core/app/lifecycle.cpp:149-264 | Each event goes to the handler of the current state, and does there what the specification says. |
| `Lifecycle.Machine.Post` | src/core/app/lifecycle.cpp:106-112 | A machine that has begun takes every event; an unstarted one takes none. |
| `Lifecycle.StableIsHowLongReadyStood` | src/core/app/lifecycle.cpp:64-71 | While the machine waits, the stable time it keeps is how long the last Ready of the event history stood. |
| `Lifecycle.AttemptIsFailures` | src/core/app/lifecycle.cpp:64-71 | The count that sets the delay is the number of failures taken while connecting, degraded or reconnecting since the last Ready that stood three minutes was lost. |
| `Lifecycle.StateOverEveryRun` | src/core/app/lifecycle.cpp:149-264 | The state after any events, told from the events alone: stopping from the first stop on, connecting until something comes of the start, ready while the last connection stands, degraded from its loss to the next retry, reconnecting otherwise. |
| `Lifecycle.CountersOverEveryRun` | src/core/app/lifecycle.cpp:160-243 | The counters count the connections, failures and losses that were taken. |
| `Lifecycle.DelayOverEveryRun` | src/core/app/lifecycle.cpp:40-71 | Over every event sequence, in Degraded and Reconnecting the delay is 5 s if the last Ready of the history stood three minutes and no failure was taken in Reconnecting since, and otherwise 5, 10, 20, 40 or 60 s by the number of failures in the history. |
| `Lifecycle.WaitsAreBounded` | src/core/app/lifecycle.cpp:47-62 | No wait is shorter than 5 s or longer than 60 s. |
| `Lifecycle.DelayNeverDrops` | src/core/app/lifecycle.cpp:64-71 | The delay falls only when a Ready that stood three minutes ends. |
| `Lifecycle.StoppingIsFinal` | src/core/app/lifecycle.cpp:245-264 | Once stopping is entered only stopping and stopped follow, and stopped is final. |
| `Worker.UploadWorker.SpawnChannel` | src/platform/win32/main_win32.cpp:839-865 | A client, an open channel and a published handle exist afterwards exactly when the spawn, the second look at the stop latch and the handshake all went well, and the handshake ran under the deadline. |
| `Worker.UploadWorker.EnsureChannel` | src/platform/win32/main_win32.cpp:801-830 | Afterwards there is a client and the machine is Ready, or there is none and it is Degraded or Reconnecting; the machine is told exactly that; no handshake deadline is left. |
| `Worker.UploadWorker.RunOnce` | src/platform/win32/main_win32.cpp:763-799 | What a hotkey comes to: no run without a channel; the channel survives a run exactly when the outcome does not speak against it, and the machine is told exactly that. |
| `Worker.PressedMeans` | src/platform/win32/main_win32.cpp:763-865 | A hotkey comes to a run exactly when there is a channel, or one can be spawned, with no stop in between, and shakes hands. |
| `Worker.UploadWorker.Digest` | src/platform/win32/main_win32.cpp:780-798 | The channel survives exactly a success, a busy pipeline and the errors of the local clipboard and keystrokes; any other outcome drops it and degrades the machine. |
| `Worker.UploadWorker.WaitForSomething` | src/platform/win32/main_win32.cpp:695-705 | The worker blocks only with the stop latch just seen down, and either with a client and Ready, or without one and with a timeout of 5 to 60 seconds; it waits for the child exactly when that was alive. |
| `Worker.UploadWorker.Act` | src/platform/win32/main_win32.cpp:709-725 | What each way of waking does: which events the machine gets, and that channel and machine keep agreeing. |
| `Worker.UploadWorker.Turn` | src/platform/win32/main_win32.cpp:694-726 | One turn: a wakeup is acted on, once, unless the stop latch is up after it or the wait failed, and then nothing happens. |
| `Worker.UploadWorker.Begin` | src/platform/win32/main_win32.cpp:672-692 | The first connection leaves them in agreement. |
| `Worker.UploadWorker.Loop` | src/platform/win32/main_win32.cpp:672-727 | For any number of turns and any outside world, each time the worker blocks channel, machine and timeout agree; every wakeup but the last is acted on, the machine has been told exactly what they came to and each hotkey made one attempt at a run, in this order; and the loop ends only on the stop latch or a failed wait. |
| `Worker.UploadWorker.Stop` | src/platform/win32/main_win32.cpp:618-633 | The worker ends without a channel or a published handle and with the machine stopped. |
| `StopHandshake.Reachable` | src/platform/win32/main_win32.cpp:612-708 | Every interleaving of the exit sequence with the worker keeps handle, latch and event in step. |
| `StopHandshake.NeverLeftBlocked` | src/platform/win32/main_win32.cpp:612-657 | Once the main thread has latched and signalled the stop and ended the child it saw, the worker is never blocked on an event nobody has set or in a read from a live child. |
| `StopHandshake.WorkerEnds` | src/platform/win32/main_win32.cpp:694-708 | From then on the worker can always take a step until it has ended, and every step brings it nearer. |
| `StopHandshake.JoinCompletes` | src/platform/win32/main_win32.cpp:1343-1346 | The two threads alone take the main thread past the join. |
| `StopHandshake.NobodyEndsUnasked` | src/platform/win32/main_win32.cpp:694-708 | The worker ends only on a latched stop, and the main thread is past the join only when the worker has ended. |
| `StopHandshake.WaitEndsBy` | src/platform/win32/main_win32.cpp:695-707 | A wait ends by the event, which it uses up, by the death of the child it holds, or by the timeout that it has exactly without a client. |
| `StopHandshake.RepliesEndARun` | src/platform/win32/main_win32.cpp:763-780 | A run whose replies all come and are good ends after them, over the same channel. |
| `StopHandshake.NoticedDeathIsDropped` | src/platform/win32/main_win32.cpp:712-719 | A worker woken by the death of its child, or in a read from a dead child, closes the channel and is back in its loop with no client. |
| `StopHandshake.WakeupIsServed` | src/platform/win32/main_win32.cpp:694-723 | Any other wakeup leads to a run over the standing channel, to a new channel for that run when there is none, or to a new channel after a timeout. |
| `StopHandshake.AbortBeforeLatchCanBlock` | src/platform/win32/main_win32.cpp:606-611 | With the exit sequence in the other order, abort before latch, a run from the start leaves the worker reading from a child that nobody ends. |
| `StopHandshake.DeadChildCanGoUnnoticed` | src/platform/win32/main_win32.cpp:694-705 | A wait without handle and without timeout happens exactly when the child of a live client had died before it was sampled. |
| `Settings.IsBlank` | src/core/app/hook_install.cpp:84-91 | Blank means white space only. |
| `Settings.BackupsAreApart` | src/core/app/hook_install.cpp:73-82 | A backup is named after the settings and, in decimal, after the moment; two moments have two names. |
| `Settings.RemoteSettings.ReadRemote` | src/core/app/hook_install.cpp:299-319 | The whole file or an error, and a front part of it exactly when the last READ of this read was answered with no bytes; a missing file is empty; a cap of 2^32 or more is refused unread. |
| `Settings.RemoteSettings.WriteRemote` | src/core/app/hook_install.cpp:321-328 | Success means the file holds exactly the bytes, and `WriteFailed` exactly that a WRITE was not acknowledged; 2^32 bytes or more are refused unsent. |
| `Settings.RemoteSettings.VerifyBytes` | src/core/app/hook_install.cpp:330-346 | Succeeds only when the bytes sent back are the expected ones: those are the whole file exactly when the read met its end, and against a willing peer success means equality. |
| `Settings.RemoteSettings.BackupOriginal` | src/core/app/hook_install.cpp:348-364 | A backup, stamped with the time, counts only when it was written and has been read back equal; only the backup path is touched. |
| `Settings.RemoteSettings.RollBack` | src/core/app/hook_install.cpp:380-385 | A roll-back counts only when the original was written and has been read back equal. |
| `Settings.RemoteSettings.WriteAndCheck` | src/core/app/hook_install.cpp:366-378 | Success means the payload stands and has been read back; `WriteFailed` means exactly that a WRITE of it was not acknowledged. |
| `Settings.RemoteSettings.WriteVerified` | src/core/app/hook_install.cpp:366-389 | Success means the payload stands, written and read back. With a backup, a failed write ends in `WriteFailed` exactly when the roll-back failed or a WRITE of the payload was not acknowledged, and the original stands again whenever the roll-back went well, whatever the code. |
| `Settings.RemoteSettings.WriteWithBackup` | src/core/app/hook_install.cpp:391-413 | At every moment the original stands at its path or byte for byte in the backup. |
| `Settings.RemoteSettings.BackupThenWrite` | src/core/app/hook_install.cpp:391-413 | The same when a backup is wanted, and the plain verified write when none is. |
| `Settings.RemoteSettings.BuildInstall` | src/core/app/hook_install.cpp:181-220 | The merged text of an install, nothing to do, or a refusal of what is not understood. |
| `Settings.RemoteSettings.BuildRemove` | src/core/app/hook_install.cpp:225-289 | The text without our hooks, nothing to do, or a refusal. |
| `Settings.RemoteSettings.InstallTextMeans` | src/core/app/hook_install.cpp:181-220 | The text of an install is that of the document read, or of an empty one, with one group behind those of the event: the matcher and one command hook. |
| `Settings.RemoteSettings.InstallTextWhen` | src/core/app/hook_install.cpp:181-220 | An install is refused exactly without an event or our marker in the command, for text that is no object, or for a document of another shape; and there is nothing to do exactly when the event mentions the marker. |
| `Settings.RemoteSettings.RemoveTextMeans` | src/core/app/hook_install.cpp:225-289 | The text of a removal is that of the document read, without the hooks whose command holds the marker given, and with all others. |
| `Settings.RemoteSettings.RemoveTextWhen` | src/core/app/hook_install.cpp:225-289 | When a removal is refused, and when it has something to do. |
| `Settings.RemoteSettings.Rewrite` | src/core/app/hook_install.cpp:491-505 | Nothing to do touches nothing; otherwise back up what is worth keeping and write. |
| `Settings.RemoteSettings.Finish` | src/core/app/hook_install.cpp:487-506 | From the read on: never lose the original, and carry the edit out or say why not. |
| `Settings.RemoteSettings.FinishEdit` | src/core/app/hook_install.cpp:487-506 | `Finish` behind the read of the original: the original is kept when that read was whole, and a successful edit leaves a backup that holds it exactly then. |
| `Settings.RemoteSettings.Install` | src/core/app/hook_install.cpp:473-510 | A non-blank settings file that the read met the end of is never lost at any moment, and unless the roll-back failed an error means that it is as it was. Success means the merged text stands, or nothing was to be done; a successful change leaves a backup that holds the original exactly when the read of it met its end. With any peer, success means that the text it sent was merged, backed up and written, each copy read back. |
| `Settings.RemoteSettings.Remove` | src/core/app/hook_install.cpp:512-545 | The same for taking the hooks out. |
| `Settings.RemoteSettings.ReplaceBy` | src/core/app/hook_install.cpp:567-582 | An edit whose new text is given. |
| `Settings.RemoteSettings.Restore` | src/core/app/hook_install.cpp:547-583 | The same for putting a backup back, which must be a JSON object; with an honest peer that refuses nothing it succeeds. |
| `Settings.EditHeard` | src/core/app/hook_install.cpp:332-413 | With any peer an edit succeeds only on one conversation: read the original, write and read back its backup, write and read back the merged text. |
| `Settings.BackupTells` | src/core/app/hook_install.cpp:391-413 | The backup of an edit holds the original exactly when the read of the original met the end of the file. |
| `Outcomes.RefusedWriteIsRolledBack` | src/core/app/hook_install.cpp:366-389 | A whole run against an honest server that refuses one WRITE: the result is `WriteFailed`, and the original stands. |
| `Outcomes.EmptyReadLosesTheSettings` | src/core/app/hook_install.cpp:473-510 | A whole run against an honest server that answers one READ with no bytes: the install succeeds, without a backup, and the settings are gone. |
| `HookJson.EventGroups` | src/core/app/hook_install.cpp:150-174 | Finds or creates the groups of an event, and nothing when the document has another shape. |
| `HookJson.ContainsMeans` | src/core/app/hook_install.cpp:145-147 | A string holds the marker when it is some text, the marker, and some text. |
| `HookJson.Install` | src/core/app/hook_install.cpp:196-218 | The installed document, nothing when the marker is already mentioned, or a refusal. |
| `HookJson.InstallAppendsOneGroup` | src/core/app/hook_install.cpp:204-213 | Install appends one group to its event and leaves every other member, event and group as it was. |
| `HookJson.InstallAppendsTheHook` | src/core/app/hook_install.cpp:196-218 | On the document itself: the event array ends in a group with the matcher and a single hook of type `command` with the command. |
| `HookJson.InstallTwiceIsNoOp` | src/core/app/hook_install.cpp:200-202 | A second install changes nothing. |
| `HookJson.KeepHooks` | src/core/app/hook_install.cpp:255-271 | Keeps exactly the hooks without the marker, in order. |
| `HookJson.OthersAre` | src/core/app/hook_install.cpp:255-271 | The hooks that stay are those without a command that holds the marker. |
| `HookJson.KeepGroups` | src/core/app/hook_install.cpp:249-279 | Keeps the groups, less the ones left without hooks, in order. |
| `HookJson.Remove` | src/core/app/hook_install.cpp:225-289 | Cleans every event array and reports a change exactly when one of our hooks was there. |
| `HookJson.RemoveIsExact` | src/core/app/hook_install.cpp:245-281 | Remove deletes exactly the hooks whose command contains the marker and keeps the order of the others. |
| `HookJson.RemoveKeepsTheRest` | src/core/app/hook_install.cpp:222-224 | Other members, non-array events and groups without a hook list stay as they were. |
| `HookJson.RemoveTwiceIsNoOp` | src/core/app/hook_install.cpp:222-289 | A second remove changes nothing. |
| `HookJson.RemoveAfterInstall` | src/core/app/hook_install.cpp:181-289 | Remove after install gives the document back, with only `hooks` and the event array created, exactly when no group held our hooks or an empty hook list before. |
| `LogSink.LogFile.Open` | src/core/log/log_sink.cpp:81-112 | A fresh log starts bounded, and a bounded one continues as it was; the threshold is at least 1. |
| `LogSink.LogFile.Resume` | src/core/log/log_sink.cpp:103-112 | The size of the live file is picked up, and a file that is already too large is rotated at once. |
| `LogSink.LogFile.Write` | src/core/log/log_sink.cpp:121-143 | After every line the files are still the end of all that was written, the live file is below the threshold and as long as the sink believes, and there is one rotation exactly when the threshold is reached. A failed write or flush may leave a part of the line, and the files are still the end of all that was written. |
| `LogSink.LogFile.WriteBatch` | src/core/log/log_sink.cpp:145-154 | The same after any sequence of lines, up to the first that fails. |
| `LogSink.LogFile.Rotate` | src/core/log/log_sink.cpp:156-192 | Every generation moves up by one, the oldest goes, and the live file starts empty; it fails exactly when the new file cannot be opened, and then the sink is closed. |
| `LogSink.LogFile.Shift` | src/core/log/log_sink.cpp:162-183 | The generations move up by one in descending order, and the live file becomes the first. |
| `LogSink.RotationIsBounded` | src/core/log/log_sink.cpp:156-192 | What a rotation drops is the oldest part, and sizes and number of generations stay in bounds. |
| `LogSink.CountsExactly` | src/core/log/log_sink.cpp:137-139 | The 32-bit size never wraps exactly when the threshold leaves room for one line. |
| `Dib.DescribeChannel` | src/platform/win32/clipboard.cpp:112-137 | Accepts exactly the masks that are one run of ones, and finds the run. |
| `Dib.RunIsUnique` | src/platform/win32/clipboard.cpp:112-137 | A mask is a run of ones in one way only. |
| `Dib.FieldsAreLittleEndian` | src/platform/win32/clipboard.cpp:88-105 | The fields of a block are little-endian, the signed ones two's complement. |
| `Dib.ParseDibHeader` | src/platform/win32/clipboard.cpp:158-179 | Accepts exactly the headers that fit and have sides, and reads their fields. |
| `Dib.ReadMasks` | src/platform/win32/clipboard.cpp:204-229 | The red, green and blue masks stand at 40, 44 and 48, alpha at 52 from the V4 header on; refused when they would lie behind the block. |
| `Dib.DescribeMasks` | src/platform/win32/clipboard.cpp:182-195 | Accepts exactly the mask sets whose every channel is a run. |
| `Dib.ResolveDibLayout` | src/platform/win32/clipboard.cpp:199-277 | Accepts exactly the decodable layouts; palette, channels and pixel offset are theirs, red, green and blue by the masks of the block or by the usual ones. |
| `Dib.SupportedLayouts` | src/platform/win32/clipboard.cpp:231-277 | Which depths are decoded, and which of them may bring their own masks. |
| `Dib.ParseDib` | src/platform/win32/clipboard.cpp:279-300 | Accepts exactly the blocks that hold their whole image. For ordinary sizes rows, palette and pixels lie inside the block, at the offsets of the format; a block with masks has red, green, blue and alpha where it says; without masks a 32-bit pixel is its three stored bytes, and a 16-bit one three fields of five bits, blue lowest, each scaled to the nearest byte. |
| `Dib.StrideIsLeast` | src/platform/win32/clipboard.cpp:292-294 | Rows are the least multiple of four bytes that holds their bits. |
| `Dib.SizesFit` | src/platform/win32/clipboard.cpp:292-297 | With 31-bit sides no sum of an accepted block has wrapped. |
| `Dib.RowInside` | src/platform/win32/clipboard.cpp:401-405 | Every row of the image lies inside the block. |
| `Dib.ColumnInside` | src/platform/win32/clipboard.cpp:412-436 | Every pixel lies inside its row, at every depth. |
| `Dib.PixelShowsChannels` | src/platform/win32/clipboard.cpp:412-442 | A pixel of direct colour shows blue, green and red in this order, and then alpha. |
| `Dib.ExtractReadsTheField` | src/platform/win32/clipboard.cpp:313-315 | Masking and shifting reads the channel's bits from their place. |
| `Dib.IndicesMakeTheByte` | src/platform/win32/clipboard.cpp:448-459 | Palette indices are packed from the top of the byte down: together they make up the byte. |
| `Dib.WholeByte` | src/platform/win32/clipboard.cpp:302-315 | A channel of one whole byte reads that byte of the pixel. |
| `Dib.ColoursAsStored` | src/platform/win32/clipboard.cpp:412-442 | The colours of 24-bit pixels, palette entries and 32-bit pixels with the usual masks come out as their bytes stand, with the alpha byte when there is an alpha mask; an index behind the palette is black. |
| `Dib.PlainPixels` | src/platform/win32/clipboard.cpp:412-442 | Pixels of a block without masks are read from their bytes, as stored in 32 bits and scaled from five bits in 16. |
| `Dib.ScaleIsNearest` | src/platform/win32/clipboard.cpp:302-311 | A narrow channel becomes the nearest byte: zero stays zero and full becomes full. |
| `Dib.DrawRow` | src/platform/win32/clipboard.cpp:401-443 | Draws one row of pixels and nothing else into the buffer. |
| `Dib.DrawRows` | src/platform/win32/clipboard.cpp:401-443 | Every row of the rectangle is drawn at the caller's stride, and nothing else changes. |
| `Dib.CopyPixels` | src/platform/win32/clipboard.cpp:381-445 | Draws exactly the rows of a rectangle inside the image, or refuses and draws nothing; a buffer that the guard lets through although the last row does not fit at its stride is told apart. |
| `Dib.RowsFitExactly` | src/platform/win32/clipboard.cpp:397-404 | Of a rectangle that passes the guard, every row lies in the buffer exactly when the last one does. |
| `Dib.TightRowsFit` | src/platform/win32/clipboard.cpp:397-399 | With a stride of exactly one row the guard is enough. |
| `Dib.GuardIsNotEnough` | src/platform/win32/clipboard.cpp:397-399 | One pixel over two rows with a stride of 100 passes the guard with a buffer of 8 bytes; its second row would end at 104. |
| `Dib.DrawnShowsRow` | src/platform/win32/clipboard.cpp:401-443 | Each row of the rectangle ends at its place in the buffer, undisturbed by the others. |
| `Dib.DrawnShowsPixel` | src/platform/win32/clipboard.cpp:401-443 | Each pixel of the rectangle ends at its column and row of the buffer. |
| `Dib.CopyIsACrop` | src/platform/win32/clipboard.cpp:381-445 | Copying a rectangle gives exactly that crop of what copying the whole image gives. |
| `Dib.BottomUpIsReversed` | src/platform/win32/clipboard.cpp:402-404 | A bottom-up block is the same image upside down. |
| `Dib.StoredRows` | src/platform/win32/clipboard.cpp:401-404 | The stored rows show the image from the top when it is top-down, and from the bottom otherwise. |

## Left out

- Weak memory: `Deadline` and `StopHandshake` take each atomic access as one sequentially consistent
  step; the code uses release and acquire, which promise less.
- More than one concurrent watchdog: an older latch could overwrite a newer one; the code is written
  for one.
- Deadline.Reachable: speaks of runs with fewer than 2^32 flights, because the 32-bit generation
  wraps to 0, which means "nothing in flight" (`Deadline.GenerationZeroIsUnwatched`).
- Pipeline.UploadPipeline.Run: models one run after another, with the deadline checks answered by an
  arbitrary script; `Pipeline.DeadlineDecides` reads those answers as the loads of one flight of
  `Deadline`, but the two machines do not take their steps together.
- Replies as bytes: the client reads messages, and a frame that does not parse is one message
  (`Broken`); the codec is proved on bytes in `Wire` and `AttrsCodec`, but the two are not joined.
- A directory listing that a server changes while it is being read: the entries are those of the
  moment of OPENDIR.
- Client.Client.ReadListing: a peer that has broken the protocol answers an arbitrary but finite
  number of further exchanges; the program would list for as long as such a peer sends foreign names.
- Client.LocalFile.Read: the local file does not change while it is read, and a read is interrupted
  finitely often.
- Null pointers and file names with embedded zero bytes.
- Paths are strings: two spellings of one path, such as with one slash and with two, are two paths.
- The 32-bit wrap of the lifecycle's attempt counter, of its event counters and of the client's
  listing counters: the model counts without bound. Request ids do wrap.
- ObjectName.NamesNeverCollide: takes `gmtime` as a function with fields in range and four-digit
  years; a longer year prints more digits.
- HookJson.InstallTwiceIsNoOp: JSON text is not modelled; parsing and printing are parameters, and
  the search for the marker in the printed text is assumed to find a marker that stands inside some
  string of the value.
- Settings.RemoteSettings.Install: the original is kept only when the read of it met the end of the
  file, because the client takes a READ answered with no bytes for that end; and no other writer
  touches the file meanwhile.
- LogSink.LogFile.Write: after the first file operation that failed it promises only that the files
  are the end of what was written, and for that one line only; and it needs a threshold that leaves
  room for one line below 2^32 (`LogSink.CountsExactly`). The line is already formatted.
- Dib.CopyPixels: stops where the program would write behind the caller's buffer (`Overrun`); what
  such a write does is not modelled.
- Dib.ParseDib: that nothing lies outside the block is stated for blocks under 2^31 bytes with a
  positive width field, a height above the least integer and at most 256 colours; elsewhere 32- and
  64-bit sums may wrap.
- Worker.UploadWorker.Loop: the outcome of the pipeline, of the spawn and of the handshake are
  answers of the outside world, and the messages to the tray are only counted.
- Byte order: `Dib` reads its fields as a little-endian machine does, the only kind this code runs on.
- Pipes, processes, job objects, the tray, hotkeys, COM, the image encoder, keystrokes and the
  clipboard itself: calls into the operating system.
- Configuration files, the log ring, argument parsing and hotkey parsing: nothing here depends on them.
- newosp and picojson are not part of this model: a transition sets the state and runs the entry of
  its target, containers are bounded sequences, JSON is a value.
