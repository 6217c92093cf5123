# Verification of the SC-Sat1 upload, shell and console services

This project models services of the satellite's on-board software in Dafny and proves what they
promise. `dafny verify dfyconfig.toml` checks all of it.

## What is modelled

**The file-upload service of `cspd`** takes OPEN, DATA and CLOSE commands in CSP packets. Five
session records move between a used and an unused list. A DATA command writes up to 200 bytes at a
given offset of its session's file. Its acknowledgement joins a batch in the session record, and
the batch is sent when it holds twenty entries or when a chunk is not a full one.

- `Wire` holds the packed little-endian formats, and `FileStore` holds files, open streams and what
  a history of writes leaves in a file.
- `Commands` spells out what each command does in the terms of the wire, the sessions and the files:
  codes as numbers, entries field by field, files byte by byte. Its contracts do not go
  through the functions that compute an answer.
- `Upload` is the service as a transition function on the array-and-lists state. Its state is a
  subset type, so its invariant is a proved fact about every state of every run (`HandleValid`).
- `UploadService` and `FileService` are the same service as imperative code: records in an array
  updated in place, lists reassigned, packet buffers overwritten, two queues, the handler's and the
  worker's loops. Each handler is proved to be one step of `Upload`.
- `Sessions` proves that the slots and lists implement a map from session id to open file.
- `Reconstruction`, `Acks`, `Attribution`, `Isolation`, `Closing` and `Downlink` state what holds over
  whole runs: the files, the acknowledgements, whose acknowledgements a reply holds, the packets, the
  independence of sessions, when to close them, and what a listener for one session id makes of all
  that is sent.
  `MixedReply` and `Witnesses` are runs from power-up in which the unexpected happens.
- `Schedule` has the packet handler and the two worker threads as interleaved atomic steps, and
  `EndToEnd` takes the upload theorem through them.

**The shell service** (`Shell`, `ShellStream`) cuts the output of a command into at most fifty
numbered replies of 240 bytes. **The console echo sample** (`LineFramer`) frames interrupt bytes
into lines, queues at most ten of them, and echoes them. **The image catalogue** (`Catalogue`) names,
deletes and tidies pairs of numbered pictures.

What the operating system and libcsp answer is an input: `Env` says for one upload command whether
`fopen`, `fseek` and `fclose` succeed, how many bytes `fwrite` stores, and what the uninitialised
entries of an error reply hold; `Run` says how a shell command's process turned out. The host is
little-endian, and packet buffers hold at least the largest telemetry (249 bytes).

Behaviour that a reader might not expect, and that the model keeps and the theorems state:

- An OPEN whose two `fopen` calls both fail is answered 0 and leaves no session
  (`Sessions.AcceptedOpen`); one without a file name is such an OPEN
  (`Witnesses.AnsweredWithoutSession`).
- The batch of acknowledgements is not cleared by OPEN or CLOSE. What was pending goes out in the
  first reply of the next session of that slot, under that session's id
  (`MixedReply.ReplyMixesSessions`). `Attribution.ReplyAttribution` says which entries of a reply
  those are, and `Attribution.OneSessionOnly` when there are none. The ground can prevent it, session
  by session: nothing is ever pending in a slot that is not in use if and only if every session is
  closed when its full chunks since its OPEN and since its last short one are a multiple of twenty
  (`Closing.WellClosedIffIdle`).
- After a failed seek the packet is consumed a second time (`Attribution.PacketConsumed`). The error
  reply has the form and the id of a batch reply, so after a short chunk the same acknowledgement
  arrives twice (`Witnesses.SentTwice`). What is heard under an id is its batch replies and nothing
  else if and only if every DATA for it finds its session and seeks and, for id 0, no DATA at all is
  malformed (`Downlink.HeardAreBatches`).
- An acknowledgement of an empty DATA at offset 0 cannot be told from padding
  (`Witnesses.ReadsAsEmpty`), and this is the only one (`Acks.GroundRecovers`).
- Two shell outputs get the same replies if and only if, cut to 12000 bytes, they take equally many
  replies and differ at most in trailing zeros, an empty output reading as the text "No output"
  (`ShellStream.SameReplies`).
- A console line can begin with a line terminator. None does if and only if every terminator sent
  directly follows a byte that is none (`LineFramer.CleanIffTidy`). A sender that ends its lines with
  CR LF gets each LF back at the head of its next line (`LineFramer.LineFeedsShift`).

## Model

| member | source | states |
|---|---|---|
| Wire.LongFieldIsLoad32 | zero/meta-csp/recipes-cspd/csp-handler/files/upload.c:284-285 | the 8-byte load of offset and size, cut to 32 bits, is the 4-byte little-endian field, whatever the next four bytes are |
| Wire.CodeRecovered | zero/meta-csp/recipes-cspd/csp-handler/files/upload.c:92 | every code of a C int, put on the wire as 32 unsigned bits, is recovered by reading it as a signed number |
| Wire.ScalarsAreLittleEndian | zero/meta-csp/recipes-cspd/csp-handler/files/upload.c:92-94 | 16- and 32-bit fields are read and written least significant byte first |
| Wire.ParseKinds | zero/meta-csp/recipes-cspd/csp-handler/files/file.c:62-79 | which request a packet is: by its first byte 2, 3 or 4 and by the exact length 67, 211 or 3, refused as that command for any other length, and unknown if empty or with any other first byte |
| Wire.ParseReads | zero/meta-csp/recipes-cspd/csp-handler/files/upload.c:283-286 | where the fields of the three commands are: little-endian id at 1, offset at 3, size at 7, the name up to its NUL from 3, the data from 11 |
| Wire.OpenRoundTrip | zero/meta-csp/recipes-cspd/csp-handler/files/upload.c:249-256 | what the handler reads from an encoded OPEN is the session id and the NUL-free name that were encoded |
| Wire.DataRoundTrip | zero/meta-csp/recipes-cspd/csp-handler/files/upload.c:277-286 | what the handler reads from an encoded DATA is the id, offset and exact payload that were encoded, for every size up to 200 |
| Wire.CloseRoundTrip | zero/meta-csp/recipes-cspd/csp-handler/files/upload.c:326-332 | what the handler reads from an encoded CLOSE is the id that was encoded |
| Wire.TelemetryRoundTrip | zero/meta-csp/recipes-cspd/csp-handler/files/upload.h:14-37 | every packed reply, told apart by its length, decodes to the fields it was built from, all twenty entries included |
| Wire.OpenReplyLayout | zero/meta-csp/recipes-cspd/csp-handler/files/upload.h:14-19 | an OPEN reply is 71 bytes: id byte, little-endian code and session id, the name, zeros |
| Wire.ReplyLayout | zero/meta-csp/recipes-cspd/csp-handler/files/upload.h:27-37 | DATA, CLOSE and error replies are 243, 7 and 5 bytes with little-endian fields in the order of the structs |
| Wire.EntryLayout | zero/meta-csp/recipes-cspd/csp-handler/files/upload.h:21-31 | entry i of a DATA reply has its code, offset and size, little-endian, at bytes 3+12i, 7+12i and 11+12i |
| FileStore.WriteAtPointwise | zero/meta-csp/recipes-cspd/csp-handler/files/upload.c:197-217 | a non-empty positioned write changes exactly its own range, extends the file to the range's end if needed, and reads zero in any gap |
| FileStore.LastWriterWins | zero/meta-csp/recipes-cspd/csp-handler/files/upload.c:197-217 | each byte of a file is that of the last write over it; zero when only a truncation came last; the original byte when no event touched it |
| FileStore.ReplayLength | zero/meta-csp/recipes-cspd/csp-handler/files/upload.c:197-217 | the length of a file is the furthest end of a non-empty write since the last truncation, or the original length if that is greater |
| FileStore.Reconstructed | zero/meta-csp/recipes-cspd/csp-handler/files/upload.c:197-217 | writes that all carry one source and together cover it leave that source and then the old tail, in any order, with any repetition and overlap |
| Upload.HandleValid | zero/meta-csp/recipes-cspd/csp-handler/files/upload.c:59-97 | every command keeps the pool invariant: the lists share out the five slots without duplicates, used ids are distinct, every used slot has its own stream and there are no others, at most 19 entries are pending, each for a full chunk of a session that was found, and all others are zero |
| Upload.SearchAfterRemove | zero/meta-csp/recipes-cspd/csp-handler/files/upload.c:75-79 | releasing a slot takes its session id out of the search and leaves every other id where it was |
| Sessions.PoolRefinesMap | zero/meta-csp/recipes-cspd/csp-handler/files/upload.c:161-319 | one command on the array and the two lists is one command on a map from session id to open file with room for five: same sessions, same files, and the map's result code in the telemetry |
| Sessions.RunRefinesMap | zero/meta-csp/recipes-cspd/csp-handler/files/upload.c:161-319 | the same for every run of commands: the map service run on the same commands has the same sessions and files at the end, and its result code is what answered each command on the way |
| Sessions.OpenVerdicts | zero/meta-csp/recipes-cspd/csp-handler/files/upload.c:166-179 | OPEN answers EEXIST exactly when the id is mapped, EMFILE exactly when it is not and five are, 0 otherwise, and changes nothing unless it answers 0 |
| Commands.PowerUp | zero/meta-csp/recipes-cspd/csp-handler/files/upload.c:343-348 | at power-up: no session, five free slots in order, nothing pending, the files as they were |
| Commands.OpenAnswer | zero/meta-csp/recipes-cspd/csp-handler/files/upload.c:166-194 | the one answer to an OPEN: telemetry id 2, its id and name, code 0xFFFFFFEF if the id is mapped, 0xFFFFFFE8 if it is not and five are, 0 otherwise |
| Commands.OpenRefused | zero/meta-csp/recipes-cspd/csp-handler/files/upload.c:166-179 | a refused OPEN changes nothing at all |
| Commands.OpenRegisters | zero/meta-csp/recipes-cspd/csp-handler/files/upload.c:181-191 | any other OPEN maps its id to the file it names and a stream that was not open, if one of the fopen calls succeeds, and leaves all other sessions |
| Commands.OpenFiles | zero/meta-csp/recipes-cspd/csp-handler/files/upload.c:181-184 | an OPEN empties the file it names exactly when reopening fails and creating succeeds, and changes no other file |
| Commands.OpenTakes | zero/meta-csp/recipes-cspd/csp-handler/files/upload.c:59-73 | an OPEN moves the first free slot to the end of the used list, or of the unused one after two failed fopen calls, stores id and name in it, and keeps its acknowledgements and all other slots |
| Commands.DataRefused | zero/meta-csp/recipes-cspd/csp-handler/files/upload.c:112-131 | a DATA for an unknown id changes nothing; its one answer has telemetry id 3, its id, and a first entry with code 0xFFFFFFFE and its own offset and size, for every offset and size, then 19 entries of leftover memory |
| Commands.DataAcknowledged | zero/meta-csp/recipes-cspd/csp-handler/files/upload.c:299-311 | an accepted DATA adds one entry with the bytes taken (or 0xFFFFFFFF after a failed seek), its offset and its size to what is pending; with fewer than twenty entries and a chunk of 200 bytes its packet is freed, and otherwise it carries them, zero-padded, under its id |
| Commands.DataFailed | zero/meta-csp/recipes-cspd/csp-handler/files/upload.c:314-316 | only a failed seek has a second effect: an error reply under the same id whose first entry has code 0xFFFFFFFF and the offset and size of that DATA |
| Commands.DataWrites | zero/meta-csp/recipes-cspd/csp-handler/files/upload.c:197-217 | byte by byte: the bytes taken stand at the offset in the file of the session, a gap before them is zero, every other byte and every other file is as before |
| Commands.DataKeeps | zero/meta-csp/recipes-cspd/csp-handler/files/upload.c:268-319 | no DATA changes sessions, lists, streams, or any slot but its own |
| Commands.CloseAnswer | zero/meta-csp/recipes-cspd/csp-handler/files/upload.c:219-241 | the one answer to a CLOSE: telemetry id 4, its id, code 0xFFFFFFFE if it is not mapped, otherwise 0, or 0xFFFFFFFF if fclose fails |
| Commands.CloseReleases | zero/meta-csp/recipes-cspd/csp-handler/files/upload.c:231-237 | a CLOSE takes out its session and its stream whatever fclose returns, puts the slot at the end of the unused list, and touches no file and no acknowledgement |
| Commands.MalformedAnswers | zero/meta-csp/recipes-cspd/csp-handler/files/upload.c:243-266 | a command of a wrong length or unknown id changes nothing and has one answer with code 0xFFFFFFEA and zero fields under telemetry id 2, 3, 4 or 255 |
| Commands.FirstAnswers | zero/meta-csp/recipes-cspd/csp-handler/files/upload.c:143-156 | in bytes, from power-up: the packets 4 7 0, 2, and an empty one are answered 4 FE FF FF FF 7 0, then 2 EA FF FF FF 0 0 and 64 zeros, and FF EA FF FF FF |
| Sessions.AcceptedOpen | zero/meta-csp/recipes-cspd/csp-handler/files/upload.c:181-194 | after an OPEN answered 0 the session exists if and only if one of the two fopen calls succeeded, and otherwise nothing has changed |
| Witnesses.AnsweredWithoutSession | zero/meta-csp/recipes-cspd/csp-handler/files/upload.c:181-194 | from power-up, an OPEN without a file name, whose two fopen calls fail: it is answered 0 and there is no session |
| Sessions.DataVerdicts | zero/meta-csp/recipes-cspd/csp-handler/files/upload.c:288-297 | a DATA gets a single reply under its id whose first entry has the code ENOENT if and only if the id is not mapped, so no acknowledgement looks like that answer; then nothing changes, and no DATA changes the sessions |
| Sessions.CloseVerdicts | zero/meta-csp/recipes-cspd/csp-handler/files/upload.c:219-241 | CLOSE answers ENOENT exactly when the id is not mapped, -1 exactly when it is and fclose fails, 0 exactly when it is and fclose succeeds, and the session is gone in every case |
| Sessions.RegistrySize | zero/meta-csp/recipes-cspd/csp-handler/files/upload.c:45-73 | there are as many sessions as used slots |
| Sessions.StreamsAreSessions | zero/meta-csp/recipes-cspd/csp-handler/files/upload.c:181-188 | in every state the open streams are exactly those of the sessions, so none leaks, on failed opens and failed closes as well |
| Sessions.SessionsOwnTheirStreams | zero/meta-csp/recipes-cspd/csp-handler/files/upload.c:190-191 | each session's stream is open on the file it names, and two sessions never share one |
| Reconstruction.FileIsReplay | zero/meta-csp/recipes-cspd/csp-handler/files/upload.c:181-217 | over any run with any other sessions, a file is its old contents with its own truncations and writes replayed |
| Reconstruction.FileIsLastWrites | zero/meta-csp/recipes-cspd/csp-handler/files/upload.c:197-217 | the same byte by byte: last writer wins, original byte otherwise, and the exact length |
| Reconstruction.UploadReconstructs | zero/meta-csp/recipes-cspd/csp-handler/files/upload.c:268-319 | if every DATA that reached a file carried its piece of the source and was stored, and all pieces arrived, the file is the source and then its old tail, whatever the order, repetition, overlap, re-opening and other traffic; a failed fclose loses nothing here |
| Reconstruction.UploadReconstructsAfterReset | zero/meta-csp/recipes-cspd/csp-handler/files/upload.c:181-184 | the same when the file was truncated on the way: the writes since then decide, and nothing older is kept |
| EndToEnd.UploadUnderAnySchedule | zero/meta-csp/recipes-cspd/csp-handler/files/file.c:91-112 | the upload theorem for every interleaving of packet handler and workers, once the file worker is idle |
| EndToEnd.EncodedPieceIsFaithful | zero/meta-csp/recipes-cspd/csp-handler/files/upload.c:283-299 | a piece of the source encoded by the ground and stored in full is received as a DATA that satisfies the upload theorem |
| Acks.AcceptedData | zero/meta-csp/recipes-cspd/csp-handler/files/upload.c:301-311 | an accepted DATA joins the batch and its packet is freed, or completes the batch (twenty entries, or a chunk that is not full) and its packet carries the whole batch, zero-padded, under its own session id |
| Acks.OtherCommand | zero/meta-csp/recipes-cspd/csp-handler/files/upload.c:75-97 | no other command touches the acknowledgements of a slot |
| Acks.AcksConserved | zero/meta-csp/recipes-cspd/csp-handler/files/upload.c:81-97 | per slot and over every run, flushed batches followed by pending entries are the initially pending ones followed by result, offset and size of every accepted DATA, failed seeks included: none lost, repeated or reordered |
| Acks.RepliesCarryBatches | zero/meta-csp/recipes-cspd/csp-handler/files/upload.c:133-144 | each batch reply on the wire is its batch padded with zero entries to twenty |
| Acks.GroundRecovers | zero/meta-csp/recipes-cspd/csp-handler/files/upload.c:133-144 | dropping the zero padding recovers the batch if and only if the DATA that completed it was not an empty one at offset 0 that succeeded |
| Acks.ReadingsConserved | zero/meta-csp/recipes-cspd/csp-handler/files/upload.c:133-144 | conservation slot by slot on the wire: the batch replies of a slot without padding, then its pending entries, are all acknowledgements owed, when no accepted DATA is acknowledged by an all-zero entry |
| Downlink.HeardAreBatches | zero/meta-csp/recipes-cspd/csp-handler/files/upload.c:313-316 | in everything that the service sends, the DATA telemetry under an id is exactly the batch replies of that session, in order, if and only if every DATA for it finds its session and seeks and, for id 0, no DATA at all is malformed |
| Downlink.LogConserved | zero/meta-csp/recipes-cspd/csp-handler/files/upload.c:268-319 | then, if the session opens and closes with nothing pending and sends no empty DATA at offset 0, that telemetry without its padding, and then what is pending, is one acknowledgement for each DATA command of the session, in order, over every run and whatever slots it was given |
| Closing.PendingIsOwnFull | zero/meta-csp/recipes-cspd/csp-handler/files/upload.c:301-311 | while slots not in use have nothing pending, a session has as many entries pending as it had full chunks accepted since its own OPEN and since its last short one, modulo twenty |
| Closing.WellClosedIffIdle | zero/meta-csp/recipes-cspd/csp-handler/files/upload.c:219-241 | from a start with nothing pending and over every run: each session is closed when that count of its own is a multiple of twenty if and only if no slot ever has anything pending while it is not in use |
| Downlink.CleanClosesSuffice | zero/meta-csp/recipes-cspd/csp-handler/files/upload.c:219-241 | such closing makes every session open and close with nothing pending |
| Downlink.GroundBalance | zero/meta-csp/recipes-cspd/csp-handler/files/upload.c:268-341 | with such closing, what a ground has heard under an id that gets no errors and sends no empty DATA at offset 0 is exactly one acknowledgement for each DATA of it, in order, up to the last few of a session still open, whose number is its own count modulo twenty |
| Witnesses.SentTwice | zero/meta-csp/recipes-cspd/csp-handler/files/upload.c:299-316 | from power-up, OPEN of a named file and then a one-byte DATA whose seek fails: two packets under the same id with the same first entry for one command |
| Witnesses.ReadsAsEmpty | zero/meta-csp/recipes-cspd/csp-handler/files/upload.c:133-144 | from power-up, OPEN and then an empty DATA at offset 0: a reply that carries one acknowledgement and reads as none |
| Acks.DownlinkBound | zero/meta-csp/recipes-cspd/csp-handler/files/upload.c:301-311 | at least one reply for each short chunk, and beyond those at most one for every twenty acknowledgements |
| Acks.FullChunks | zero/meta-csp/recipes-cspd/csp-handler/files/upload.c:306-311 | from a clean slot, n full chunks give n/20 replies and leave n%20 pending |
| Acks.UploadWithShortEnd | zero/meta-csp/recipes-cspd/csp-handler/files/upload.c:306-311 | from a clean slot, q full chunks and a short one give exactly q/20+1 replies and leave nothing pending |
| Acks.PendingIsTrailing | zero/meta-csp/recipes-cspd/csp-handler/files/upload.c:301-311 | from a clean slot, over every run, the number of pending entries is the number of full chunks since the last other one, modulo twenty |
| Attribution.PendingSplits | zero/meta-csp/recipes-cspd/csp-handler/files/upload.c:75-97 | the pending entries of a live session, listed with the stream each is owed to, are those carried over at its OPEN, none of them its own, followed by its own |
| Attribution.CarriedComeFirst | zero/meta-csp/recipes-cspd/csp-handler/files/upload.c:75-97 | the carried-over entries are the pending ones at the last OPEN until they are flushed, and they are a prefix of what is pending |
| Attribution.ReplyAttribution | zero/meta-csp/recipes-cspd/csp-handler/files/upload.c:90-94 | a flushed reply names the session of the DATA that completed it; on the wire its first entries are exactly the carried-over ones, owed to other streams, and the rest, at least one, are owed to the stream of that session |
| Attribution.OneSessionOnly | zero/meta-csp/recipes-cspd/csp-handler/files/upload.c:133-144 | a flushed reply is about one session if and only if nothing was carried over into the slot |
| Attribution.IdleSlotKeepsPending | zero/meta-csp/recipes-cspd/csp-handler/files/upload.c:237 | while a slot is not in use its pending entries stay as its last CLOSE left them |
| Attribution.CarriedSinceClose | zero/meta-csp/recipes-cspd/csp-handler/files/upload.c:219-241 | the entries that an OPEN carries over are, entry by entry, those pending when the slot was last closed, however long it was idle |
| Attribution.CloseLeavesNothing | zero/meta-csp/recipes-cspd/csp-handler/files/upload.c:301-311 | a CLOSE leaves nothing behind if and only if the full chunks accepted by the slot since the last short one are a multiple of twenty |
| Attribution.OpenCarries | zero/meta-csp/recipes-cspd/csp-handler/files/upload.c:190-191 | an OPEN carries over that number modulo twenty |
| Attribution.CleanClosesIff | zero/meta-csp/recipes-cspd/csp-handler/files/upload.c:219-241 | a slot has nothing pending whenever it is not in use if and only if each of its CLOSEs comes at such a moment |
| Attribution.CleanClosesCarryNothing | zero/meta-csp/recipes-cspd/csp-handler/files/upload.c:301-311 | if each CLOSE of a slot comes at such a moment, nothing is ever carried over |
| MixedReply.ReplyMixesSessions | zero/meta-csp/recipes-cspd/csp-handler/files/upload.c:190-191 | a run from power-up, for any distinct session ids, whose last reply names one session and holds exactly two entries: the full chunk of the other session, carried over and owed to its stream, and its own short chunk |
| Attribution.PacketConsumed | zero/meta-csp/recipes-cspd/csp-handler/files/upload.c:299-316 | each packet is sent or freed exactly once, except a DATA for a live session whose seek fails: exactly twice, the second time as its error reply |
| Attribution.BuffersBalance | zero/meta-csp/recipes-cspd/csp-handler/files/file.c:45-89 | over a run as many buffers are given back as were handed in if and only if no seek fails |
| Isolation.SessionIsolated | zero/meta-csp/recipes-cspd/csp-handler/files/upload.c:161-241 | among any other sessions that use other files, on the slots and lists, a session and its files end up as in the run of its own commands alone, if each of its OPENs finds the id open or fewer than five sessions |
| Isolation.SameVerdictsIffRoom | zero/meta-csp/recipes-cspd/csp-handler/files/upload.c:174-179 | every command of the session gets the result code it would get alone if and only if each of its OPENs finds the id open or fewer than five sessions |
| Isolation.RepliesIsolated | zero/meta-csp/recipes-cspd/csp-handler/files/upload.c:268-341 | if each OPEN of the session finds the id open or fewer than five sessions, and takes a slot with nothing pending both among the others and in the run of its own commands alone, every packet of the session is answered, or freed, as it would be alone |
| Closing.IsolatedFromPowerUp | zero/meta-csp/recipes-cspd/csp-handler/files/upload.c:268-341 | the same from power-up with conditions on the run among the others only: files of its own, room at each of its OPENs, and every session closed at the right moment |
| Isolation.TwinsAtPowerUp | zero/meta-csp/recipes-cspd/csp-handler/files/upload.c:343-348 | both runs may start at power-up: the service then meets the hypotheses of isolation with itself, for every session and set of files |
| UploadService.Service.OpenUploadFile | zero/meta-csp/recipes-cspd/csp-handler/files/upload.c:161-195 | the code on array and lists computes exactly the OPEN transition, the failed fopen that gives its slot back included |
| UploadService.Service.CloseUploadFile | zero/meta-csp/recipes-cspd/csp-handler/files/upload.c:219-241 | the code computes exactly the CLOSE transition, the release after a failed fclose included |
| UploadService.Service.AcceptData | zero/meta-csp/recipes-cspd/csp-handler/files/upload.c:299-311 | write, stacking and flushing in place compute the slot, file and packet effect of an accepted DATA |
| UploadService.Service.CspFileWork | zero/meta-csp/recipes-cspd/csp-handler/files/file.c:45-89 | the dispatcher on a raw packet is one step of the transition function on the parsed command, and leaves the invariant |
| UploadService.Service.SearchUsedSession | zero/meta-csp/recipes-cspd/csp-handler/files/upload.c:45-57 | the list walk finds the slot that the transition function's search finds |
| UploadService.Service.constructor | zero/meta-csp/recipes-cspd/csp-handler/files/upload.c:343-348 | after initialisation all five zeroed records are on the unused list |
| FileService.FileWork.FileWorkThread | zero/meta-csp/recipes-cspd/csp-handler/files/file.c:91-107 | the worker loop empties the queue, and state and packet effects are those of the queued commands run in order |
| FileService.Handler.HandleCspPacket | zero/meta-csp/recipes-cspd/csp-handler/files/handler.c:25-52 | the accept and read loops append to the two queues, in order, every packet that came to port 13 and to port 10 over all connections end to end, and no other: there is an increasing list of exactly those places |
| FileService.EndToEndOnPort | zero/meta-csp/recipes-cspd/csp-handler/files/handler.c:25-52 | splitting the packets into connections does not matter |
| FileService.QueuedAreFileArrivals | zero/meta-csp/recipes-cspd/csp-handler/files/handler.c:40-42 | if what arrives in a schedule are the packets that the handler reads, the file commands of the schedule are, one for one, the packets it queues for the file worker, as parsed |
| FileService.QueuedAreShellArrivals | zero/meta-csp/recipes-cspd/csp-handler/files/handler.c:34-36 | the same for the jobs of the shell worker |
| Schedule.FirstComeFirstServed | zero/meta-csp/recipes-cspd/csp-handler/files/file.c:91-112 | under every interleaving of pushes, pops and work, finished, held and queued packets are the arrivals in order, and the state is that of the loop over the finished ones |
| Schedule.FileArrivalsAreAll | zero/meta-csp/recipes-cspd/csp-handler/files/handler.c:40-42 | the file commands of a schedule are all its packets with port 13, each parsed from its own bytes, in order of arrival, and nothing else |
| Schedule.ShellArrivalsAreAll | zero/meta-csp/recipes-cspd/csp-handler/files/handler.c:34-36 | the shell jobs of a schedule are all its packets with port 10, in order of arrival, and nothing else |
| Schedule.FileWorkerRuns | zero/meta-csp/recipes-cspd/csp-handler/files/file.c:91-112 | the file worker, under any schedule of handler and workers, has run a prefix of the file commands in order of arrival, and all of them once idle |
| Schedule.ScheduleIndependence | zero/meta-csp/recipes-cspd/csp-handler/files/handler.c:25-52 | two schedules with the same file commands end in the same sessions, files and packet effects |
| Schedule.LoopDrains | zero/meta-csp/recipes-cspd/csp-handler/files/file.c:97-104 | with no more arrivals, as many rounds of the loop as packets are queued leave the worker idle |
| Schedule.FileWorkerDrains | zero/meta-csp/recipes-cspd/csp-handler/files/file.c:91-112 | once file commands stop arriving, the file worker is idle after as many fair rounds (it may pop and it may work, in either order, amid anything else) as it has steps left |
| Schedule.ShellWorkerRuns | zero/meta-csp/recipes-cspd/csp-handler/files/shell.c:204-225 | the shell worker, under any schedule, has sent the numbered reply stream of a prefix of the jobs that arrived for it |
| Schedule.ShellWorkerDrains | zero/meta-csp/recipes-cspd/csp-handler/files/shell.c:204-221 | the shell worker, too, is idle after as many fair rounds as it has steps left |
| Schedule.ShellScheduleIndependence | zero/meta-csp/recipes-cspd/csp-handler/files/handler.c:25-52 | two schedules with the same shell jobs end in the same sequence number and the same packets sent and freed |
| Shell.ShellRoundTrip | zero/meta-csp/recipes-cspd/csp-handler/files/shell.c:49-59 | both kinds of shell telemetry decode to the fields they were built from |
| Shell.ShellLayout | zero/meta-csp/recipes-cspd/csp-handler/files/shell.h:13-22 | shell replies are 249 or 5 bytes: id byte, little-endian code and number, the 240 result bytes |
| Shell.FailureReplies | zero/meta-csp/recipes-cspd/csp-handler/files/shell.c:92-126 | a wrong length, no process, a failed select and a timeout each get one reply with 240 zeros, the command's number and code 0xFFFFFFEA, 0xFFFFFFFB, 0xFFFFFFFF or 0xFFFFFF92 |
| Shell.OutputCount | zero/meta-csp/recipes-cspd/csp-handler/files/shell.c:128-144 | an output takes one reply for every 240 bytes begun, at most fifty |
| Shell.OutputReply | zero/meta-csp/recipes-cspd/csp-handler/files/shell.c:128-144 | reply k to an output has code 0, the command's number, and bytes 240k to 240k+239 of the output, zeros past its end |
| Shell.SilentReply | zero/meta-csp/recipes-cspd/csp-handler/files/shell.c:130-137 | an empty output gets one reply of code 0 with the text "No output" and zeros |
| Shell.JobDone | zero/meta-csp/recipes-cspd/csp-handler/files/shell.c:164-202 | a packet whose first byte is 0 is freed after clones with its replies and takes a number, which goes from 0xFFFFFFFF to 0; any other is sent back as error 255 with code 0xFFFFFFEA and takes none |
| Shell.ShellService.SendOutput | zero/meta-csp/recipes-cspd/csp-handler/files/shell.c:128-144 | the read-and-send loop with its reused buffer sends exactly the fragments of the output, or one "No output" |
| Shell.ShellService.ShellCmd | zero/meta-csp/recipes-cspd/csp-handler/files/shell.c:77-162 | one command sends exactly its replies in clones, frees the packet, and takes one sequence number, modulo 2^32 |
| Shell.ShellService.CspShellWork | zero/meta-csp/recipes-cspd/csp-handler/files/shell.c:164-202 | a packet that is no shell command is itself sent back as an error and takes no sequence number |
| ShellStream.Fragmentation | zero/meta-csp/recipes-cspd/csp-handler/files/shell.c:128-144 | the fragments end to end are the first 12000 bytes of the output and then fewer than 240 zeros, at most fifty of them, and all but the last full |
| ShellStream.ReplyCount | zero/meta-csp/recipes-cspd/csp-handler/files/shell.c:92-152 | every failing path and every empty output gives one reply, and all replies of a command bear its number |
| ShellStream.GroundReads | zero/meta-csp/recipes-cspd/csp-handler/files/shell.c:128-140 | dropping trailing zeros recovers the delivered output if and only if it does not end in a zero byte |
| ShellStream.SameReplies | zero/meta-csp/recipes-cspd/csp-handler/files/shell.c:128-140 | two outputs get the same replies if and only if, each cut to 12000 bytes and an empty one read as "No output", they take the same number of replies and are equal up to trailing zeros |
| ShellStream.SilentLooksLikeText | zero/meta-csp/recipes-cspd/csp-handler/files/shell.c:131-134 | the instance for an empty output and the text "No output" |
| ShellStream.PacketOnce | zero/meta-csp/recipes-cspd/csp-handler/files/shell.c:43-61 | each packet is consumed exactly once, last, after one clone for each reply |
| ShellStream.NumbersWrap | zero/meta-csp/recipes-cspd/csp-handler/files/shell.c:154 | two commands share a sequence number if and only if the number of commands between them is a multiple of 2^32 |
| ShellStream.Demultiplexed | zero/meta-csp/recipes-cspd/csp-handler/files/shell.c:128-154 | over up to 2^32 commands, grouping the stream by number gives back each command's replies, complete and in order |
| ShellStream.OutputRecovered | zero/meta-csp/recipes-cspd/csp-handler/files/shell.c:128-154 | and from its group each command's delivered output, if it does not end in a zero byte and only then |
| ShellStream.NumbersOrdered | zero/meta-csp/recipes-cspd/csp-handler/files/shell.c:90 | from power-up, sequence numbers never decrease along the reply stream |
| LineFramer.FrameFrames | pico/sample/console-echo/src/main.c:43-57 | the byte-wise framing cuts the stream into lines, terminators and an unfinished rest, and loses no byte |
| LineFramer.FramingUnique | pico/sample/console-echo/src/main.c:43-57 | it is the only way to cut the stream into lines, a line being any first byte and then no terminator |
| LineFramer.CleanIffTidy | pico/sample/console-echo/src/main.c:44-55 | for every stream, no line and not the unfinished rest begins with a terminator if and only if every terminator in the stream has a byte that is none directly before it |
| LineFramer.LineFeedsShift | pico/sample/console-echo/src/main.c:44-55 | any number of lines ended with CR LF: each after the first with text is handed on with the LF of the one before at its head, and a last LF begins a line; empty lines before any text are handed on as a CR |
| LineFramer.ByteDoes | pico/sample/console-echo/src/main.c:44-57 | LF and CR end a line in progress, whose text is queued last and dropped exactly when ten wait; any other byte extends the line |
| LineFramer.TextIs | pico/sample/console-echo/src/main.c:43-57 | the text of a line is all of it up to the first NUL, cut to 31 bytes |
| LineFramer.EchoText | pico/sample/console-echo/src/main.c:104-108 | what is written around a message is "Echo: " and CR LF |
| LineFramer.EchoesTheLines | pico/sample/console-echo/src/main.c:43-57 | for every interleaving with the main thread, echoed and then queued messages are, in order, the lines cut to 31 bytes (and at a NUL), without those that found ten messages waiting |
| LineFramer.NothingLost | pico/sample/console-echo/src/main.c:48-52 | no line is lost if and only if, whenever one is finished, the lines finished before it are fewer than ten ahead of the successful gets |
| LineFramer.AnyPartition | pico/sample/console-echo/src/main.c:29-58 | how the bytes are split into interrupts does not matter |
| LineFramer.ConsoleEcho.SerialCallbackHandler | pico/sample/console-echo/src/main.c:29-58 | the interrupt handler on the 32-byte buffer performs the console's events, and its index stays within 0..31 |
| LineFramer.ConsoleEcho.EchoOne | pico/sample/console-echo/src/main.c:104-108 | one round of the main loop takes the oldest message and writes its text up to the NUL |
| Catalogue.CoreOfName | zero/rpios/file.py:10-11 | removing "image" and the extension from a printed name leaves the digits of its number |
| Catalogue.DecDigits | zero/rpios/file.py:18 | numbers are printed in decimal, the last digit last |
| Catalogue.NamesAsPrinted | zero/rpios/file.py:56-57 | the files of picture 12 are image12.jpg and image12.dng |
| Catalogue.NumbersOfCanonical | zero/rpios/file.py:26-27 | the numbers read off a directory are those of the files in it, for names printed by the catalogue |
| Catalogue.NextIsMaxPlusOne | zero/rpios/file.py:13-18 | the next number is 1 in an empty catalogue and otherwise one above the largest number of a file in either directory |
| Catalogue.ImageStore.GetName | zero/rpios/file.py:6-18 | the name handed out is "image1" or "image" and the maximum of both directories plus one |
| Catalogue.ImageStore.CaptureDngJpg | zero/rpios/capture.py:24-29 | a capture adds its JPEG and, unless it is cut, its raw file under the next name: the Capture action of the runs |
| Catalogue.CapturesNeverOverwrite | zero/rpios/capture.py:27-29 | at any point of any run of captures (cut or not), deletes and formats, the next name is free in both directories |
| Catalogue.ImageStore.FormatNumber | zero/rpios/file.py:22-36 | the two removal loops delete exactly the pictures that exist in one directory only, and every file they remove exists |
| Catalogue.FormatKeepsPairs | zero/rpios/file.py:22-36 | after any run, formatting leaves in both directories exactly the old complete pairs, and a second time changes nothing |
| Catalogue.PairsAfter | zero/rpios/file.py:55-67 | a capture adds exactly the new pair to the complete ones unless it is cut, a delete takes out exactly the named one, and formatting loses none |
| Catalogue.DeleteDoes | zero/rpios/file.py:55-67 | deleting a picture that is in both directories takes exactly its number out of each; if it is missing from either, neither directory changes |
| Catalogue.CaptureDoes | zero/rpios/capture.py:24-29 | a capture adds one number, new to both directories, to the JPEGs and, unless it is cut, to the raw files, and nothing else changes |
| Catalogue.ImageStore.DeleteFile | zero/rpios/file.py:55-67 | a complete pair is deleted from both directories, an incomplete one is left alone |

## Left out

- Stdio buffering: a write reaches the file at once, so two sessions open on one file see each other's writes, and a failed `fclose` loses nothing.
- Malformed commands that overrun a fixed buffer (a DATA size over 200, a file name without a NUL): `Command` excludes them.
- Shell command strings, timeouts and the execution of the command: only the outcome of the process is modelled.
- Failure of `csp_buffer_clone`: clones are taken to succeed.
- The fate of a buffer inside libcsp, and the address a reply is sent to: a packet is sent or freed, with the bytes it then holds.
- Locks: pushing to and popping from a queue are atomic steps, which the GQueue calls in the code do not enforce by themselves.
- The endless worker and accept loops: a method runs one until its queue or its list of connections is exhausted, and `Schedule` covers endless interleaving.
- The pointers in the two session lists: they are indices into the record array.
- File identity apart from names (unlinking, renaming, file permissions) beyond the answers of `fopen`.
- Big-endian hosts and 32-bit `unsigned long`.
- `uart_irq_update` and `uart_irq_rx_ready` failures: an interrupt that reads nothing is an empty chunk.
- Image names that the catalogue does not print itself, such as ones with leading zeros, and captures of a single format.
- `Isolation.RepliesIsolated`: asks for nothing pending in the slot that each OPEN takes, because a carried-over batch shows up in the replies; `Closing.IsolatedFromPowerUp` says what the ground does to have that.
- `LineFramer.ConsoleEcho.EchoOne`: does not model waiting, because `k_msgq_get` only returns once there is a message.
- The hardware test, temperature, camera, system and router services, libcsp, drivers, journal output, Yocto recipes and build scripts.
