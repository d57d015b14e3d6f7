# Verified models: TCP chat, word censor, worker manager, CSV to SQL

Dafny models of four programs of the repository, with proofs of what they promise.

* **TCP chat** (`SENIOR/LabWork_6`). Clients and a single-threaded server exchange length-prefixed frames over TCP.
  - `Bytes`, `ChatProto`, `Framing`: C strings, the 16-byte header in network byte order (appendix B of RFC 791), frames, and an incremental reader against a one-shot decoder.
  - `Io`: `read_full`, `write_full` and `send_frame` over system calls that move any number of bytes, are interrupted, or fail.
  - `ServerSpec`: every handler as a function on a state made of the slot table, the next id, all chat lines so far and the I/O trace. `Server` is the program itself: a class with the arrays `clients` and `history`, updated in place; each method is proved equal to its function (`History` for the ring, `Listing` for the user list, `PollPass` for the poll loop).
  - `ServerRuns`, `ServerEvents`, `Conversations`, `Roster`: invariants and laws of whole runs; `RoundLaws` carries them to the loop of `main`; `Airing` says which lines are sent when sends may fail; `PollHole` shows a run in which slots and poll entries come apart, `PollWait` when that makes the server wait, `PassEffect` what a pass does for each client otherwise. `Descriptors` follows which descriptors are open. `Answers` and `Replies` read the server's texts.
  - `Client`, `ClientChunking`, `HandshakeCuts`, `Commands`: the receive buffer with its `memmove`, the handshake, the reading loop, when chunking matters to either, and the line editor; `Typing` goes from a typed line to what everybody sees.
* **Word censor** (`VLADOS/Lab_3`). `CensorSpec`, `CensorLaws` and `CensorWords` say what the scan-and-replace loops compute; `Censor` is `censor_text` and `load_dict` on buffers allocated at exactly the needed size.
* **Manager and workers** (`VLADOS/Lab_5`). `Manager` is the concurrent protocol as interleaved steps: each lock, flag access, creation, end and join of a thread is one step. `ManagerLoop` says what the monitoring achieves, `ManagerRuns` builds runs to each end.
* **CSV to SQL** (`SENIOR/LabWork_2`). `Csv` is the awk row loop and an independent reader of SQL value lists.

How a run of the server is modelled. A *move* is one accept, one `recv`, one frame taken from a buffer, one rejection of a bad header, or one removal; an *event* of the poll loop is a sequence of moves (`ServerEvents.EventIsRun`), a pass a sequence of events (`RoundLaws.PassIsEvents`), and so any number of passes a run of moves (`RoundLaws.RoundsAreRun`). The kernel appears as a trace of what happened on the descriptors and a set `failing` of the sends that do not succeed; "sends succeed" means that set is empty. `accept` returns a descriptor that is not open already, and `recv` between one byte and the room offered. Runs are arbitrary sequences of such steps; nothing bounds their length.

Where the code falls short of what one would expect, the exact condition is proved:

* Client rosters kept from `[JOIN]`/`[PART]` notices are right if and only if no nick of a client closed for a bad header is outstanding (`Roster.RosterOverAnyRun`, `Roster.SilentCloseMisleads`).
* Poll entries and slots stay paired if and only if the slot filled by `accept` lies above every used slot (`PollPass.PairingExact`, `PollPass.ShiftAfterHole`). Otherwise the new client is served with the next one's entry; four rounds from the empty server suffice to close a new client because another hung up (`PollHole.NewcomerTakesNextEntry`, `PollHole.HoleIsReachable`).
  The same condition decides whether a pass can block in `recv` (`PollWait.NeverWaitsExactly`).
* The handshake succeeds however the server's bytes are cut if and only if they are a greeting and nothing more, or begin with one that ends in a frame filling the receive buffer; a broadcast that arrives with the JOIN_ACK makes it fail (`HandshakeCuts.EveryCutShakesExactly`, `HandshakeCuts.SpokenToWhileJoining`).
* `censor_text` replaces exactly the whole words of the dictionary, for every text, if and only if there is at most one word, or the replacement is a single alphanumeric run, or none of its runs is a word after the first (`CensorLaws.CensorIsMaskExactly`; `CensorLaws.ReplacementCensoredAgain` is a failing case). The scan for a word ends if and only if the word is not empty (`CensorSpec.LoopEndsExactly`); a dictionary line of exactly 255 bytes loads an empty word (`Censor.FullLineLeavesEmptyWord`). The test left of a match reads inserted text for some text if and only if the word starts with no letter or digit and the replacement is not empty (`CensorSpec.NeverReadsInserted`).
* The nick of a joining client is the trimmed body if and only if that contains no NUL (`Conversations.JoinAccepted`).
* After a bad header the client does not disconnect, whatever its message says: it reads on with the next chunk (`Client.BadHeaderForgets`). What it prints is independent of the chunking if and only if the stream has no bad header or nothing follows the first one (`ClientChunking.CutsAgreeExactly`).
* A text that ends in a carriage return is not sent by typing `/w target text`; it is by typing a NUL after it (`Commands.PlainlyTyped`, `Commands.EveryWhisperCanBeTyped`).
* The user list is read rightly by whoever splits it into lines if and only if no nick in it contains a line feed (`Replies.ListAnswered`).
* A manager run that gets past the start halts if and only if no restart failed; otherwise it joins a thread twice (`Manager.EndsOfRuns`, `Manager.BreaksWhenStale`). Both ends are reachable (`ManagerRuns.HaltIsReachable`, `ManagerRuns.BreakIsReachable`).

`dafny verify dfyconfig.toml` checks the whole project.

## Model

| member | source | states |
|---|---|---|
| ChatProto.HeaderRoundTrip | SENIOR/LabWork_6/chat_proto.h:34-46 | decoding an encoded header gives the header back, for all four 32-bit words |
| ChatProto.WireRoundTrip | SENIOR/LabWork_6/chat_proto.h:34-46 | encoding a decoded header gives the same 16 bytes, so the encoding is a bijection |
| ChatProto.NetworkOrder | SENIOR/LabWork_6/chat_proto.h:34-46 | numbers compare as their four bytes on the wire do |
| ChatProto.HeaderOnTheWire | SENIOR/LabWork_6/chat_proto.h:34-46 | the sixteen bytes of any header: "CHAT", version 1, the kind, the length, most significant byte first |
| Framing.PeekEncoded | SENIOR/LabWork_6/server.c:50-66 | a frame written by `send_frame` is recognised at the front of any stream it begins |
| Framing.PeekSound | SENIOR/LabWork_6/server.c:263-276 | a frame found at the front of a buffer, re-encoded, is exactly the bytes it was read from |
| Framing.PeekStable | SENIOR/LabWork_6/server.c:263-276 | more bytes never change a verdict (frame or bad header) already reached |
| Framing.ShortLeavesRoom | SENIOR/LabWork_6/server.c:272-275 | a buffer without a complete frame at its front is never full |
| Framing.ParseEncoded | SENIOR/LabWork_6/server.c:262-301 | decoding undoes encoding of any frame list, whatever bytes follow |
| Framing.ParseSound | SENIOR/LabWork_6/server.c:262-301 | the decoded frames re-encoded plus the bytes left are the stream, and what is left starts with no complete frame |
| Framing.ParseUnique | SENIOR/LabWork_6/server.c:262-301 | the decoding is the only split into frames and a remainder without a complete frame |
| Framing.ParseSplit | SENIOR/LabWork_6/server.c:262-301 | decoding in two parts, unread bytes carried over, is decoding at once |
| Framing.ChunkingIrrelevant | SENIOR/LabWork_6/server.c:262-301 | for every chunking: frames, bytes kept and closed-or-not are those of one-shot decoding of the consumed bytes |
| Framing.RoomBetweenChunks | SENIOR/LabWork_6/server.c:441-454 | between chunks an open reader has room for at least one byte |
| Framing.FramesSurviveTransport | SENIOR/LabWork_6/server.c:262-301 | the encoding of any frame list, received in any chunking, is read as that list with an empty buffer |
| Io.Descriptor.WriteFull | SENIOR/LabWork_6/io.c:27-43 | writes as much of the buffer as the calls before the first error move; returns the count exactly when that is all of it, else -1 |
| Io.Descriptor.ReadFull | SENIOR/LabWork_6/io.c:6-25 | takes exactly what the calls made move, in order and none lost; the first failed call made ends it with -1; a short count only if the last call made moved nothing |
| Io.Descriptor.SendFrame | SENIOR/LabWork_6/server.c:50-66 | exactly how much of the encoded frame is written under any schedule of system calls, and that it succeeds iff this is all of it |
| Io.Descriptor.SendAll | SENIOR/LabWork_6/client.c:19-35 | frames sent one after another leave exactly the bytes up to the first failure on the wire, and succeed iff these are the whole encoding |
| Io.SentIsReceived | SENIOR/LabWork_6/client.c:19-35 | whatever sends fail and however the bytes arrive, the reader gets a prefix of the frames sent, and all of them iff every send succeeded |
| Server.ChatServer.HistPush | SENIOR/LabWork_6/server.c:39-48 | the ring then shows the last 32 of all lines so far with the new one, cut to 2048 bytes, at the end |
| History.PushRefines | SENIOR/LabWork_6/server.c:39-48 | storing into the ring and moving its start refines "append, then look at the last 32" |
| Server.ChatServer.SendFrame | SENIOR/LabWork_6/server.c:50-66 | one send attempt is traced and its outcome returned |
| Server.ChatServer.Close | SENIOR/LabWork_6/server.c:68-74 | the slot becomes empty and its descriptor is closed |
| Server.ChatServer.FindByNick | SENIOR/LabWork_6/server.c:76-86 | the lowest joined slot with the nick, or none |
| Server.ChatServer.IsNickTaken | SENIOR/LabWork_6/server.c:88-101 | true exactly when another joined slot has the nick |
| Server.ChatServer.BroadcastNotify | SENIOR/LabWork_6/server.c:103-119 | one NOTIFY for each joined slot but the skipped one, in slot order |
| Server.ChatServer.SendHistoryTo | SENIOR/LabWork_6/server.c:121-133 | HISTORY frames for the last 32 lines, oldest first, up to the first failed send |
| Server.ChatServer.Join | SENIOR/LabWork_6/server.c:135-173 | the loop-and-array code equals the join function, error cases included |
| Server.ChatServer.GreetJoined | SENIOR/LabWork_6/server.c:162-172 | acknowledgement, history and notice as the welcome function says, stopping if the acknowledgement fails |
| Server.ChatServer.Trim | SENIOR/LabWork_6/server.c:144-147 | strips exactly the line ends at the end |
| Server.ChatServer.Broadcast | SENIOR/LabWork_6/server.c:175-195 | records the line and sends the same bytes to every joined slot, or nothing if the sender has not joined |
| Server.ChatServer.Private | SENIOR/LabWork_6/server.c:197-238 | equals the private-message function in all five outcomes |
| Server.ChatServer.Listing | SENIOR/LabWork_6/server.c:240-257 | the buffer loop produces the longest-prefix text of the user list |
| Server.ChatServer.List | SENIOR/LabWork_6/server.c:240-260 | sends that text to the asking client |
| Server.ChatServer.TakeOne | SENIOR/LabWork_6/server.c:276-299 | one turn: dispatch the frame, then drop its bytes |
| Server.ChatServer.Switch | SENIOR/LabWork_6/server.c:277-297 | each message kind reaches its handler, unknown kinds are ignored |
| Server.ChatServer.ProcessMessage | SENIOR/LabWork_6/server.c:262-301 | the loop equals recursive processing of the buffer |
| Server.ChatServer.Add | SENIOR/LabWork_6/server.c:303-316 | the lowest free slot gets the descriptor and the next id modulo 2^32; -1 and no change if all are used |
| Server.ChatServer.AcceptClient | SENIOR/LabWork_6/server.c:409-423 | adds the client or writes header and text of "Server full", looks at neither result, and closes |
| Conversations.TurnedAwayIsTold | SENIOR/LabWork_6/server.c:411-422 | a connection without a free slot is closed with the table untouched and nobody told; if the writes succeed it got exactly the frame ERROR "Server full" |
| Server.ChatServer.Remove | SENIOR/LabWork_6/server.c:318-326 | notice to the others if it had joined, then the slot is emptied |
| Server.ChatServer.Serve | SENIOR/LabWork_6/server.c:434-455 | the scan body for one slot |
| Server.ChatServer.ScanSlots | SENIOR/LabWork_6/server.c:426-456 | the scan meets slots and poll entries position by position, even as slots are removed |
| Server.ChatServer.PollOnce | SENIOR/LabWork_6/server.c:376-456 | one pass: entries built before the accept, slots scanned after it |
| Server.ChatServer.constructor | SENIOR/LabWork_6/server.c:364-366 | the server starts with 64 empty slots, id 1 and no history |
| ServerRuns.StartInv | SENIOR/LabWork_6/server.c:364-366 | the initial state satisfies the invariant |
| ServerRuns.DispatchKeepsTable | SENIOR/LabWork_6/server.c:135-160 | no handler makes two joined nicks equal or a nick too long |
| ServerRuns.MoveKeepsInv | SENIOR/LabWork_6/server.c:262-326 | every move keeps the invariant: table, streams, ids, chat lines, valid frames |
| ServerRuns.RunKeepsInv | SENIOR/LabWork_6/server.c:376-457 | hence every reachable state has it; in particular every frame ever sent has a body of at most 2048 bytes |
| ServerRuns.OrdinalInjective | SENIOR/LabWork_6/server.c:303-315 | two descriptors never have the same accept rank |
| ServerEvents.EventIsRun | SENIOR/LabWork_6/server.c:401-455 | each poll-loop event is a legal sequence of moves with the same effect |
| ServerEvents.ProcessIsRun | SENIOR/LabWork_6/server.c:262-301 | `process_message` is a sequence of takes, then possibly a rejection |
| ServerEvents.ProcessDecodes | SENIOR/LabWork_6/server.c:262-301 | frames dispatched, bytes kept and closed-or-not are the one-shot decoding of all bytes received on the connection |
| ServerEvents.EventKeepsInv | SENIOR/LabWork_6/server.c:401-455 | every event keeps the invariant and leaves no complete frame waiting |
| ServerEvents.RoomForRecv | SENIOR/LabWork_6/server.c:441-442 | `recv` is always offered at least one byte |
| ServerEvents.OverflowUnreachable | SENIOR/LabWork_6/server.c:452-454 | the removal of a client with a full buffer never happens |
| ServerEvents.TableLaw | SENIOR/LabWork_6/server.c:68-100 | used iff open descriptor, joined implies used, distinct descriptors, distinct joined nicks, nicks C strings of at most 31 bytes, no full buffer |
| ServerEvents.TableAfterAnyRun | SENIOR/LabWork_6/server.c:303-326 | the invariant and with it this law hold after any run of events from the empty server |
| ServerEvents.StreamsAfterAnyRun | SENIOR/LabWork_6/server.c:441-448 | after any run, for every client: dispatched frames and buffer are the one-shot decoding of what arrived on its connection |
| ServerEvents.FramesReachServer | SENIOR/LabWork_6/server.c:262-301 | a client that has sent a list of frames has had exactly these dispatched, in order, with an empty buffer |
| ServerEvents.DataEvent | SENIOR/LabWork_6/server.c:440-455 | a received chunk closes the connection exactly when the bytes so far decode to a bad header |
| ServerEvents.IdsFollowAcceptOrder | SENIOR/LabWork_6/server.c:303-315 | live ids coincide iff accept ranks agree modulo 2^32; below 2^32 accepts they are the ranks: distinct, and ordered as the accepts were |
| Descriptors.OpenAfterAnyPasses | SENIOR/LabWork_6/server.c:68-74 | after any passes, whatever sends fail: a descriptor is open iff it is that of a used slot, and none was ever read, written or closed when not open |
| Descriptors.RunLeaksNothing | SENIOR/LabWork_6/server.c:303-326 | the same over any run of moves |
| Conversations.FanOutDelivers | SENIOR/LabWork_6/server.c:108-118 | a fan-out delivers one frame to each joined client not skipped and nothing to others |
| Answers.FanOutInSlotOrder | SENIOR/LabWork_6/server.c:108-118 | whatever sends fail, a fan-out tries the joined clients but one, each once, in slot order |
| Conversations.NothingIsCut | SENIOR/LabWork_6/server.c:162-185 | with the nick invariant `snprintf` cuts none of the server's lines |
| Conversations.JoinDelivers | SENIOR/LabWork_6/server.c:158-171 | a joiner gets JOIN_ACK then exactly the last 32 lines as HISTORY; each other joined client gets the notice; nobody else anything |
| Conversations.JoinAccepted | SENIOR/LabWork_6/server.c:135-160 | a JOIN succeeds iff its body has 1 to 31 bytes, is not only line ends and its C string is not taken; the nick is the trimmed body iff that has no NUL, and empty iff the body starts with one; otherwise nothing changes |
| Conversations.EmptyNickJoins | SENIOR/LabWork_6/server.c:142-160 | a body starting with NUL joins with the empty nick, which no private message can name |
| Replies.NewcomerIsTold | SENIOR/LabWork_6/server.c:162-165 | a reader of the acknowledgement finds the id and the nick the new client has |
| Answers.JoinAnswered | SENIOR/LabWork_6/server.c:135-160 | every JOIN: the reason for which it is refused, word for word and to its sender only, or that the sender is joined under the nick in its body |
| Answers.UnacknowledgedJoin | SENIOR/LabWork_6/server.c:162-171 | if the acknowledgement cannot be sent the client is joined, and neither history nor notice is sent |
| Answers.HistoryUntilFailure | SENIOR/LabWork_6/server.c:121-133 | the history is sent line by line, oldest first, up to and with the first line that cannot be sent |
| Conversations.HistoryOverAnyRun | SENIOR/LabWork_6/server.c:121-133 | over any run with successful sends: what a joined client was shown is an unbroken tail of everything said, at least min(n, 32) lines |
| Conversations.HistoryFromStart | SENIOR/LabWork_6/server.c:179-191 | the same from the empty server on |
| Conversations.BroadcastReachesAll | SENIOR/LabWork_6/server.c:175-195 | "nick: text", cut to 2048 bytes, is added to what was said and delivered once to every joined client and to nobody else |
| Conversations.HeardExactly | SENIOR/LabWork_6/server.c:262-301 | which clients hear something of a dispatched frame, exactly, and that only a successful JOIN changes a slot and only a joined client's BROADCAST the history |
| Conversations.HolderIsUnique | SENIOR/LabWork_6/server.c:76-86 | the lookup finds the one joined slot with the nick |
| Conversations.WhisperReachesOne | SENIOR/LabWork_6/server.c:219-236 | one PRIVATE to the holder of the nick, one echo to the sender if different, nothing to anyone else |
| Conversations.WhisperToNobody | SENIOR/LabWork_6/server.c:219-224 | an unknown target gives an ERROR to the sender only |
| Answers.PrivateAnswered | SENIOR/LabWork_6/server.c:197-224 | every PRIVATE that is refused: the reason, word for word, to its sender only |
| Answers.RemovalHeard | SENIOR/LabWork_6/server.c:318-326 | a removal is told as "[PART] nick" to every other joined client if the client had joined, and to nobody else |
| Answers.SilentMoves | SENIOR/LabWork_6/server.c:268-271 | accepting, receiving and closing for a bad header are heard by no client |
| Answers.NoEchoOfLostWhisper | SENIOR/LabWork_6/server.c:231-236 | a private message that cannot be sent to its target is not echoed |
| Roster.MoveAnnounces | SENIOR/LabWork_6/server.c:103-119 | what each move makes a continuously joined client hear |
| Roster.MoveTracks | SENIOR/LabWork_6/server.c:158-171 | applying that to joined set plus silently closed nicks gives the same after the move |
| Roster.RosterOverAnyRun | SENIOR/LabWork_6/server.c:318-326 | a client that stays joined and applies the notices holds the joined set plus outstanding silently closed nicks; exactly the joined set iff there are none |
| Roster.NothingStale | SENIOR/LabWork_6/server.c:268-271 | without a silent close of a joined client none is outstanding |
| Roster.SilentCloseMisleads | SENIOR/LabWork_6/server.c:268-271 | sixteen zero bytes from a joined client make every other one list it wrongly |
| PollPass.PairingExact | SENIOR/LabWork_6/server.c:382-435 | slots keep their own poll entries iff no used slot lies above the one just filled |
| PollPass.ShiftAfterHole | SENIOR/LabWork_6/server.c:382-435 | otherwise the new slot takes the next slot's entry, each later slot the following one's, and the last slot is left out |
| PollPass.PassServesOwn | SENIOR/LabWork_6/server.c:377-456 | in the good case a pass serves exactly the slots used at its beginning, each with its own descriptor's readiness |
| PassEffect.PassServesEverybody | SENIOR/LabWork_6/server.c:376-456 | in the good case a pass gives every client what its own descriptor calls for: gone after a failure or end of stream, untouched without news, else what it sent received and decoded, dropped iff a bad header came |
| PassEffect.NewcomerWaits | SENIOR/LabWork_6/server.c:401-435 | and the new client is not served before the next pass |
| PollPass.PassKeepsInv | SENIOR/LabWork_6/server.c:377-456 | a pass keeps the invariant however the entries are paired |
| PollPass.ServerAfterAnyPasses | SENIOR/LabWork_6/server.c:376-457 | after any number of passes, shifted ones included: the table law, room in every buffer, and one-shot decoding for every client |
| PollHole.NewcomerTakesNextEntry | SENIOR/LabWork_6/server.c:382-435 | a client accepted below a used slot is served in the same pass with what poll reported for the next used slot's client |
| PollHole.HoleIsReachable | SENIOR/LabWork_6/server.c:376-456 | legal rounds from the empty server leave such a hole, and then a hang-up on descriptor 6 closes the client just accepted on 5 and not 6 |
| PollWait.NeverWaitsExactly | SENIOR/LabWork_6/server.c:382-442 | if poll reports truthfully, a pass never calls `recv` on a descriptor with nothing to give, iff its accept does not fill a slot below a used one |
| PollWait.NewcomerIsWaitedFor | SENIOR/LabWork_6/server.c:382-442 | otherwise a truthful report exists with which it waits for the newcomer |
| RoundLaws.PassIsEvents | SENIOR/LabWork_6/server.c:377-456 | a pass, well paired or not, is a legal sequence of events with the same effect |
| RoundLaws.EventsAreRun | SENIOR/LabWork_6/server.c:401-455 | any sequence of events is a legal run of moves with the same effect |
| RoundLaws.RoundsAreRun | SENIOR/LabWork_6/server.c:376-457 | any number of passes of the loop is a run of moves with the same effect |
| RoundLaws.HistoryAfterAnyPasses | SENIOR/LabWork_6/server.c:376-457 | after any number of passes from the empty server, sends succeeding: each joined client was shown an unbroken tail of everything said, at least min(n, 32) lines |
| RoundLaws.RosterAfterAnyPasses | SENIOR/LabWork_6/server.c:376-457 | over any passes a client joined before and after each holds, by the notices, the joined set plus outstanding silently closed nicks; exactly the joined set iff there are none |
| Airing.AiredAfterAnyPasses | SENIOR/LabWork_6/server.c:175-195 | after any passes from the empty server, whatever sends fail: every BROADCAST frame ever sent carries a line that was said, in the order the lines were said |
| Airing.AiredToWhoStays | SENIOR/LabWork_6/server.c:175-195 | over any passes, whatever sends fail: a client joined before and after each is sent exactly the lines said meanwhile, each once and in order |
| Listing.ListReplyIsLongestPrefix | SENIOR/LabWork_6/server.c:240-260 | the reply is the whole lines of the longest slot-order prefix that fits 2048 bytes, "(no users)" iff nobody is joined |
| Listing.ListCut | SENIOR/LabWork_6/server.c:244-257 | wherever the loop stops, its text is that longest prefix |
| Replies.ListAnswered | SENIOR/LabWork_6/server.c:240-260 | a LIST is answered to its sender alone; a reader of the reply finds the ids and nicks of the joined clients in slot order, the longest prefix that fits, iff none of these nicks contains a line feed |
| Replies.DecimalRead | SENIOR/LabWork_6/server.c:252 | reading a printed number gives it back |
| Client.Receiver.Drop | SENIOR/LabWork_6/client.c:146-147 | `memmove` leaves exactly the bytes after the frame |
| Client.Receiver.ProcessServer | SENIOR/LabWork_6/client.c:130-149 | prints the decoded frames in order; keeps the rest, or nothing after a bad header |
| Client.Receiver.IncompleteFrame | SENIOR/LabWork_6/client.c:151-166 | true exactly when bytes wait that are neither a complete frame nor a bad header |
| Client.Receiver.ReadOnce | SENIOR/LabWork_6/client.c:374-382 | one `recv`, always with room, then processing |
| Client.Receiver.Pull | SENIOR/LabWork_6/client.c:169-192 | one `recv` for every readable poll, printing and keeping what reading those chunks one by one gives; stops before 128 polls exactly at the end of the stream, at a poll that finds nothing while no frame is incomplete, or at the 41st in a row that finds nothing |
| Client.Receiver.HandshakeScan | SENIOR/LabWork_6/client.c:76-112 | goes on exactly when the buffered frames are JOIN_ACKs, and HISTORY after one, without a bad header |
| Client.Receiver.Handshake | SENIOR/LabWork_6/client.c:72-128 | succeeds at the first `recv` boundary where the bytes received are exactly a greeting, printed whole with nothing left; fails only on a bad or unexpected frame or the end of the stream; prints the frames up to there and an ERROR that stops it |
| Client.ToleratesExactly | SENIOR/LabWork_6/client.c:91-109 | the accepted sequences are JOIN_ACK first and only JOIN_ACK or HISTORY |
| Client.PrintsExactly | SENIOR/LabWork_6/client.c:86-110 | of any frames the handshake prints those it tolerates, up to the first other one, and that one iff it is an ERROR |
| Client.GreetingNeverFails | SENIOR/LabWork_6/client.c:72-128 | on JOIN_ACK HISTORY* no part received forces a failure and the whole is a greeting |
| HandshakeCuts.VerdictIsShakes | SENIOR/LabWork_6/client.c:72-128 | the handshake's verdict is whether some boundary between the pieces of the stream lies exactly behind a greeting |
| HandshakeCuts.EveryCutShakesExactly | SENIOR/LabWork_6/client.c:72-128 | the handshake succeeds however `recv` cuts the stream, iff the stream is a greeting or begins with one whose last frame fills the receive buffer |
| HandshakeCuts.SomeCutShakesExactly | SENIOR/LabWork_6/client.c:72-128 | it succeeds for some cut iff the stream begins with a JOIN_ACK |
| HandshakeCuts.SpokenToWhileJoining | SENIOR/LabWork_6/client.c:91-115 | on a JOIN_ACK followed by any other frame than HISTORY or JOIN_ACK, one cut makes it succeed and another fail |
| Client.HandshakeThenServer | SENIOR/LabWork_6/client.c:72-149 | handshake output followed by what `process_server` prints of the rest, in any pieces, is the whole stream in order, with nothing left |
| ClientChunking.CutsAgreeExactly | SENIOR/LabWork_6/client.c:130-149 | all ways `recv` can cut a stream give the client the same frames and buffer iff the stream has no bad header or nothing follows its first one |
| ClientChunking.HarmfulDiffers | SENIOR/LabWork_6/client.c:136-140 | for any other stream, two ways to receive it that the client can tell apart |
| Client.FramesReachClient | SENIOR/LabWork_6/client.c:130-149 | any frame list in any chunking is printed as the same list, buffer empty at the end |
| Client.BadHeaderForgets | SENIOR/LabWork_6/client.c:136-140 | a bad header costs the rest of its chunk; the next chunk is read as a new stream |
| Commands.StripEol | SENIOR/LabWork_6/client.c:233-235 | line ends at the end become NUL |
| Commands.HandleUserLine | SENIOR/LabWork_6/client.c:232-300 | the line editor computes the command of the line without its line end |
| Typing.CommandsExactly | SENIOR/LabWork_6/client.c:236-295 | which line is which command: quit, help, list, a line for everybody, a private message, or too long |
| Typing.LineIsSaid | SENIOR/LabWork_6/client.c:291-295 | a plain line typed by a joined client adds "nick: line", cut to 2048 bytes, to the history and shows it once to every joined client and nobody else |
| Typing.ListIsShown | SENIOR/LabWork_6/client.c:246-252 | "/list" brings one LIST_REPLY to who typed it and nothing to others, readable as above |
| Typing.MsgIsWhisper | SENIOR/LabWork_6/client.c:253-254 | "/msg" is "/w" |
| Typing.WhisperOutcomes | SENIOR/LabWork_6/client.c:253-289 | what comes of blanks, a target, a space and a message, in every case |
| Typing.WhisperWithoutText | SENIOR/LabWork_6/client.c:258-262 | without a space behind the target it is a usage error |
| Typing.OnTheWire | SENIOR/LabWork_6/client.c:19-35 | the bytes written for a line: kind 3 for everybody, 4 for a private message, 5 for the list |
| Commands.HandleWhisper | SENIOR/LabWork_6/client.c:253-289 | the in-place `/w` encoder computes the private-message command of its arguments |
| Commands.FillBody | SENIOR/LabWork_6/client.c:280-284 | the body is target, NUL, text |
| Commands.CommandFrameFits | SENIOR/LabWork_6/client.c:276-295 | every frame a command sends passes `chat_header_valid` |
| Commands.WhisperRoundTrip | SENIOR/LabWork_6/client.c:253-289 | the server splits an accepted `/w` body into the typed target and text, within its limits |
| Commands.EveryWhisperCanBeTyped | SENIOR/LabWork_6/client.c:232-289 | some line makes the client send a target and a text iff both are within the limits and hold neither NUL nor LF, and the target no space and no leading tab |
| Commands.PlainlyTyped | SENIOR/LabWork_6/client.c:233-289 | typing "/w target text" does it iff besides the text does not end in CR |
| Commands.WhisperEndToEnd | SENIOR/LabWork_6/server.c:197-238 | a typed `/w` line to a joined nick shows "(pm from -> to) text", cut to 2048 bytes, once to its holder and once to the sender, to nobody else; uncut iff 10 + nicks + text fit |
| CensorSpec.LoopEndsExactly | VLADOS/Lab_3/censor.c:48-73 | the scan for a word ends iff the word is not empty, within one turn per byte plus one |
| CensorSpec.TurnShrinks | VLADOS/Lab_3/censor.c:48-73 | for a nonempty word both branches shorten the text after the cursor |
| CensorSpec.LoopIsSweep | VLADOS/Lab_3/censor.c:48-73 | the `strstr` loop equals a byte-by-byte left-to-right replacement |
| CensorSpec.LeftTestExactly | VLADOS/Lab_3/censor.c:48-72 | over any number of turns on any text the left test comes out as it would on that text, iff the word starts with a letter or digit or ends like the replacement |
| CensorSpec.NeverReadsInserted | VLADOS/Lab_3/censor.c:48-72 | over any number of turns on any text the byte the left test reads is never an inserted one, iff the word starts with a letter or digit or the replacement is empty |
| CensorLaws.OneWord | VLADOS/Lab_3/censor.c:43-73 | scanning for one alphanumeric word replaces exactly the maximal runs equal to it |
| CensorWords.AlnumExactly | VLADOS/Lab_3/censor.c:50-52 | the characters of words are exactly the 26 + 26 letters and ten digits |
| CensorWords.BoundaryExactly | VLADOS/Lab_3/censor.c:48-73 | a word next to one more byte, on either side: left alone iff the byte is one of these, else replaced and the byte kept |
| CensorWords.NeighbourSaves | VLADOS/Lab_3/censor.c:37-76 | so the one-word dictionary leaves it alone, and replaces the word by itself |
| CensorLaws.CensorIsMaskExactly | VLADOS/Lab_3/censor.c:37-76 | for all texts the result is the dictionary's runs replaced, iff at most one word, or the replacement is one run, or has no run among the words after the first |
| CensorLaws.ReplacementCensoredAgain | VLADOS/Lab_3/censor.c:43-74 | words "a", "b" and replacement "b!": the text "a" becomes "b!!" |
| CensorLaws.CensorIsMask | VLADOS/Lab_3/censor.c:37-76 | it is whenever no maximal run of the replacement is a dictionary word |
| CensorLaws.OrderIrrelevant | VLADOS/Lab_3/censor.c:43-74 | then order and repetition of the dictionary do not matter |
| CensorLaws.CensoredIsClean | VLADOS/Lab_3/censor.c:37-76 | and no dictionary word survives as a whole word, and censoring twice is censoring once |
| Censor.FindFrom | VLADOS/Lab_3/censor.c:48 | the first occurrence at or after the cursor |
| Censor.IsWholeWord | VLADOS/Lab_3/censor.c:50-52 | both boundary tests |
| Censor.Splice | VLADOS/Lab_3/censor.c:59-67 | the new buffer is exactly filled: before, replacement, after, NUL |
| Censor.ScanTurn | VLADOS/Lab_3/censor.c:48-72 | one turn of the loop on the buffer is one turn of the specified scan, for every word, the step beyond the NUL included |
| Censor.ReplaceAll | VLADOS/Lab_3/censor.c:44-73 | the loop over one word ends iff some number of turns ends it, and then with the specified text in an exactly sized buffer |
| Censor.CensorText | VLADOS/Lab_3/censor.c:37-76 | ends iff no dictionary word is empty, and then the result buffer holds the censored text and its NUL |
| Censor.LoadDict | VLADOS/Lab_3/censor.c:12-28 | the words of the file as `fgets` cuts it, 1000 at most |
| Censor.LinesLoaded | VLADOS/Lab_3/censor.c:16-25 | lines of fewer than 255 bytes are loaded as they are, as many as there is room for |
| Censor.FirstThousandLoaded | VLADOS/Lab_3/censor.c:12-28 | of a file of such lines the first 1000 |
| Censor.FullLineLeavesEmptyWord | VLADOS/Lab_3/censor.c:16-25 | a line of 255 bytes loads that word and an empty one |
| Manager.WorkerKeepsInv | VLADOS/Lab_5/worker.c:10-41 | every worker step keeps the invariant |
| Manager.ManagerKeepsInv | VLADOS/Lab_5/main.c:25-69 | every manager step keeps it, creation failures included |
| Manager.RunKeepsInv | VLADOS/Lab_5/main.c:25-69 | so every interleaving does |
| Manager.BreaksWhenStale | VLADOS/Lab_5/main.c:44-58 | the manager joins a joined thread exactly when it comes to a slot whose restart failed |
| Manager.SafetyOfRuns | VLADOS/Lab_5/main.c:42-60 | one unjoined thread per slot, joins only of ended threads, no join while holding the mutex, an inactive worker is past its last use of the mutex |
| ManagerLoop.EndedWorkersAreReplaced | VLADOS/Lab_5/main.c:38-60 | a worker that has ended, or is just ending, when the manager goes to sleep is replaced before the next round, unless `pthread_create` fails: no slot is passed over |
| ManagerLoop.ReportedBeforeReplaced | VLADOS/Lab_5/main.c:50-58 | and not before its failure has been reported under the mutex |
| ManagerLoop.TenRounds | VLADOS/Lab_5/main.c:38-65 | the shutdown begins after exactly ten rounds |
| ManagerLoop.WorkerTurn | VLADOS/Lab_5/worker.c:10-41 | one turn of a worker: ten naps, a heartbeat, then success and again, or failure reported, flag lowered and end |
| Manager.JoinedBeforeCreate | VLADOS/Lab_5/main.c:46-58 | a restart follows the end and the join of the slot's previous thread |
| Manager.EndsOfRuns | VLADOS/Lab_5/main.c:64-72 | at the end all threads are ended and joined, as many joins as creations, mutex free; a finished run halts iff no restart failed |
| Manager.NoDeadlock | VLADOS/Lab_5/main.c:46-69 | until the end some step is always possible, one of the manager or one that brings a thread nearer its end |
| Manager.JoinWaitsForOneStep | VLADOS/Lab_5/main.c:46-49 | the join of a failed worker waits for at most one unblocked step |
| Manager.ManagerAdvances | VLADOS/Lab_5/main.c:38-69 | every manager step shortens its agenda and no worker step lengthens it |
| Manager.WorkerNearsEnd | VLADOS/Lab_5/worker.c:18-40 | after shutdown every own step brings a worker nearer its end |
| Manager.ShutdownHalts | VLADOS/Lab_5/main.c:64-72 | after the flag is cleared at most 29 steps remain in any interleaving, and the run can always go on until it halts |
| ManagerRuns.CanEnd | VLADOS/Lab_5/main.c:25-72 | every run short of the early exit can go on to an end without another failed creation |
| ManagerRuns.HaltIsReachable | VLADOS/Lab_5/main.c:25-72 | some run from the start halts |
| ManagerRuns.BreakIsReachable | VLADOS/Lab_5/main.c:44-58 | some run from the start, with one failed restart, joins a thread twice |
| Csv.ValList | SENIOR/LabWork_2/csv2sql.sh:16-29 | the awk loop prints the literals of the fields' values joined by ", " |
| Csv.ConvertRow | SENIOR/LabWork_2/csv2sql.sh:15-30 | the INSERT statement around that list, and nothing for an empty line |
| Csv.SplitJoin | SENIOR/LabWork_2/csv2sql.sh:14 | the fields are exactly the texts between the commas |
| Csv.TrimExactly | SENIOR/LabWork_2/csv2sql.sh:18 | trimming removes blanks at both ends and nothing else |
| Csv.FieldMeaning | SENIOR/LabWork_2/csv2sql.sh:17-27 | what a field with blanks around it becomes: NULL if nothing or the word NULL is left, itself if only digits and dots after at most one minus, else quoted |
| Csv.QuotedRoundTrip | SENIOR/LabWork_2/csv2sql.sh:24-26 | reading a quoted literal gives the text back, doubled quotes included |
| Csv.ValuesRoundTrip | SENIOR/LabWork_2/csv2sql.sh:28 | reading a printed list gives the values back |
| Csv.RowRoundTrip | SENIOR/LabWork_2/csv2sql.sh:15-30 | one value per field in order: NULL, number unchanged, or trimmed text (quote doubling as in section 5.3 of ISO/IEC 9075-2) |
| Csv.PrintingInjective | SENIOR/LabWork_2/csv2sql.sh:15-30 | different value lists never print alike |

## Left out

- Sockets, `poll`, `accept` and `connect` themselves, option parsing, terminal output and help texts: system calls are steps with any result the kernel may give.
- Server buffers: `client_t` is a value in the array `clients`, with `nick` and the filled part of `inbuf` as sequences; the client's receive buffer, the line buffer and the censor's buffers are real arrays.
- Server.ChatServer.SendFrame: a send is traced as one attempt that succeeds or fails; the prefix a failed write leaves on the wire is the subject of `Io.Descriptor.SendFrame`, and a SIGPIPE ending the process is not modelled.
- Io.Descriptor.WriteFull: a schedule of system calls is finite and counts as an error when it runs out, so writing for ever through zero-byte writes or interrupts is not modelled.
- Server.ChatServer.Serve: what `recv` returns is given for the pass; when it must first wait is the subject of `PollWait`, but that the server serves nobody meanwhile is not represented.
- Server.ChatServer.PollOnce: the same; passes are counted, not timed.
- Client.Receiver.Pull: the timeouts only decide which polls find data; their lengths are not modelled.
- Censor.ReplaceAll: where the loop of the code never ends the method returns at once and says so; what the loop does to memory meanwhile, and the read beyond the NUL it can come to, are not modelled.
- Censor.CensorText: the same; failing allocations and the reading and printing of lines are left out, and `isalnum` is that of the C locale.
- `volatile` flags are read and written in some interleaving of single steps; the heartbeat time and the chance of failure are not modelled (a worker may fail or not each time).
- The header lines of a CSV file, which give the table name and the columns, are parameters; commas inside quotes split a field, as the script intends.
- `SENIOR/LabWork_1`, `SENIOR/LabWork_3`, `SENIOR/LabWork_4`, `SENIOR/LabWork_5`, `VLADOS/Lab_4` and `VLADOS/Lab_6` would add only easy members or rest on timing and operating-system behaviour.
