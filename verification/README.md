# shairkindle, verified

shairkindle makes an e-reader an AirPlay (RAOP) speaker: a C daemon receives encrypted audio over
RTSP, RTP and UDP, a supervisor keeps the daemon alive for exactly as long as a Kindlet holds a
lease, and the Kindlet sends remote-control key presses back to the sender. This project models the
parts of it where the behaviour is hardest to see from one function, and proves what they promise.

How it is organised. A module that ends in `Model`, `Runs` or `Course` (and `SessionBarrier`,
`SessionRestart`, `SessionFill`, `JitterCounts`, `Playback`, `Recovery`, `Framing`, `RtspLines`,
`DnsNames`, `DnsService`, `DnsRecords`, `Silence`, `ControlLine`) works on values: a datatype for the
state, one function per step, and lemmas about every run of the steps. Beside it stands the program's
own form: classes with the fields the source updates in place, arrays for its fixed buffers, loops for
its loops. Each of their methods is proved to make exactly the step of the model, so what is proved of
every run holds of the objects. What the steps come to is stated a second time without them, as a search
through what has happened: what was last told and still stands, what was accepted since the last flush,
which record of a packet answers first.

- Audio path: `Words`, `SequenceExtension`, `JitterModel`, `JitterRuns`, `JitterCounts`, `JitterBuffer`,
  `Playback`, `SessionModel`, `SessionBarrier`, `SessionRestart`, `SessionFill`, `Session`, `Recovery`,
  `Clock`.
- RTSP: `Scan`, `RtspMessage`, `RtspRender`, `RtspLines`, `BodyCapture`, `Framing`, `RtspStream`,
  `Connection`, `ServerModel`, `ServerRuns`, `Server`, `Base64`.
- Remote control: `DnsNames`, `DnsService`, `DnsRecords`, `DnsCodec`, `DacpModel`, `DacpRuns`, `Dacp`.
- Now playing: `RenderModel`, `RenderRuns`, `Render`.
- Lease: `KindletModel`, `KindletRuns`, `KindletCourse`, `Kindlet`, `LeaseModel`, `LeaseRuns`, `Lease`,
  `Encoder`, `LineBuffer`, `SupervisorModel`, `SupervisorRuns`, `Supervisor`, `Silence`, `ControlLine`.

Concurrency is modelled as a state machine: one step is one section under a lock or one call outside
it, every interleaving is a list of steps, and everything the operating system decides (bind, write,
spawn, exit codes, clocks, exceptions, deadlines) is a free input of the step.

`dafny verify dfyconfig.toml` checks everything.

## Where a promise fails, and exactly when it holds

- Resync recovery: in every session it can reach, the player recovers from a stall if and only if the
  conceal window covers the 16-packet preroll (`Recovery.RecoveryNeedsThePreroll`). The SDP parser
  accepts frame lengths up to 16384, and recovery is certain exactly up to 1378
  (`Recovery.FrameLengthsThatRecover`); `Recovery.ShortWindowStallsAgain` is a session, for every
  longer frame length, in which the player stalls again right after its own resync. The comment at
  src/jitter.c:81-90 asks for a window strictly above the preroll; the code needs only one as long.
- Sink restart on a flush: a stale write since the generation bump is followed by a restart before a
  later pop if and only if it is not the case that the flush began with no restart pending, ended after
  that write with the player already past its look at the flag, and that pop belongs to the player's
  first turn since (`SessionRestart.FlushBarrier`). `SessionRestart.RestartComesTooLate` is a session, for
  every payload size the parser delivers, in which new audio is popped behind old samples without one. A
  stale write after the end of the flush section is always followed by a restart.
- Ring as a map: over every run the ring holds what an unbounded map would of the packets still to be
  played if and only if no call claims the slot of such a packet (`JitterRuns.RingIsUnboundedIff`;
  `JitterRuns.EvictsIff` for one call). Packets less than a lap ahead never clash
  (`JitterRuns.RingIsUnbounded`); `JitterRuns.OneLapAheadEvicts` is a run that does.
- SRV lookup: an answer to our own query resolves, unless the owner was written with a trailing dot,
  when it never does (`DnsService.QueryRoundTrip`).
- Cached service port: it always belongs to the live session; it belongs to the live identity
  throughout a run if and only if no port is published for another identity of the same session
  (`DacpModel.FitsIff`), and that is also exactly when every command goes to a port of its own identity
  (`DacpModel.CommandsFitIff`); `DacpModel.OldIdentityPort` is a run in which a command goes to the old
  identity's port.
- Stop before launch: when stop() reaches teardown, an older launch can still begin if and only if an
  older worker has passed the gate and not yet launched, which takes a stop() that gave up waiting
  (`KindletRuns.LaunchAfterTeardownIff`, `KindletRuns.NoLaunchAfterTeardown`);
  `KindletRuns.GivingUpLetsALaunchThrough` is such a run. Even then there is at most one
  (`KindletRuns.OneLaunchOvertaken`).
- Lease numbering: HELLO comes first as number 0 and the numbers then only grow if and only if no
  enqueue() was accepted before start() (`LeaseModel.HandedInOrderIff`); `LeaseModel.EnqueueBeforeStart`
  is a run in which one was.
- Heartbeats: the writer restarts its timer also for frames that encode to nothing. At every pace the
  wire is silent for at most a given limit, a silence still open included, if and only if no stretch of
  such frames is that many intervals long (`Silence.NeverSilentIff`). So the heartbeat interval bounds the
  silence exactly when no frame is silent (`Silence.HeartbeatIff`), and a lease outlives every pace and
  every tick of the supervisor exactly when the bound holds for 30000 ms (`Silence.SurvivesIff`,
  `Silence.LeaseSurvivesIff`). A key held down is the case that fails (`Silence.HeldKeyEndsTheLease`).
- START and STOP alternate if and only if no connection is accepted during a lease
  (`SupervisorModel.AlternateIff`).
- Nanoseconds to NTP and back is exact for multiples of 5^9 ns and one nanosecond low for all other
  times (`Clocks.NtpRoundTrip`).

## Model

| member | source | states |
|---|---|---|
| SequenceExtension.ExtendSeq | src/seqext.c:9-20 | an accepted number has the wire number's low 16 bits and lies within 32767 of the reference; a number is refused only if no natural number does both |
| SequenceExtension.ExtendTs | src/seqext.c:21-27 | whatever the anchor, negative intermediate values included, the result is the wire timestamp mod 2^32 |
| SequenceExtension.Extender.constructor | src/seqext.c:3-5 | both references start at the given values |
| SequenceExtension.Extender.Rebase | src/seqext.c:6-8 | both references are replaced |
| SequenceExtension.Extender.Seq | src/seqext.c:9-20 | reports ExtendSeq; the reference only moves forward, and a refused number leaves it unchanged |
| SequenceExtension.Extender.Ts | src/seqext.c:21-27 | returns ExtendTs of the anchor, and the anchor only moves forward |
| SequenceExtension.RecoveredIffNear | src/seqext.c:9-20 | a true number is recovered from its low 16 bits if and only if it is within 32767 of the reference |
| SequenceExtension.TsRecoveredIffNear | src/seqext.c:21-27 | a true timestamp is recovered from its low 32 bits if and only if it is less than half a wrap from the anchor, modulo 2^64 |
| SequenceExtension.StreamRecoveredIffNear | src/seqext.c:9-20 | a whole stream is recovered, over any number of wraps and reorderings, if and only if each number is within 32767 of the largest before it |
| JitterModel.AtMostOneRival | src/jitter.c:23-29 | at most one held packet competes for a number's slot |
| JitterModel.InsertKeepsSound | src/jitter.c:17-31 | an insert keeps the window, cursor and ledger invariants |
| JitterModel.PopKeepsSound | src/jitter.c:33-52 | a pop, with its conceal and stall branches, keeps them |
| JitterModel.StoredIsWire | src/jitter.c:20-29 | a stored packet carries its wire timestamp and payload, lies at or after the boundary, and displaces only its rivals |
| JitterModel.StepKeepsSound | src/jitter.c:17-120 | every operation keeps the invariants |
| JitterModel.RunKeepsSound | src/jitter.c:17-59 | conservation over every run: accepted inserts are data pops plus packets held plus overwritten plus destroyed by a conceal plus dropped by a flush |
| JitterRuns.EpochAccounting | src/jitter.c:33-52 | between flushes the popped numbers strictly increase, and the cursor has moved by exactly the pops plus what resyncs skipped |
| JitterRuns.EvictsIff | src/jitter.c:23-29 | one call loses a packet the player has yet to reach if and only if the slot it claims, for a store or a conceal, holds one |
| JitterRuns.RingIsUnboundedIff | src/jitter.c:17-59 | over every run the ring agrees with an unbounded map on everything still to be played if and only if no call clashes with such a packet, and then every answer is the same |
| JitterRuns.RingIsUnbounded | src/jitter.c:17-59 | from the start of a session, while no accepted packet is a full lap ahead, the ring is an unbounded map: same answers, nothing at or after the cursor lost |
| JitterRuns.OneLapAheadEvicts | src/jitter.c:23-29 | a run of two inserts in which a packet one lap ahead removes the packet the cursor is at |
| JitterRuns.BooksBalance | src/jitter.c:7-59 | from the start of a session every packet ever accepted is played, held, overwritten, destroyed by a conceal or dropped by a flush |
| JitterCounts.CountersTally | src/jitter.c:17-120 | over every run the counters of late, duplicate, overwriting and lost packets, of conceals and of resyncs have grown by exactly the number of calls that met such a case, and the skip counter by the distance resyncs moved the cursor |
| JitterRing.JitterBuffer.constructor | src/jitter.c:7-12 | the 512-slot ring starts as the empty map with cursor and boundary at the given number |
| JitterRing.JitterBuffer.Insert | src/jitter.c:17-31 | on the slot array, exactly the map step: stored, duplicate, late, before the boundary, too long or ambiguous, with the matching counter |
| JitterRing.JitterBuffer.StoreAt | src/jitter.c:23-29 | claiming a slot removes its rival, if any, from the map and adds the new packet |
| JitterRing.JitterBuffer.Pop | src/jitter.c:33-52 | on the slot array, exactly the map step: data, conceal or stall |
| JitterRing.JitterBuffer.Flush | src/jitter.c:54-59 | one generation bump empties the map and moves cursor, boundary and references |
| JitterRing.JitterBuffer.NextResend | src/jitter.c:61-74 | finds the first maximal run of missing numbers at or after the cursor that a held packet follows within the window, or reports that there is none |
| JitterRing.JitterBuffer.HighestAhead | src/jitter.c:94-101 | the largest held number at or after the cursor, whatever the order of the slots |
| JitterRing.JitterBuffer.StartOfRun | src/jitter.c:104-110 | the start of the contiguous held run that ends at a held number |
| JitterRing.JitterBuffer.FindTarget | src/jitter.c:93-115 | the target of a resync, or none, as the map defines it |
| JitterRing.JitterBuffer.TryResync | src/jitter.c:93-120 | the cursor, the two counters and the reported skip are those of the map step |
| JitterRing.FirstGapIsUnique | src/jitter.c:61-74 | at most one range qualifies as the gap to request |
| JitterRing.RequestIsTheGap | src/session.c:269-281 | the 16-bit first and count on the wire ask for exactly the missing numbers, at least 1 and at most 511 |
| Playback.WindowCovers | src/session.c:126-137 | the window the deadline looks at covers n packets if and only if their frames fit the start fill of 22050 |
| Playback.ResyncFiresIff | src/jitter.c:93-115 | a resync fires if and only if the highest number held is at least 128 ahead and it and the seven below it are all held |
| Playback.ResyncLandsOnPreroll | src/jitter.c:104-119 | after a stall on a lapped buffer the cursor moves strictly forward to exactly 16 before the held run that ends at the highest number held |
| Playback.RunPlaysThrough | src/jitter.c:33-52 | from there, with no more input, every pop succeeds until the run, if at most 496 long, has been played, with its own packets |
| Recovery.ShortWindowStallsAgain | src/jitter.c:81-91 | for every shorter window and every payload of 16 to 2048 bytes, a session from its start in which the player resyncs and its very next iteration stalls |
| Recovery.LongWindowResumes | src/session.c:327-346 | with a window that covers the preroll, every iteration after a resync pops, and the run is played in full |
| Recovery.RecoveryNeedsThePreroll | src/jitter.c:81-91 | over every interleaving of a session, a resync is always followed by clean playing if and only if the window covers the preroll |
| Recovery.FrameLengthsThatRecover | src/sdp.c:156-163 | of the frame lengths the parser accepts, exactly those up to 1378 always recover |
| SessionSections.Session.constructor | src/session.c:513-539 | a session starts unflushed, with its start gate closed and its jitter buffer empty |
| SessionSections.Session.Deadline | src/session.c:126-137 | a missing number is past its deadline if and only if some number within the window after it is held |
| SessionSections.Session.RxInsert | src/session.c:169-184 | a packet before the boundary timestamp is dropped; any other goes to the jitter buffer, and only a stored one counts towards the start gate |
| SessionSections.Session.Flush | src/session.c:491-508 | one section bumps the generation, empties the buffer, rebases, closes the gate and requests a sink restart |
| SessionSections.Session.ExchangeRestart | src/session.c:303-303 | a requested restart is taken exactly once |
| SessionSections.Session.TakeTurn | src/session.c:305-346 | one player pass is the model's step: gate, pop, conceal, stall, resync and the 64-iteration hold; SessionFill.StartGateIff says when that step waits, without the step |
| SessionModel.RunKeepsEpoch | src/session.c:298-362 | every interleaving of receiver, player and FLUSH keeps the epoch invariant |
| SessionModel.PlaysOnlyThisEpoch | src/session.c:169-184 | each packet played was accepted after the latest flush, has a number at or after its boundary and a timestamp at a non-negative signed distance from it |
| SessionBarrier.StepKeepsBarrier | src/session.c:410-436 | no step, a partial sink write and an unlocked read in the middle of a flush included, breaks the flush barrier |
| SessionFill.RunKeepsFill | src/session.c:169-184 | in every interleaving the packet count of the start gate is the number of packets accepted since the latest flush |
| SessionFill.StartGateIff | src/session.c:315-325 | in every interleaving a turn waits to fill if and only if the packets accepted since the latest flush, or the start, hold fewer than 22050 frames; so nothing is popped before that, and no turn after it waits |
| SessionFill.BoundaryKeepsOut | src/session.c:169-184 | in every interleaving a packet leaves no trace if its timestamp is at a negative signed distance from that of the latest flush, and is put to the jitter buffer otherwise |
| SessionFill.TurnOwes | src/session.c:327-362 | a turn owes the sink what was decoded, one packet of silence for a lost packet or a resync, and otherwise nothing |
| SessionFill.SinkIsOfferedTheRest | src/session.c:410-436 | however few samples the sink takes at a time, it is offered exactly those it has not taken, until an error, an overcount or the 201st zero in a row |
| SessionRestart.RunKeepsRestart | src/session.c:298-362 | every interleaving keeps the restart bookkeeping: each stale write has been followed by a restart, is about to be, or slips through |
| SessionRestart.FlushBarrier | src/session.c:491-508 | over every interleaving: from the generation bump on, old samples reach the sink through at most one more write; after the end of the flush section a restart always comes before the next pop; and for every stale write since the bump and every later pop, a restart lies between if and only if it is not the case that the flush began with none pending, ended after that write with the player past its look at the flag, and the pop is of the player's first turn since |
| SessionRestart.RestartComesTooLate | src/session.c:303-313 | a session from its start, for every payload of 16 to 2048 bytes, in which the player looks for the request before it is made and pops new audio behind a stale write with no restart between |
| SessionBarrier.ResyncWithin64Stalls | src/session.c:305-345 | under a lap that persists, a resync happens within 64 stalled iterations |
| SessionBarrier.NoLongStall | src/session.c:305-345 | the same from the start of a session, in every interleaving |
| Clocks.FractionRoundTrip | src/raop_clock.c:3-14 | the fraction of a second comes back exactly, or one nanosecond low |
| Clocks.NtpRoundTrip | src/raop_clock.c:3-14 | for all times below 2^32 seconds the round trip returns t if 5^9 divides t and t - 1 otherwise |
| Clocks.FilterKeepsFirstBest | src/raop_clock.c:15-25 | over every run of replies the clock holds the estimate of the first usable sample with the smallest round trip, and nothing before there is one |
| Clocks.FilterIsAccurate | src/raop_clock.c:17-25 | with a remote clock at constant offset the estimate is within half the best round trip plus one nanosecond |
| Clocks.RaopClock.constructor | src/raop_clock.c:15-15 | no sample yet |
| Clocks.RaopClock.TimingReply | src/raop_clock.c:17-25 | one reply is one step of the filter |
| Scan.CompareIgnoringCase | src/rtsp_msg.c:10-15 | true if and only if the two names are equal in lower case |
| Scan.ParseNonNegative | src/rtsp_msg.c:21-33 | a number is read if and only if it is all digits, not empty, and fits a long; its value is the decimal value |
| Scan.NumberIff | src/rtsp_msg.c:21-33 | a text is read as n if and only if it is the decimal form of n behind any zeros and a long can hold n |
| Scan.NumberReadsBackDigits | src/rtsp_msg.c:21-33 | exactly the numbers a long can hold are read back from their decimal form |
| RtspMessage.FindHeadEnd | src/rtsp_msg.c:41-45 | the end of the header block is the first blank line, or there is none |
| RtspMessage.ReadHeader | src/rtsp_msg.c:59-70 | a line with a colon gives its name and its value without leading blanks and trailing CR |
| RtspMessage.ReadLine | src/rtsp_msg.c:58-82 | one line of the block: a header, a line without a colon, a 25th header or a bad Content-Length, as RtspLines.HeadIsItsLines then says of whole blocks |
| RtspMessage.ReadHeaders | src/rtsp_msg.c:56-82 | the loop over the lines gives the headers, CSeq and length of the recursive definition |
| RtspMessage.ReadHead | src/rtsp_msg.c:47-82 | request line and headers of a complete block, or malformed |
| RtspMessage.ParseMessage | src/rtsp_msg.c:40-103 | complete, needs more, needs a body of the length the headers mean, or malformed, with the bytes consumed |
| RtspMessage.ParseStable | src/rtsp_msg.c:40-103 | an answer given on a prefix of the stream does not change when more bytes arrive |
| RtspLines.SpellsOne | src/rtsp_msg.c:59-70 | a line spells at most one header: a name without a colon, blanks, and a value without leading blanks and without one CR at the end |
| RtspLines.HeadIsItsLines | src/rtsp_msg.c:47-82 | for every complete header block: its request line and the headers that its lines with a colon spell, lines without one being passed over, or refusal for a 25th header or a bad Content-Length |
| RtspRender.AssembleIsMeaning | src/rtsp_msg.c:71-79 | reading headers one by one gives the last Content-Length, or 0, and the last CSeq that is a number, or -1, found by searching the list; it fails if and only if some Content-Length is not a number a long can hold |
| RtspRender.RenderedHeadParses | src/rtsp_msg.c:40-82 | a header block written out is found in full and means its method, URI and headers, with the last CSeq and Content-Length, or is refused for a bad Content-Length or more than 24 headers |
| RtspRender.RenderedRequestParses | src/rtsp_msg.c:40-103 | a request written out whose last Content-Length is its body's length is read back with its body, and nothing behind it is consumed |
| BodyCapture.Capture.constructor | src/bodycap.c:7-20 | an idle capture |
| BodyCapture.Capture.Begin | src/bodycap.c:7-20 | a negative length counts as zero; a file that cannot be opened fails the capture at once |
| BodyCapture.KeptAll | src/bodycap.c:22-47 | the sink holds a prefix of the bytes fed, and a capture has failed if and only if that is not all of them or its file did not open |
| BodyCapture.Capture.Feed | src/bodycap.c:22-47 | takes the smaller of what is offered and what remains and always advances; the sink then holds exactly the first bytes that fit memory or that the disk took |
| BodyCapture.Capture.WriteToDisk | src/bodycap.c:25-31 | the file holds the bytes up to where the disk stopped, and the capture has failed if and only if it did |
| BodyCapture.Capture.StoreInMemory | src/bodycap.c:32-42 | memory holds exactly the first bytes that fit, and the capture has failed if and only if some did not |
| BodyCapture.Capture.Done | src/bodycap.c:49-49 | true if and only if as many bytes as declared were fed |
| BodyCapture.Capture.Finish | src/bodycap.c:51-63 | success if and only if the whole body came, the sink kept it all and a file was renamed; and what the sink holds |
| Framing.DrainIsReference | src/main.c:323-335 | draining a buffer handles what a parser of the whole stream would |
| Framing.ReferenceResumes | src/main.c:323-387 | parsing a longer stream is parsing the shorter one and going on from where it stopped |
| Framing.ChunkIsResume | src/main.c:360-387 | one more read takes the connection where the whole-stream parser goes on to, also in the middle of a streamed body |
| Framing.AnyCutIsReference | src/main.c:323-387 | for every cut of the stream into reads and every behaviour of the file system, the requests handled, what each capture keeps and whether it succeeds, and the bytes left are those of the whole-stream parser, and recv always has room |
| RtspStream.PipelinedRequestsHandled | src/main.c:323-387 | well-formed requests sent back to back are handled one by one, oversized ones once from their headers, for every cut; art, by its Content-Type, goes to the file as far as the disk takes it, track data to memory up to 16384 bytes, and each capture succeeds exactly if that is the whole body, safely stored |
| RtspStream.CapturedIsStored | src/main.c:139-186 | the sink chosen and what the capture comes to are those of the first Content-Type of the request |
| Connections.Connection.constructor | src/main.c:406-409 | a fresh connection has an empty buffer and no capture |
| Connections.Connection.Teardown | src/main.c:121-135 | the connection is gone and its buffer empty |
| Connections.Connection.HandleMessage | src/main.c:233-244 | a buffered art or metadata body goes through the capture, whose outcome is logged, then the request is answered |
| Connections.Connection.DrainBuffer | src/main.c:323-335 | on the 8192-byte array, exactly the model's drain, with the rest moved to the front |
| Connections.Connection.FrameOversized | src/main.c:343-358 | a full buffer starts a capture, which the file system may refuse, is answered from its headers and its body streamed, or the client is dropped |
| Connections.Connection.Readable | src/main.c:360-387 | one readable event is the model's step, and receives nothing when the buffer is full |
| Connections.Connection.StreamBuffer | src/main.c:377-385 | feeds a streamed body and finishes it exactly at its declared length |
| Connections.Connection.FinishCapture | src/main.c:168-186 | what the sink holds and whether the capture succeeded is logged once, and the capture becomes idle |
| ServerModel.TransitionFacts | src/rtsp.c:94-196 | which moves between RTSP states and which requests go with which action; SETUP replies carry the session's ports |
| ServerModel.SucceedsIffInOrder | src/rtsp.c:116-196 | after every conversation a request is answered 200 if and only if it is well made and follows the last accepted ANNOUNCE, SETUP, RECORD or TEARDOWN in that order; any other gets the one right status, 400, 453, 455 or 501, and changes nothing |
| ServerModel.TearDownKeepsInv | src/main.c:121-135 | teardown closes whichever socket triple is owned, once, and leaves nothing held |
| ServerModel.MessageKeepsInv | src/main.c:201-320 | every request with every outcome keeps the ownership invariant |
| ServerModel.EveryRunKeepsInv | src/main.c:201-320 | over every run: a live session implies PLAYING, server and session never both own sockets, every triple is owned or closed exactly once, wake lock and playing flag are on exactly with a session, a state other than IDLE exactly with an SDP |
| ServerModel.SetupRepliesWithItsPorts | src/main.c:221-231 | a successful SETUP reply carries the ports of the sockets that are open, or zeros if none are |
| ServerModel.NothingLeaks | src/main.c:121-135 | after the client is gone every triple ever opened has been closed exactly once and the wake lock is free |
| ServerRuns.SessionLiveIff | src/main.c:247-271 | after every run a session is live if and only if the client connected now has had a RECORD answered 200, with sockets bound by an earlier SETUP, its reply written, and a session created and started for it, with neither a teardown nor a failed write since |
| ServerRuns.SocketsWaitIff | src/main.c:221-231 | after every run sockets wait for a session if and only if a SETUP of the client connected now bound some, no RECORD has used them up since, and no session is live |
| ServerRuns.RemembersLatest | src/rtsp.c:94-196 | after every conversation boundary, sender ports and volume are those of the latest RECORD or FLUSH with RTP-Info, SETUP and volume request taken since the last TEARDOWN |
| ServerRuns.ServerRemembers | src/main.c:201-320 | the same of the server, for the conversation with the client connected now |
| Servers.RtspSession.constructor | src/rtsp.c:84-89 | a fresh RTSP session |
| Servers.RtspSession.Reset | src/rtsp.c:84-89 | back to a fresh RTSP session |
| Servers.RtspSession.Handle | src/rtsp.c:94-196 | every field, the action and the reply are those of the model's step |
| Servers.Daemon.constructor | src/main.c:564-569 | the daemon starts with no client and nothing owned |
| Servers.Daemon.TearDownNow | src/main.c:121-135 | the model's teardown on the daemon's fields |
| Servers.Daemon.Accept | src/main.c:389-411 | a client is taken if and only if there is none; the invariant holds afterwards |
| Servers.Daemon.Dispatch | src/main.c:201-320 | binding, reply and action are the model's step; the invariant holds afterwards |
| Servers.Daemon.Start | src/main.c:247-271 | the sockets go to the new session, or are closed if it cannot be created or started; ServerRuns.SessionLiveIff says when a session is then live, without the step |
| Base64.Letter | src/apple_response.c:7-8 | the encoder's letters are read back by the decoder and are neither blanks nor padding |
| Base64.PackRoundTrip | src/apple_response.c:10-17 | grouping bytes into sextets loses nothing |
| Base64.BlanksDoNotMatter | src/b64.c:21-24 | blanks anywhere leave the reading of a text unchanged |
| Base64.DecodeOfEncode | src/b64.c:13-43 | every byte string is decoded from its encoding, with blanks anywhere and any padding behind it |
| Base64.DecodesIff | src/b64.c:13-43 | every text is decoded to given bytes if and only if without its blanks it is letters, not 1 more than a multiple of 4, with padding behind them, that stand for those bytes, and they fit |
| Base64.UnpackLength | src/b64.c:28-35 | n significant characters decode to exactly floor(6n/8) bytes |
| Base64.NeverOutOfRoom | src/sdp.c:226-230 | a text that passes the size check is refused only for its characters or a length of 1 mod 4, never for lack of room |
| Base64.UpperBound | src/sdp.c:35-44 | the bound is floor(6n/8) for the n significant characters |
| Base64.ShiftIn | src/b64.c:29-34 | the pending bits survive although the 32-bit accumulator drops its top |
| Base64.Decode | src/b64.c:13-43 | the buffer is filled with the decoded bytes, or the text is refused, exactly as the specification says |
| Base64.PackLength | src/apple_response.c:43-45 | the caller's length formula is the encoder's output length |
| Base64.EncodeNoPad | src/apple_response.c:6-19 | the letters of the encoding and a NUL, in exactly the computed space |
| DnsNames.LabelsOfJoin | src/dacp_resolve.c:19-36 | labels of 1 to 63 bytes without dots, joined by dots, with or without a dot behind, split into the same labels |
| DnsNames.JoinOfLabels | src/dacp_resolve.c:19-36 | joining the labels gives the name back, less a trailing dot |
| DnsNames.NameEndsInPacket | src/dacp_resolve.c:58-82 | the offset after a name lies within the packet |
| DnsNames.DecodesIffExpands | src/dacp_resolve.c:58-94 | a name decodes to given labels if and only if following labels and pointers from the offset reaches a root with those labels in at most 8 jumps and 255 bytes of text |
| DnsNames.NameStable | src/dacp_resolve.c:58-94 | a name decoded in a prefix of a packet is the name decoded in the packet |
| DnsService.ResponseStable | src/dacp_resolve.c:96-145 | a port found in a truncated packet is the port found in the whole packet |
| DnsRecords.SkipIff | src/dacp_resolve.c:118-126 | the questions are skipped to an offset if and only if they lie one after the other up to it |
| DnsRecords.PortIff | src/dacp_resolve.c:96-145 | for every packet a port is found if and only if it is a response to this query, the questions and the records up to some k-th of the three sections lie one after the other, the k-th is a live SRV record of the owner with that nonzero port, and no earlier one is such a record |
| DnsService.WireReadsBack | src/dacp_resolve.c:19-94 | an encoded name decodes to its labels in lower case |
| DnsService.QueryRoundTrip | src/dacp_resolve.c:38-53 | a response to our query with an SRV record that points back to its name gives that record's port, unless the owner ends in a dot |
| DnsService.QueryFits | src/dacp_resolve.c:38-53 | every owner of at most 255 bytes with proper labels has a query that fits 512 bytes |
| DnsService.QueryIff | src/dacp_resolve.c:38-53 | for every buffer size a query is made if and only if the labels are proper and it fits, and its bytes are one SRV question with the unicast-response bit |
| DnsCodec.WriteName | src/dacp_resolve.c:19-36 | the loop writes exactly the wire form of the name, or fails exactly when a label is bad or the buffer too small |
| DnsCodec.PutLabel | src/dacp_resolve.c:26-29 | one length byte and the label's bytes, and nothing before them changes |
| DnsCodec.BuildQuery | src/dacp_resolve.c:38-53 | header, name and question tail in the buffer, or failure |
| DnsCodec.Examine | src/dacp_resolve.c:65-85 | what stands at an offset: a label, a pointer that goes back, the root, or an error |
| DnsCodec.DecodeName | src/dacp_resolve.c:58-94 | the loop, which ends because hops and bytes left run out, gives the recursive definition's text and end, and never reads outside the packet |
| DnsCodec.FindSrvPort | src/dacp_resolve.c:96-145 | the loop form of the parser; DnsRecords.PortIff says which port that is, by a walk over the packet |
| DnsCodec.ScanRecords | src/dacp_resolve.c:127-144 | the loop over the records finds the first that answers, as DnsRecords.FindIff says of the walk over them |
| DnsRecords.FindIff | src/dacp_resolve.c:127-144 | a port is found among n records if and only if a walk over at most n of them ends at the first that answers, with that port |
| DacpModel.CachedPortIsOfThisSession | src/dacp_state.c:88-95 | in every interleaving a cached port of the live generation came from a query begun in it |
| DacpModel.GuardedSend | src/dacp.c:126-136 | a command at its final guard is sent if and only if credentials are there and generation, peer, id and token are those it began with, and then goes to a port resolved under the live generation |
| DacpRuns.RunHoldsLatest | src/dacp_state.c:41-95 | in every interleaving the state holds the number of sessions, the last valid credentials and the last peer of this session, and the last port resolved for it since its credentials changed |
| DacpRuns.FoundIsPublished | src/dacp.c:112-122 | a sender that finds a port publishes that port under the generation it began in, and goes on with it |
| DacpModel.FitsIff | src/dacp_state.c:55-95 | the cached port fits the live identity throughout a run if and only if no accepted publication is of another identity |
| DacpModel.CommandsFitIff | src/dacp.c:112-136 | throughout a run every command sent, and one given at that point and carried out at once, goes to a port resolved for the live identity if and only if no accepted publication is of another identity |
| DacpModel.TimelyCommandsFit | src/dacp.c:112-136 | while no accepted publication is of another identity, every command ever sent went to a port of the identity live when it was sent |
| DacpModel.OldIdentityPort | src/dacp.c:112-119 | a run in which a command goes to the port of an earlier identity of the same session |
| Dacp.NormalizeId | src/dacp_state.c:14-23 | accepted if and only if 1 to 16 hexadecimal digits; the result is the same digits in upper case |
| Dacp.SanitizeToken | src/dacp_state.c:25-35 | the leading digits, if there are 1 to 31 of them |
| Dacp.DacpState.constructor | src/dacp_state.c:41-45 | no credentials and no port |
| Dacp.DacpState.Renew | src/dacp_state.c:47-53 | everything is cleared and the generation goes up by one |
| Dacp.DacpState.Take | src/dacp_state.c:55-80 | credentials are taken if and only if both texts pass; a changed identity drops the cached port |
| Dacp.DacpState.Publish | src/dacp_state.c:88-95 | a port of another generation is ignored |
| Dacp.DacpState.Guard | src/dacp.c:126-136 | true if and only if the live state still matches the snapshot |
| RenderModel.EqualKeysShowTheSame | src/npstate.c:26-71 | two states of one history with equal gen, art serial and playing flag have equal texts and art, so skipping is sound |
| RenderModel.RunKeepsInv | src/nprender.c:148-220 | every interleaving of publishers, wakes and the worker keeps the invariant |
| RenderModel.QuiescentIsCurrent | src/nprender.c:148-220 | once every publish has been followed by a wake and the worker waits undisturbed, the last thing drawn shows the current state, or the last render was of it and failed, or nothing was published to a worker not asked to paint on start |
| RenderModel.PaintsAreRight | src/nprender.c:180-217 | in every run a paint is a splash if and only if nothing plays, a draw without a flash if and only if it is over a card of the same generation and art presence, and then of the same track, and no key is painted twice in a row |
| RenderRuns.StateIsLatest | src/npstate.c:26-71 | after every history of publishes the texts are the last since a reset, cut at 255 bytes, art is present if published since, the flag is the last, and the counters count the changes and the art |
| RenderRuns.WakeDraws | src/nprender.c:158-217 | in every run, a wake that finds the worker waiting leads to the current state being drawn, unless it was drawn last |
| RenderRuns.SleepsUnwoken | src/nprender.c:158-170 | without a wake the worker does nothing |
| RenderRuns.StopLeaves | src/nprender.c:158-220 | whatever else happens, a stopped worker has left after at most four of its own steps |
| Renders.NowPlayingState.constructor | src/npstate.c:17-18 | empty texts, no art, not playing |
| Renders.NowPlayingState.PublishMeta | src/npstate.c:26-38 | a new generation exactly on a change of text; art is untouched |
| Renders.NowPlayingState.PublishArt | src/npstate.c:40-45 | art present and a new serial |
| Renders.NowPlayingState.Clear | src/npstate.c:63-71 | texts and art cleared under a new generation, playing untouched |
| Renders.RenderWorker.constructor | src/nprender.c:150-155 | nothing seen and nothing drawn |
| Renders.RenderWorker.Pass | src/nprender.c:180-217 | no render for a key already dispatched; otherwise splash, flash or draw by the last layout, track and art; only a dispatched render is remembered |
| KindletRuns.OnlyOneRuns | kindlet/src/com/besteffortlabs/kindletshell/KindletShell.java:224-227 | a worker that can move has only finished workers before it and only joining ones after it, and the launching latch is set exactly while it is in the launch section |
| KindletRuns.MoveKeepsSchedule | kindlet/src/com/besteffortlabs/kindletshell/KindletShell.java:256-292 | a worker enters the launch section only while current and launches only inside it |
| KindletRuns.CallKeepsSchedule | kindlet/src/com/besteffortlabs/kindletshell/KindletShell.java:195-199 | a wait that ends without giving up leaves no older worker in the launch section |
| KindletRuns.PublishKeepsCustody | kindlet/src/com/besteffortlabs/kindletshell/KindletShell.java:325-339 | publishing or abandoning a candidate keeps every lease in exactly one custody |
| KindletRuns.RunKeepsInv | kindlet/src/com/besteffortlabs/kindletshell/KindletShell.java:164-345 | every interleaving of start, stop and worker steps keeps schedule and custody |
| KindletRuns.PublishedIsCurrent | kindlet/src/com/besteffortlabs/kindletshell/KindletShell.java:325-339 | a published lease implies not stopped and belongs to the current generation |
| KindletRuns.NoLeaseIsLost | kindlet/src/com/besteffortlabs/kindletshell/KindletShell.java:164-210 | every lease ever constructed is the published one, closed, or in the hands of a thread about to publish or close it |
| KindletRuns.OneWorkerRuns | kindlet/src/com/besteffortlabs/kindletshell/KindletShell.java:224-240 | at most one worker is past its join and not finished |
| KindletRuns.NoLaunchAfterTeardown | kindlet/src/com/besteffortlabs/kindletshell/KindletShell.java:183-210 | unless stop() gave up waiting, no launch of an older generation begins after it reaches teardown |
| KindletRuns.OlderLaunchIff | kindlet/src/com/besteffortlabs/kindletshell/KindletShell.java:256-270 | from any state some continuation launches a generation older than g if and only if a worker older than g has passed the gate and not yet launched |
| KindletRuns.LaunchAfterTeardownIff | kindlet/src/com/besteffortlabs/kindletshell/KindletShell.java:195-210 | in every run, when a stop() logs its teardown, an older launch can still begin if and only if an older worker stands between gate and launch, and there is none unless stop() gave up |
| KindletRuns.OneLaunchOvertaken | kindlet/src/com/besteffortlabs/kindletshell/KindletShell.java:266-270 | after any call has ended a generation, at most one launch of an older one still begins, even past the deadline |
| KindletRuns.GivingUpLetsALaunchThrough | kindlet/src/com/besteffortlabs/kindletshell/KindletShell.java:195-199 | a run in which stop() gives up and an older launch begins after teardown |
| KindletRuns.WorkerFinishes | kindlet/src/com/besteffortlabs/kindletshell/KindletShell.java:224-339 | whatever every other thread and the system do, a worker past its join finishes within 83 of its own steps, so its launch section ends and the next join returns |
| KindletRuns.AlwaysBounded | kindlet/src/com/besteffortlabs/kindletshell/KindletShell.java:266-314 | in every run the launch attempts, polls and connection tries stay within 3, 5 and 15 |
| KindletCourse.PublishesIffUncalled | kindlet/src/com/besteffortlabs/kindletshell/KindletShell.java:325-339 | in every run the worker of a start() that has dialled makes its connection the published lease if no start() or stop() has been called since; otherwise it leaves the published one alone and closes its own |
| KindletCourse.PublishedUntilCalled | kindlet/src/com/besteffortlabs/kindletshell/KindletShell.java:164-210 | whatever the threads do, a published lease stays published until the next call, which takes it down |
| KindletCourse.StoppedIff | kindlet/src/com/besteffortlabs/kindletshell/KindletShell.java:167-191 | the shell is stopped if and only if its last call was stop() |
| KindletCourse.BehindMeansTaken | kindlet/src/com/besteffortlabs/kindletshell/KindletShell.java:224-339 | in every run a worker installs only after permission was granted, enters the launch section only after the install succeeded, launches again only after a probe that found the daemon alive, and connects only once the daemon was seen ready |
| KindletCourse.StaleTakesUpNothing | kindlet/src/com/besteffortlabs/kindletshell/KindletShell.java:224-339 | once a call has overtaken it, a worker finishes at most what it was doing and takes up no permission, install, launch or dial |
| KindletCourse.LaunchesAreLogged | kindlet/src/com/besteffortlabs/kindletshell/KindletShell.java:266-275 | every launch that begins, also one that throws, is accounted for |
| KindletCourse.StopTearsDown | kindlet/src/com/besteffortlabs/kindletshell/KindletShell.java:183-210 | a stop() in its wait goes on if and only if nobody is in the launch section or its deadline has come; it then closes the lease it took and tears down, having given up exactly in the second case |
| KindletCourse.GoodLuckPublishes | kindlet/src/com/besteffortlabs/kindletshell/KindletShell.java:224-339 | from wherever it stands, a current worker whose every step succeeds publishes a lease |
| KindletCourse.TriesFifteenTimes | kindlet/src/com/besteffortlabs/kindletshell/KindletShell.java:300-317 | a current worker goes on after every failed try to connect until it has made 15, and then ends |
| KindletCourse.LaunchesThreeTimes | kindlet/src/com/besteffortlabs/kindletshell/KindletShell.java:266-288 | a current worker launches again after five looks and a probe that finds the daemon alive until it has launched three times, and then looks once more |
| Kindlets.KindletShell.constructor | kindlet/src/com/besteffortlabs/kindletshell/KindletShell.java:122-127 | generation zero, no lease, no worker |
| Kindlets.KindletShell.Start | kindlet/src/com/besteffortlabs/kindletshell/KindletShell.java:167-179 | a new generation; the old lease and the thread to join are handed out |
| Kindlets.KindletShell.Stop | kindlet/src/com/besteffortlabs/kindletshell/KindletShell.java:187-191 | a new generation, stopped, and the lease handed out |
| Kindlets.KindletShell.IsCurrent | kindlet/src/com/besteffortlabs/kindletshell/KindletShell.java:341-345 | true if and only if the generation is live and not stopped |
| Kindlets.KindletShell.TakeLatch | kindlet/src/com/besteffortlabs/kindletshell/KindletShell.java:257-260 | the latch is set if and only if the generation is current |
| Kindlets.KindletShell.Publish | kindlet/src/com/besteffortlabs/kindletshell/KindletShell.java:325-339 | the candidate becomes the lease if current, and otherwise comes back to be closed; KindletCourse.PublishesIffUncalled says which in terms of the calls made |
| LeaseModel.HelloIsZeroIff | kindlet/src/com/besteffortlabs/kindletshell/LeaseConnection.java:58-77 | HELLO has number 0 if and only if no enqueue() was accepted before start() |
| LeaseModel.HandedInOrderIff | kindlet/src/com/besteffortlabs/kindletshell/LeaseConnection.java:58-155 | in every run the frames given to the encoder begin with HELLO as 0 and have strictly increasing numbers if and only if no enqueue() was accepted before start() |
| LeaseModel.EveryNumberOnce | kindlet/src/com/besteffortlabs/kindletshell/LeaseConnection.java:58-155 | in every run each number issued is exactly one of handed over, in the writer's hand, queued or dropped |
| LeaseModel.QueueBounded | kindlet/src/com/besteffortlabs/kindletshell/LeaseConnection.java:78-90 | the queue holds at most 256 frames beyond the events that are not keys; 256 with key producers alone |
| LeaseModel.DownOnlyAfterUp | kindlet/src/com/besteffortlabs/kindletshell/LeaseConnection.java:186-196 | the down latch implies the up latch and closing, and once a close has run to its end the two agree |
| LeaseModel.EnqueueBeforeStart | kindlet/src/com/besteffortlabs/kindletshell/LeaseConnection.java:68-77 | a key enqueued before start() is handed over after HELLO with a smaller number |
| LeaseRuns.LosesOnlyToOverflow | kindlet/src/com/besteffortlabs/kindletshell/LeaseConnection.java:78-90 | over every run exactly one frame is lost for each key enqueued on an open lease with 256 or more waiting, and none otherwise |
| LeaseRuns.HandsOverNext | kindlet/src/com/besteffortlabs/kindletshell/LeaseConnection.java:130-153 | once its timer has run out a writer hands over the oldest frame waiting, or a heartbeat under the next number if there is none, and goes on even if the frame encodes to nothing; a closed lease it leaves |
| LeaseRuns.UpOnceGreeted | kindlet/src/com/besteffortlabs/kindletshell/LeaseConnection.java:186-190 | in every run a lease is up only once HELLO was handed over, and past its greeting an open one is up |
| LeaseRuns.OneThreadCloses | kindlet/src/com/besteffortlabs/kindletshell/LeaseConnection.java:97-106 | in every run at most one thread closes the lease |
| LeaseRuns.ClosedEarlyHandsNothing | kindlet/src/com/besteffortlabs/kindletshell/LeaseConnection.java:113-126 | a lease closed before its writer ran hands nothing over |
| Leases.LeaseConnection.constructor | kindlet/src/com/besteffortlabs/kindletshell/LeaseConnection.java:34-48 | an empty queue, open, neither up nor down |
| Leases.LeaseConnection.Start | kindlet/src/com/besteffortlabs/kindletshell/LeaseConnection.java:58-66 | HELLO takes the next number, unless closed |
| Leases.LeaseConnection.Enqueue | kindlet/src/com/besteffortlabs/kindletshell/LeaseConnection.java:78-90 | appended under the next number; a key on a full queue drops the oldest frame |
| Leases.LeaseConnection.Close | kindlet/src/com/besteffortlabs/kindletshell/LeaseConnection.java:97-106 | closed, and true for the one call that did it |
| Leases.LeaseConnection.RaiseUp | kindlet/src/com/besteffortlabs/kindletshell/LeaseConnection.java:186-190 | the up latch is set, and fires once, unless closed |
| Leases.LeaseConnection.Take | kindlet/src/com/besteffortlabs/kindletshell/LeaseConnection.java:133-150 | the oldest frame, or a heartbeat with a fresh number on an idle empty queue, or stop |
| Encoders.NowPlayingEncoder.constructor | kindlet/src/com/besteffortlabs/shairkindle/NowPlayingEncoder.java:9-9 | the press gate starts open |
| Encoders.NowPlayingEncoder.Encode | kindlet/src/com/besteffortlabs/shairkindle/NowPlayingEncoder.java:10-28 | the line, or nothing, and the press gate after one event |
| Encoders.GateIff | kindlet/src/com/besteffortlabs/shairkindle/NowPlayingEncoder.java:14-18 | the gate is closed if and only if some mapped press has had no release since |
| Encoders.ReleaseBetweenCommands | kindlet/src/com/besteffortlabs/shairkindle/NowPlayingEncoder.java:10-20 | two commands always have a key release between them |
| Encoders.EncodedMeans | src/supervisor.c:66-76 | what the encoder writes for an event is one whole line that the supervisor classifies as that event, or nothing |
| Encoders.KeyLines | kindlet/src/com/besteffortlabs/shairkindle/NowPlayingEncoder.java:10-28 | the bytes a first press of each key code puts on the wire |
| Encoders.EndToEnd | src/supervisor.c:80-104 | for every event sequence and every cut into reads, the supervisor's events are exactly the encoder's lines in order |
| Scan.CString | src/supervisor.c:66-67 | the text up to the first NUL |
| LineBuffers.Trim | src/supervisor.c:68-68 | the text without the CR and LF at its end |
| LineBuffers.PushConcat | src/supervisor.c:80-104 | line buffering commutes with concatenation |
| LineBuffers.BufferIsReference | src/supervisor.c:80-104 | for every stream the events are those of its complete lines of at most 511 bytes; longer lines vanish whole |
| LineBuffers.ReadsAreOneStream | src/supervisor.c:80-104 | the events of successive reads are those of the whole stream |
| LineBuffers.AtMostOneEventPerByte | src/supervisor_main.c:324-325 | at most one event a byte, so 256 event slots suffice for a read of 256 bytes |
| LineBuffers.LineBuffer.constructor | src/supervisor.c:78-78 | an empty buffer |
| LineBuffers.LineBuffer.Push | src/supervisor.c:80-104 | on the 512-byte array, the buffer and events of the specification, cut at the event cap, which a read within the cap never meets |
| LineBuffers.LineBuffer.PushOne | src/supervisor.c:85-101 | one byte: stored, completing a line, starting to discard, or discarded |
| SupervisorModel.AlternateIff | src/supervisor.c:31-64 | START and STOP alternate if and only if no connection is accepted during a lease |
| SupervisorModel.TickIff | src/supervisor.c:53-59 | in every run a tick ends the lease if and only if more than 30000 ms have passed since the last accept, heartbeat or command |
| SupervisorModel.TickEndsOnlyAfterSilence | src/supervisor.c:53-59 | with a clock that does not run backwards, every sign of life is then more than 30000 ms old |
| SupervisorModel.SessionLog | src/supervisor_main.c:289-347 | every session starts the receiver once, relays in order the commands acted on, tears down exactly once, and relays nothing after that; the lines acted on are the first lines of the byte stream |
| SupervisorRuns.RoundEndsIff | src/supervisor_main.c:299-340 | a round ends a live lease if and only if it has been silent for more than 30000 ms, the connection is gone, or a STOP line arrived; lines are acted on up to the first STOP, and none after a timeout |
| SupervisorRuns.FailedPollIsLast | src/supervisor_main.c:299-320 | a failed poll is the last round, and every other round of a live lease is followed by the next |
| SupervisorRuns.UnstartedServesNothing | src/supervisor_main.c:280-298 | a session whose receiver did not start is torn down without a line being read |
| SupervisorRuns.SessionsAreCounted | src/supervisor.c:31-40 | sessions are numbered by the connections accepted |
| SupervisorRuns.IdleStays | src/supervisor.c:41-64 | nothing but a connection moves an idle supervisor |
| SupervisorRuns.WordIsHeard | src/supervisor.c:66-76 | a word is heard with any CR and LF behind it and whatever a NUL cuts off |
| SupervisorRuns.Vocabulary | src/supervisor.c:66-76 | exactly which texts are STOP, NEXT, PREV, PLAYPAUSE and signs of life; everything else is passed over |
| Supervisors.Supervisor.constructor | src/supervisor.c:25-29 | idle, nothing torn down |
| Supervisors.Supervisor.Step | src/supervisor.c:31-64 | state and order of the model's step |
| Supervisors.Supervisor.TearDownOnce | src/supervisor_main.c:205-211 | the second teardown does nothing |
| Supervisors.Supervisor.StepAndAct | src/supervisor_main.c:216-220 | a stop order tears down |
| Supervisors.Supervisor.ActOnLines | src/supervisor_main.c:326-339 | the loop relays and steps line by line and stops at the first that ends the lease |
| Supervisors.Supervisor.OneRound | src/supervisor_main.c:299-340 | one round of the loop: tick, poll outcome, read |
| Supervisors.Supervisor.RunSession | src/supervisor_main.c:289-347 | the whole session is the model's, and its log is start, relays, one teardown |
| Silence.NeverSilentIff | kindlet/src/com/besteffortlabs/kindletshell/LeaseConnection.java:130-153 | for every event sequence, interval and limit: at every pace of the writer the wire is silent for at most the limit, up to the present, if and only if no frame that is written and the silent ones after it take more than the limit in whole intervals |
| Silence.HeartbeatIff | kindlet/src/com/besteffortlabs/kindletshell/LeaseConnection.java:130-153 | the silence is bounded by the heartbeat interval itself if and only if, from the first frame written on, every frame encodes to something |
| Silence.TickEndsIff | src/supervisor.c:53-59 | in every interleaving of frames and ticks, a tick ends a live lease if and only if the last frame that was written is more than 30000 ms old |
| Silence.SurvivesIff | src/supervisor.c:31-64 | after HELLO, the lease stays alive at every pace and under every choice of ticks if and only if no silent stretch is more than 30000 ms of intervals long, which is if and only if the wire is never silent for longer |
| Silence.LeaseSurvivesIff | kindlet/src/com/besteffortlabs/kindletshell/LeaseConnection.java:113-155 | the same for the frames handed over in every run of a lease, which always begin with HELLO |
| Silence.HeldKeyEndsTheLease | kindlet/src/com/besteffortlabs/shairkindle/NowPlayingEncoder.java:14-18 | a key held down with n repeats, all of them silent, can cost the lease if and only if n + 1 intervals are more than 30000 ms |
| ControlLine.LeaseInside | kindlet/src/com/besteffortlabs/kindletshell/LeaseConnection.java:113-155 | the lease with this encoder runs as the lease model says |
| ControlLine.RunKeepsWire | kindlet/src/com/besteffortlabs/kindletshell/LeaseConnection.java:166-184 | the bytes on the connection are what the encoder makes of the frames handed to it, up to a write that failed |
| ControlLine.HandedAsIssued | kindlet/src/com/besteffortlabs/kindletshell/LeaseConnection.java:78-90 | every frame handed over carries the event that was issued its number |
| ControlLine.FromKeyToRelay | src/supervisor_main.c:324-339 | in every run of producers, writer, close() and session, the lines acted on are the first of those encoded, and exactly their commands are relayed, in order |

## Left out

- Counters that only grow (generations, session ids, lease numbers, art serials, the ring's generation tag and 64-bit packet numbers) are naturals: their wrap-around is not modelled.
- `long` is 32 bits wide, as on the device, so the largest Content-Length is 2147483647.
- Clock sums are assumed to fit 64 bits, and times to lie below 2^32 seconds where they are turned into NTP form.
- Servers.RtspSession.Handle: header text, SDP text and volume text arrive already read (their presence or validity is an input) and the reply is its status and ports, because the rest is bounded printing; Apple-Challenge answers are not modelled.
- Connections.Connection.HandleMessage: the reply and the state machine behind it are replaced by one choice, whether the connection ends, so that framing is proved for every server behaviour.
- BodyCapture.Capture.Feed: a file is a log of bytes; whether it opens, how many bytes of it the disk takes and whether it is renamed are inputs, and names, fsync and the removal of a failed file are not modelled.
- SessionSections.Session.TakeTurn: decoding, sink contents and the stop flag are not modelled; a write is a number of samples accepted, as the sink promises.
- LeaseModel.EveryNumberOnce: the number the writer is committed to but has not encoded (HELLO of a lease closed before its writer ran included) is a place of its own beside handed over, queued and dropped.
- LeaseModel.HandedInOrderIff: start() is called once on a lease, as the Kindlet does; a second call, which would start a second writer, has no effect in the model.
- LeaseModel.DownOnlyAfterUp: covers the latches, not the order of the listener callbacks, which run outside the lock.
- Silence.NeverSilentIff: the writer is taken to wake when its timer runs out and to encode and write in no time; scheduling delays come on top of the interval.
- Silence.HeldKeyEndsTheLease: the input router is taken to pass a held key's repeats on as presses.
- KindletRuns.NoLeaseIsLost: closing is the shell's own call of close(); a lease that closes itself on a write error, thread interrupts, and the router's lease on a re-start without stop are not modelled.
- RenderModel.PaintsAreRight: a renderer that was started counts as having drawn, as the worker itself assumes.
- Dacp.DacpState.Guard: the window between the guard and the connection is outside the model, as it is outside the lock.
- The timing request and reply exchange, sync packets and the big-endian packet codecs of src/rtp.c: only the resend request's number and count are modelled.
- SDP line and integer parsing, and the cookie it builds: easy members beside the size check and the frame length bound.
- The debounce table of src/dacp.c and its HTTP exchange.
- Encryption, RSA and ALAC decoding: wrappers over libraries that are not part of this model.
- Sockets, poll, fork, pid files, file locks, the firewall scripts, mDNS announcement and the audio sink's pipes: operating system effects, present only as outcomes.
- The Kindlet's user interface, payload installer, permissions, launcher and input router.
- src/raop_txt.c, src/raop_mdns_wire.c, src/raop_name.c, src/raop_volume.c and src/daap.c: small members that would only add easy proofs.
