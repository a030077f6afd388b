# esp-frp in Dafny

A model of the parts of esp-frp whose behaviour is hard to see from one function, and proofs of what
those parts keep. esp-frp is an FRP client for ESP32 devices (C, `src/`) with an FRP server it is
paired with (Go, `peer/frp/`).

`dafny verify dfyconfig.toml` checks everything. The modules, by part of the system:

- **Yamux** (`Yamux*.dfy`): the stream multiplexer. `YamuxModel` gives each call as a function on an
  immutable state, branch by branch; `YamuxMux` is the object with its rings, control queue and
  output buffer, each method proved to take the model's step. `YamuxFrames` is an independent parser
  of byte strings into frames; `YamuxRuns` proves, over every sequence of calls, credit conservation,
  in-order delivery, the language of the emitted frames and the exactness of the deadline; `YamuxSession`
  carries that over to the object.
- **Control handoff** (`Control*.dfy`): the Go server's control manager as a state machine. Each
  lock, channel operation and plain access under a lock is a step, and any number of logins, workers,
  heartbeats, work connections and closing calls interleave. The invariant is kept rely-guarantee
  style: each step for its own thread, and for what all others rely on.
- **Flash store** (`Flash*.dfy`): the lease store, with callbacks that race on its guard and its
  quarantine flag, over a storage owner and a driver that may fail at any point.
- **AEAD stream** (`Aead*.dfy`): writer, incremental reader and the two-pass store decryption.
  The cipher is an uninterpreted suite with the laws of a stream cipher with a tag (decryption undoes
  encryption, keeps lengths and works from the front; a tag has sixteen bytes) and a hash without
  collisions; the store behind the reader is free to change between passes.
- **Work streams** (`Work*.dfy`, `UdpFeed.dfy`): TCP forwarding with partial reads and writes,
  admission of at most one stream at a time, and the UDP receive loop.
- **Client** (`Client*.dfy`): start, stop and destroy against the worker, interleaved.
- **Framing and handshake** (`Wire*.dfy`, `Handshake.dfy`).
- **Codecs** (`Utf8`, `UdpCodec`, `Base64`, `Endpoint`, `Manifest`).

Sockets, clocks, randomness, the heap and the cipher are parameters: every theorem holds for all of
their answers.

Two places where the code does less than one might expect of it, each with the exact condition:

- After `ControlManager.Close` has returned, a control can still be Running. A second concurrent call
  finds the map already emptied by the first one and returns while the first is not done
  (`ControlSafety.SecondCloseReturnsEarly`). A call keeps its promise if and only if every Running
  control is in the map when the call takes its list (`ControlClose.CloseExact`); a call on an open
  manager always does.
- Decoding and re-encoding a UDP frame need not reproduce it. A frame may carry an IPv4-mapped
  address in IPv6 form, which the encoder shortens (`UdpCodec.MappedShortens`), or refuses with a zone
  (`UdpCodec.MappedRefused`). It is reproduced if and only if neither address is mapped
  (`UdpCodec.Reencode`).

## Model

| member | source | states |
|---|---|---|
| `YamuxRuns.CreditConservation` | src/yamux.c:126-386 | in every reachable state, for each live stream: receive credit + undelivered bytes of its active frame + bytes in its ring + credit to return + grant in flight = 262144 |
| `YamuxRuns.GuardsUnreachable` | src/yamux.c:159-386 | so the credit overflow exit of the consume call and the missing-stream exit of the feed loop are unreachable |
| `YamuxRuns.OneStalled` | src/yamux.c:341-386 | in every reachable state a stalled stream has a full ring and owns the active frame, so at most one stream is stalled |
| `YamuxRuns.InOrderDelivery` | src/yamux.c:206-386 | for every split of the input into feed calls and every interleaving: the bytes read from a stream are a prefix of the payload of its DATA frames, as an independent parser finds them in the bytes fed, and a live stream holds exactly the rest |
| `YamuxRuns.EofMeansAll` | src/yamux.c:206-225 | EOF is answered only when FIN was received and everything was read |
| `YamuxRuns.EmittedLanguage` | src/yamux.c:54-316 | the bytes that left, parsed back: per stream SYN first, no DATA or second FIN after FIN, nothing after RST; opened ids odd and strictly increasing; an even id gets one RST at most and nothing else; the DATA bodies are exactly what the write calls accepted and stay within 262144 plus the received window increments |
| `YamuxRuns.DeadlinesInRuns` | src/stream_yamux.c:31-48 | in every reachable state a tick fails the session or resets a stream if and only if the time has reached the deadline the transport computes |
| `YamuxDeadline.DeadlineExact` | src/yamux.c:394-435 | the same equivalence for every state that satisfies the invariant |
| `YamuxDeadline.TickActs` | src/yamux.c:394-435 | an expired stream is reset by the tick, or the session fails |
| `YamuxDeadline.TickIdle` | src/yamux.c:394-435 | without an expired stream the scan of the tick changes nothing |
| `YamuxRuns.RunInv` | src/yamux.c:73-435 | every sequence of calls from the initial state keeps the conjunction of the credit, delivery, wire and language invariants |
| `YamuxRuns.OpenInv` | src/yamux.c:88-108 | opening a stream keeps the invariants |
| `YamuxRuns.OutputInv` | src/yamux.c:126-157 | filling the output slot keeps the invariants |
| `YamuxRuns.ConsumeInv` | src/yamux.c:159-176 | partial and complete consumption of output keeps them |
| `YamuxRuns.WriteInv` | src/yamux.c:178-204 | writing keeps them |
| `YamuxRuns.ReadInv` | src/yamux.c:206-225 | reading keeps them, including the credit moved from the ring to the return account |
| `YamuxRuns.CloseWriteInv` | src/yamux.c:227-237 | half-closing keeps them |
| `YamuxRuns.ResetInv` | src/yamux.c:239-248 | resetting keeps them |
| `YamuxRuns.ReleaseInv` | src/yamux.c:250-260 | releasing a slot keeps them |
| `YamuxRuns.PingInv` | src/yamux.c:262-269 | a ping keeps them |
| `YamuxRuns.GoAwayInv` | src/yamux.c:271-278 | a go-away keeps them |
| `YamuxRuns.FeedInv` | src/yamux.c:341-386 | feeding any bytes keeps them |
| `YamuxRuns.TickInv` | src/yamux.c:394-435 | a tick keeps them |
| `YamuxInvariant.FeedBase` | src/yamux.c:341-386 | a feed call terminates from every valid state, keeps the structural invariant and never looks for a stream that is not there |
| `YamuxInvariant.StartFrameBase` | src/yamux.c:287-339 | acting on a complete header keeps the structural invariant; credit is charged for the whole DATA frame at once |
| `YamuxDelivery.FeedIn` | src/yamux.c:341-386 | the ring contents and the FIN marks after a feed are those of the parsed input |
| `YamuxDelivery.ReadEof` | src/yamux.c:206-225 | EOF is answered only after FIN, with everything read |
| `YamuxLanguage.PhaseMeaning` | src/yamux.c:178-248 | the per-stream automaton accepts a frame sequence if and only if it is orderly: for our ids SYN first, flags only on window frames, no DATA or second FIN after FIN, nothing after RST; for the peer's ids one RST and nothing else |
| `YamuxLanguage.LoadWire` | src/yamux.c:126-157 | a frame that enters the output slot appends exactly its encoding to the emitted bytes |
| `YamuxLanguage.RefusalFrame` | src/yamux.c:312-316 | a stream the peer opens is refused with one RST |
| `YamuxFrames.Encode` | src/yamux.c:16-25 | a header is twelve bytes and decodes to itself |
| `YamuxFrames.PayloadAppend` | src/yamux.c:341-386 | complete frames parse independently of what follows them |
| `YamuxFrames.PayloadGrows` | src/yamux.c:341-386 | more input only extends the payload of a stream |
| `YamuxSender.EncodeDecode` | src/yamux.c:12-25 | a decoded header encodes to the bytes it was read from |
| `YamuxModel.Find` | src/yamux.c:48-53 | the stream lookup finds a slot with the id if there is one, never for id 0 |
| `YamuxModel.Queue` | src/yamux.c:54-62 | a control frame is queued if one of the slots is free, otherwise nothing changes |
| `YamuxMux.Yamux.constructor` | src/yamux.c:73-76 | a fresh multiplexer is the initial state of the model |
| `YamuxMux.Yamux.Open` | src/yamux.c:88-108 | the object with its rings, control queue and output buffer takes the model's step, result and id |
| `YamuxSession.Perform` | src/yamux.c:54-316 | any call on the object moves its state and answers exactly as the model does |
| `YamuxSession.Drive` | src/yamux.c:54-316 | a new object after any sequence of calls stands at the end of the run of those calls, so the run results hold of it; stated on the object and on the user's own notes of its answers: windows are conserved, what was read is a prefix of what the fed frames carry, what was sent is a prefix of what was accepted, and that stays within the granted credit |
| `YamuxSession.StepOutcome` | src/yamux.c:54-316 | a step of a run changes the state as the call does and logs what the user of the call sees |
| `YamuxMux.Yamux.Output` | src/yamux.c:126-157 | refines the model: control frames first, then grants round robin |
| `YamuxMux.Yamux.ConsumeOutput` | src/yamux.c:159-176 | refines the model, including the grant that takes effect when its frame is gone |
| `YamuxMux.Yamux.Write` | src/yamux.c:178-204 | refines the model: control frames and alternate grants go before data |
| `YamuxMux.Yamux.Read` | src/yamux.c:206-225 | refines the model |
| `YamuxMux.Yamux.CloseWrite` | src/yamux.c:227-237 | refines the model |
| `YamuxMux.Yamux.Reset` | src/yamux.c:239-248 | refines the model |
| `YamuxMux.Yamux.Release` | src/yamux.c:250-260 | refines the model |
| `YamuxMux.Yamux.Ping` | src/yamux.c:262-269 | refines the model |
| `YamuxMux.Yamux.GoAway` | src/yamux.c:271-278 | refines the model |
| `YamuxMux.Yamux.EndFrame` | src/yamux.c:280-285 | refines the model |
| `YamuxMux.Yamux.StartFrame` | src/yamux.c:287-339 | refines the model: every header check in source order |
| `YamuxMux.Yamux.Feed` | src/yamux.c:341-386 | the loop ends in the state, result and count of the recursive model |
| `YamuxMux.Yamux.Tick` | src/yamux.c:394-435 | refines the model |
| `YamuxMux.Yamux.NextDeadline` | src/stream_yamux.c:31-48 | computes the model's deadline |
| `YamuxRing.Ring.Put` | src/yamux.c:375-380 | two copies around the end of the array append the bytes to the ring's contents |
| `YamuxRing.Ring.Take` | src/yamux.c:206-225 | two copies around the end of the array remove the oldest bytes |
| `YamuxRing.ControlQueue.Put` | src/yamux.c:54-62 | appends an encoded frame to the circular queue |
| `YamuxRing.ControlQueue.Take` | src/yamux.c:132-137 | removes the oldest frame |
| `YamuxTable.StreamTable.GrantSlot` | src/yamux.c:138-151 | the next slot with credit to return, scanning around from the cursor |
| `YamuxTable.StreamTable.Take` | src/yamux.c:206-225 | reads from one slot's ring and leaves the others alone |
| `YamuxSender.Sender.Queue` | src/yamux.c:54-62 | the control queue in memory follows the model |
| `ControlSafety.RunningAlone` | peer/frp/server/control.go:83-270 | in every interleaving of logins, replacements, heartbeats, worker exits and manager closes: while a control of a run is Running, every other generation of the run has closed its work channel and proxies or never started, and none of them is Running |
| `ControlSafety.SessionsNeverOverlap` | peer/frp/server/control.go:709-751 | of two generations of one run, at most one has a session that is not yet quiet, even while both are being closed |
| `ControlSafety.RunningIsCurrent` | peer/frp/server/control.go:177-250 | while the manager is open, a Running control is the one its run is routed to, has waited for its predecessor and was activated |
| `ControlSafety.ChannelSafety` | peer/frp/server/control.go:309-339 | no send on a closed work channel or to a control that is not current; each of the two channels is closed at most once; the connections handed out or drained, then those in the channel, are exactly the registered ones in order; after the end none is left |
| `ControlClose.CloseExact` | peer/frp/server/control.go:341-355 | for any Close call, from the moment it takes its list under the manager's lock: no control is Running in any continuation in which the call has returned, if and only if every Running control is in the manager's map at that moment; an open manager always meets this |
| `ControlClose.RoutedSettles` | peer/frp/server/control.go:341-355 | if the map holds every Running control when a call takes its list, nothing runs once the call has returned |
| `ControlClose.SettlesRouted` | peer/frp/server/control.go:341-355 | if it does not, some continuation lets the call return while a control runs |
| `ControlEscape.Escapes` | peer/frp/server/control.go:341-355 | a call that has not listed a Running control can always come to its end while that control runs: whoever holds a gate or a lifecycle lock in its way can leave |
| `ControlGates.RunHeld` | peer/frp/server/control.go:83-107 | in every run a taken run gate is held by a goroutine inside the critical section of that gate |
| `ControlSafety.NoneRunningAfterClose` | peer/frp/server/control.go:341-355 | the same for the call that closed the manager, in its own terms: once it has returned, no control is Running in any continuation |
| `ControlSafety.SecondCloseReturnsEarly` | peer/frp/server/control.go:341-355 | a run in which a second, concurrent Close call has returned while a control is still Running |
| `ControlRuns.RunInv` | peer/frp/server/control.go:83-355 | every run keeps the invariant over gates, entries, controls and threads |
| `ControlLogin.BarrierCovers` | peer/frp/server/control.go:111-173 | the barrier a new control inherits stands for the one session of its run that is not quiet |
| `ControlLogin.AddInv` | peer/frp/server/control.go:111-173 | adding a control under its predecessor's gate keeps the invariant |
| `ControlLogin.AwaitInv` | peer/frp/server/control.go:521-528 | passing the barrier keeps it: every earlier session of the run is quiet |
| `ControlLogin.StartInv` | peer/frp/server/control.go:537-550 | starting keeps it: the control is current, has waited and has no rival |
| `ControlLogin.WriteInv` | peer/frp/server/control.go:228-250 | writing the login response, with either outcome, keeps it |
| `ControlLogin.LoginInv` | peer/frp/server/service.go:773-863 | every step of a login keeps it |
| `ControlSteps.LookupInv` | peer/frp/server/control.go:83-107 | looking an entry up keeps it |
| `ControlSteps.CheckInv` | peer/frp/server/control.go:83-107 | rechecking the entry under its gate keeps it |
| `ControlSteps.ActivateInv` | peer/frp/server/control.go:177-222 | activation, with either outcome, keeps it |
| `ControlSteps.CompleteInv` | peer/frp/server/control.go:228-250 | completing a login keeps it |
| `ControlSteps.RemovalInv` | peer/frp/server/control.go:253-270 | removing an entry keeps it |
| `ControlSteps.RemoverQuiet` | peer/frp/server/control.go:253-270 | whoever removes a control from the open manager leaves a quiet run behind |
| `ControlSteps.DeliverInv` | peer/frp/server/control.go:309-339 | registering a work connection keeps it |
| `ControlRuns.WorkerInv` | peer/frp/server/control.go:709-751 | every step of a worker's exit keeps it |
| `ControlRuns.CloserInv` | peer/frp/server/control.go:341-355 | every step of a manager close keeps it |
| `ControlRuns.CloseCtlInv` | peer/frp/server/control.go:552-563 | closing one control of the list keeps it |
| `ControlRuns.HeartbeatInv` | peer/frp/server/control.go:665-678 | a heartbeat close keeps it |
| `ControlRuns.TakeInv` | peer/frp/server/control.go:621-663 | handing out a work connection keeps it |
| `FlashSafety.LeaseIsolation` | src/idf_flash_store.c:190-210 | a read that succeeded under a lease made a read of its own in the log, and returned, at every position, the last byte stored there under that lease before it, or erased Flash, however the callbacks raced |
| `FlashSafety.LeasesIncrease` | src/idf_flash_store.c:136-168 | every granted lease number is larger than every lease used before it |
| `FlashSafety.GrantErasesAll` | src/idf_flash_store.c:54-78 | the store becomes leased only in the step of a begin that holds the guard, erases the last of the sixteen sectors cleanly, and finds all of them erased |
| `FlashSafety.QuarantineStands` | src/idf_flash_store.c:11-34 | a begin, read or write that entered under a standing quarantine request does not succeed |
| `FlashSafety.QuarantineHolds` | src/idf_flash_store.c:11-34 | over whole runs: after a contended clear has raised the flag, and while no recovery and no clear of the active lease succeeds, a begin, read or write that enters does not return OK, whatever happens after it entered |
| `FlashSafety.QuarantineLifted` | src/idf_flash_store.c:115-134 | the step that ends a quarantine request is the success of a recovery or of a clear of the active lease |
| `FlashSafety.RunInv` | src/idf_flash_store.c:11-238 | every run of racing callbacks keeps the invariant |
| `FlashSafety.StoreCore` | src/idf_flash_store.c:80-98 | a store under the active lease changes the Flash and the lease's image alike |
| `FlashSafety.LoadCore` | src/idf_flash_store.c:100-107 | a read under the active lease returns its image |
| `FlashSafety.GrantCore` | src/idf_flash_store.c:136-168 | a grant over erased Flash starts with an empty image |
| `FlashSafety.CommitInv` | src/idf_flash_store.c:212-238 | ending a begin or a clear keeps the invariant |
| `AeadEndToEnd.EndToEnd` | src/aead_flash.c:90-213 | a reader fed any part of a writer's output, in any chunks, over an honest store, has handed out a prefix of the plaintext the writer accepted, and all of it once all was sent, fed and read |
| `AeadEndToEnd.TamperedInTransit` | src/aead_flash.c:90-213 | whatever bytes a reader was fed and whatever its store did, if every record that verified carried the ciphertext the writer sealed under that nonce, it has handed out a prefix of what the writer accepted |
| `AeadEndToEnd.Delivered` | src/aead_flash.c:90-213 | the same for the reader's records and history |
| `AeadEndToEnd.WriterNonces` | src/aead.c:20-30 | record k of a writer is sealed under the stream nonce plus k as a 96-bit number, below the last value, and no nonce is used twice |
| `AeadEndToEnd.ReaderNonces` | src/aead_flash.c:6-22 | record k of a reader verified under its stream nonce plus k, below the last value, and no nonce is used twice |
| `AeadEndToEnd.NoncesAgree` | src/aead_flash.c:90-107 | a reader fed by a writer counts from the writer's stream nonce, so record k has the same nonce on both sides |
| `AeadNonce.Increment` | src/aead.c:20-24 | adds one in place to the big-endian counter; false exactly when it wrapped |
| `AeadNonce.Available` | src/aead.c:25-30 | true exactly when records are left and the nonce is not the last one |
| `AeadNonce.NextNonce` | src/aead_flash.c:6-10 | the next nonce of the reader; false exactly when it wrapped |
| `AeadNonce.AtValue` | src/aead_flash.c:6-10 | k increments without wrap-around add k |
| `AeadNonce.NoncesDistinct` | src/aead_flash.c:6-22 | two records of one stream have different nonces |
| `AeadNonce.ValueInjective` | src/aead.c:20-24 | equal counter values are equal bytes |
| `AeadWriter.Writer.constructor` | src/aead.c:70-80 | a fresh writer has sent nothing |
| `AeadWriter.Writer.Write` | src/aead.c:81-100 | accepts a prefix as one sealed record under the next nonce; succeeds whenever the writer is sound and idle, the cipher works and a nonce is left; the exhaustion exit after the increment is unreachable |
| `AeadWriter.Writer.Output` | src/aead.c:101-110 | the bytes still to be sent |
| `AeadWriter.Writer.ConsumeOutput` | src/aead.c:111-118 | the bytes sent so far plus those left are the stream nonce and all sealed records |
| `AeadAlign.Align` | src/aead_flash.c:90-166 | whatever records a reader has cut from a prefix of a writer's bytes are the writer's records, and the rest begins its next one |
| `AeadAlign.Split` | src/aead_flash.c:90-166 | framed records at the start of a flattened list are that list's own |
| `AeadSuite.SoundExists` | src/aead.c:81-100 | the laws asked of the cipher suite can all be met at once |
| `AeadStore.WorldExists` | src/crypto_psa.c:177-264 | a store can be honest about any ciphertext and a library can work on it |
| `AeadSuite.SealOpens` | src/aead.c:81-100 | a sealed record opens to its plaintext under the same nonce and header |
| `AeadStore.CopyWindow` | src/crypto_psa.c:168-176 | exactly the part of a plaintext piece that falls into the window is copied there |
| `AeadStore.Stream` | src/crypto_psa.c:177-264 | the pass over the store decrypts one ciphertext, however few bytes the cipher gives out per update |
| `AeadStore.DecryptStore` | src/crypto_psa.c:177-264 | success means that one ciphertext of the right length was read whose tag and, if given, digest are right, and that the window holds its plaintext; on failure the window is wiped |
| `AeadStore.DecryptWindow` | src/crypto_psa.c:117-166 | decrypts a small record in place: success means its tag was right and the window holds its plaintext; with a working library a genuine record succeeds |
| `AeadStore.SameDigest` | src/aead_flash.c:76-89 | equal digests of one record are of one ciphertext |
| `AeadReader.Reader.constructor` | src/aead_flash.c:54-68 | a fresh reader |
| `AeadReader.Reader.TakeNonce` | src/aead_flash.c:100-107 | collects the stream nonce |
| `AeadReader.Reader.TakeHeader` | src/aead_flash.c:108-127 | collects a record header and starts the record |
| `AeadReader.Reader.StartRecord` | src/aead_flash.c:114-127 | checks the length and the nonces left and chooses window or store |
| `AeadReader.Reader.TakeBody` | src/aead_flash.c:131-144 | ciphertext goes to the window or the store, in order |
| `AeadReader.Reader.TakeTag` | src/aead_flash.c:141-145 | tag bytes go to the tag, in order; with the last one the record is complete |
| `AeadReader.Reader.TakeBytes` | src/aead_flash.c:131-145 | takes one or the other, as much as there is |
| `AeadReader.Reader.Verify` | src/aead_flash.c:146-155 | a complete record verifies against its tag in the window, or by a pass over the store that records the digest |
| `AeadReader.Reader.FinishRecord` | src/aead_flash.c:146-163 | a verified record waits to be read, an empty one is passed over; an honest record with an honest store and a working library does not fail |
| `AeadReader.Reader.Conclude` | src/aead_flash.c:157-163 | moves on to the next nonce, which never wraps, so the exhaustion exit after the increment is unreachable |
| `AeadReader.Reader.Feed` | src/aead_flash.c:90-166 | consumes everything unless a record is waiting; what was fed is the nonce, the finished records and the unfinished one; it cannot fail on an honest writer's bytes with a sound store and cipher |
| `AeadReader.Reader.Refill` | src/aead_flash.c:167-191 | a later pass over a store that may have changed fails or exposes the next piece of the plaintext that verified first |
| `AeadReader.Reader.Plaintext` | src/aead_flash.c:167-191 | what is exposed continues what was taken without gap or overlap |
| `AeadReader.Reader.Consume` | src/aead_flash.c:192-213 | what is consumed is appended to what was taken and wiped; the record ends with its last byte |
| `AeadReader.Reader.AtHand` | src/aead_flash.c:167-213 | the record at hand and the one ciphertext that verified for it |
| `AeadReader.ExposedNext` | src/aead_flash.c:167-213 | taken plus exposed bytes are a prefix of the plaintext that verified, also with a changing store |
| `WorkAdmission.Admit` | src/work.c:312-388 | the bytes received so far are one accepted admission frame, byte for byte, and what forwarding starts with; until the frame is complete forwarding does not start |
| `WorkForward.Forwarder.constructor` | src/work.c:385-387 | forwarding starts with the bytes given to it |
| `WorkForward.Forwarder.Forward` | src/work.c:536-608 | what a source gave is taken into its buffer if that was empty and not at its end, and never otherwise; while the stream stays up or closes regularly, both directions took exactly that and passed on the front of what they held, as much as the sink took; each side gets a prefix of what the other side sent, in order; a FIN is sent only after every byte of its direction; a stream that closes regularly has delivered everything both ways |
| `WorkForward.Forwarder.TowardsLocal` | src/work.c:557-581 | what came in is exactly what the stream gave to an empty buffer, what went out is the front of what was held, and the other direction is left alone |
| `WorkForward.Forwarder.TowardsStream` | src/work.c:582-602 | the same for the other direction |
| `WorkForward.Forwarder.Connect` | src/work.c:539-544 | the local connection comes up, stays pending or closes the work stream |
| `WorkForward.Forwarder.CheckDeadlines` | src/work.c:545-556 | an idle or stalled stream closes with a timeout; otherwise nothing changes |
| `WorkForward.Forwarder.PullStream` | src/work.c:557-565 | only an empty buffer is refilled, with exactly what the stream gave |
| `WorkForward.Forwarder.PushLocal` | src/work.c:566-572 | the local socket gets the front of the buffer, as much as it took |
| `WorkForward.Forwarder.PullLocal` | src/work.c:582-590 | only an empty buffer is refilled, with exactly what the socket gave |
| `WorkForward.Forwarder.PushStream` | src/work.c:591-597 | the stream gets the front of the buffer, as much as it took |
| `WorkForward.Forwarder.FinishLocal` | src/work.c:573-581 | the local side is half-closed only after the last byte |
| `WorkForward.Forwarder.FinishStream` | src/work.c:598-602 | the stream is half-closed only after the last byte |
| `WorkForward.Forwarder.Close` | src/work.c:196-210 | closing forgets buffered bytes and changes nothing that was delivered |
| `WorkForward.Forwarder.Prefixes` | src/work.c:536-608 | the two prefix laws, read off the invariant |
| `WorkSet.OneAdmission` | src/work.c:609-665 | in every run at most one of the three slots is being admitted |
| `WorkSet.ParserOwned` | src/work.c:312-388 | the shared parser buffer belongs to the stream in admission and no stream used another's |
| `WorkSet.TwoSockets` | src/work.c:609-665 | there are never three local sockets |
| `WorkSet.RunInv` | src/work.c:281-388 | every run keeps the slot invariant |
| `UdpFeed.UdpWork.constructor` | src/work.c:62-75 | the buffer holds one configured datagram and the largest header, within one frame |
| `UdpFeed.UdpWork.TakeHeader` | src/work.c:395-405 | eight header bytes are judged as soon as they are there; a refused header refuses every message that begins with it |
| `UdpFeed.UdpWork.Keep` | src/work.c:406-411 | what fits of the payload is kept, in order, and nothing is written past the buffer |
| `UdpFeed.UdpWork.Validate` | src/work.c:412-420 | the header is decoded from the kept prefix once; a refusal holds for every completion of the frame |
| `UdpFeed.UdpWork.Finish` | src/work.c:421-434 | a complete message always has a decoded header and decodes whole, so the two error exits there are unreachable; its datagram waits unless it is larger than configured |
| `UdpFeed.UdpWork.Feed` | src/work.c:389-437 | takes bytes up to the end of one message and never past the buffer; a message is dropped exactly when its datagram is larger than configured; an error is the error of every message that begins with the bytes taken; nothing is taken while a datagram waits |
| `UdpFeed.UdpWork.Release` | src/work.c:505-511 | the delivered datagram is forgotten and the buffer cleared |
| `UdpFeed.CutsDoNotMatter` | src/work.c:389-437 | two receivers that took the same bytes, in any chunks, received the same messages and dropped the same datagrams |
| `UdpFeed.FailureIsFinal` | src/work.c:389-437 | if one receiver failed after whole messages and a refused beginning, no receiver of the same bytes accepts a message beyond them |
| `UdpFeed.FailuresAgree` | src/work.c:389-437 | two receivers of the same bytes that both failed, wherever the chunks were cut, accepted the same messages and failed with the same error |
| `UdpFeed.OneRefusal` | src/work.c:389-437 | two failures on the same message are the same error, wherever the chunks were cut |
| `UdpFeed.SplitUnique` | src/work.c:396-413 | a byte stream splits into whole messages and a beginning in one way only |
| `UdpFeed.PrefixDecides` | src/work.c:62-75 | a prefix as long as the buffer always decides the datagram header |
| `ClientSafety.CommandsFit` | src/client.c:458-512 | in every run at most two commands are queued, so the error exits for a full queue are unreachable |
| `ClientSafety.StartTakenAtRest` | src/client.c:276-297 | the worker takes a start only when it is stopped, with nothing left to free |
| `ClientSafety.StopMeansStopped` | src/client.c:470-488 | a stop answers OK only when the worker has freed every handle, made its last callback and completed the ticket |
| `ClientSafety.NoCallbackAfterStop` | src/client.c:51-60 | between a stop that answered OK and the next start taken there is no callback |
| `ClientSafety.CountersAddUp` | src/client.c:61-128 | the published counter is the sum, over the attempts made and one entry each, of what the session of the attempt last reported |
| `ClientSafety.ShownGrows` | src/client.c:61-128 | while the reports of a session do not go back, neither does the published counter, across attempts |
| `ClientSafety.RunInv` | src/client.c:201-297 | every interleaving of callers and worker keeps the invariant |
| `ClientSafety.StartInv` | src/client.c:458-469 | a start call keeps it and is never refused by the queue |
| `ClientSafety.StopInv` | src/client.c:470-512 | a stop or destroy call keeps it and is never refused by the queue |
| `ClientSafety.DrainTurnInv` | src/client.c:129-158 | a turn of draining, with any outcome of freeing, keeps it |
| `ClientSafety.ActiveOpen` | src/client.c:176-275 | a turn of a live attempt keeps the books and the order of events |
| `ClientSafety.DrainOpen` | src/client.c:93-128 | the first drain of an attempt takes its last report and moves it into the total: nothing stays live, the total is what is shown, and no entry is added |
| `ClientSafety.BeginOpen` | src/client.c:159-175 | a new attempt adds one entry, and fails or goes on connecting |
| `WireFrames.HeaderOf` | src/frame_reader.c:25-37 | the header carries its kind and length |
| `WireFrames.FoldSplit` | src/frame_reader.c:39-78 | reading a string in two pieces is reading it whole |
| `WireFrames.OneShot` | src/frame_reader.c:39-78 | the byte-by-byte reader finds exactly the frames, and the error, of a parser that reads the whole string at once |
| `WireFrames.RoundTrip` | src/frame_reader.c:25-78 | a printed frame is read back, whatever was read before |
| `WireFrames.Reassembly` | src/frame_reader.c:39-78 | after the magic, the bytes read are the delivered frames and the unfinished rest |
| `WireReader.FrameReader.constructor` | src/frame_reader.c:14-23 | a fresh reader, with or without a magic to expect |
| `WireReader.FrameReader.TakeMagic` | src/frame_reader.c:47-51 | one magic byte |
| `WireReader.FrameReader.TakeHeader` | src/frame_reader.c:52-63 | one header byte, with the checks of a complete header |
| `WireReader.FrameReader.TakePayload` | src/frame_reader.c:64-69 | a block of payload is its bytes one by one |
| `WireReader.FrameReader.Deliver` | src/frame_reader.c:70-75 | a complete frame is handed over once, and a refusal stops the reader |
| `WireReader.FrameReader.Feed` | src/frame_reader.c:39-87 | consumes what taking the bytes one by one would; in one-frame mode it stops right behind a delivered frame |
| `Handshake.Handshake.ConsumeOutput` | src/handshake.c:226-236 | drops exactly the bytes sent; listening starts exactly with the last one |
| `Handshake.Handshake.Feed` | src/handshake.c:237-252 | nothing is taken before the output is gone or after the second frame; a finished handshake took exactly a ServerHello and a login response, in that order, and not one byte more; a failure is the verdict on the rejected frame or what the frame reader found |
| `Handshake.Handshake.TakeResult` | src/handshake.c:275-286 | the result can be taken once |
| `Handshake.Handshake.Exactly` | src/handshake.c:139-146 | the bytes of a finished handshake are its two accepted frames |
| `Utf8.ByteRanges` | src/udp_codec.c:11-34 | accepts exactly the octet sequences of the grammar in section 4 of RFC 3629 |
| `Utf8.CodePoints` | src/json_internal.c:5-20 | accepts exactly those without a zero byte, so the two validators agree on all others |
| `Utf8.ScalarChar` | src/json_internal.c:5-20 | a scalar value in shortest form is exactly one character of the grammar |
| `Utf8.RangesAgree` | src/udp_codec.c:11-34 | the range table accepts exactly one character of the grammar |
| `UdpCodec.RoundTrip` | src/udp_codec.c:77-165 | decoding an encoded packet gives it back, with IPv4-mapped addresses as IPv4 |
| `UdpCodec.Reencode` | src/udp_codec.c:77-165 | encoding an accepted packet reproduces the frame if and only if neither address is IPv4-mapped |
| `UdpCodec.MappedShortens` | src/udp_codec.c:64-102 | a 25-byte frame that is accepted and whose packet is encoded in 13 bytes |
| `UdpCodec.MappedRefused` | src/udp_codec.c:42-52 | a frame that is accepted and whose packet cannot be encoded, because its mapped address has a zone |
| `UdpCodec.PrefixStable` | src/udp_codec.c:125-156 | any answer but would-block on a prefix stands for every longer prefix of the frame |
| `UdpCodec.PrefixBounded` | src/udp_codec.c:125-156 | 555 bytes always decide |
| `UdpCodec.TakePut` | src/udp_codec.c:64-123 | an address put is taken back, whatever follows |
| `UdpCodec.PutTaken` | src/udp_codec.c:64-123 | an address taken is put back byte for byte unless it is IPv4-mapped |
| `UdpCodec.AddressBounded` | src/udp_codec.c:104-123 | an address never needs more than 275 bytes |
| `Base64.DecodeEncode` | src/xtcp_codec.c:32-70 | every byte string is decoded from its text |
| `Base64.EncodeDecode` | src/xtcp_codec.c:50-70 | every accepted text is the text of what it decodes to: padding and stray bits are canonical |
| `Base64.EncodeText` | src/xtcp_codec.c:32-44 | the word-based loop computes the text |
| `Base64.DecodeText` | src/xtcp_codec.c:50-70 | accepts exactly the non-empty canonical texts whose bytes fit the buffer, and gives those bytes |
| `Base64.EncodeRandom` | src/handshake.c:25-36 | the handshake's 32-byte encoder computes the same text |
| `Base64.RandomValid` | src/handshake.c:37-45 | accepts exactly 44 characters with one pad and no stray bits |
| `Base64.OnePadDecodes` | src/handshake.c:37-45 | such texts are exactly the canonical texts of byte strings one short of a whole group |
| `Base64.DecodeControlId` | src/handshake.c:46-62 | accepts exactly the canonical texts of 32-byte values that are not zero, and gives the value |
| `Base64.Value` | src/xtcp_codec.c:45-49 | a value that is found is the position of the character in the alphabet; padding has none |
| `Base64.LetterValue` | src/xtcp_codec.c:45-49 | every letter of the alphabet is found at its position |
| `Endpoint.Parse` | src/xtcp_codec.c:162-171 | accepts exactly the printed texts of valid endpoints, and gives the endpoint |
| `Endpoint.ParsePrinted` | src/xtcp_codec.c:75-89 | a printed endpoint is parsed back |
| `Endpoint.PrintInjective` | src/xtcp_codec.c:75-89 | different endpoints print differently |
| `Endpoint.PrintFits` | src/xtcp_codec.c:80-84 | a printed endpoint always fits its buffer, so the error exit is unreachable |
| `Endpoint.ReadDecimal` | src/xtcp_codec.c:154-161 | reads exactly a number without leading zeros, not above the maximum, up to the first non-digit |
| `Endpoint.NumberDecimal` | src/xtcp_codec.c:154-161 | a digit string without superfluous zero is what its number prints as |
| `Manifest.Shape` | src/xtcp_binding.c:38-52 | accepts exactly manifests with a printable name, a lifetime of at most 60 seconds and no zero field |
| `Manifest.Validate` | src/xtcp_binding.c:53-58 | in addition demands the validity window |
| `Manifest.StoreU64` | src/xtcp_binding.c:28-31 | stores the eight bytes of the number |
| `Manifest.LoadU64` | src/xtcp_binding.c:32-37 | loads their number, without overflow |
| `Manifest.Encode` | src/xtcp_binding.c:73-90 | writes the eleven parts in order, or answers why not |
| `Manifest.Decode` | src/xtcp_binding.c:91-107 | accepts exactly the wire forms of well-shaped manifests inside their window; outside it answers a timeout |
| `Manifest.RoundTrip` | src/xtcp_binding.c:73-107 | an encoded manifest is decoded to itself inside its window |
| `Manifest.Reencode` | src/xtcp_binding.c:73-107 | encoding an accepted wire reproduces it byte for byte |
| `Manifest.WireInjective` | src/xtcp_binding.c:59-72 | a wire form belongs to one manifest only |

## Left out

- Sockets, DNS, TLS, QUIC, the crypto primitives and certificates: foreign calls, here nondeterministic results.
- cJSON parsing and printing: the handshake takes an arbitrary accept predicate for each of its two messages.
- The NAT probe, the XTCP controller and the XTCP messages around the manifest, base64 and endpoint codecs.
- STCP visitor and XTCP peer roles of the work set, and sending and expiry of UDP remotes: the work-set results are about the TCP provider, the UDP results about receiving.
- Registry, NAT-hole, plugin and proxy registration calls of the Go server: steps without effect on the handoff state.
- Liveness: only safety and the termination of loops are proved.
- Wiping of secrets, except where a later result depends on a buffer being wiped.
- Null pointers and calls from inside a callback (refused with an invalid-state answer): they add no state.
- YamuxMux.Yamux.Feed: input is a value, not a borrowed buffer; aliasing of the caller's memory is not modelled.
- YamuxRuns.DeadlinesInRuns: the clock does not run backwards and stays far enough from the 64-bit limit for the sums the code forms.
- AeadEndToEnd.EndToEnd: assumes a store that returns what it was given and bytes that arrive as sent; for changed bytes or any other store see AeadEndToEnd.TamperedInTransit and AeadReader.ExposedNext.
- AeadReader.Reader.Feed: the reader's finish and close calls, which only report and release, are not modelled.
- UdpCodec.RoundTrip: the codec is modelled on values; filling the output buffer in place and borrowing the input are not.
- UdpFeed.UdpWork.Feed: the progress time stamps for the stall timeout are not modelled, and the packet is a value, not a pointer into the buffer.
- AeadStore.SameDigest: the hash is idealised, with no collisions and so with no fixed length.
- ClientSafety.CountersAddUp: one counter stands for each of the summed counters, which are independent of each other; 64-bit wrap-around of the sums is not modelled.
- Base64.DecodeText: the alphabet is given by its ranges instead of a table searched by strchr.
- Endpoint.ParsePrinted: snprintf is modelled by the decimal texts it is specified to print.
