# Hypernet: a verified model of its protocols

Hypernet is a proxy node on top of libp2p. This project models, in Dafny 4.11, the parts of it that are its own logic
and proves what they promise over all inputs and all runs:

- **Framed stream layers** (`Framing`, `Pipes`, `Padding`, `Shadowsocks`, `PlainSession`, `Grpc`, `UdpTunnel`,
  `UdpOverCipher`, `Handover`). Writes become frames with random padding, nonces and cover traffic; reads re-chunk them through a
  carry-over buffer. The theorems say that bytes read, bytes buffered and bytes on the wire always make up the bytes
  written, for one layer and for the cipher stacked on the padding layer.
- **Negotiation** (`Obfs`, `Opening`, `Protocols`, `Dialing`, `EndToEnd`). The OBFS line and its clamp, the server's
  first look at a stream, the choice of a common protocol and the server's memory of it, the client's dial and fallback,
  and exactly when the two ends build stacks that understand each other and lose no byte.
- **The name system** (`Names`, `Resolving`). Ownership of names over runs of register, refresh and unregister steps,
  the refresh schedule, freshest-record selection and the resolver cache.
- **The metrics writer** (`Metrics`). A bounded queue and a batching writer that refine direct application.
- **The SOCKS5 handler** (`Socks5`) and **the provider client** (`SmartClient`).

`dafny verify dfyconfig.toml` checks everything.

## How it is built

Each component has value-level functions that follow the code branch by branch, classes and methods that follow the
code statement by statement and are proved to compute those functions, and lemmas about the functions over whole runs.
Random choices (padding lengths and bytes, nonces, dummy frames, map order, sizes of raw reads) are nondeterministic in
the methods and arbitrary inputs of the functions. Libraries are parameters with a stated law: the AEAD is a Seal/Open
pair as in sections 2.1 and 2.2 of RFC 5116 with a 16-byte tag, duration text is an inverse pair, JSON decoding,
signature checks, DHT lookups and puts, dials and the clock are inputs.

A raw stream is a finite byte string; reading past its end is the error. A read that would block is a read that happens
later, so methods are atomic steps. `Read(b)` is modelled as returning the bytes it copies into `b`.

Where the code does less than its comments say, the model follows the code and the exact condition is proved:

- `PaddingConn` delivers a write for every drawable padding if and only if the write and the minimum padding have at
  most 65535 bytes (`Padding.PaddingExact`); the gRPC-style connection if and only if the write has at most 2^20 bytes
  (`Grpc.ReadableExactly`); a datagram on the way back if and only if it has at most 65535 (`UdpTunnel.ServerWireExactly`).
- `AgreeObfs` can return a minimum above the maximum; the client accepts the reply if and only if each enabled server
  minimum is at most the smaller maximum (`Obfs.ReplyAcceptedExactly`), and `Obfs.StacksMatchExactly` says when the
  byte-carrying layers match.
- Handing the raw stream back after "OK" loses nothing over a framing layer (`Handover.OkHandover`); without one it
  loses what the raw reads brought beyond the line (`Handover.RawHandover`).
- The server looks at the first bytes of a stream through a buffered reader that it drops. A client that asks for OBFS
  loses nothing by that (`EndToEnd.AskingEndsCarryBytes`). The first frame of one that does not ask survives if and only
  if the bytes looked at are replayed and the raw reads brought no more, in general a single byte
  (`EndToEnd.SilentEndsExactly`, `Opening.LookExactly`).
- A datagram of 65520 bytes or more is refused by the cipher after its length has been sent. The server forwards what
  the client wrote if and only if there is no such datagram (`UdpOverCipher.DatagramsExactly`); on the way back the loop
  then ends, and the client gets exactly the datagrams before it (`UdpOverCipher.DatagramsBackExactly`).
- `Register` and `Unregister` take a failed DHT lookup for a free name: another node's step changes a live record if
  and only if its lookup failed and it puts all the same (`Names.NonOwnerStep`), and this and expiry are the only ways
  in which a name changes hands (`Names.OwnerChangesOnlyWhenExpired`).
- `Unregister` does not free a name for good: the owner's own refresh, which its node makes periodically, brings it
  back. `Names.UnregisterFrees` says exactly when a name comes back, `Names.RefreshRevives` gives a run.
- A refresh schedule is safe for every phase of the clock if and only if the interval rounded up to seconds is at most
  the lifetime rounded down (`Names.ScheduleExactly`).
- A cached answer can outlive its record: if and only if it was stored, in seconds rounded up, more than a minute and a
  second after the record's timestamp, or more than a second if the lifetime is a minute or less
  (`Resolving.StaleExactly`); `Resolving.ServedAfterExpiry` gives a query.
- `FlushNow` returns at once when the queue is full (`Metrics.FlushNowOnFullQueue`), and else when its operation has
  run, which is before its transaction commits (`Metrics.FlushNowBeforeCommit`, `Metrics.FlushNowReturnsEarly`). What was
  accepted before the call is committed at its return if and only if the queue had room, its operation is the first of
  its batch and no earlier transaction failed (`Metrics.FlushNowKeepsPromiseExactly`).
- `Resolve` does not compare the name in a record with the name asked for: answers are true for every delivery if and
  only if every stored value that can answer is a record of that name (`Resolving.NamesMatchExactly`);
  `Resolving.AnswersForAnother` gives a query.
- The server replies before it remembers the chosen protocol (`Protocols.ReplyOvertakesMemory`), and a handler
  remembers even if the client has begun another negotiation since. `Protocols.ChoiceIsShared` says when the two ends
  agree, `Protocols.AgreementLastsExactly` when they keep agreeing, and `Protocols.LateRemember` is a run after which
  they do not.
- `orderProviders` compares scores of positions while providers move: up to 20 providers, one block of the stable sort,
  it reverses each strictly descending run of scores (`SmartClient.ArrangedAt`), so its result is ordered if and only if
  the input has no inversion across runs (`SmartClient.OrderedExactly`).

## Model

| member | source | states |
|---|---|---|
| Framing.FramesAppend | hypernet/core/network/obfuscate/padding.go:70-121 | later bytes never change the frames already complete on a wire; they only complete its tail |
| Framing.TruncationIsPrefix | pkg/protoadapters/plain/plain.go:253-287 | a wire cut off anywhere yields a prefix of the frames and of the user bytes |
| Framing.PullSound | hypernet/core/network/obfuscate/padding.go:70-121 | an ideal re-chunking read neither loses, repeats nor invents a byte and fails exactly when nothing is left |
| Framing.PullSkipSound | pkg/protoadapters/plain/plain.go:239-287 | the same when frames without user bytes are skipped, on every wire, and with room it returns bytes whenever some are owed |
| Framing.PullFullSound | pkg/protoadapters/shadowsocks/cipher.go:91-102 | io.ReadFull over a re-chunking layer delivers the next k owed bytes across any number of frames, or fails if there are fewer |
| Framing.ReadOnSound | pkg/protoadapters/plain/plain.go:239-287 | successive reads deliver the owed bytes in order, meet an error only when all were delivered, and with one read with room more than there are bytes do meet it |
| Pipes.Pipe.ReadFull | hypernet/core/network/obfuscate/padding.go:84-110 | io.ReadFull over raw reads of any size: exactly k bytes, or all that was left and an error |
| Padding.PadReadIsPull | hypernet/core/network/obfuscate/padding.go:70-121 | on whole frames PaddingConn.Read is the ideal reader for every buffer size |
| Padding.PadReadSound | hypernet/core/network/obfuscate/padding.go:70-121 | a read keeps bytes read ++ bytes owed, in framed and pass-through mode, and fails exactly at the end |
| Padding.PadReadShortPadding | hypernet/core/network/obfuscate/padding.go:94-121 | a frame whose padding is cut off is read all the same |
| Padding.PadReadCutShort | hypernet/core/network/obfuscate/padding.go:82-110 | a wire that ends before the padding length is an error |
| Padding.PadReadFullSound | hypernet/core/network/obfuscate/padding.go:70-121 | reading k bytes through the padding layer takes exactly the next k bytes owed |
| Padding.PadWriteSound | hypernet/core/network/obfuscate/padding.go:42-67 | a write adds exactly its bytes, as one frame, to what the reader is owed, whatever the padding |
| Padding.PaddingExact | hypernet/core/network/obfuscate/padding.go:42-67 | a write is readable for every padding that may be drawn iff it and the minimum padding have at most 65535 bytes |
| Padding.OverlongPadding | hypernet/core/network/obfuscate/padding.go:134-139 | padding beyond the length field can be read back as data |
| Padding.PaddingConn.constructor | hypernet/core/network/obfuscate/padding.go:25-39 | the bounds NewPaddingConn settles on |
| Padding.PaddingConn.NextPaddingLen | hypernet/core/network/obfuscate/padding.go:126-143 | only lengths between the bounds, capped at 512 unless the minimum is above |
| Padding.PadLenExactly | hypernet/core/network/obfuscate/padding.go:126-143 | exactly which padding lengths may be drawn |
| Padding.PaddingConn.Write | hypernet/core/network/obfuscate/padding.go:42-67 | puts exactly one frame, or the bare bytes in pass-through mode and above 65535 bytes, on the wire |
| Padding.PaddingConn.Read | hypernet/core/network/obfuscate/padding.go:70-121 | computes PadRead on buffer, offset and wire, the error paths and their leftovers included |
| Padding.PaddingConn.ReadFull | pkg/protoadapters/shadowsocks/cipher.go:92-102 | the ReadFull loop over Read computes PadReadFull, whatever sizes the raw reads have |
| Shadowsocks.RefusedExactly | pkg/protoadapters/shadowsocks/cipher.go:61-65 | a write is refused iff it has more than 65519 bytes |
| Shadowsocks.SealParse | pkg/protoadapters/shadowsocks/cipher.go:57-75 | a sealed frame parses back to its plaintext with nothing left |
| Shadowsocks.SsFetchSound | pkg/protoadapters/shadowsocks/cipher.go:90-106 | fetching a frame through the padding layer takes one cipher frame off the bytes owed, however they are split below |
| Shadowsocks.SsReadSound | pkg/protoadapters/shadowsocks/cipher.go:78-116 | a read through both layers neither loses, repeats nor invents a byte |
| Shadowsocks.SsWriteSound | pkg/protoadapters/shadowsocks/cipher.go:50-76 | a write through both layers adds exactly its bytes as one frame; an empty or refused one puts nothing on the wire |
| Shadowsocks.SoundStep | pkg/protoadapters/shadowsocks/cipher.go:50-116 | every step keeps the conservation law, and a read with room makes progress until nothing is missing |
| Shadowsocks.TunnelConserves | hypernet/services/proxy/server/proxy.go:282-365 | in every run over the stack, bytes read ++ buffered ++ on the wire are the bytes of the accepted writes |
| Shadowsocks.SsAead.Write | pkg/protoadapters/shadowsocks/cipher.go:50-76 | two lower writes, header then ciphertext, with a fresh nonce and lawful paddings, or none |
| Shadowsocks.SsAead.Read | pkg/protoadapters/shadowsocks/cipher.go:78-116 | computes SsRead on its buffer and the layer below |
| Handover.FirstReadIsOneFrame | pkg/protoadapters/shadowsocks/cipher.go:78-116 | a read of a framed layer with an empty buffer returns one whole frame and nothing of the next |
| Handover.OkHandover | pkg/client/proxy.go:354-376 | over ssAEAD or PaddingConn the temporary reader takes exactly the frame with the line and the stream still owes all the rest |
| Handover.NoTargetByteLost | pkg/client/proxy.go:354-376 | over ssAEAD, whatever writes the server makes after OK, no target byte is lost by handing back the raw stream |
| Handover.NoTargetByteLostPadded | pkg/client/proxy.go:354-376 | the same with PaddingConn outermost, for writes of up to 65535 bytes and every padding it may draw |
| Handover.RawHandover | pkg/client/proxy.go:354-376 | without framing exactly the bytes that the raw reads brought beyond the line are lost, whatever their sizes: none iff the read that completes the line ends with it |
| Handover.PrefixConn.Read | hypernet/services/proxy/server/proxy.go:61-68 | the prefix and then the stream, without loss, for every buffer size |
| Opening.LookConserves | hypernet/services/proxy/server/proxy.go:275-304 | however the first bytes arrive, each is taken for the look, lost with the buffer or still to be read, in this order; with enough raw reads the look ends |
| Opening.LookExactly | hypernet/services/proxy/server/proxy.go:275-304 | the layers above read what was sent iff the bytes taken are replayed and none are lost |
| Opening.KindExactly | hypernet/services/proxy/server/proxy.go:279-300 | the first bytes by which a line is an OBFS line or a request |
| Opening.ByteLookExactly | hypernet/services/proxy/server/proxy.go:302-304 | for a first byte other than O, T, U and D: iff the first raw read brought one byte |
| Opening.LineLookExactly | hypernet/services/proxy/server/proxy.go:279-300 | for one of these and a line that fits the buffer: exactly what the raw reads brought beyond the line is lost |
| Opening.AskedLook | hypernet/services/proxy/server/proxy.go:279-294 | an OBFS line that its sender waits on is taken whole, from any raw reads, with nothing lost |
| PlainSession.ParseSettings | pkg/protoadapters/plain/plain.go:87-136 | enabled unless switched off explicitly; positive padding and jitter, ordered dummy delays, dummies off iff a non-positive maximum is given |
| PlainSession.AppendFrame | pkg/protoadapters/plain/plain.go:178-235 | a user frame owes the reader its first 65535 bytes, a dummy frame nothing |
| PlainSession.SoundStep | pkg/protoadapters/plain/plain.go:166-338 | every write, dummy, read or close keeps the conservation law, and reads make progress |
| PlainSession.RunSound | pkg/protoadapters/plain/plain.go:178-338 | in every interleaving the reader sees exactly the accepted bytes in order; dummies are invisible |
| PlainSession.ClosedIsSilent | pkg/protoadapters/plain/plain.go:166-338 | a closed session sends and reads nothing more |
| PlainSession.TruncatedRun | pkg/protoadapters/plain/plain.go:239-287 | after any run and any truncation of the wire, reads give a prefix of the accepted bytes and then an error, which comes after at most one read with room per byte |
| PlainSession.ObfsSession.Write | pkg/protoadapters/plain/plain.go:178-235 | one frame with the accepted bytes and lawful padding, nothing when closed |
| PlainSession.ObfsSession.Dummy | pkg/protoadapters/plain/plain.go:291-338 | one frame without user bytes, nothing when closed |
| PlainSession.ObfsSession.Read | pkg/protoadapters/plain/plain.go:239-287 | computes the skipping reader; the loop ends because each turn shortens the wire |
| PlainSession.ObfsSession.Close | pkg/protoadapters/plain/plain.go:166-174 | closes the session and, the first time only, the connection below; pending bytes stay |
| Grpc.ReadableExactly | hypernet/core/network/transport/grpc.go:83-118 | a write can be read back iff it has at most 2^20 bytes |
| Grpc.GrpcReadIsPullSkip | hypernet/core/network/transport/grpc.go:83-105 | on whole frames Read is the reader that skips empty frames, and never reports a frame too large |
| Grpc.GrpcReadErrors | hypernet/core/network/transport/grpc.go:83-105 | a length above 2^20 is an error that uses up the length, a frame cut off one that uses up the stream |
| Grpc.SoundStep | hypernet/core/network/transport/grpc.go:83-118 | conservation is kept; a read with room returns bytes unless all were read, and only then fails |
| Grpc.RunSound | hypernet/core/network/transport/grpc.go:83-118 | every run of writes up to 2^20 bytes, zero frames and reads delivers exactly the written bytes |
| Grpc.StreamConn.Write | hypernet/core/network/transport/grpc.go:107-118 | length and bytes, nothing for an empty write |
| Grpc.StreamConn.Read | hypernet/core/network/transport/grpc.go:193-215 | computes GrpcRead, each error and its leftovers included; terminates on every finite wire |
| UdpTunnel.UpRunSound | pkg/client/proxy.go:741-757 | the server has forwarded, in order and with boundaries, the client's non-empty writes cut to 65535 bytes |
| UdpTunnel.SentAreWrites | pkg/client/proxy.go:741-757 | what a run calls sent are the first 65535 bytes of each non-empty write |
| UdpTunnel.DownRunSound | pkg/client/proxy.go:759-778 | read k gives the first bytes of datagram k that fit and says if some did not; the next read is aligned |
| UdpTunnel.UdpReadExactly | pkg/client/proxy.go:759-778 | whole, cut short, empty or failed, by what the stream starts with |
| UdpTunnel.ServerWireExactly | hypernet/services/proxy/server/proxy.go:608-628 | a datagram arrives as itself iff it has at most 65535 bytes |
| UdpOverCipher.DatagramsExactly | pkg/client/proxy.go:741-757 | in every run through the cipher the datagrams the server makes of the stream are those written, iff none has more than 65519 bytes; what it has read so far is a prefix |
| UdpOverCipher.DatagramsBackExactly | hypernet/services/proxy/server/proxy.go:608-628 | in every run on the way back the client gets exactly the non-empty datagrams before the first one above 65519 bytes, all of them iff there is none |
| UdpTunnel.Tunnel.Write | pkg/client/proxy.go:741-757 | length and cut bytes, nothing for an empty datagram |
| UdpTunnel.Tunnel.Read | pkg/client/proxy.go:759-778 | computes UdpRead: one datagram, short-buffer and empty cases told apart |
| UdpTunnel.ForwardUp | hypernet/services/proxy/server/proxy.go:586-605 | sends exactly the non-empty datagrams of the stream, in order, up to the first send that fails, and reports that failure and which datagram it was |
| UdpTunnel.ForwardDown | hypernet/services/proxy/server/proxy.go:608-628 | writes every non-empty datagram with its length, so that the client reads these datagrams |
| UdpTunnel.DownWireFrames | hypernet/services/proxy/server/proxy.go:608-628 | the stream of the way back holds exactly the non-empty datagrams, up to 65535 bytes each |
| Metrics.SessionsAreIndependent | hypernet/services/proxy/metrics/store.go:42-112 | what the database says about a session depends only on that session's operations |
| Metrics.LogIsRecorded | hypernet/services/proxy/metrics/store.go:89-112 | every sample and event among the operations is stored, in order, behind what was stored before, and nothing else is |
| Metrics.RowExistsExactly | hypernet/services/proxy/metrics/store.go:42-53 | a session has a row iff it was started |
| Metrics.FirstStartWins | hypernet/services/proxy/metrics/store.go:42-53 | the first start decides description and start time for good |
| Metrics.RunningSession | hypernet/services/proxy/metrics/store.go:42-81 | a started session that has not ended has no end and no outcome, and totals only once it was updated, which are what its updates added |
| Metrics.UpdatesAddUp | hypernet/services/proxy/metrics/store.go:74-81 | updates of a started session add up in both directions and change nothing else |
| Metrics.LastEndDecides | hypernet/services/proxy/metrics/store.go:59-81 | after the last end of a session, whatever operations follow, its outcome is that of the end, its totals those of the end plus the later updates, its description the one of before |
| Metrics.InvStep | hypernet/services/proxy/metrics/store.go:218-256 | every step of producers and writer keeps the accounting of accepted operations and the bounds |
| Metrics.BatchingRefinesDirect | hypernet/services/proxy/metrics/store.go:218-256 | database, then batch, then queue equals the accepted operations applied one by one if no transaction failed; at most 127 batched and 1024 queued |
| Metrics.CloseAppliesEverything | hypernet/services/proxy/metrics/store.go:361-370 | when the writer has returned every accepted operation has been through a transaction, and is in the database if none failed |
| Metrics.WriterCanFinish | hypernet/services/proxy/metrics/store.go:240-256 | from every reachable state of a closed store the writer can return with every accepted operation gone through a transaction, none failing from then on |
| Metrics.FailedBatch | hypernet/services/proxy/metrics/store.go:224-238 | a batch whose transaction does not begin or commit is gone without effect |
| Metrics.AcceptedStep | hypernet/services/proxy/metrics/store.go:264-284 | an operation is accepted iff the store is open and fewer than 1024 are queued |
| Metrics.FlushNowExactly | hypernet/services/proxy/metrics/store.go:343-358 | a ticket is closed iff its operation has run in a transaction that was begun, committed or not |
| Metrics.FlushNowReturnsExactly | hypernet/services/proxy/metrics/store.go:341-358 | a call of FlushNow returns iff it found the queue full, its operation then never being accepted, or its operation has run |
| Metrics.FlushNowKeepsPromiseExactly | hypernet/services/proxy/metrics/store.go:341-358 | for every call, at the step with which it returns: what is committed is all that was accepted before the call iff the queue had room, its operation is the first of its batch and no earlier transaction failed |
| Metrics.FlushNowBeforeCommit | hypernet/services/proxy/metrics/store.go:343-358 | at that moment nothing of its batch is in the database |
| Metrics.FlushNowReturnsEarly | hypernet/services/proxy/metrics/store.go:341-358 | a concrete run in which FlushNow has returned and a session started before it is not stored |
| Metrics.FlushNowOnFullQueue | hypernet/services/proxy/metrics/store.go:353-356 | a run in which FlushNow returns at once behind 1024 queued operations of which none is applied |
| Metrics.Store.Enqueue | hypernet/services/proxy/metrics/store.go:264-284 | accepted iff fewer than 1024 are queued, else dropped |
| Metrics.Store.UpdateSession | hypernet/services/proxy/metrics/store.go:288-299 | an update without change is not queued |
| Metrics.Store.AddQualitySample | hypernet/services/proxy/metrics/store.go:303-317 | needs a session |
| Metrics.Store.AddEvent | hypernet/services/proxy/metrics/store.go:320-339 | needs a session and a kind |
| Metrics.Store.FlushNow | hypernet/services/proxy/metrics/store.go:343-358 | up to its wait: waits iff there was room for its operation |
| Metrics.Store.Flush | hypernet/services/proxy/metrics/store.go:224-238 | the whole batch in order in one transaction, or nothing if it fails to begin or commit; no transaction without operations |
| Metrics.BatchesAreArrivals | hypernet/services/proxy/metrics/store.go:241-255 | the batches cut at 128 operations and at ticks, and those still waiting, are the arrivals in order |
| Metrics.BatchesEnd | hypernet/services/proxy/metrics/store.go:240-255 | without ticks batches have exactly 128 operations; a tick flushes what is waiting, if anything |
| Metrics.Store.WriterLoop | hypernet/services/proxy/metrics/store.go:218-256 | for every sequence of arrivals and ticks exactly which batches are flushed, none above 128, together all that arrived; the database is that of the committed ones, and of direct application, log included, if none failed |
| Text.FieldsTrim | hypernet/services/proxy/server/obfs_negotiate.go:35-40 | splitting into fields does not see what trimming removes |
| Text.TrimExactly | hypernet/services/dns/record.go:92-101 | trimming takes exactly the white space at both ends |
| Text.AtoiItoa | hypernet/services/proxy/server/obfs_negotiate.go:66-72 | decimal text of every 64-bit integer parses back |
| Text.LessExactly | hypernet/services/proxy/protomanager/manager.go:118-135 | string order: after a common prefix one string ends or has the smaller character |
| Obfs.ParseObfsLine | hypernet/services/proxy/server/obfs_negotiate.go:34-64 | what is accepted has non-negative, ordered bounds |
| Obfs.ParseObfsExactly | hypernet/services/proxy/server/obfs_negotiate.go:34-64 | accepted are exactly the lines with the prefix and four fields, two integers and two durations, each pair ordered and not negative |
| Obfs.ParsePrinted | hypernet/services/proxy/server/obfs_negotiate.go:20-64 | the parser reads from any printed line the parameters shown, a negative delay as 0, iff these are well-formed, else it rejects the line |
| Obfs.AgreeIdempotent | hypernet/services/proxy/server/obfs_negotiate.go:77-106 | agreeing twice changes nothing, for all inputs |
| Obfs.AgreeWithinBoth | hypernet/services/proxy/server/obfs_negotiate.go:77-106 | agreed maxima never exceed either side's; a layer is present iff both sides want it; the client's bounds are kept wherever the server's limits allow |
| Obfs.ReplyAcceptedExactly | hypernet/services/proxy/server/obfs_negotiate.go:77-106 | the reply is accepted with exactly the agreed values iff each enabled server minimum fits below both maxima |
| Obfs.DialStacks | pkg/client/proxy.go:212-240 | the stacks of both ends in terms of the parameters; equal, bounds included, when the minima fit |
| Obfs.StacksMatchExactly | hypernet/services/proxy/server/proxy.go:282-397 | the exact condition under which the byte-carrying layers of the two ends match |
| Obfs.ParseRequest | hypernet/services/proxy/server/proxy.go:156-187 | an accepted request has a known protocol, a host without white space and a port in range |
| Obfs.ParseRequestExactly | hypernet/services/proxy/server/proxy.go:156-187 | accepted are exactly three fields with a known protocol in any case and a port in range |
| Obfs.RequestRoundTrip | pkg/client/proxy.go:347-352 | the client's request line is read back as itself iff the host is a non-empty word and the port is 1..65535 |
| EndToEnd.AskingEndsCarryBytes | hypernet/services/proxy/server/proxy.go:282-365 | a client that asks, with fitting parameters and the cipher: each end reads the other's line whole from any raw reads, both build padding below cipher with the same bounds, and every run in either direction conserves the bytes |
| EndToEnd.DelaysOfDial | hypernet/services/proxy/server/proxy.go:282-397 | the delay layer of each end: the agreed bounds when the reply is accepted, else its own |
| EndToEnd.RequestOpens | hypernet/services/proxy/server/proxy.go:297-397 | a stream that starts with a request line is read without the cipher, through the server's own padding and delays |
| EndToEnd.SilentEndsExactly | hypernet/services/proxy/server/proxy.go:275-304 | a client that does not ask: the server's cipher can read its first frame iff the look replays its bytes and loses none, in general iff the first raw read brought one byte; then every run conserves the bytes |
| Protocols.BeforeTotal | hypernet/services/proxy/protomanager/manager.go:118-135 | the sorting comparison is total and irreflexive on names |
| Protocols.BeforeTransitive | hypernet/services/proxy/protomanager/manager.go:118-135 | and transitive |
| Protocols.BeforePrecedes | hypernet/services/proxy/protomanager/manager.go:118-135 | listed names precede unlisted ones, listed ones stand by last position, unlisted ones by string order |
| Protocols.ListsIsUnique | hypernet/services/proxy/protomanager/manager.go:102-137 | there is one sorted listing, so map iteration order cannot show |
| Protocols.Manager.Register | hypernet/services/proxy/protomanager/manager.go:36-51 | registers a named adapter once in the registration order |
| Protocols.Manager.SupportedNames | hypernet/services/proxy/protomanager/manager.go:102-137 | every registered name once, from any walk of the map: listed ones first and by last position, the others by string order |
| Protocols.FirstCommon | hypernet/services/proxy/protomanager/manager.go:143-162 | a common name, none iff the lists are disjoint |
| Protocols.ChooseCommon | hypernet/services/proxy/protomanager/manager.go:143-162 | the first local name the other side has |
| Protocols.ChooseCommonTransport | hypernet/services/proxy/protomanager/manager.go:83-97 | the first non-empty client transport the server has, else the empty name |
| Protocols.NegotiationExactly | hypernet/services/proxy/protonegotiate/negotiate.go:37-124 | client and server end with the same name, common to both and the client's most preferred, and the first shared transport; failure iff nothing is common |
| Protocols.TransportIsFirst | hypernet/services/proxy/protomanager/manager.go:83-97 | the chosen transport is the first non-empty one of the client's that the server has; empty iff there is none |
| Protocols.Negotiate | hypernet/services/proxy/protonegotiate/negotiate.go:37-124 | the whole exchange between two managers: of the common names the one that is listed by the client and has the smallest last position, or the smallest string if none is listed; the first shared transport; failure iff nothing is common |
| Protocols.Manager.HandleStream | hypernet/services/proxy/protonegotiate/negotiate.go:37-78 | the server's reply to any offer, with its own listing of names |
| Protocols.RunConsistent | hypernet/node/daemon/run.go:280-288 | in every run of overlapping negotiations client and server hold the names that the reply read last and the handler that remembered last settle on |
| Protocols.ChoiceIsShared | hypernet/services/proxy/server/proxy.go:135-150 | client choice and server memory are the same name iff the reply read last and the name remembered last are of negotiations that settle on one name; of one negotiation it is the first offered name the server supports |
| Protocols.AgreementLastsExactly | hypernet/node/daemon/run.go:280-288 | the ends agree and keep agreeing, whichever handlers still remember and in whatever order, iff they agree now and no handler still has to remember another name |
| Protocols.LateRemember | hypernet/node/daemon/run.go:280-288 | for any two supported names, a run of two negotiations, all complete, after which the client holds the second and the server the first |
| Protocols.PeersAreIndependent | hypernet/services/proxy/server/proxy.go:135-150 | a step about one peer leaves the others alone |
| Protocols.ReplyOvertakesMemory | hypernet/node/daemon/run.go:280-288 | between reply and remembering the ends agree iff the name was in memory already; after both they do |
| Protocols.DroppedStaysDropped | hypernet/node/daemon/run.go:280-288 | a negotiation whose reply could not be sent is never read and never remembered |
| Protocols.ResetForgets | pkg/client/proxy.go:505-519 | after a reset the client holds no name until it reads a reply, and the server's memory stays |
| Protocols.Serve | hypernet/services/proxy/server/proxy.go:135-150 | the one map that the handlers of any run keep, by remembering and deleting, answers for every peer with that peer's memory in the run |
| Dialing.RotationOffer | pkg/client/proxy.go:505-519 | a rotated manager offers exactly its adapters, in the circle of the preferred names from place k on |
| Dialing.DefaultsRotate | pkg/client/proxy.go:79-101 | the client's defaults meet the conditions of RotationOffer |
| Dialing.FallbackOffers | pkg/client/proxy.go:505-519 | the manager of fallback dial k offers exactly the adapters registered for it, in the circle of the preferred names from number k on |
| Dialing.ProxyClient.DialTCP | pkg/client/proxy.go:176-394 | returns a stream iff every step of the dial went well; a failed dial leaves nothing open and counts one error, a returned stream is open and counts none; protocol in force and latency follow |
| Dialing.FailsExactly | pkg/client/proxy.go:176-394 | a dial fails iff connecting, opening, the OBFS exchange, a handshake that is due, the request or the answer does |
| Dialing.ProxyClient.DialTCPWithFallback | pkg/client/proxy.go:497-541 | given what each dial meets: dials up to the first that succeeds within the threshold or once per preferred name, with rotation k in dial k; result, state, error count and every attempt are those of these dials; only the returned stream stays open |
| Dialing.FallbackDials | pkg/client/proxy.go:497-541 | dial k of a fallback has no protocol in force, the five adapters, and name (i + k) mod n of the preferred ones at place i; dial 0 what the client had |
| Dialing.StateOfLast | pkg/client/proxy.go:497-541 | after a fallback: order, adapters and protocol of the last dial, and its latency if it succeeded |
| Dialing.FallbackFindsFirst | pkg/client/proxy.go:497-541 | a stream is returned iff one of the dials for the preferred names succeeds within the threshold, after the first such; it meets the threshold |
| Dialing.ProxyClient.DialTCPWithAutoQuality | pkg/client/proxy.go:547-578 | one dial without a policy; with too many errors the fallback at once; else one dial, and the fallback if it fails or is too slow; all tied to what the dials meet |
| Dialing.AutoExactly | pkg/client/proxy.go:547-578 | when the automatic policy makes one dial, when the fallback follows it and when the fallback comes at once |
| Dialing.ErrorsCounted | pkg/client/proxy.go:176-578 | the error counter rises by exactly the dials of a call that failed |
| Dialing.FailuresAreCounted | pkg/client/proxy.go:176-541 | the failures counted are the dials that failed |
| Dialing.OutcomeIsDetermined | pkg/client/proxy.go:176-578 | what the dials meet decides how many are made, what they offer, the result and the state |
| Dialing.RunCounts | pkg/client/proxy.go:176-578 | over any run of calls the error counter is the number of all dials that failed |
| Dialing.RunIsDetermined | pkg/client/proxy.go:176-578 | the calls and what their dials meet decide every outcome of a run |
| Dialing.Life | pkg/client/proxy.go:176-578 | over any run of calls and any network each call has the outcome that its dials give, the returned streams are different and the only ones left open, and the errors are the failed dials |
| Names.NormalizeName | hypernet/services/dns/record.go:92-101 | the trimmed lower-case name, iff it is not empty, has only letters, digits and hyphens and no hyphen at its ends |
| Names.NormalizeIdempotent | hypernet/services/dns/record.go:92-101 | a normalized name is its own normal form |
| Names.NonOwnerStep | hypernet/services/dns/namesystem.go:79-89 | another node's step changes a live record iff its lookup failed and it puts all the same |
| Names.AttemptExactly | hypernet/services/dns/namesystem.go:56-289 | exactly when a registration, refresh or unregistration gets as far as its put |
| Names.RecordOfLastPut | hypernet/services/dns/namesystem.go:56-289 | after every run the record of a name holds the name, owner, addresses, time and lifetime of the last step that put it; no addresses for an unregistration |
| Names.UnregisterFrees | hypernet/services/dns/namesystem.go:201-236 | from an unregistration on, in every run, the name is live after some step iff a registration went through or the owner of the dead record refreshed it; otherwise it is dead and any node's registration goes through |
| Names.RefreshRevives | hypernet/services/dns/namesystem.go:260-288 | a run in which the owner's refresh brings an unregistered name back for a day |
| Names.LiveKeepsOwner | hypernet/services/dns/namesystem.go:56-113 | a step leaves the owner of a live record alone, unless it puts without having seen the record |
| Names.OwnerChangesOnlyWhenExpired | hypernet/services/dns/namesystem.go:201-289 | in every run, between two different owners of a name some step found the record expired or unregistered, or put one after a failed lookup |
| Names.ClampRefreshPositive | pkg/config/config.go:198-202 | the loaded interval is the given one if that is positive and at most the lifetime, else half the lifetime; positive except for a lifetime of one nanosecond |
| Names.ScheduleExactly | hypernet/services/dns/record.go:86-88 | a record survives an interval at every clock phase iff the interval rounded up is at most the lifetime rounded down |
| Names.LoadedIntervalFits | pkg/config/config.go:198-202 | with a whole number of seconds every loaded interval is positive and safe |
| Names.NameIsKept | hypernet/node/daemon/run.go:210-275 | a node that publishes on schedule keeps its name, with the addresses of its last publish, unexpired at every instant, whatever attempts of its own fail and whatever nodes that see the record attempt |
| Names.NameSystem.Register | hypernet/services/dns/namesystem.go:56-113 | the register step on the shared store, with its error cases |
| Names.NameSystem.Unregister | hypernet/services/dns/namesystem.go:201-236 | the unregister step |
| Names.NameSystem.Refresh | hypernet/services/dns/namesystem.go:240-289 | the refresh step, with the default lifetime for an unregistered record |
| Resolving.BestIsFreshest | hypernet/services/dns/dht_validator.go:29-49 | the pick has the greatest timestamp and is the earliest of those; none iff there is no candidate |
| Resolving.FreshestIsUnique | hypernet/services/dns/dht_validator.go:29-49 | there is only one such pick |
| Resolving.Select | hypernet/services/dns/dht_validator.go:29-49 | the loop of the DHT validator computes it on the decodable values |
| Resolving.Collect | hypernet/services/dns/namesystem.go:144-171 | the loop of Resolve computes it on the usable values |
| Resolving.PickedIsGenuine | hypernet/services/dns/namesystem.go:144-171 | the record picked is the freshest, earliest on ties, of those delivered that are not expired and that their owner's key verifies; none iff there is none |
| Resolving.FreshAnswerExactly | hypernet/services/dns/namesystem.go:139-185 | an uncached answer is that record with its usable addresses; it fails iff the name is invalid, the search fails, there is no such record or it has no usable address |
| Resolving.ResolveMatchesSelect | hypernet/services/dns/namesystem.go:144-174 | Resolve picks what Select picks from the decodable, unexpired, verified values; it fails iff there are none |
| Resolving.NamesMatchExactly | hypernet/services/dns/namesystem.go:144-171 | whichever stored values a search delivers the answer is a record of the name asked for, iff every stored value that can answer is |
| Resolving.AnswersForAnother | hypernet/services/dns/namesystem.go:144-171 | a query answered by a record of another name |
| Resolving.AllTraced | hypernet/services/dns/namesystem.go:187-195 | after any run each cache entry is what the latest uncached answer for its name left |
| Resolving.CacheHitExactly | hypernet/services/dns/namesystem.go:128-137 | after any run a query is answered from the cache iff it does not bypass it and the latest fresh answer was stored less than its lifetime ago, less a minute for long ones |
| Resolving.CachedAnswerIsRecent | hypernet/services/dns/namesystem.go:128-198 | an answer from the cache is the latest uncached one, served within twice the lifetime of its timestamp plus the collecting time |
| Resolving.StaleExactly | hypernet/services/dns/namesystem.go:187-195 | an answer can be served after its record expired iff it was stored, in seconds rounded up, more than the margin and a second after the record's timestamp |
| Resolving.ServedAfterExpiry | hypernet/services/dns/namesystem.go:128-198 | a query answered from the cache nine seconds after the record expired |
| Resolving.OverlongTTL | hypernet/services/dns/namesystem.go:187-191 | a lifetime beyond the duration type wraps around, and the entry has expired at once |
| Resolving.CachingResolver.Resolve | hypernet/services/dns/namesystem.go:118-198 | the whole call: cache hit, bypass, every failure, and the stored entry |
| Socks5.DialsWhatWasEncoded | hypernet/services/proxy/inbound/socks5.go:56-136 | for every encoded greeting and CONNECT request the handler dials exactly that target, consumes exactly those bytes and reports the dial |
| Socks5.EncodingExactly | hypernet/services/proxy/inbound/socks5.go:56-122 | greeting and request byte by byte, as in sections 3 and 4 of RFC 1928 |
| Socks5.DialedWasEncoded | hypernet/services/proxy/inbound/socks5.go:56-121 | whatever it dials, the bytes consumed are an encoding of it |
| Socks5.AtMostOneReply | hypernet/services/proxy/inbound/socks5.go:76-143 | on every run at most one ten-byte reply, success only after a successful dial |
| Socks5.RefusesExactly | hypernet/services/proxy/inbound/socks5.go:76-121 | another version, command or address type and an empty domain get the failure reply and no dial, a request cut off no reply |
| Socks5.GreetsExactly | hypernet/services/proxy/inbound/socks5.go:56-79 | a greeting is answered iff it is complete and of version 5 |
| Socks5.Handler.Run | hypernet/services/proxy/inbound/socks5.go:56-130 | the code with its one reused buffer computes Handle; every slice is in range |
| SmartClient.ArrangedPermutes | hypernet/services/proxy/smartclient/smartclient.go:283-336 | orderProviders returns a permutation |
| SmartClient.ArrangedAt | hypernet/services/proxy/smartclient/smartclient.go:322-333 | up to 20 providers it reverses every strictly descending run of scores in place and does nothing else |
| SmartClient.OrderedExactly | hypernet/services/proxy/smartclient/smartclient.go:281-336 | up to 20 providers the returned list is ordered by score iff every inversion of the input lies within one descending run |
| SmartClient.NotOrderedExample | hypernet/services/proxy/smartclient/smartclient.go:322-333 | three providers whose returned list is not ordered by score |
| SmartClient.InsertionSort | hypernet/services/proxy/smartclient/smartclient.go:322-333 | one block of the in-place sort with its position-based comparison computes the arrangement |
| SmartClient.SliceStable | hypernet/services/proxy/smartclient/smartclient.go:322-333 | a permutation for every length, and the arrangement for one block |
| SmartClient.Score | hypernet/services/proxy/smartclient/smartclient.go:298-320 | never below 100, exactly 100 for an unknown peer |
| SmartClient.ScoreExactly | hypernet/services/proxy/smartclient/smartclient.go:298-320 | a failure costs 50, within thirty minutes of the last one 100, a millisecond of latency 1 |
| SmartClient.ScoreGrows | hypernet/services/proxy/smartclient/smartclient.go:298-320 | more failures, a later failure or more latency never lower the score, and more failures raise it |
| SmartClient.Client.GetCached | hypernet/services/proxy/smartclient/smartclient.go:180-201 | the cached list unless missing or older than the TTL |
| SmartClient.CachedListExactly | hypernet/services/proxy/smartclient/smartclient.go:180-201 | a list is served from the cache, as stored, iff its entry is no older than the lifetime |
| SmartClient.Client.FetchProviders | hypernet/services/proxy/smartclient/smartclient.go:204-253 | region, then plain lookup, then connected peers; only a non-empty list replaces the cache entry |
| SmartClient.FetchedExactly | hypernet/services/proxy/smartclient/smartclient.go:204-253 | the providers of the region, else of the plain lookup, else the connected peers; none iff the lookup in use fails |
| SmartClient.Client.RecordSuccess | hypernet/services/proxy/smartclient/smartclient.go:256-266 | sets time and latency of the last success of one peer, keeps its last failure time and every failure count |
| SmartClient.Client.RecordFailure | hypernet/services/proxy/smartclient/smartclient.go:269-279 | one failure more for that peer only |
| SmartClient.Client.TryProviders | hypernet/services/proxy/smartclient/smartclient.go:118-151 | tries in order to the first provider whose trial succeeds or the end, and leaves the statistics of exactly these attempts |
| SmartClient.Client.OrderProviders | hypernet/services/proxy/smartclient/smartclient.go:283-336 | a permutation for every list, and up to 20 providers the arrangement for the current scores |
| SmartClient.Client.DialTCPViaProtocol | hypernet/services/proxy/smartclient/smartclient.go:86-175 | each of the five results exactly when it is due; which lists are tried, in what order, with which trials; a failed cached list is followed by one refetch; cache and statistics after it |
| SmartClient.ConnectsExactly | hypernet/services/proxy/smartclient/smartclient.go:86-175 | a call connects iff a provider of the list it starts with succeeds, or that was the cached one and a provider of a new list does; nothing is tried iff there is no protocol name or no provider |
| SmartClient.GivesUpExactly | hypernet/services/proxy/smartclient/smartclient.go:86-175 | when a call gives up and why, when it asks the discovery, and when it goes on to a second list |
| SmartClient.CallIsDetermined | hypernet/services/proxy/smartclient/smartclient.go:86-175 | discovery, trials and the order of the first list, which up to 20 providers is determined too, decide everything a call does |
| SmartClient.NotedCounts | hypernet/services/proxy/smartclient/smartclient.go:256-279 | the statistics count exactly the failed attempts of each peer |
| SmartClient.NotedLast | hypernet/services/proxy/smartclient/smartclient.go:256-279 | each peer's times and latency are those of its last success and failure |
| SmartClient.FailedAttemptsCounted | hypernet/services/proxy/smartclient/smartclient.go:118-151 | counted are the attempts past address building that did not connect |
| SmartClient.CacheIsLatest | hypernet/services/proxy/smartclient/smartclient.go:239-250 | a cache entry is the last fetch for its protocol that found providers |
| SmartClient.RunAccounts | hypernet/services/proxy/smartclient/smartclient.go:86-279 | over any run of calls: one fetch per call at most, the cache is what the fetches left, each peer's failures are its failed attempts |
| SmartClient.Life | hypernet/services/proxy/smartclient/smartclient.go:86-279 | over any run of calls every call has a report, and cache and statistics, as the call by itself would from the state before it |

## Left out

- Writes of raw streams never fail in the model, except where a world or a socket says so; after a failed read nothing is claimed of later reads of PaddingConn and the gRPC-style connection, which keep a partly filled buffer.
- Blocking and locks: methods are atomic steps, so that obfsSession.Read holds the lock that Write needs while it waits is not modelled.
- NameSystem operations read and then put in one atomic step of one clock over one register per key; Kademlia replication and conflicting replicas are not modelled.
- Names.NameIsKept: that publishes of the loop of run.go go through in time is a condition; another node's put after a failed lookup is excluded, because it does take the name (Names.NonOwnerStep).
- SmartClient.SliceStable: above 20 providers, where the library merges blocks, only that it swaps elements is modelled, so the order is left open there; SmartClient.InsertionSort, SmartClient.ArrangedAt and SmartClient.OrderedExactly are about one block.
- Protocols.Manager.SupportedNames: sort.Slice is modelled as insertion into a sequence, not in place; the result is unique, so only the cost differs.
- Socks5: addresses are passed to the dialer as bytes; their formatting as text and the copying after the reply are not modelled.
- Metrics: SQL text, the schema, integer overflow of byte counters and the send on a closed channel are not modelled; descriptive columns of a session are one field.
- Opening: the request line itself is read by Obfs.ParseRequest; the second buffered reader, through which the server goes on reading after the look, is not dropped and loses nothing. Control lines are UTF-8 by a stated law.
- Protocols: ids, streams and JSON are abstract; a reply that is lost is one that is never read.
- Dialing: SetQualityPolicy is two assignments and has no row; the contents of the VLESS, VMess, Trojan and Hysteria2 handshakes are one success flag; DialTCPDirect, DialUDP and DialByName repeat the same steps.
- The Hysteria2 session, VLESS/VMess/Trojan framing, HTTP CONNECT, REALITY, WebSocket, KCP and relay code, the quality loop and GeoIP: thin wrappers, I/O or floating-point telemetry.
- Handover: bufio's buffer of 4096 bytes and its limit of 100 empty reads in a row are constants of the library; no layer here produces empty reads.
- Cryptography, JSON and multiaddr syntax: parameters with inverse laws or predicates.
- DelayConn beyond the fact that it passes bytes through; jitter and sleeps.
- PlainSession.ParseSettings: a millisecond count that overflows the duration type is not modelled.
- Score and lifetime arithmetic: floating point is exact, and the lifetime in seconds is the integer quotient.
