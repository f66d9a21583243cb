# Verified model of the 8Private server

A Dafny model of the VPN server of 8Private and of the framing it shares with its client, with proofs
of what its parts promise.

- The **IP pool** (`IpPool.dfy`, `PoolProperties.dfy`, `PoolRuns.dfy`) hands out client addresses by
  a circular scan with a moving hint, in wrapping 32-bit arithmetic.
- The **session lifecycle** (`Sessions.dfy`) is a step system: any number of connection handlers and
  any number of `Close` calls interleave, and each mutex-protected section is one step. `Daemon.dfy`
  is the same code as objects, each critical section proved equal to its step.
- The **packet loops** (`Relay.dfy`, `RelayHistory.dfy`, `RelayRates.dfy`, `RelayWindows.dfy`,
  `RelayExcess.dfy`) run beside the handlers: who is sent what and where, and how many bytes a rate
  limit lets out, in every interleaving.
- The **token bucket** (`RateLimit.dfy`) is characterised exactly over every history of calls.
- The **obfuscated frame** (`Crypto.dfy`), **its connection** (`Conn.dfy`) and the **IPv4 field
  extraction** (`Packet.dfy`) are an encoder and decoder over byte buffers, in place, and what a
  reader is handed from any wire.
- The **device quota** (`Db.dfy`, `DbProperties.dfy`, `Auth.dfy`, `AuthRuns.dfy`) is a state machine
  over the two database tables.

Every operation is a function on values that says what one call does, and a class method, written as
the program is, proved to do exactly that to its fields. The theorems are about the functions, and so
about the methods. `dafny verify dfyconfig.toml` checks the project.

What is outside a call is a parameter: the clock, the random nonce and padding, whether a send or the
random source fails, whether authentication and the reply succeed, the detected pool size, and whether
the database connection enforces foreign keys. The AEAD is a pair of function values (`Crypto.Aead`)
under the contract `Correct`, after sections 2.1 and 2.2 of RFC 5116 and section 2.8 of RFC 8439;
where forgery matters, `Ideal` adds that nothing opens that was not sealed.

## Where the code and its comments disagree

The model follows the code.

- `server/daemon/ippool.go:95-99` says that the scan wraps around offsets 2 through maxClient + 1. Line
  101 wraps from maxClient + 1 to 3, so a scan that starts elsewhere never visits offset 2.
  `PoolRuns.StuckReachableIff` proves that some run makes the pool refuse although an address is
  free exactly when maxClient is at least 3, and `PoolProperties.AllocateFailsIff` says when.
- The length prefix is a uint16 (`shared/crypto.go:76`). Decoding a frame gives back the payload
  exactly when it is shorter than 65536 bytes (`Crypto.RoundTrip`).
- The size check of `ObfuscateTo` (`shared/crypto.go:53`) does not count the padding. Past the check
  every padding fits exactly from len + 109 bytes on (`Crypto.EveryPaddingFitsIff`); what happens to
  one that does not is part of the contracts of `ObfuscateTo` and `WriteTo`.
- `Allow` admits a call only if it also fits the burst capacity by itself: the call's own time is one
  of the windows in `RateLimit.AllowIsExact`.
- `PRAGMA foreign_keys` (`server/db/db.go:65`) applies to one connection of the pool. Quota, key
  uniqueness and the empty start of a new user are proved whether or not deletions cascade;
  `DbProperties.DeleteKeepsOwnershipIff` says when rows are left behind.
- Addresses are exclusive until `Close` releases one (`Sessions.ExclusiveUntilSwept`), and any such
  release, and no other step, makes it possible for two handlers to hold one address
  (`Sessions.ExclusivityEndsIff`); that nothing leaks holds throughout (`Sessions.NothingLeaks`).
- A limiter is asked before a packet is written, and a packet that was admitted can wait. So the bytes
  of a session in a time window are at most capacity + rate * length plus the one packet held when the
  window began (`RelayWindows.SessionsStayWithinRate`). Without that packet the bound is not kept
  (`RelayExcess.PlainBoundIsExceeded`): it can be exceeded exactly when the session is in the map, the
  held packet is larger than what the limiter lacks to be full, and there is a TUN device or, towards
  the client, its address is known or can be in time (`RelayExcess.PlainBoundFailsIff`).
- A key that a deleted user had is refused only until it is given out again
  (`AuthRuns.DeletedUserIsRefused`, `AuthRuns.DeletedKeyCanBeReissued`), and a key that is replaced
  between the lookup of `Authenticate` and the registration still gets through
  (`AuthRuns.AuthenticateAmidSucceedsIff`).

## Model

| member | source | states |
|---|---|---|
| Words.Uint32RoundTrip | server/daemon/ippool.go:178-187 | reading back a big-endian uint32 gives the number |
| Words.Uint32IsBigEndian | server/daemon/ippool.go:178-187 | the high byte comes first: four-byte numbers are ordered as their bytes are |
| Words.Uint16IsBigEndian | shared/crypto.go:76 | the same for the two bytes of the length prefix |
| Addresses.ConversionsAreInverse | server/daemon/ippool.go:178-187 | `ipToUint32` and `uint32ToIP` are mutual inverses on 4-byte addresses |
| Addresses.To4Iff | server/daemon/ippool.go:120-123 | an address has a 4-byte form iff it is one, or one behind the IPv4-mapped prefix |
| IpPool.IPPool.NewIPPool | server/daemon/ippool.go:37-83 | the checks, the clamp and the base, step by step, give the errors and the pool of `NewPool`; the prefix address lies in the pool's block, and the clients leave room in it |
| IpPool.FirstFree | server/daemon/ippool.go:97-112 | the scan stops at the first round whose candidate is free, or every round's candidate is taken |
| IpPool.IPPool.Allocate | server/daemon/ippool.go:87-115 | the loop leaves the pool as `AllocateOn` says and returns its address or exhaustion |
| IpPool.IPPool.Release | server/daemon/ippool.go:119-145 | frees exactly what `ReleaseOn` says; non-IPv4, unmanaged and unallocated addresses are refused and change nothing |
| IpPool.IPPool.AllocatedCount | server/daemon/ippool.go:171-175 | the number of allocated addresses |
| PoolProperties.NewPoolShape | server/daemon/ippool.go:37-83 | succeeds exactly for IPv4 prefixes of at most 30 bits, with each failure's own error; masked base inside 32 bits, size capped by the subnet, room for server and broadcast |
| PoolProperties.ManagedAvoidsReserved | server/daemon/ippool.go:64-72 | no client address is the network, server or broadcast address, and all lie in the subnet |
| PoolProperties.ScanIsPlainArithmetic | server/daemon/ippool.go:96-109 | no 32-bit addition of the scan or of the hint wraps, and every candidate is a client address |
| PoolProperties.ScanAdditionFitsIff | server/daemon/ippool.go:98 | the scan's addition fits in 32 bits for all hints and rounds iff maxClient < 2^31 |
| PoolProperties.ReleaseAcceptsManaged | server/daemon/ippool.go:128-134 | the wrapped difference is in range iff the address is between base + 2 and base + maxClient + 1, inputs below the base included |
| PoolProperties.ScanCovers | server/daemon/ippool.go:96-103 | the scan visits all client offsets if it starts at 2, and exactly all but offset 2 otherwise |
| PoolProperties.AllocateFailsIff | server/daemon/ippool.go:91-114 | fails iff nothing is free, or the hint is not 2 and only offset 2 is free |
| PoolProperties.FailureLeavesAtMostOneFree | server/daemon/ippool.go:91-114 | a failing call changes nothing and at most one address is free |
| PoolProperties.AllocateGrantsFree | server/daemon/ippool.go:104-110 | a granted address was free and managed, exactly it becomes allocated, and the hint moves past it cyclically |
| PoolProperties.AllocateGrantsFirstFromHint | server/daemon/ippool.go:96-110 | a free address at or after the hint is never skipped for a later one |
| PoolProperties.AllocateGrantsFirstAfterWrap | server/daemon/ippool.go:96-110 | if nothing is free at or after the hint, a free address from offset 3 on is never skipped for a later one |
| PoolProperties.OffsetTwoNeedsHintTwo | server/daemon/ippool.go:96-110 | offset 2 is granted only when the hint is 2 |
| PoolProperties.ReleaseFreesTaken | server/daemon/ippool.go:128-144 | succeeds iff the address is allocated, frees only it, and sets the hint to it |
| PoolProperties.ReleaseThenAllocate | server/daemon/ippool.go:142-144 | after a successful release the next allocation returns the same address and restores the allocated set |
| PoolProperties.AllocateThenRelease | server/daemon/ippool.go:87-145 | releasing what was just granted restores the pool up to the hint |
| PoolRuns.RunInvariant | server/daemon/ippool.go:87-145 | over every run of calls the hint stays in range, only client addresses are allocated, and their number is grants minus frees, at most maxClient |
| PoolRuns.GrantedWasFree | server/daemon/ippool.go:104-110 | every address granted in a run was not allocated just before |
| PoolRuns.GrantsAreSeparatedByFrees | server/daemon/ippool.go:87-145 | no run grants an address twice without freeing it in between |
| PoolRuns.HintFollowsLastMove | server/daemon/ippool.go:106-144 | in every run the hint is what the last call that granted or freed an address left behind |
| PoolRuns.HintTwoArises | server/daemon/ippool.go:106-144 | after a run the hint is 2 iff nothing was granted or freed yet, or the last such call freed offset 2 or granted the last offset |
| PoolRuns.FreshPoolFillsInOrder | server/daemon/ippool.go:81-114 | on a fresh pool call k returns base + 2 + k for k < maxClient and fails from then on |
| PoolRuns.StickingRunSticks | server/daemon/ippool.go:100-102 | for every maxClient >= 3 a concrete run makes the pool refuse while offset 2 is free |
| PoolRuns.SmallPoolNeverSticks | server/daemon/ippool.go:91-114 | with at most two clients no run ever makes the pool refuse while an address is free |
| PoolRuns.StuckReachableIff | server/daemon/ippool.go:91-114 | refusing with a free address is reachable iff maxClient >= 3 |
| PoolRuns.StuckUntilRelease | server/daemon/ippool.go:87-145 | such a pool misses one address, stays so until something is freed, and then grants that |
| PoolRuns.WrapToTwoIsComplete | server/daemon/ippool.go:95-102 | with the wrap the comment describes the scan meets a free address whenever there is one |
| RateLimit.TokenBucket.constructor | server/daemon/daemon.go:63-72 | a new bucket is full, with 125000 bytes and bytes per second for each Mbps |
| RateLimit.TokenBucket.Allow | server/daemon/daemon.go:75-97 | one call does to the bucket and answers what `AllowOn` says |
| RateLimit.NewBucketStartsHistories | server/daemon/daemon.go:63-78 | rate and burst are 125000 bytes per Mbps; a rate that is not positive limits nothing |
| RateLimit.TokensAreLeastSlack | server/daemon/daemon.go:75-97 | over every history the stored tokens are the least, over the creation and every call time, of capacity + rate * elapsed - bytes admitted since |
| RateLimit.AllowIsExact | server/daemon/daemon.go:75-97 | n bytes are admitted iff they fit the burst and every window since the creation or an earlier call |
| RateLimit.TokensInRange | server/daemon/daemon.go:84-94 | the tokens stay between zero and the capacity |
| RateLimit.WindowBound | server/daemon/daemon.go:75-97 | in any time window at most capacity + rate * length bytes are admitted |
| Packet.ParseLayout | shared/packet.go:49-77 | parsing a header laid out as in section 3.1 of RFC 791 gives its fields, whatever follows |
| Packet.ParseIsExact | shared/packet.go:49-77 | a packet parses to a header iff it begins with that header laid out; fewer than 20 bytes, or else a first byte outside 64 to 79, give the two errors |
| Packet.ExtractorsAgreeWithParse | shared/packet.go:49-129 | the four extractors fail with the parse's errors and otherwise give its addresses |
| Packet.SourceKeyIsAddress | shared/packet.go:81-129 | a packet's lookup key is k iff its address bytes are those of k |
| Crypto.ContractIsSatisfiable | shared/crypto.go:86-112 | some cipher meets the assumed contract, the ideal one included |
| Crypto.RoundTrip | shared/crypto.go:51-126 | decoding a frame gives the payload cut to its length modulo 2^16, for every nonce and padding; the payload itself iff it is shorter than 2^16 |
| Crypto.FrameLength | shared/crypto.go:68-88 | a frame has 46 bytes more than payload and padding |
| Crypto.FrameLayout | shared/crypto.go:51-88 | a frame byte by byte: 21 12 A4 42, the nonce, then the sealed text of high and low length byte, payload and padding, with those four bytes as associated data |
| Crypto.DecodesIffFrame | shared/crypto.go:93-126 | with an ideal AEAD a packet decodes to p iff it is a frame of p |
| Crypto.FramesAreUnambiguous | shared/crypto.go:93-126 | no packet is a frame of two payloads |
| Crypto.DecodeOutcomes | shared/crypto.go:95-125 | for every packet exactly when each outcome occurs; a wrong magic is a difference from 21 12 A4 42; what opens has at least two bytes, so the second length check never fails |
| Crypto.EveryPaddingFitsIff | shared/crypto.go:53-74 | past the size check every padding fits iff the buffer has len + 109 bytes |
| Crypto.WriteInner | shared/crypto.go:73-82 | length prefix, payload and padding are laid down in place, nothing else changes |
| Crypto.Obfuscator.ObfuscateTo | shared/crypto.go:51-89 | too small a buffer is untouched; if the frame fits, the first len + 46 + padding bytes become it and the rest stays; if only the inner text fits, the result counts bytes that are not in the buffer; if not even that, it panics |
| Crypto.Obfuscator.Deobfuscate | shared/crypto.go:93-126 | on every buffer the result is that of `Decode` on its first n bytes, the payload being the slice from index 30; the bytes after n stay |
| Conn.PacketConn.ReadFrom | shared/conn.go:38 | one datagram is received, its first bytes if it does not fit |
| Conn.ObfuscatedConn.ReadFrom | shared/conn.go:32-53 | skips what does not decode and hands over the first decodable payload, its first bytes if it does not fit, with its sender, leaving the rest of the caller's buffer and of the wire; the pooled buffer's old contents have no influence |
| Conn.ObfuscatedConn.WriteTo | shared/conn.go:57-73 | sends exactly one frame of the payload and reports its length iff the frame fits the pooled buffer and nothing fails, and panics iff only the padding does not fit; otherwise sends nothing |
| Conn.AlwaysSendableIff | shared/conn.go:57-73 | every padding fits iff the payload has at most 65426 bytes |
| Conn.NextReadTakesFirst | shared/conn.go:37-52 | one read hands over the first decodable datagram or error and leaves the others |
| Conn.ReadsFollowDecodable | shared/conn.go:32-53 | for every wire and all buffer sizes read k hands over the k-th decodable item: its sender and its first min(length, size) bytes |
| Conn.JunkIsInvisible | shared/conn.go:43-48 | datagrams that are no frames neither alter, reorder, drop nor duplicate messages |
| Conn.MessagesAreDelivered | shared/conn.go:32-73 | the reads of frames mixed with junk and read errors are the messages and errors in order, whole where they fit, otherwise their first bytes |
| Sessions.CoveredHolds | server/daemon/daemon.go:310-456 | every step of a handler or of `Close` keeps: each allocated address has a pending release, each session key a pending deletion, each entry lies under its own address |
| Sessions.NothingLeaks | server/daemon/daemon.go:310-456 | in every interleaving, when all handlers are done the pool and the session map are empty |
| Sessions.ExclusiveHolds | server/daemon/daemon.go:371-456 | every step but a release of `Close` keeps the exact agreement of handlers, pool and map |
| Sessions.ExclusiveUntilSwept | server/daemon/daemon.go:371-456 | in every interleaving before `Close` releases an address, no two handlers hold one address, the allocated addresses are those held, and the entries are the registered handlers |
| Sessions.RegisterNeverOverwrites | server/daemon/daemon.go:437-440 | the key a handler registers under is free |
| Sessions.DeletedBeforeReleased | server/daemon/daemon.go:443-448 | an address about to be released has no entry and is still allocated |
| Sessions.HoldersMatchPool | server/daemon/daemon.go:402-448 | the allocated count is the number of handlers between allocation and release |
| Sessions.RefusedOnlyWhenNearlyFull | server/daemon/daemon.go:402-407 | a client is refused an address only while at least maxClient - 1 handlers hold one, and always while maxClient do |
| Sessions.ReleasedAddressIsSharedNext | server/daemon/daemon.go:318-325 | in every exclusive state, whichever address `Close` releases is given to the next client while its handler still holds it |
| Sessions.ExclusivityEndsIff | server/daemon/daemon.go:310-456 | from an exclusive state a step makes two handlers on one address possible, without further releases by `Close`, iff it is such a release |
| Sessions.CloseEndsExclusivity | server/daemon/daemon.go:318-325 | for every pool a concrete run from the empty server ends with two handlers on one address |
| Sessions.HandlersFinish | server/daemon/daemon.go:371-456 | in every run a handler takes at most four steps |
| Sessions.NobodyIsStuck | server/daemon/daemon.go:310-456 | an unfinished handler can step unless a sweep holds the lock, and the sweep can step then |
| Sessions.EverythingCanEnd | server/daemon/daemon.go:310-456 | from every reachable state some continuation ends all handlers and sweeps and empties pool and map |
| Relay.StepKeepsAddressed | server/daemon/daemon.go:460-576 | every step of loops, handlers, `Close` and clock keeps every stored and used client address justified |
| Relay.SendsReachTheOwner | server/daemon/daemon.go:547-571 | each packet sent to a client has its session's own address as destination and goes where an earlier admitted packet of that session came from, in every interleaving |
| Relay.WritesCarryTheOwnAddress | server/daemon/daemon.go:486-513 | each packet written to the TUN device has its session's own address as source |
| Relay.ClientAddressWasHeard | server/daemon/daemon.go:503-506 | the client address of any session object, live or stale, was heard from as that session |
| RelayHistory.ClientAddressIsLatest | server/daemon/daemon.go:496-506 | in every interleaving a session's client address is the sender of its latest admitted packet, or of the one before while the latest sender is about to be stored |
| RelayHistory.SendsGoToTheLatestSender | server/daemon/daemon.go:565-571 | each packet sent to a client goes to the address so settled at the step that loaded it, for the packet then held |
| RelayHistory.OutputsAreReceived | server/daemon/daemon.go:471-571 | each packet put out is, unaltered, one its loop received earlier, for the session that had the entry for its address then |
| RelayHistory.AdmittedPacketsAreWritten | server/daemon/daemon.go:496-513 | with a TUN device the packets written are exactly the admitted ones in order, but for the one still held |
| RelayRates.RegistrationSetsLimits | server/daemon/daemon.go:425-440 | a registered session has no limiters iff the user's rate limit is not positive, otherwise a full one of 125000 bytes per Mbps in each direction, and no client address |
| RelayRates.StepKeepsMetered | server/daemon/daemon.go:432-435 | every step keeps each session's limiters equal to their initial state after their own calls |
| RelayRates.StepSpends | server/daemon/daemon.go:75-97 | no step creates bytes: output, held packet and tokens afterwards are at most held packet and tokens before and what the time earns |
| RelayWindows.OutputAfterState | server/daemon/daemon.go:460-576 | the same between any two states of any run |
| RelayWindows.SessionsStayWithinRate | server/daemon/daemon.go:496-572 | bytes written to TUN, and bytes sent, of a limited session in any window of writing times are at most capacity + rate * length plus the one packet held when the window began, in every interleaving; the tokens stay in range |
| RelayWindows.HeldIsOnePacket | server/daemon/daemon.go:468-469 | what is held is never more than one buffer of 1300 bytes |
| RelayExcess.PlainBoundFailsIff | server/daemon/daemon.go:486-572 | without that packet some continuation of a state exceeds the bound iff the session is in the map, the held packet is larger than what its limiter lacks to be full, and there is a TUN device or, towards the client, its address is known, about to be stored, or the held packet is larger than what the other limiter lacks for a packet of 20 bytes |
| RelayExcess.HeldUnheardStaysPlain | server/daemon/daemon.go:503-571 | a held packet too small to wait for its unheard client: until that is heard from nothing is sent to it and the held packet stays or is dropped, and afterwards the bound holds |
| RelayExcess.PlainBoundIsExceeded | server/daemon/daemon.go:486-572 | for every pool, every rate limit and either direction some run exceeds the bound without that packet |
| Daemon.ClientSession.constructor | server/daemon/daemon.go:425-435 | no limiters iff the user's rate limit is not positive, otherwise two different full ones of 125000 bytes per Mbps; no client address yet |
| Daemon.ClientSession.Upstream | server/daemon/daemon.go:497-513 | written iff the limiter admits the packet and there is a TUN device; exactly an admitted packet's sender becomes the client address |
| Daemon.ClientSession.Downstream | server/daemon/daemon.go:559-571 | the answer is the stored address iff the limiter admits the packet |
| Daemon.UpstreamIsThreeSteps | server/daemon/daemon.go:497-513 | undisturbed, the data loop's three steps do to the session what `Upstream` does, and record exactly its question, the sender it stores and the packet it writes |
| Daemon.DownstreamIsThreeSteps | server/daemon/daemon.go:559-571 | undisturbed, the TUN loop's three steps do to the session what `Downstream` does, and send one packet, to the address it answers, iff it answers one |
| Daemon.VPNServer.Allocate | server/daemon/daemon.go:402-407 | does the allocation step and hands out its address |
| Daemon.VPNServer.FailReply | server/daemon/daemon.go:419-422 | does the failed-reply step |
| Daemon.VPNServer.Register | server/daemon/daemon.go:425-440 | does the registration step with a fresh session |
| Daemon.VPNServer.Unregister | server/daemon/daemon.go:444-446 | does the deletion step |
| Daemon.VPNServer.ReleaseAddress | server/daemon/daemon.go:447 | does the release step |
| Daemon.VPNServer.Cleanup | server/daemon/daemon.go:443-448 | the deferred cleanup is deletion, then release |
| Daemon.VPNServer.Connect | server/daemon/daemon.go:371-440 | undisturbed, either nothing remains or one fresh session of this handler, with the user's limiters and no client address, is added under a newly granted address; the server stays exclusive |
| Daemon.VPNServer.HandleConnection | server/daemon/daemon.go:371-456 | undisturbed, a whole connection restores the session map and the allocated set; it was served by a session with the user's limiters under a free address and key; the server stays exclusive, ready for the next connection |
| Daemon.VPNServer.SweepAddress | server/daemon/daemon.go:319-322 | does the sweep's release step |
| Daemon.VPNServer.SweepOne | server/daemon/daemon.go:319-324 | one round of the sweep is release, then deletion |
| Daemon.VPNServer.Close | server/daemon/daemon.go:317-325 | undisturbed, the sweep leaves no session and frees exactly the sessions' addresses |
| Daemon.VPNServer.DataReadRound | server/daemon/daemon.go:468-516 | one round of the data loop: the next decodable datagram, cut to 1300 bytes, changes only its own session and goes to TUN as its limiter says |
| Daemon.VPNServer.TunReadRound | server/daemon/daemon.go:545-574 | one round of the TUN loop: a packet for a session is sent as one frame to its stored address if its limiter admits it |
| Db.Store.CreateUser | server/db/db.go:110-133 | inserts the row under an id above all used ones iff no user has the key, the role is owner, admin or user, and the limit is from 1 to 5; otherwise changes nothing |
| Db.Store.GetUserByKey | server/db/db.go:136-146 | finds a row with the key, or none when no user has it |
| Db.Store.UpdateUserAccessKey | server/db/db.go:181-184 | fails iff another user has the key; otherwise exactly the key of that user's row, if there is one, changes |
| Db.Store.UpdateUserAPIKey | server/db/db.go:175-178 | exactly the API key of the user's row changes, if there is one |
| Db.Store.DeleteUser | server/db/db.go:187-190 | exactly the user's row goes, and exactly its devices where deletions cascade |
| Db.Store.RegisterDevice | server/db/db.go:214-267 | an unknown user is an error; a known device is touched; a new one is inserted iff the count is below the limit, 1 for an admin, and otherwise refused with count and limit; a failure changes nothing |
| Db.Store.ResetUserDevices | server/db/db.go:270-273 | exactly the user's devices go |
| DbProperties.NewUserStartsEmpty | server/db/db.go:73-133 | a new user's id is above every id ever used and has no device rows, even orphaned ones |
| DbProperties.RegisterKeeps | server/db/db.go:214-267 | registering keeps quota, uniqueness of devices and keys |
| DbProperties.QuotaHolds | server/db/db.go:71-273 | in every reachable state each user has at most its limit of devices, 1 for an admin, none twice, and keys are unique, whether or not deletions cascade |
| DbProperties.UserIdsAreNeverReused | server/db/db.go:73 | over every run user ids only grow |
| DbProperties.DeviceIdsAscend | server/db/db.go:90-99 | over every run device rows are in the order of their ids, and none has another's |
| DbProperties.DeleteKeepsOwnershipIff | server/db/db.go:97 | deleting a user leaves no orphans iff it cascades or there were no devices |
| DbProperties.AtMostLimitDevicesGetThrough | server/db/db.go:214-267 | until a user is reset or deleted, at most as many different devices as its limit get through, over every run |
| DbProperties.DevicesAreThoseAdmitted | server/db/db.go:214-267 | over every run that neither resets nor deletes a user, its devices are exactly those it had and those that got through |
| DbProperties.GetsThroughIff | server/db/db.go:230-263 | after such a run a device gets through iff it is one of these or they are fewer than the limit |
| Auth.Authenticate | server/auth/auth.go:16-44 | does what `AuthenticateOn` says to the store and returns its result |
| Auth.AuthenticateSucceedsIff | server/auth/auth.go:16-44 | succeeds iff key and hardware id are given, the key is known, and the device is known or fits the quota; a refusal changes nothing; the user returned is the row with the limit of an admin set to 1; counts change by exactly the new device |
| Auth.AuthenticateErrors | server/auth/auth.go:17-41 | which error is returned: empty key, then empty hardware id, then unknown key, then the refusal with count and limit |
| Auth.LoginIsRecorded | server/db/db.go:248-263 | a login leaves the device's row with its time, and every other row as it was |
| Auth.NewKeyReplacesOld | server/db/db.go:181-184 | a new key is refused iff another user has it; otherwise the old key is dead and nobody else is affected |
| Auth.ResetRestoresQuota | server/db/db.go:270-273 | a reset frees the whole quota of that user only |
| AuthRuns.KnownDeviceComesBack | server/db/db.go:248-253 | a device that got through gets through again, with the key its user then has, after any statements that neither reset nor delete the user, and with the same key if they do not replace it |
| AuthRuns.DeletedUserIsRefused | server/db/db.go:187-190 | a deleted user's key is refused throughout a run iff no statement of it gives that key out, whether or not its devices were deleted |
| AuthRuns.DeletedKeyCanBeReissued | server/db/db.go:110-133 | a user created with that key next gets through with it, as itself |
| AuthRuns.UndisturbedIsAmidNothing | server/auth/auth.go:16-44 | with nothing in between that is `Authenticate` undisturbed |
| AuthRuns.AuthenticateAmidSucceedsIff | server/auth/auth.go:24-41 | with any statements between lookup and registration, succeeds iff the key's user at the lookup still exists and the device is known or fits the quota then, and returns the row of the lookup; the key is stale iff the user was last given another one in between |

## Left out

- Crypto.Obfuscator.ObfuscateTo: the destination has no spare capacity beyond its length, as the pooled buffers have none; the plaintext is a value, so a plaintext slice that overlaps the destination is not modelled; how much of a nonce a failing random source wrote is not stated.
- Crypto.Obfuscator.Deobfuscate: says nothing about the sealed part of the buffer after a failure, where the cipher may have written.
- PoolProperties.WellFormed: covers every pool of prefix length 1 to 30, and of prefix length 0 with fewer than 2^31 clients; beyond that the scan's addition can wrap (PoolProperties.ScanAdditionFitsIff).
- Auth.Authenticate: runs its two statements undisturbed; AuthRuns.AuthenticateAmidSucceedsIff says what other statements in between change.
- Relay.SendsReachTheOwner: one data loop and one TUN loop, as `Start` launches them.
- Floating-point rounding in the token bucket: tokens, rates and times are reals.
- The internals of the AEAD, key derivation, and the quality of random numbers: only the AEAD contract is used.
- The SQL engine: each statement or transaction is one atomic step over two tables with the declared constraints; columns that no rule reads (creation time) are dropped.
- Detection of the pool size from CPU count and memory: any positive number.
- The context and connection machinery that ends a session: a registered handler may leave at any time.
- QUIC, TLS, JSON, sockets, TUN drivers, NAT commands, the client, the REST API's role checks and the user interface.
- Errors of the TUN device and log output: a packet handed to the device counts as written.
