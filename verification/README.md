# A model of the WireGuard tunnel, its device and the payment layer

This project models the Rust crate under `protocol/boringtun` and proves what its protocols are for.
The files follow the crate's components:

| files | component |
|---|---|
| `ReplayWindow.dfy`, `Session.dfy`, `Channel.dfy` | transport sessions: the replay bitmap against the set of received counters, sealing and opening packets, concurrent receivers |
| `Crypto.dfy`, `Noise.dfy`, `Wire.dfy`, `ByteStrings.dfy` | symbolic cryptography, the key schedule of the WireGuard whitepaper, the wire format, number encodings |
| `HandshakeSpec.dfy`, `Handshake.dfy`, `HandshakeProofs.dfy` | the Noise IKpsk2 handshake: specification, object, properties |
| `RateLimiter.dfy` | macs, load and cookies: specification, properties, object |
| `AttackerKnowledge.dfy`, `AttackerWorld.dfy`, `AttackerProofs.dfy` | two tunnels and an attacker who owns the network and computes: whatever a tunnel accepts was made by its peer |
| `TunnelSpec.dfy`, `Tunnel.dfy`, `TunnelProofs.dfy`, `TunnelRuns.dfy`, `TunnelFlush.dfy`, `TunnelKeepalive.dfy`, `TunnelDelivery.dfy` | the tunnel: state machine, object, invariants, timing over runs, queue, keepalives and delivery |
| `TunnelCookies.dfy` | cookies over runs of a tunnel and of the limiter of its peer |
| `IndexLfsr.dfy` | peer indexes: the shift register, its full cycle, the object |
| `AllowedIps.dfy` | the network table, and who may send from an address against who gets the answers |
| `PeerUpdates.dfy`, `Device.dfy`, `DevicePairs.dfy` | the three peer maps, dispatch, the flush loop and the source filter; two devices that add each other |
| `DevLock.dfy`, `DevLockData.dfy`, `LockedDevice.dfy` | the cooperative upgradable lock as a protocol of any number of threads whose closures may panic, what they read and write, and the device behind it |
| `Registration.dfy`, `TokenBucket.dfy` | the registration service's address pool and its request limit |
| `Rlp.dfy`, `Payment.dfy` | transaction encoding, payment messages and signal packets |

Where the code updates objects in place there is a class, and each of its methods is proved to compute
a function of the old state; the properties are then proved of these functions, over all inputs and all
runs. Cryptography is symbolic: a byte is a number or the i-th byte of a term, hashes, macs and seals
are free constructors, and a Diffie-Hellman secret is an unordered pair. Clocks, ephemeral secrets,
random keys, buffer sizes and the answers of the device are inputs.

## Findings

The code was followed where it differs from what one would expect of it, and the exact condition was
proved:

- A handshake attempt is said to end after 90 s of retransmissions 5 s apart, which is 18 initiations.
  An update reads the clock twice, first for the deadline and then for the spacing. Once 18 are sent, a
  nineteenth is sent exactly by a call whose first reading is before the deadline and less than 540 s
  after the last key exchange, and whose second is at or after the deadline and 5 s after the last
  initiation (`TunnelRuns.NineteenthIff`, `TunnelRuns.AttemptExceedsIff`).
- Counters within 1024 of 2^64 make the sum in the replay check wrap, and fresh packets are refused
  (`ReplayWindow.MarkDecidesFreshnessIff`, `ReplayWindow.CheckDecidesFreshnessIff`). Accepting counter
  2^64 - 1 sets `next` to zero and makes everything fresh again (`ReplayWindow.StaleForEver`).
- A flush without a session rotates the queue (`TunnelFlush.FlushRotates`). When the buffer is too small
  for an initiation, no handshake is in progress and the queue is neither empty nor full, its front
  packet is queued twice (`TunnelFlush.FlushKeepsPacketsIff`).
- A responder whose buffer is too small for its response has already used the initiation up: it is not
  accepted again (`HandshakeProofs.InitiationAcceptedIff`).
- The reaper treats a handshake less than a second old as none, and so removes an active peer that
  registered over ten minutes ago (`RegistrationProofs.ActivePeerIsReapedIff`,
  `RegistrationDevice.ActivePeerIsReaped`).
- The reaper queries the device's peers before it enters its critical section. A peer that registers in
  between is missing from the list and removed (`RegistrationDevice.MissingFromListIff`,
  `RegistrationDevice.RacedPeerIsReaped`).
- If the device adds a peer but its answer is lost, every later registration of that key meets an
  existing peer while an address is free, and the device panics; the service cannot repair it
  (`RegistrationDevice.MeetsExistingPeerIff`, `RegistrationDevice.LostForEver`).
- A configuration request runs in the mutation closure of the cooperative lock, and the lock takes its
  flag down in a plain statement after the closure. A panic in the closure leaves the flag up: from then
  on no `read()` returns, and within four turns a thread everybody is parked, the event loops included.
  Deadlocks arise in this way and in no other (`DevLock.DeadlockIff`, `DevLock.PanicStopsEverybody`,
  `DevLock.PanicDeadlocks`). A request panics exactly if one of its updates adds a peer that exists, one
  peer too many, or a peer before there is a private key (`LockedDevice.ServePanicsIff`,
  `LockedDevice.FailedRequestStopsDevice`). So a single lost answer and one more registration of that key
  stop the device for good (`RegistrationDevice.LostAnswerThenPanic`, `RegistrationDevice.DownIff`,
  `RegistrationDevice.DownForEver`).
- A cookie is good for a period of 128 s, but the tunnel drops it after 120 s. The update that replaces a
  session for its age drops a cookie that came before the session and sends its initiation without it, so
  under load that initiation is refused, at times within the cookie's period
  (`TunnelCookies.CookieCompleteness`, `TunnelCookies.AgedSessionLosesCookie`,
  `TunnelCookies.LostWithinPeriod`). An expired connection on the other hand keeps its cookie for as long
  as it is expired, and the next handshake counts it as new (`TunnelCookies.ExpiryRenewsCookie`).
- A responder uses a new session only once data has come over it, with one exception: a session whose
  index equals the current one modulo 8 takes the current slot, and is used at once
  (`TunnelDelivery.AnswerKeepsCurrentIff`).
- An IPv4 address and the IPv6 address that begins with its octets, followed by zeros, have the same cookie
  (`CookieProofs.CookieIsBound`).
- Each peer keeps its own list of networks, and the device has one table for all. When a second peer
  claims a network, the first may still send from it but gets no answers, and when the second is removed
  nobody does (`Routing.RoutesBackIff`, `Routing.TakenOverThenGone`). The octet of a lost addition leads
  to this.
- The comment in `protocol/boringtun/src/noise/timers.rs:178-179` says that timers are rounded to a
  second; the code does not round, and neither does the model.

## Model

| member | source | states |
|---|---|---|
| `ReplayWindow.ChecksDecideFreshness` | protocol/boringtun/src/noise/session.rs:85-145 | for counters away from the wrap-around, the check before decryption and the mark after it both succeed exactly for fresh counters: at or above `next`, or at most 1024 below it and never marked |
| `ReplayWindow.MarkDecidesFreshnessIff` | protocol/boringtun/src/noise/session.rs:104-124 | with `counter + N_BITS` wrapping as in a release build, the exact condition under which marking still decides freshness |
| `ReplayWindow.WrapRefusesFreshCounter` | protocol/boringtun/src/noise/session.rs:89-92 | a concrete fresh counter that passes the quick check and is then refused because of the wrap-around |
| `ReplayWindow.PassesIff` | protocol/boringtun/src/noise/session.rs:85-145 | what exactly passes both checks: fresh counters that the wrap-around does not lose |
| `ReplayWindow.CheckDecidesFreshnessIff` | protocol/boringtun/src/noise/session.rs:85-102 | with the wrap-around, the exact condition under which the check before decryption still decides freshness |
| `ReplayWindow.MarkedIsDuplicate` | protocol/boringtun/src/noise/session.rs:85-145 | a counter that was just marked is refused from then on, exactly unless it is 2^64 - 1 |
| `ReplayWindow.MarkGrows` | protocol/boringtun/src/noise/session.rs:104-145 | every accepted counter is new to the set of received counters and is the only one added; the window stays well formed exactly unless it is 2^64 - 1 |
| `ReplayWindow.StaleForEver` | protocol/boringtun/src/noise/session.rs:85-145 | a counter that is no longer fresh stays so whatever is marked afterwards, exactly unless 2^64 - 1 is accepted |
| `CounterValidator.ReceivingKeyCounterValidator.SetBit` | protocol/boringtun/src/noise/session.rs:51-56 | the bitmap after setting a bit is the old one with the slot of the counter, modulo 1024, added |
| `CounterValidator.ReceivingKeyCounterValidator.ClearBit` | protocol/boringtun/src/noise/session.rs:59-64 | the bitmap after clearing a bit loses exactly that slot |
| `CounterValidator.ReceivingKeyCounterValidator.ClearWord` | protocol/boringtun/src/noise/session.rs:68-72 | clearing a word clears exactly the slots of the 64 counters of its word |
| `CounterValidator.ReceivingKeyCounterValidator.CheckBit` | protocol/boringtun/src/noise/session.rs:76-81 | reads the slot of the counter |
| `CounterValidator.ReceivingKeyCounterValidator.WillAccept` | protocol/boringtun/src/noise/session.rs:85-100 | the bitmap check gives the answer of the unbounded set of received counters |
| `CounterValidator.ReceivingKeyCounterValidator.ClearSkipped` | protocol/boringtun/src/noise/session.rs:124-142 | the three clearing loops together clear exactly the slots of the skipped counters, or all of them when 1024 or more are skipped |
| `CounterValidator.ReceivingKeyCounterValidator.MarkDidReceive` | protocol/boringtun/src/noise/session.rs:104-145 | marking in the bitmap refines adding to the set, with the same errors, in every case: in order, late, duplicate, too far back, skip ahead |
| `SessionObject.Session.FormatPacketData` | protocol/boringtun/src/noise/session.rs:196-233 | the datagram is written in place at the front of the buffer, nothing behind it changes, and the counter advances by one |
| `SessionObject.Session.ReceivePacketData` | protocol/boringtun/src/noise/session.rs:236-268 | check, decrypt, mark: result, plaintext at the front of the buffer and validator are those of the value-level session; nothing behind the ciphertext changes, and nothing at all when the index or the first check refuses |
| `SessionObject.Session.ReceivingCounterMark` | protocol/boringtun/src/noise/session.rs:184-191 | a successful mark counts one more received packet, a failed one changes nothing |
| `Session.RoundTrip` | protocol/boringtun/src/noise/session.rs:196-268 | between mirrored sessions a formatted packet parses and decrypts to the same bytes exactly if its counter passes the window; a second delivery is refused unless the counter is 2^64 - 1 |
| `Session.ReceiveIsSound` | protocol/boringtun/src/noise/session.rs:236-268 | for every counter, a packet is accepted exactly if its index, counter and seal are right; refusals change nothing; the receive counter stays the size of the set exactly unless 2^64 - 1 is accepted |
| `Session.LossInRange` | protocol/boringtun/src/noise/session.rs:271-274 | received is at most expected, so the loss estimate lies in [0, 1] |
| `Session.SendAllAt` | protocol/boringtun/src/noise/session.rs:196-233 | the i-th packet of a session carries the i-th counter from its start |
| `Session.CountersAreDistinct` | protocol/boringtun/src/noise/session.rs:196-233 | successive packets of one session carry distinct counters, so no nonce is used twice |
| `Channel.DeliveredOnceAndAuthentic` | protocol/boringtun/src/noise/session.rs:178-268 | many receivers interleaving quick check, decryption and mark over a network that drops, duplicates, reorders and forges: in every run each counter is delivered at most once and every delivered payload was sent by the peer under that counter |
| `Channel.QuickCheckLosesNothing` | protocol/boringtun/src/noise/session.rs:178-191 | what the quick check refuses would also be refused by every later mark |
| `Channel.StaysStale` | protocol/boringtun/src/noise/session.rs:178-191 | over any run a stale counter stays stale |
| `Wire.ParseEncoded` | protocol/boringtun/src/noise/mod.rs:128-163 | every well-sized message, encoded, parses back to itself |
| `Wire.ParsedIsEncoded` | protocol/boringtun/src/noise/mod.rs:128-163 | whatever parses is the encoding of its fields, followed by 32 bytes of macs for handshake messages |
| `HandshakeSpec.TimestampRoundTrip` | protocol/boringtun/src/noise/handshake.rs:186-224 | an encoded TAI64N timestamp parses back to itself |
| `Handshake.Handshake.FormatHandshakeInitiation` | protocol/boringtun/src/noise/handshake.rs:709-787 | the step-by-step key schedule produces the initiation and state of the whitepaper-style specification |
| `Handshake.Handshake.FormatHandshakeResponse` | protocol/boringtun/src/noise/handshake.rs:789-880 | the same for the response and the responder's session |
| `Handshake.Handshake.ReceiveHandshakeInitialization` | protocol/boringtun/src/noise/handshake.rs:481-563 | the same for receiving an initiation, with all its error cases and the timestamp check |
| `Handshake.Handshake.ReceiveHandshakeResponse` | protocol/boringtun/src/noise/handshake.rs:565-645 | the same for receiving a response over both handshake slots |
| `Handshake.Handshake.ReceiveCookieReply` | protocol/boringtun/src/noise/handshake.rs:647-679 | the same for cookie replies |
| `Handshake.Handshake.AppendMac1AndMac2` | protocol/boringtun/src/noise/handshake.rs:682-707 | appends mac1, and mac2 under the stored cookie, and remembers mac1 and the index for the cookie |
| `Handshake.Handshake.SetStaticPrivate` | protocol/boringtun/src/noise/handshake.rs:394-407 | the cached public key and shared secret stay those of the parameters |
| `Handshake.Handshake.IncIndex` | protocol/boringtun/src/noise/handshake.rs:466-471 | the index advances in its low 8 bits |
| `HandshakeProofs.IncIndexKeepsPeer` | protocol/boringtun/src/noise/handshake.rs:466-471 | an advanced index keeps its 24 peer bits and cycles through 256 sessions |
| `HandshakeProofs.InitiationParses` | protocol/boringtun/src/noise/handshake.rs:709-787 | a formatted initiation has the right size and parses to its fields |
| `HandshakeProofs.ResponseParses` | protocol/boringtun/src/noise/handshake.rs:789-880 | a formatted response has the right size and parses to its fields |
| `HandshakeProofs.InitiationIsRead` | protocol/boringtun/src/noise/handshake.rs:481-563 | the responder reads from an initiation exactly the timestamp and transcript the initiator wrote, and the anonymous parse recovers the same static key |
| `HandshakeProofs.HandshakeAgreement` | protocol/boringtun/src/noise/handshake.rs:481-880 | running the four steps between configured peers from any states: the response is accepted exactly if the preshared keys agree, and then keys and indexes of the two sessions mirror each other and the round-trip time is the initiator's, in milliseconds |
| `HandshakeProofs.InitiationAcceptedIff` | protocol/boringtun/src/noise/handshake.rs:481-563 | a configured responder accepts an initiation exactly if its timestamp is later than the last accepted one and the buffer holds the response; a late one changes nothing |
| `HandshakeProofs.DelayedResponse` | protocol/boringtun/src/noise/handshake.rs:565-645 | with two initiations on the way, a response to the one before the last is accepted exactly if the preshared keys agree, mirrors the responder and leaves the later attempt under way; a response to an older one is refused |
| `HandshakeProofs.AcceptedResponseMeansAgreement` | protocol/boringtun/src/noise/handshake.rs:565-645 | over a hostile network: an accepted response that carries a responder's ephemeral and seal implies that both agree on the transcript, the preshared key and both directions' keys |
| `HandshakeProofs.TranscriptDetermines` | protocol/boringtun/src/noise/handshake.rs:481-563 | a transcript hash determines the responder it was made for and every field of the initiation |
| `AttackerKnowledge.StaticFieldSecretIff` | protocol/boringtun/src/noise/handshake.rs:744-751 | the key of the static field can be computed exactly by whoever holds the private key of the ephemeral key or of the responder |
| `AttackerKnowledge.StaticKeyIff` | protocol/boringtun/src/noise/handshake.rs:744-751 | the key of the static field and the chaining key after it depend on the ephemeral key and its Diffie-Hellman secret, for any values of these |
| `AttackerKnowledge.EmptyKeyIff` | protocol/boringtun/src/noise/handshake.rs:789-880 | the key of the empty field and both transport keys depend on each of: chaining key, ephemeral key, both its secrets, preshared key |
| `AttackerKnowledge.SessionSecretIff` | protocol/boringtun/src/noise/handshake.rs:709-880 | a session is known exactly to those who can compute all four Diffie-Hellman secrets and the preshared key; so with two secret ephemeral keys it stays secret when both static keys are known |
| `AttackerProofs.OpensWithSecretIff` | protocol/boringtun/src/noise/handshake.rs:744-751 | the static field of an initiation opens to the caller's key with the right Diffie-Hellman secret, and with any other not at all |
| `AttackerProofs.OnlyResponderReads` | protocol/boringtun/src/noise/handshake.rs:326-369 | the anonymous parse finds out the caller exactly with the private key the initiation was made for |
| `AttackerProofs.CallerStaysHidden` | protocol/boringtun/src/noise/handshake.rs:744-751 | in no run does an attacker without the ephemeral and the responder's private key hold a byte of the key of the static field, or open that field |
| `AttackerProofs.AcceptedResponseIsPeers` | protocol/boringtun/src/noise/handshake.rs:565-645 | an attacker delivers, withholds and alters datagrams of two tunnels at will and computes with all private keys but the two static ones and any further secret ones, over whole runs: every response a tunnel accepts was made by its peer in answer to an initiation this tunnel made, with the same preshared key, ephemeral key and transport keys |
| `AttackerProofs.AcceptedInitiationIsPeers` | protocol/boringtun/src/noise/handshake.rs:481-563 | in the same runs every initiation a tunnel can read was made by its peer, with the timestamp it carries and all fields unchanged but the index |
| `AttackerProofs.DeliveredIsPeers` | protocol/boringtun/src/noise/mod.rs:250-507 | in the same runs every packet a tunnel passes to its interface was handed to the peer for sending, and sent by it under this session key and counter; a tunnel never takes its own packets for the peer's |
| `AttackerProofs.SessionKeysStaySecret` | protocol/boringtun/src/noise/handshake.rs:565-880 | in the same runs the attacker never holds a byte of a session key |
| `AttackerProofs.HonestRunIsAccepted` | protocol/boringtun/src/noise/handshake.rs:481-880 | the premises of the first two are met: with one preshared key and plain delivery the initiation is read and its response accepted |
| `AttackerWorld.StepDid` | protocol/boringtun/src/noise/mod.rs:250-541 | every call of a tunnel keeps its record: handshakes under way were made by it, session keys come from its handshakes, queued packets were handed in, and whatever it sends shows nothing |
| `AttackerKnowledge.ProductIsFine` | protocol/boringtun/src/noise/handshake.rs:27-141 | what the attacker computes from bytes it may hold it may hold: hashing, macs, sealing, opening and Diffie-Hellman |
| `HandshakeProofs.AnonParseAgrees` | protocol/boringtun/src/noise/handshake.rs:326-369 | for every packet, the anonymous parse and the full receive recover the same static key |
| `HandshakeProofs.LastTimestampGrows` | protocol/boringtun/src/noise/handshake.rs:543-548 | the last accepted timestamp only grows, whatever operation is applied |
| `HandshakeProofs.NoInitiationTwice` | protocol/boringtun/src/noise/handshake.rs:481-563 | in every run, across key changes and expiry, no initiation is accepted twice |
| `HandshakeProofs.LaterStampIsAfter` | protocol/boringtun/src/noise/handshake.rs:186-246 | a stamp taken later is after one taken earlier, so retransmissions are not mistaken for replays |
| `HandshakeProofs.StampsCompareAsTimes` | protocol/boringtun/src/noise/handshake.rs:186-246 | stamps of any two tunnels, such as one before and one after a restart, compare exactly as their wall-clock times, which they state in TAI64N |
| `HandshakeProofs.RekeyRefusesAnswer` | protocol/boringtun/src/noise/handshake.rs:394-407 | after a change of the private key the answer to an initiation sent before fails its tag and changes nothing |
| `RateLimiter.RateLimiter.VerifyPacket` | protocol/boringtun/src/noise/rate_limiter.rs:153-192 | verdict and counters of the limiter object are those of the specification, for every packet |
| `RateLimiter.RateLimiter.FormatCookieReply` | protocol/boringtun/src/noise/rate_limiter.rs:115-150 | the reply carries the cookie sealed under a nonce of the counter, which advances; a buffer below 64 bytes is an error that changes nothing |
| `RateLimiter.RateLimiter.ResetCount` | protocol/boringtun/src/noise/rate_limiter.rs:78-86 | the count is reset only when a second has passed |
| `RateLimiter.RateLimiter.IsUnderLoad` | protocol/boringtun/src/noise/rate_limiter.rs:111-113 | loaded exactly if the count before this packet had reached the limit |
| `RateLimiter.RateLimiter.CurrentCookie` | protocol/boringtun/src/noise/rate_limiter.rs:89-103 | the cookie is a mac of the 128 s epoch and the padded address |
| `CookieProofs.ReplyIsAcceptedIff` | protocol/boringtun/src/noise/handshake.rs:647-679 | whatever state the sender is in by then, it accepts the cookie a loaded responder sends for a message exactly if that message is still the last one it formatted, and then stores exactly the cookie of its address |
| `CookieProofs.CookiePassesIff` | protocol/boringtun/src/noise/rate_limiter.rs:153-192 | a formatted handshake message passes exactly if the responder is not under load or the stored cookie is the current one of the address; otherwise it is answered with a cookie exactly if the buffer holds one |
| `TunnelCookies.StepCarries` | protocol/boringtun/src/noise/timers.rs:199-204 | every call of a tunnel: an accepted reply replaces the stored cookie, an update at least 120 s after it drops it unless the connection has expired, and nothing else touches it; every handshake message sent carries the macs of the cookie stored then |
| `TunnelCookies.CookieKeptIff` | protocol/boringtun/src/noise/timers.rs:199-204 | over whole runs without another accepted reply the cookie is stored exactly as long as no update has dropped it |
| `TunnelCookies.DroppedIff` | protocol/boringtun/src/noise/timers.rs:199-204 | while the connection does not expire, some update of a run drops the cookie exactly if some update of the run comes 120 s after the reply or later |
| `TunnelCookies.CookieCompleteness` | protocol/boringtun/src/noise/rate_limiter.rs:89-192 | runs of a tunnel and of a limiter: after a cookie reply, with no handshake message in between, the tunnel stores the cookie; after anything both do then short of another accepted reply, a handshake message from the same address in the same 128 s period passes exactly if the limiter is not loaded or no update, the sending call included, has dropped the cookie |
| `TunnelCookies.AgedSessionLosesCookie` | protocol/boringtun/src/noise/timers.rs:199-293 | the update that replaces a session for its age drops a cookie that came before the session, and no loaded limiter accepts the initiation it sends |
| `TunnelCookies.LostWithinPeriod` | protocol/boringtun/src/noise/timers.rs:199-293 | a run from a new tunnel: cookie at 0 s, accepted retransmission and session at 5 s, data at 6 s, and an initiation at 125 s that is refused under load although both times are in one period |
| `TunnelCookies.ExpiryRenewsCookie` | protocol/boringtun/src/noise/timers.rs:88-95 | an expired connection keeps its cookie at any age, and the handshake it starts again sends it and counts it as received now |
| `CookieProofs.AcceptsIff` | protocol/boringtun/src/noise/rate_limiter.rs:153-192 | every datagram: it passes exactly if it parses and, for handshake messages, mac1 is right and, under load, mac2 is right for its source address |
| `CookieProofs.GuardsIff` | protocol/boringtun/src/noise/rate_limiter.rs:57-76 | a limiter guards exactly the peers configured for its public key |
| `CookieProofs.Mac1BindsResponderIff` | protocol/boringtun/src/noise/rate_limiter.rs:164-172 | a formatted message is refused for its mac1 exactly by the limiters of other public keys, at any load |
| `CookieProofs.CookieKeyBindsResponder` | protocol/boringtun/src/noise/rate_limiter.rs:115-150 | a sealed cookie opens exactly for the peers of the public key it was sealed for |
| `CookieProofs.CountIsSinceReset` | protocol/boringtun/src/noise/rate_limiter.rs:78-113 | in every run the count is the number of messages with a right mac1 since the last reset that came a second or more after the one before |
| `CookieProofs.PassesWithoutCookieIff` | protocol/boringtun/src/noise/rate_limiter.rs:153-192 | in every run a message without a cookie passes exactly if fewer messages than the limit came since that reset |
| `CookieProofs.CookieIsBound` | protocol/boringtun/src/noise/rate_limiter.rs:89-103 | two limiters, addresses and times have one cookie exactly if the secrets are equal, the addresses are equal or one is the padding of the other, and both times are in one period of 128 s |
| `CookieProofs.RepliesUseFreshNonces` | protocol/boringtun/src/noise/rate_limiter.rs:105-109 | no two cookie replies of a run share a nonce |
| `TunnelInvariants.StepKeepsTimers` | protocol/boringtun/src/noise/timers.rs:88-324 | every call keeps every timer and session timer at or below the current time, and that at or below the clock |
| `TunnelInvariants.StepKeepsStructure` | protocol/boringtun/src/noise/mod.rs:205-541 | every call keeps: session indexes carry the peer's 24 bits and sit in their slots, an expired tunnel holds nothing, the queue has at most 256 packets |
| `TunnelInvariants.StepKeepsCounts` | protocol/boringtun/src/noise/session.rs:184-191 | every call but receiving a packet with counter 2^64 - 1 keeps every session's receive counter equal to the number of counters it accepted |
| `TunnelRuns.CountsStayRight` | protocol/boringtun/src/noise/mod.rs:543-571 | so does every run, which is what the loss estimate needs |
| `TunnelRuns.NoTimerUnderflows` | protocol/boringtun/src/noise/timers.rs:152-324 | in every run no subtraction of times underflows: the session timers when they are compared, all timers after an update has set the current time, and the age of the last handshake |
| `TunnelRuns.UpdatedSessionsAreYoung` | protocol/boringtun/src/noise/timers.rs:152-166 | in every run no session installed more than 180 s before survives an update |
| `TunnelRuns.AttemptsAreBounded` | protocol/boringtun/src/noise/timers.rs:215-236 | in every run one handshake attempt sends at most 18 initiations as long as no call reads the clock before the 90 s deadline of the attempt and again at or after it, and at most 19 in any case |
| `TunnelRuns.NineteenthIff` | protocol/boringtun/src/noise/timers.rs:215-236 | with 18 initiations of the attempt sent, a call sends another exactly if it straddles the deadline, comes 5 s after the last one by its second reading, and the 540 s rule does not end the connection first |
| `TunnelRuns.AttemptExceedsIff` | protocol/boringtun/src/noise/timers.rs:215-236 | over whole runs: some attempt sends more than 18 initiations exactly if the run has such a call |
| `TunnelRuns.AttemptBoundIsReached` | protocol/boringtun/src/noise/timers.rs:215-236 | a run without a straddling call reaches 18, and one with it reaches 19 |
| `TunnelRuns.StepSends` | protocol/boringtun/src/noise/timers.rs:215-236 | while a response is awaited, only the timer sends initiations: at least 5 s after the last one, before 90 s are over, without moving the start |
| `TunnelRuns.AttemptBegins` | protocol/boringtun/src/noise/timers.rs:215-226 | the first initiation of an attempt starts its 90 s anew, whichever call sends it |
| `TunnelRuns.UpdateSendsIff` | protocol/boringtun/src/noise/timers.rs:237-293 | without a response to wait for, exactly when an update starts a handshake |
| `TunnelKeepalive.UpdateKeepsAlive` | protocol/boringtun/src/noise/timers.rs:282-309 | with a live session, no response awaited and keys younger than 540 s, an update that starts no handshake sends an empty packet over the session exactly if data was received and nothing sent for 10 s or the persistent interval has passed; exact timers and flags afterwards, and otherwise nothing changes |
| `TunnelKeepalive.KeepaliveIsTaken` | protocol/boringtun/src/noise/mod.rs:464-467 | the tunnel with the mirror image of that session takes what is sent for a sign of life and delivers nothing |
| `TunnelKeepalive.DataIsAnswered` | protocol/boringtun/src/noise/timers.rs:282-292 | from the delivery of data, over any updates with nothing to do, the first update 10 s after the last packet sent sends something |
| `TunnelKeepalive.SilenceIsNoticed` | protocol/boringtun/src/noise/timers.rs:268-280 | from sending data, over any updates with nothing to do, the first update 15 s after the last packet received starts a handshake |
| `TunnelRuns.ExpiresIff` | protocol/boringtun/src/noise/timers.rs:183-226 | an update reports expiry exactly if the tunnel was expired, the last key exchange is 540 s old, or an attempt is 90 s old; it is then expired and empty |
| `TunnelRuns.ExpiredStays` | protocol/boringtun/src/noise/timers.rs:188-190 | an expired tunnel stays so under every call that neither sends nor accepts an initiation |
| `TunnelRuns.ExpiredUntilNewInitiation` | protocol/boringtun/src/noise/timers.rs:142-150 | over whole runs: no sessions and no queued packets until an initiation is sent or accepted |
| `TunnelFlush.FlushDrainsQueue` | protocol/boringtun/src/noise/mod.rs:510-541 | with a current session the flush loop ends within queue length + 1 calls and sends the whole queue in its order |
| `TunnelFlush.FlushKeepsQueue` | protocol/boringtun/src/noise/mod.rs:250-268 | without a session it ends within two calls, sends at most one initiation, and keeps the multiset of queued packets |
| `TunnelFlush.CallCountsDown` | protocol/boringtun/src/noise/mod.rs:510-521 | each call of the loop sends exactly while calls are left, and counts them down |
| `TunnelFlush.FlushKeepsPacketsIff` | protocol/boringtun/src/noise/mod.rs:510-537 | for every buffer, one flush call without a session keeps the multiset of queued packets exactly if the queue is empty or full, the buffer holds an initiation, or a handshake is in progress |
| `TunnelFlush.SmallBufferDuplicates` | protocol/boringtun/src/noise/mod.rs:510-537 | the case that fails: with a buffer too small, no handshake in progress and room in the queue, the front packet is queued twice |
| `TunnelFlush.ResponseBecomesCurrent` | protocol/boringtun/src/noise/mod.rs:343-403 | an accepted handshake response always makes its session the current one |
| `TunnelFlush.ResponseDrainsQueue` | protocol/boringtun/src/noise/mod.rs:343-403 | so the flush that follows an accepted response drains the queue |
| `TunnelFlush.ValidateIff` | protocol/boringtun/src/noise/mod.rs:464-507 | a decrypted packet is passed on unchanged exactly if its header announces its own length; an empty one is a keepalive |
| `TunnelDelivery.DeliversIff` | protocol/boringtun/src/noise/mod.rs:464-507 | every decrypted packet, byte by byte: when it is delivered, as how many bytes, with which source address, and how many bytes are counted; everything else but a keepalive is an error |
| `TunnelDelivery.PaddingIsRemoved` | protocol/boringtun/src/noise/mod.rs:497-505 | whatever follows a well-formed packet makes no difference |
| `TunnelDelivery.PaddedArrives` | protocol/boringtun/src/noise/mod.rs:250-507 | a padded packet arrives through two tunnels without its padding; the sender counts all bytes, the receiver those delivered |
| `TunnelFlush.TunnelRoundTrip` | protocol/boringtun/src/noise/mod.rs:250-429 | encapsulate, then parse, decrypt and validate gives back the same bytes and source address exactly for well-formed IPv4 and IPv6 packets |
| `TunnelFlush.StreamArrives` | protocol/boringtun/src/noise/mod.rs:406-429 | any stream of packets over a session arrives complete and in order |
| `TunnelDelivery.CurrentAfterData` | protocol/boringtun/src/noise/mod.rs:390-429 | an accepted packet makes its session current exactly if none was alive or its session is at least as new; so a late packet of an older session does not |
| `TunnelDelivery.CurrentAfterRefusal` | protocol/boringtun/src/noise/mod.rs:406-429 | a data packet that is not accepted is an error and changes nothing |
| `TunnelDelivery.AnswerKeepsCurrentIff` | protocol/boringtun/src/noise/mod.rs:318-341 | answering an initiation keeps the session packets are sent over, exactly unless the new index equals the current one modulo 8 |
| `TunnelDelivery.RolesAfterHandshake` | protocol/boringtun/src/noise/timers.rs:129-138 | who answered is the responder, who accepted the answer the initiator; both sessions begin at the present |
| `TunnelDelivery.SessionSurvivesIff` | protocol/boringtun/src/noise/timers.rs:152-166 | an update keeps exactly the sessions that are at most 180 s old |
| `TunnelDelivery.RekeyEndsSessions` | protocol/boringtun/src/noise/mod.rs:226-242 | after a change of the private key every data packet is refused for want of a session |
| `TunnelDelivery.FirstPacketsWait` | protocol/boringtun/src/noise/mod.rs:523-541 | over any run of packets without a session, the first 256 wait in their order and later ones are dropped |
| `TunnelFlush.ConnectionOpens` | protocol/boringtun/src/noise/mod.rs:250-403 | a whole conversation between two tunnels, from the first packet over the handshake to the delivery of everything queued |
| `Tunnel.Tunn.Encapsulate` | protocol/boringtun/src/noise/mod.rs:250-268 | result and whole new state of the tunnel object, as the state machine says; the limiter stays |
| `Tunnel.Tunn.Decapsulate` | protocol/boringtun/src/noise/mod.rs:276-302 | queue, rate limiter and packet handling in this order, on both objects; the tunnel keeps its limiter object |
| `Tunnel.UnlimitedUnlessLoaded` | protocol/boringtun/src/noise/mod.rs:276-302 | data packets and unloaded handshake messages are handled as if there were no limiter |
| `Tunnel.Tunn.HandleHandshakeInit` | protocol/boringtun/src/noise/mod.rs:318-341 | whole new state after an initiation |
| `Tunnel.Tunn.HandleHandshakeResponse` | protocol/boringtun/src/noise/mod.rs:343-369 | whole new state after a response |
| `Tunnel.Tunn.HandleCookieReply` | protocol/boringtun/src/noise/mod.rs:371-387 | whole new state after a cookie reply |
| `Tunnel.Tunn.SetCurrentSession` | protocol/boringtun/src/noise/mod.rs:390-403 | moves to the new session if the current slot is empty or not newer |
| `Tunnel.Tunn.HandleData` | protocol/boringtun/src/noise/mod.rs:406-429 | whole new state after a data packet |
| `Tunnel.Tunn.FormatHandshakeInitiation` | protocol/boringtun/src/noise/mod.rs:433-460 | whole new state after starting or repeating a handshake |
| `Tunnel.Tunn.ValidateDecapsulatedPacket` | protocol/boringtun/src/noise/mod.rs:464-507 | length check, truncation and counters |
| `Tunnel.Tunn.SendQueuedPacket` | protocol/boringtun/src/noise/mod.rs:510-521 | front packet encapsulated, put back on error |
| `Tunnel.Tunn.EstimateLoss` | protocol/boringtun/src/noise/mod.rs:543-571 | the weighted loss over the session ring, each session weighing a third of the one after it; it lies in [0, 1] |
| `Tunnel.Tunn.SetStaticPrivate` | protocol/boringtun/src/noise/mod.rs:226-242 | a new key ends all sessions and replaces the limiter |
| `TimersObject.Timers.Clear` | protocol/boringtun/src/noise/timers.rs:88-95 | all timers at the current time, want flags down, session timers untouched |
| `Tunnel.Tunn.TimerTick` | protocol/boringtun/src/noise/timers.rs:112-127 | timer and want flags after a tick |
| `Tunnel.Tunn.TimerTickSessionEstablished` | protocol/boringtun/src/noise/timers.rs:129-138 | role, establishment time and slot time of a new session |
| `Tunnel.Tunn.ClearAll` | protocol/boringtun/src/noise/timers.rs:142-150 | sessions and queue gone, timers cleared |
| `Tunnel.Tunn.UpdateSessionTimers` | protocol/boringtun/src/noise/timers.rs:152-166 | exactly the slots older than 180 s are emptied, without underflow |
| `Tunnel.Tunn.UpdateTimers` | protocol/boringtun/src/noise/timers.rs:168-312 | whole new state and result of an update; every age it computes is a natural number; limiter and reset flag stay |
| `Tunnel.Tunn.TimeSinceLastHandshake` | protocol/boringtun/src/noise/timers.rs:314-324 | the age of the last handshake, without underflow |
| `LfsrSpec.StepStaysInRange` | protocol/boringtun/src/device/mod.rs:1412 | the register step keeps nonzero 24-bit values nonzero and 24-bit |
| `LfsrSpec.StepIsInjective` | protocol/boringtun/src/device/mod.rs:1412 | the step is injective on them |
| `LfsrSpec.IndexesAreDistinct` | protocol/boringtun/src/device/mod.rs:1407-1415 | for any seed and mask, all indexes returned before the assertion fires are pairwise distinct and below 2^24 |
| `LfsrCycle.NeverBackIff` | protocol/boringtun/src/device/mod.rs:1407-1415 | the register runs through all 2^24 - 1 values: from every seed, n steps never meet it again exactly if n is less than that, and 2^24 - 1 steps do |
| `IndexLfsr.IndexLfsr.Next` | protocol/boringtun/src/device/mod.rs:1407-1415 | each index returned is a new one; the assertion fires exactly at call 2^24 - 1, whatever the seed |
| `AllowedIps.ContainsIff` | protocol/boringtun/src/device/allowed_ips.rs:44-56 | a network contains exactly the addresses of its family that agree with it after division by the power of two of the host bits |
| `AllowedIps.ContainsBitwise` | protocol/boringtun/src/device/allowed_ips.rs:44-56 | bit by bit: as many first bits agree as the network's length says |
| `AllowedIps.ContainsOctets` | protocol/boringtun/src/device/allowed_ips.rs:44-56 | octet by octet, for lengths that are multiples of eight |
| `AllowedIps.FindsNothingIff` | protocol/boringtun/src/device/allowed_ips.rs:52-56 | nothing is found exactly if the address has the prefix of no entry |
| `AllowedIps.FindIsLongestMatch` | protocol/boringtun/src/device/allowed_ips.rs:44-56 | of the entries whose prefix the address has, the one with most bits is found |
| `Routing.RoutesIff` | protocol/boringtun/src/device/mod.rs:306-381 | over every run of additions and removals: a network leads to a peer exactly if a claim of that peer to it stands, that is neither the peer was removed nor the network claimed by another since |
| `Routing.RoutesBackIff` | protocol/boringtun/src/device/mod.rs:753-778 | answers to an address reach a peer exactly if, of all standing claims to networks with that address, the one to the longest network is its own |
| `Routing.DisjointClaimsRouteBack` | protocol/boringtun/src/device/peer.rs:151-153 | if no other peer ever claims a network with that address, a peer that may send from an address gets the answers |
| `Routing.TakenOverThenGone` | protocol/boringtun/src/device/mod.rs:306-381 | two peers claim one network and the second is removed: both may send at first and only the second gets answers, then the first may still send and nobody gets them |
| `Device.Device.UpdatePeer` | protocol/boringtun/src/device/mod.rs:322-381 | the three maps after adding or removing a peer, for every outcome including the panics; a new peer's tunnel has the device's key, the given public key, preshared key, keepalive and networks, and has done nothing; outcome and routing table are those of the specifications used for the lock and for routing |
| `DevicePairs.AddedPeersConnectIff` | protocol/boringtun/src/device/mod.rs:349-358 | two devices that added each other: the first packet opens the connection and arrives exactly if both were given the same preshared key, none standing for zeros; otherwise the response fails its tag and there is no session |
| `Device.Device.RemovePeer` | protocol/boringtun/src/device/mod.rs:306-319 | every reference to the removed peer is gone, all others stay |
| `Device.Device.ClearPeers` | protocol/boringtun/src/device/mod.rs:569-573 | all three maps are empty |
| `Device.Device.SetKey` | protocol/boringtun/src/device/mod.rs:490-511 | the new private key reaches every peer's tunnel |
| `Device.Device.Dispatch` | protocol/boringtun/src/device/mod.rs:693-704 | which peer a verified packet is for |
| `Device.Device.HandlePacket` | protocol/boringtun/src/device/mod.rs:693-803 | dispatch, handling and flush change only the addressed peer and keep the device valid; a decrypted packet is delivered exactly if its source is in the peer's own list and it is no signal packet |
| `Device.Device.Flush` | protocol/boringtun/src/device/mod.rs:796-803 | the loop ends after exactly the calls that are left and does what the specification of the loop says |
| `Device.Device.RouteTo` | protocol/boringtun/src/device/mod.rs:975-1000 | an address leads to the longest matching peer, and only to one still present |
| `Device.DeliversIff` | protocol/boringtun/src/device/mod.rs:753-778 | the source filter lets through exactly what the peer may send by the routing model |
| `Device.SourceBegins` | protocol/boringtun/src/device/mod.rs:753-778 | the filter compares the octets of the header's source in their order |
| `Device.DispatchReachesOwner` | protocol/boringtun/src/device/mod.rs:693-704 | in every valid device, whatever names an index of a peer's session, handshake or cookie reaches that peer |
| `Device.SessionIndexesAreDistinct` | protocol/boringtun/src/noise/mod.rs:205-211 | no two sessions in the device share a receiving index |
| `Device.InitiationReachesOwner` | protocol/boringtun/src/device/mod.rs:693-700 | an initiation of a configured peer reaches the object that holds that peer's key |
| `Device.StepKeepsFit` | protocol/boringtun/src/noise/mod.rs:304-315 | whatever happens to a tunnel, its peer stays reachable |
| `DevLock.RunsAreSafe` | protocol/boringtun/src/device/dev_lock.rs:28-99 | any number of threads, any interleaving, closures that may panic: one raiser at most, no read returns while the flag is up, the mutation closure is alone and starts from what the preparation closure saw, no wake-up is lost |
| `DevLock.ReadersNeverBlock` | protocol/boringtun/src/device/dev_lock.rs:28-40 | no read lock is ever waited for, so nobody blocks on the inner lock while owning the flag mutex |
| `DevLockData.DataIsLastMutation` | protocol/boringtun/src/device/dev_lock.rs:84-90 | in every state of every run the data is what the last mutation left, panicked or not, or the initial data |
| `DevLockData.OwnMutationStands` | protocol/boringtun/src/device/dev_lock.rs:84-99 | until a thread returns from the call, the data is what its own closure left |
| `DevLockData.EachReturnMutatedOnce` | protocol/boringtun/src/device/dev_lock.rs:60-99 | every call that returns has mutated exactly once |
| `DevLockData.HeldDataIsStable` | protocol/boringtun/src/device/dev_lock.rs:28-40 | while a thread holds a read lock nobody mutates and the data stays |
| `DevLock.DeadlockIff` | protocol/boringtun/src/device/dev_lock.rs:60-99 | in every reachable state nobody can go on exactly if a closure of the run panicked, its thread is dead, and everybody else in the middle of an operation, at least one thread, is parked |
| `DevLock.PanicStopsEverybody` | protocol/boringtun/src/device/dev_lock.rs:94-96 | after a panic every continuation ends within four turns a thread; all the while the flag is up, no read returns, no closure starts and the data stays; it ends exactly when everybody is parked but the one thread that died |
| `DevLock.PanicDeadlocks` | protocol/boringtun/src/device/dev_lock.rs:60-99 | two threads, twenty turns: one dead, the other parked for good |
| `DevLock.CrashedIffPanicked` | protocol/boringtun/src/device/dev_lock.rs:88-92 | in every run a thread has crashed exactly if a closure panicked |
| `LockedDevice.ServePanicsIff` | protocol/boringtun/src/device/api.rs:210-282 | a configuration request panics exactly if some update of it, after what the ones before it left, adds a peer the device has, or is one too many, or has no private key |
| `LockedDevice.CrashedIffFailed` | protocol/boringtun/src/device/api.rs:210-282 | in every run of requests under the lock a thread has crashed exactly if a request panicked |
| `LockedDevice.ConfigurationIsServed` | protocol/boringtun/src/device/api.rs:210-282 | in every run, however threads interleave, the configuration is what one caller gets who sends the requests carried out one after the other |
| `LockedDevice.ServeAllIsServe` | protocol/boringtun/src/device/api.rs:210-282 | as long as none panics, the requests can be taken for a single one |
| `LockedDevice.ServeLeaves` | protocol/boringtun/src/device/api.rs:210-282 | what a request leaves: a private key if there was or is one set; a peer exactly if the last command that concerns it added it, or it was there and none does |
| `LockedDevice.FailedRequestStopsDevice` | protocol/boringtun/src/device/api.rs:210-282 | from any reachable state such a request stops the device: every continuation ends within four turns a thread with everybody parked but the one that died, and the configuration stays |
| `LockedDevice.AddingAgainFails` | protocol/boringtun/src/device/mod.rs:337-341 | a request that adds a peer the device has panics, and leaves the configuration as it was |
| `RegistrationProofs.StepKeepsInv` | protocol/boringtun/src/device/http_api.rs:428-591 | every registration, removal and reaping, whatever the device answers, keeps octets 2 to 254 split between free and assigned, the assignment injective and the collections' keys equal |
| `RegistrationProofs.RunKeepsInv` | protocol/boringtun/src/device/http_api.rs:428-591 | so does every run from the start |
| `RegistrationProofs.PoolIsExhaustedIff` | protocol/boringtun/src/device/http_api.rs:541-548 | a new key is turned away for lack of an address exactly if 253 are assigned |
| `RegistrationProofs.RegisteringAgain` | protocol/boringtun/src/device/http_api.rs:516-538 | registering again returns the same address and changes nothing |
| `RegistrationProofs.ReplyNamesAssigned` | protocol/boringtun/src/device/http_api.rs:516-591 | a successful reply names the octet now assigned to the key and to no other, between 2 and 254, and the server's key and port |
| `RegistrationProofs.UnregisterFrees` | protocol/boringtun/src/device/http_api.rs:428-456 | a removal succeeds exactly if the key is assigned and the device removed it, and then its octet is free; otherwise nothing changes |
| `RegistrationProofs.AddressIsStable` | protocol/boringtun/src/device/http_api.rs:495-591 | a peer keeps its address until it is unregistered or reaped |
| `RegistrationProofs.RefusalsChangeNothing` | protocol/boringtun/src/device/http_api.rs:428-591 | refusals leave the collections as they were |
| `RegistrationProofs.ReapedIff` | protocol/boringtun/src/device/http_api.rs:988-1063 | exactly which peers a reaper run removes |
| `RegistrationProofs.ActivePeerIsReapedIff` | protocol/boringtun/src/device/http_api.rs:1005-1030 | a peer with a recent handshake is reaped exactly if that handshake is less than a second old and the peer registered over ten minutes ago |
| `RegistrationDevice.NeverMeetsExistingPeer` | protocol/boringtun/src/device/mod.rs:337-341 | if all answers of the device arrive, its peers are the registered ones in every run, adding never meets an existing peer, and the device never stops |
| `RegistrationDevice.MeetsExistingPeerIff` | protocol/boringtun/src/device/http_api.rs:550-591 | in every run, with answers lost at will: a registration meets an existing peer exactly if the device is up, the last thing done to its key there was an addition whose answer was lost, and an address is free |
| `RegistrationDevice.DownIff` | protocol/boringtun/src/device/http_api.rs:550-591 | the device is down exactly if some registration of the run met an existing peer |
| `RegistrationDevice.DownForEver` | protocol/boringtun/src/device/http_api.rs:428-1063 | once it is down nothing the service does changes the device or the assignments any more |
| `RegistrationDevice.LostAnswerThenPanic` | protocol/boringtun/src/device/http_api.rs:550-591 | two registrations of one key: the first is done and its answer lost, the second meets it and stops the device |
| `RegistrationDevice.LostForEver` | protocol/boringtun/src/device/http_api.rs:428-591 | nothing the service does afterwards repairs a lost addition |
| `RegistrationDevice.LostOctetStaysFree` | protocol/boringtun/src/device/http_api.rs:550-591 | the octet of a lost addition stays free in the pool while the device routes it to that peer |
| `RegistrationDevice.LostOctetUntilTaken` | protocol/boringtun/src/device/http_api.rs:541-591 | over whole runs: the octet of a lost addition is free in the pool and leads to that peer exactly as long as no later addition takes the octet |
| `RegistrationDevice.CallsKeepRegistry` | protocol/boringtun/src/device/http_api.rs:428-1063 | in every run, with answers lost at will, the pool invariant holds and every registered peer that the device has is routed by its octet |
| `RegistrationDevice.MissingFromListIff` | protocol/boringtun/src/device/http_api.rs:961-1026 | if all answers arrive: of the registered peers the reaper's list misses exactly those not registered at its query, and these were added after it |
| `RegistrationDevice.MissingIsReaped` | protocol/boringtun/src/device/http_api.rs:1023-1045 | a registered peer that the list misses is reaped whatever its age, exactly if the device is up, removes it and answers |
| `RegistrationDevice.RacedPeerIsReaped` | protocol/boringtun/src/device/http_api.rs:961-1063 | a run: query, registration, reaping, all at one instant |
| `RegistrationDevice.ActivePeerIsReaped` | protocol/boringtun/src/device/http_api.rs:1005-1030 | a run: registration, a handshake less than a second before the query eleven minutes later, reaping |
| `Registration.RegistrationInner.HandleRegistration` | protocol/boringtun/src/device/http_api.rs:474-591 | state and reply of the object, for every answer of the device |
| `Registration.RegistrationInner.HandleUnregister` | protocol/boringtun/src/device/http_api.rs:428-456 | state and reply of the object |
| `Registration.RegistrationInner.ReapStale` | protocol/boringtun/src/device/http_api.rs:979-1063 | the two loops of the critical section forget exactly the stale peers the device removed |
| `TokenBucket.TokenBucket.TryConsume` | protocol/boringtun/src/device/http_api.rs:68-79 | tokens and refill time after a request |
| `TokenBucket.Limiter.Admit` | protocol/boringtun/src/device/http_api.rs:857-869 | makes a bucket for a new client and consumes from it, leaving all others |
| `TokenBucket.Limiter.DropIdle` | protocol/boringtun/src/device/http_api.rs:1072-1076 | drops exactly the buckets idle for 300 whole seconds |
| `TokenBucketProofs.PruningIsInvisible` | protocol/boringtun/src/device/http_api.rs:1072-1076 | in every run pruning gives the same admissions and refusals as never pruning |
| `TokenBucketProofs.WindowBound` | protocol/boringtun/src/device/http_api.rs:55-80 | in any window of length T at most 10 + T requests of a client are admitted |
| `TokenBucketProofs.AdmitsIff` | protocol/boringtun/src/device/http_api.rs:68-79 | a request is admitted exactly if every window ending with it, itself included, stays within 10 + T |
| `RlpBuilder.RlpEncodeBytes` | protocol/boringtun/src/payment/tx.rs:83-98 | the vector that is grown is the encoding of the string |
| `RlpBuilder.RlpEncodeList` | protocol/boringtun/src/payment/tx.rs:100-113 | the vector that is grown is the encoding of the list |
| `Rlp.LengthRoundTrip` | protocol/boringtun/src/payment/tx.rs:115-119 | the length bytes have no leading zero and stand for the length |
| `Rlp.DecodeIff` | protocol/boringtun/src/payment/tx.rs:83-119 | a string starts with the encoding of an item exactly if the strict decoder finds that item and that rest: unique decodability with nested lists and long lengths |
| `Transactions.UintRoundTrip` | protocol/boringtun/src/payment/tx.rs:65-81 | integers of both widths encode as their shortest big-endian form and decode to themselves |
| `Transactions.PreimageRoundTrip` | protocol/boringtun/src/payment/tx.rs:17-36 | the signing preimage of any transaction decodes to all its fields |
| `Transactions.PreimageIff` | protocol/boringtun/src/payment/tx.rs:17-36 | a string decodes to a transaction exactly if it is its preimage |
| `Transactions.PreimageIsInjective` | protocol/boringtun/src/payment/tx.rs:31-36 | distinct transactions have distinct preimages |
| `PaymentMessages.EncodeRequired` | protocol/boringtun/src/payment/protocol.rs:50-62 | the buffer that is grown is the encoding |
| `PaymentMessages.EncodeSubmit` | protocol/boringtun/src/payment/protocol.rs:87-102 | the buffer that is grown is the encoding |
| `PaymentMessages.EncodeAccepted` | protocol/boringtun/src/payment/protocol.rs:132-138 | the buffer that is grown is the encoding |
| `PaymentMessages.RoundTrip` | protocol/boringtun/src/payment/protocol.rs:49-151 | each message decodes to what was encoded, also with bytes after it, and under no other type |
| `PaymentMessages.DecodesIff` | protocol/boringtun/src/payment/protocol.rs:64-151 | exactly which byte strings decode to a message |
| `SignalPackets.IpChecksum` | protocol/boringtun/src/payment/protocol.rs:238-252 | both loops end, and compute the complement of the 32-bit sum reduced modulo 65535 |
| `SignalPackets.VerifiesIff` | protocol/boringtun/src/payment/protocol.rs:238-252 | a header's checksum is zero exactly if its word sum is positive and zero modulo 65535 |
| `SignalPackets.FinishedHeaderVerifies` | protocol/boringtun/src/payment/protocol.rs:171-180 | filling in the checksum makes any header verify |
| `SignalPackets.ChangedWordIsNoticed` | protocol/boringtun/src/payment/protocol.rs:238-252 | changing one word of a verifying header is noticed except between all zeros and all ones beside words that are not all zero |
| `SignalPackets.BuildSignalPacket` | protocol/boringtun/src/payment/protocol.rs:156-190 | the array that is filled in place is the specified packet |
| `SignalPackets.SignalRoundTrip` | protocol/boringtun/src/payment/protocol.rs:156-236 | payload, addresses and length are found again, the header verifies, and it is a signal exactly if one end is the gateway |
| `PaymentDelivery.SignalIsWellFormed` | protocol/boringtun/src/noise/mod.rs:464-507 | the tunnel takes a signal packet for a well-formed IPv4 packet and passes it on unchanged |
| `PaymentDelivery.MessageArrives` | protocol/boringtun/src/payment/protocol.rs:49-220 | a payment message that is wrapped, encapsulated and sent reaches the other side's decoder |

## Left out

- The insides of Blake2s, HMAC, ChaCha20-Poly1305, X25519, secp256k1 and Keccak: symbolic terms stand for them, so collisions, forgeries and low-order points do not exist in the model.
- A cipher byte has no numeric value: a decrypted or received header made of such bytes counts as malformed.
- Forced handshakes from the foreign-function interface: they bypass the retransmission rule.
- Undersized output buffers: the transport session excludes them by precondition, as the code panics; for handshake messages the error is modelled, and runs assume the documented 148 bytes.
- Session objects inside the tunnel object: the tunnel's ring and the device's peers hold sessions and tunnels as values, so aliasing between a tunnel and its sessions is not captured; the objects themselves are proved in `Session.dfy` and `Tunnel.dfy`.
- The rate limiter shared by several tunnels is one object without concurrency; its atomic counters are plain fields.
- Sent and received byte counters and the receive counter are unbounded.
- A thread with several guards of the cooperative lock, and spurious wake-ups, which the mutex library excludes.
- Endpoints, sockets and connected-socket handlers, the tunnel interface, signals and the text protocol of the control socket: plumbing.
- `ip_network_table`: a map from networks to peers stands for it.
- Bandwidth quotas, proof-of-personhood checks, kernel routes and JSON replies: simple handlers around the modelled state.
- The r and s fields of signed transactions: the claims are about the signing preimage.
- The settlement, deposit, wallet and RPC clients, the VPN server and the desktop client: foreign calls.
- The random index seed of `protocol/boringtun/src/device/mod.rs:1395-1404` is a parameter.
- In runs with an attacker the two static private keys stay secret and do not change; ephemeral keys and the preshared key may be known. What a known static key leaves secret is proved of the key schedule (`AttackerKnowledge.SessionSecretIff`), not of runs.
- Floating point in the token bucket and the loss estimate is modelled by real numbers.
