/** What the handshake achieves. */
module HandshakeProofs {
  import opened Wrappers
  import opened Crypto
  import opened Wire
  import opened Noise
  import opened HandshakeSpec
  import Session

  /** Each side is configured with the other's public key. */
  predicate Peers(a: Params, b: Params) {
    a.peerStaticPublic == StaticPublic(b) && b.peerStaticPublic == StaticPublic(a)
  }

  lemma HmacInjective(key: Bytes, data: Bytes, key': Bytes, data': Bytes)
    requires Hmac(key, data) == Hmac(key', data')
    ensures key == key' && data == data'
  {
    OutputInjective(HmacOf(key, data), HmacOf(key', data'), 32);
  }

  lemma HashInjective(a: Bytes, b: Bytes, a': Bytes, b': Bytes)
    requires Hash(a, b) == Hash(a', b') && |b| == |b'|
    ensures a == a' && b == b'
  {
    OutputInjective(HashOf(a + b), HashOf(a' + b'), 32);
    assert a == (a + b)[..|a + b| - |b|] && a' == (a' + b')[..|a' + b'| - |b'|];
    assert b == (a + b)[|a + b| - |b|..] && b' == (a' + b')[|a' + b'| - |b'|..];
  }

  lemma SealFieldInjective(k: Keyed, plain: Bytes, k': Keyed, plain': Bytes)
    requires SealField(k, plain) == SealField(k', plain')
    ensures k.key == k'.key && k.transcript.h == k'.transcript.h && plain == plain'
  {
    assert SealField(k, plain)[0] == SealField(k', plain')[0];
  }

  /** A formatted initiation is one: it parses to its fields. */
  lemma InitiationParses(s: State, dstLen: nat, ephemeral: nat, now: nat)
    requires dstLen >= HANDSHAKE_INIT_SZ
    ensures var (s', r) := FormatInitiation(s, dstLen, ephemeral, now);
            var (packet, t) := InitiationFields(s.params, IncIndex(s.nextIndex), ephemeral, TimeOf(s.stamper, now));
            && packet.HandshakeInit? && WellSized(packet)
            && r.Ok? && |r.value| == HANDSHAKE_INIT_SZ && ParseIncomingPacket(r.value) == Ok(packet)
            && s' == s.(nextIndex := IncIndex(s.nextIndex), previous := s.state,
                        state := InitSent(IncIndex(s.nextIndex), t.h, t.ck, ephemeral, now), cookies := s'.cookies)
            && s'.cookies.writeCookie == s.cookies.writeCookie
  {
    var localIndex := IncIndex(s.nextIndex);
    InitiationSizes(s.params, localIndex, ephemeral, TimeOf(s.stamper, now));
    hide ParseIncomingPacket, InitiationFields, AppendMacs;
    var (packet, t) := InitiationFields(s.params, localIndex, ephemeral, TimeOf(s.stamper, now));
    MessageParses(s.(nextIndex := localIndex, previous := s.state,
                     state := InitSent(localIndex, t.h, t.ck, ephemeral, now)), localIndex, packet);
  }

  lemma InitiationSizes(p: Params, localIndex: u32, ephemeral: nat, stamp: Tai64N)
    ensures var packet := InitiationFields(p, localIndex, ephemeral, stamp).0;
            packet.HandshakeInit? && WellSized(packet) && packet.senderIdx == localIndex
                && packet.ephemeral == PublicKey(ephemeral)
  {
    hide StaticKey, TimestampKey, DiffieHellman;
  }

  /** A formatted response is one. */
  lemma ResponseParses(s: State, dstLen: nat, ephemeral: nat)
    requires s.state.InitReceived? && dstLen >= HANDSHAKE_RESP_SZ
    ensures var (s', r) := FormatResponse(s, dstLen, ephemeral);
            var k := ResponderKey(s.params, s.state, ephemeral);
            && r.Ok? && |r.value.0| == HANDSHAKE_RESP_SZ
            && ParseIncomingPacket(r.value.0)
               == Ok(HandshakeResponse(IncIndex(s.nextIndex), s.state.peerIndex, PublicKey(ephemeral),
                                       SealField(k, [])))
            && r.value.1 == Session.New(IncIndex(s.nextIndex), s.state.peerIndex,
                                        TransportKeys(k.transcript.ck).0, TransportKeys(k.transcript.ck).1)
            && s' == s.(nextIndex := IncIndex(s.nextIndex), state := NoHandshake, cookies := s'.cookies)
  {
    hide ParseIncomingPacket, AppendMacs, ResponderKey, TransportKeys;
    var localIndex := IncIndex(s.nextIndex);
    var packet := HandshakeResponse(localIndex, s.state.peerIndex, PublicKey(ephemeral),
                                    SealField(ResponderKey(s.params, s.state, ephemeral), []));
    MessageParses(s.(nextIndex := localIndex, state := NoHandshake), localIndex, packet);
  }

  /** The initiator's and the responder's view of an initiation: same keys, same transcript. */
  lemma InitiationIsRead(p: Params, pr: Params, localIndex: u32, ephemeral: nat, stamp: Tai64N)
    requires Peers(p, pr)
    ensures var (packet, t) := InitiationFields(p, localIndex, ephemeral, stamp);
            && packet.HandshakeInit?
            && ReadInitiation(pr, packet) == Ok((stamp, t))
            && ParseAnon(pr.staticPrivate, packet) == Ok(Half(localIndex, StaticPublic(p)))
  {
    DiffieHellmanCommutes(ephemeral, pr.staticPrivate);
    DiffieHellmanCommutes(p.staticPrivate, pr.staticPrivate);
    hide Hash, Hmac, DiffieHellman, Kdf2, TokenE, Begin, EncodeTimestamp, ParseTimestamp, PublicKey, SealField,
         OpenField;
    var e := PublicKey(ephemeral);
    var es := StaticKey(p.peerStaticPublic, e, DiffieHellman(ephemeral, p.peerStaticPublic));
    var staticField := SealField(es, StaticPublic(p));
    OpenSealedField(es, StaticPublic(p));
    OpenSealedField(TimestampKey(es, staticField, DiffieHellman(p.staticPrivate, p.peerStaticPublic)),
                    EncodeTimestamp(stamp));
    TimestampRoundTrip(stamp);
  }

  /** A formatted handshake message is the encoded packet followed by two macs. */
  lemma MessageParses(s: State, localIndex: u32, packet: Packet)
    requires WellSized(packet) && HasMacs(packet)
    ensures var (s', wire) := AppendMacs(s, localIndex, Encode(packet));
            && s' == s.(cookies := s'.cookies) && s'.cookies.writeCookie == s.cookies.writeCookie
            && ParseIncomingPacket(wire) == Ok(packet)
            && |wire| == if packet.HandshakeInit? then HANDSHAKE_INIT_SZ else HANDSHAKE_RESP_SZ
  {
    hide ParseIncomingPacket, Mac16, Le32;
    var (s', wire) := AppendMacs(s, localIndex, Encode(packet));
    var macs := wire[|Encode(packet)|..];
    assert wire == Encode(packet) + macs;
    MacSizes(s, Encode(packet));
    ParseEncoded(packet, macs);
  }

  lemma MacSizes(s: State, msg: Bytes)
    ensures |AppendMacs(s, 0, msg).1| == |msg| + 32
  {
  }

  /** Running the four handshake steps between two configured peers, from any states. The response
      is accepted exactly if both sides hold the same preshared key; then the two sessions mirror
      each other, and otherwise the initiator reports a bad tag. */
  lemma HandshakeAgreement(si: State, sr: State, ephemeralI: nat, ephemeralR: nat, dstI: nat, dstR: nat, now: nat,
                           later: nat)
    requires Peers(si.params, sr.params)
    requires dstI >= HANDSHAKE_INIT_SZ && dstR >= HANDSHAKE_RESP_SZ
    requires After(TimeOf(si.stamper, now), sr.lastTimestamp)
    ensures var (si1, init) := FormatInitiation(si, dstI, ephemeralI, now);
            && init.Ok? && ParseIncomingPacket(init.value).Ok? && ParseIncomingPacket(init.value).value.HandshakeInit?
            && var (sr1, resp) := ReceiveInitiation(sr, ParseIncomingPacket(init.value).value, dstR, ephemeralR);
            && resp.Ok? && ParseIncomingPacket(resp.value.0).Ok?
               && ParseIncomingPacket(resp.value.0).value.HandshakeResponse?
            && var (si2, r) := ReceiveResponse(si1, ParseIncomingPacket(resp.value.0).value, later);
            && (r.Ok? <==> Psk(si.params) == Psk(sr.params))
            && (r.Ok? ==> Session.Mirrored(r.value, resp.value.1) && si2.state == NoHandshake)
            && (r.Ok? ==> r.value.localIndex == IncIndex(si.nextIndex) && r.value.peerIndex == IncIndex(sr.nextIndex))
            && (r.Ok? ==> si2.lastRtt == Some(Since(later, now) / 1_000_000 % U32_SIZE))
            && (r.Err? ==> r.error == InvalidAeadTag && si2 == si1)
            && sr1.lastTimestamp == TimeOf(si.stamper, now) && sr1.state == NoHandshake && sr1.previous == sr.state
  {
    var stamp := TimeOf(si.stamper, now);
    InitiationParses(si, dstI, ephemeralI, now);
    InitiationIsRead(si.params, sr.params, IncIndex(si.nextIndex), ephemeralI, stamp);
    InitiationSizes(si.params, IncIndex(si.nextIndex), ephemeralI, stamp);
    hide FormatInitiation, InitiationFields, ReadInitiation, ParseIncomingPacket, PublicKey, DiffieHellman, EmptyKey,
         TransportKeys,
         SealField, OpenField, FormatResponse, After, TimeOf;
    var (si1, init) := FormatInitiation(si, dstI, ephemeralI, now);
    var slot := si1.state;
    var sr0 := sr.(lastTimestamp := stamp, previous := sr.state,
                   state := InitReceived(slot.hash, slot.chainingKey, PublicKey(ephemeralI), IncIndex(si.nextIndex)));
    ResponseParses(sr0, dstR, ephemeralR);
    var kR := ResponderKey(sr.params, sr0.state, ephemeralR);
    var kI := ResponseKey(si.params, slot, PublicKey(ephemeralR));
    SameResponseKey(si.params, sr.params, slot, sr0.state, ephemeralR);
    if Psk(si.params) == Psk(sr.params) {
      OpenSealedField(kR, []);
    } else {
      OpensOnlyUnderItsKey(kI, kR, []);
    }
  }

  /** When a configured responder accepts an initiation: exactly if its timestamp is later than the last
      one accepted and the buffer holds the response. A late initiation changes nothing; a small buffer
      uses the initiation up. */
  lemma InitiationAcceptedIff(si: State, sr: State, ephemeralI: nat, ephemeralR: nat, dstI: nat, dstR: nat, now: nat)
    requires Peers(si.params, sr.params) && dstI >= HANDSHAKE_INIT_SZ
    ensures var init := FormatInitiation(si, dstI, ephemeralI, now).1;
            && init.Ok? && ParseIncomingPacket(init.value).Ok? && ParseIncomingPacket(init.value).value.HandshakeInit?
            && var (sr1, resp) := ReceiveInitiation(sr, ParseIncomingPacket(init.value).value, dstR, ephemeralR);
            var later := After(TimeOf(si.stamper, now), sr.lastTimestamp);
            && (resp.Ok? <==> later && dstR >= HANDSHAKE_RESP_SZ)
            && (!later ==> sr1 == sr && resp == Err(WrongTai64nTimestamp))
            && (later ==> sr1.lastTimestamp == TimeOf(si.stamper, now))
            && (later && resp.Err? ==> sr1.state.InitReceived? && resp == Err(DestinationBufferTooSmall))
  {
    var stamp := TimeOf(si.stamper, now);
    InitiationParses(si, dstI, ephemeralI, now);
    InitiationIsRead(si.params, sr.params, IncIndex(si.nextIndex), ephemeralI, stamp);
    hide FormatInitiation, InitiationFields, ReadInitiation, ParseIncomingPacket, ResponderKey, TransportKeys,
         SealField, After, TimeOf,
         AppendMacs;
  }

  /** Two initiations on the way. A response to the one before the last is still accepted, exactly if
      the preshared keys agree, and leaves the later attempt under way; its session mirrors the
      responder's. A response to an older initiation is refused. */
  lemma DelayedResponse(si: State, sr: State, e0: nat, e1: nat, e2: nat, ephemeralR: nat, dst: nat,
                        t0: nat, t1: nat, t2: nat, later: nat)
    requires Peers(si.params, sr.params) && dst >= HANDSHAKE_INIT_SZ
    requires After(TimeOf(si.stamper, t0), sr.lastTimestamp)
    ensures var (s0, init) := FormatInitiation(si, dst, e0, t0);
            var s1 := FormatInitiation(s0, dst, e1, t1).0;
            var s2 := FormatInitiation(s1, dst, e2, t2).0;
            && init.Ok? && ParseIncomingPacket(init.value).Ok? && ParseIncomingPacket(init.value).value.HandshakeInit?
            && var resp := ReceiveInitiation(sr, ParseIncomingPacket(init.value).value, dst, ephemeralR).1;
            && resp.Ok? && ParseIncomingPacket(resp.value.0).Ok?
               && ParseIncomingPacket(resp.value.0).value.HandshakeResponse?
            && var p := ParseIncomingPacket(resp.value.0).value;
            var (u, r) := ReceiveResponse(s1, p, later);
            && (r.Ok? <==> Psk(si.params) == Psk(sr.params))
            && (r.Ok? ==> Session.Mirrored(r.value, resp.value.1) && u.state == s1.state && u.previous == NoHandshake)
            && (r.Err? ==> r.error == InvalidAeadTag && u == s1)
            && ReceiveResponse(s2, p, later) == (s2, Err(UnexpectedPacket))
  {
    HandshakeAgreement(si, sr, e0, ephemeralR, dst, dst, t0, later);
    InitiationParses(si, dst, e0, t0);
    var (s0, init) := FormatInitiation(si, dst, e0, t0);
    InitiationParses(s0, dst, e1, t1);
    var s1 := FormatInitiation(s0, dst, e1, t1).0;
    InitiationParses(s1, dst, e2, t2);
    var s2 := FormatInitiation(s1, dst, e2, t2).0;
    hide FormatInitiation, InitiationFields, ReceiveInitiation, ParseIncomingPacket, After, TimeOf, ResponseKey,
         TransportKeys,
         OpenField, IncIndex, Session.Mirrored;
    NextIndexesDiffer(si.nextIndex);
    var p := ParseIncomingPacket(ReceiveInitiation(sr, ParseIncomingPacket(init.value).value, dst,
                                                   ephemeralR).1.value.0).value;
    assert p.receiverIdx == IncIndex(si.nextIndex) by {
      AnswerNamesInitiation(si, sr, e0, ephemeralR, dst, t0);
    }
    SameSlotSameResult(s0, s1, p, later);
  }

  /** Three indexes in a row are distinct. */
  lemma NextIndexesDiffer(n: u32)
    ensures IncIndex(n) != IncIndex(IncIndex(n)) && IncIndex(n) != IncIndex(IncIndex(IncIndex(n)))
  {
    IncIndexKeepsPeer(n);
    IncIndexKeepsPeer(IncIndex(n));
    IncIndexKeepsPeer(IncIndex(IncIndex(n)));
    hide IncIndex;
  }

  lemma AnswerNamesInitiation(si: State, sr: State, ephemeralI: nat, ephemeralR: nat, dst: nat, now: nat)
    requires Peers(si.params, sr.params) && dst >= HANDSHAKE_INIT_SZ
    requires After(TimeOf(si.stamper, now), sr.lastTimestamp)
    ensures var init := FormatInitiation(si, dst, ephemeralI, now).1;
            && init.Ok? && ParseIncomingPacket(init.value).Ok? && ParseIncomingPacket(init.value).value.HandshakeInit?
            && var resp := ReceiveInitiation(sr, ParseIncomingPacket(init.value).value, dst, ephemeralR).1;
            && resp.Ok? && ParseIncomingPacket(resp.value.0).Ok?
               && ParseIncomingPacket(resp.value.0).value.HandshakeResponse?
            && ParseIncomingPacket(resp.value.0).value.receiverIdx == IncIndex(si.nextIndex)
  {
    var stamp := TimeOf(si.stamper, now);
    InitiationParses(si, dst, ephemeralI, now);
    InitiationIsRead(si.params, sr.params, IncIndex(si.nextIndex), ephemeralI, stamp);
    InitiationSizes(si.params, IncIndex(si.nextIndex), ephemeralI, stamp);
    hide FormatInitiation, InitiationFields, ReadInitiation, ParseIncomingPacket, PublicKey, ResponderKey,
         TransportKeys,
         SealField, FormatResponse, After, TimeOf, IncIndex;
    var slot := FormatInitiation(si, dst, ephemeralI, now).0.state;
    ResponseParses(sr.(lastTimestamp := stamp, previous := sr.state,
                       state := InitReceived(slot.hash, slot.chainingKey, PublicKey(ephemeralI),
                                             IncIndex(si.nextIndex))),
                   dst, ephemeralR);
  }

  /** The slot a handshake is in makes no difference to what a response to it yields. */
  lemma SameSlotSameResult(s0: State, s1: State, p: Packet, later: nat)
    requires p.HandshakeResponse? && s1.params == s0.params
    requires Awaits(s0.state, p.receiverIdx) && s1.previous == s0.state && !Awaits(s1.state, p.receiverIdx)
    ensures var ((u0, r0), (u1, r1)) := (ReceiveResponse(s0, p, later), ReceiveResponse(s1, p, later));
            && r1 == r0
            && (r1.Ok? ==> u1.state == s1.state && u1.previous == NoHandshake)
            && (r1.Err? ==> u1 == s1)
  {
    hide ResponseKey, OpenField, TransportKeys;
  }

  /** Both sides mix in the same shared secrets; the keys agree exactly if the preshared keys do. */
  lemma SameResponseKey(pi: Params, pr: Params, slot: Slot, received: Slot, ephemeralR: nat)
    requires Peers(pi, pr) && slot.InitSent?
    requires received.InitReceived? && received.hash == slot.hash && received.chainingKey == slot.chainingKey
    requires received.peerEphemeral == PublicKey(slot.ephemeralPrivate)
    ensures var kI := ResponseKey(pi, slot, PublicKey(ephemeralR));
            var kR := ResponderKey(pr, received, ephemeralR);
            && (Psk(pi) == Psk(pr) ==> kI == kR)
            && (Psk(pi) != Psk(pr) ==> kI.key != kR.key)
  {
    DiffieHellmanCommutes(ephemeralR, slot.ephemeralPrivate);
    DiffieHellmanCommutes(ephemeralR, pi.staticPrivate);
    hide Hash, Hmac, DiffieHellman, PublicKey;
    var e := PublicKey(ephemeralR);
    var ck := Kdf1(Kdf1(TokenE(Transcript(slot.chainingKey, slot.hash), e).ck, DiffieHellman(slot.ephemeralPrivate, e)),
                   DiffieHellman(pi.staticPrivate, e));
    if ResponseKey(pi, slot, e).key == ResponderKey(pr, received, ephemeralR).key {
      Kdf3Injective(ck, Psk(pi), ck, Psk(pr));
    }
  }

  lemma Kdf3Injective(key: Bytes, input: Bytes, key': Bytes, input': Bytes)
    requires Kdf3(key, input).2 == Kdf3(key', input').2
    ensures key == key' && input == input'
  {
    hide Hmac;
    var (t0, t0') := (Hmac(key, input), Hmac(key', input'));
    HmacInjective(t0, Kdf2(key, input).1 + [Lit(3)], t0', Kdf2(key', input').1 + [Lit(3)]);
    HmacInjective(key, input, key', input');
  }

  lemma OpensOnlyUnderItsKey(k: Keyed, k': Keyed, plain: Bytes)
    requires k.key != k'.key
    ensures OpenField(k, SealField(k', plain)) == None
  {
    var o := OpenField(k, SealField(k', plain));
    if o.Some? {
      OpenIffSealed(k.key, ZERO_NONCE, SealField(k', plain), k.transcript.h, o.value);
      SealFieldInjective(k, o.value, k', plain);
    }
  }

  lemma Kdf1Injective(key: Bytes, input: Bytes, key': Bytes, input': Bytes)
    requires Kdf1(key, input) == Kdf1(key', input')
    ensures key == key' && input == input'
  {
    hide Hmac;
    HmacInjective(Hmac(key, input), [Lit(1)], Hmac(key', input'), [Lit(1)]);
    HmacInjective(key, input, key', input');
  }

  /** Agreement without assuming an honest network. Whenever an initiator, from any state, accepts a
      response that carries a responder's ephemeral key and empty field, however its other fields
      were changed, the two agree on the whole initiation transcript, on the preshared key and on
      the keys of both directions. */
  lemma AcceptedResponseMeansAgreement(si: State, packet: Packet, now: nat, sr: State, dstLen: nat, ephemeral: nat)
    requires packet.HandshakeResponse? && sr.state.InitReceived? && dstLen >= HANDSHAKE_RESP_SZ
    requires var answer := HandshakeResponse(IncIndex(sr.nextIndex), sr.state.peerIndex, PublicKey(ephemeral),
                                             SealField(ResponderKey(sr.params, sr.state, ephemeral), []));
             packet.ephemeral == answer.ephemeral && packet.encryptedNothing == answer.encryptedNothing
    requires ReceiveResponse(si, packet, now).1.Ok?
    ensures FormatResponse(sr, dstLen, ephemeral).1.Ok?
    ensures var a := ReceiveResponse(si, packet, now).1.value;
            var b := FormatResponse(sr, dstLen, ephemeral).1.value.1;
            var init := if Awaits(si.state, packet.receiverIdx) then si.state else si.previous;
            && a.sendingKey == b.receivingKey && a.receivingKey == b.sendingKey
            && init.InitSent? && init.hash == sr.state.hash && init.chainingKey == sr.state.chainingKey
            && Psk(si.params) == Psk(sr.params)
  {
    hide Hash, Hmac, DiffieHellman, PublicKey, SealField, OpenField, AppendMacs, TransportKeys;
    var init := if Awaits(si.state, packet.receiverIdx) then si.state else si.previous;
    var e := PublicKey(ephemeral);
    var kI := ResponseKey(si.params, init, e);
    var kR := ResponderKey(sr.params, sr.state, ephemeral);
    var o := OpenField(kI, packet.encryptedNothing);
    OpenedFieldWasSealed(kI, packet.encryptedNothing, o.value);
    SealFieldInjective(kI, o.value, kR, []);
    EmptyKeyInjective(Transcript(init.chainingKey, init.hash), e, DiffieHellman(init.ephemeralPrivate, e),
                      DiffieHellman(si.params.staticPrivate, e), Psk(si.params),
                      Transcript(sr.state.chainingKey, sr.state.hash), e,
                      DiffieHellman(ephemeral, sr.state.peerEphemeral),
                      DiffieHellman(ephemeral, sr.params.peerStaticPublic), Psk(sr.params));
  }

  lemma OpenedFieldWasSealed(k: Keyed, field: Bytes, plain: Bytes)
    requires OpenField(k, field) == Some(plain)
    ensures field == SealField(k, plain)
  {
    OpenIffSealed(k.key, ZERO_NONCE, field, k.transcript.h, plain);
  }

  lemma EmptyKeyInjective(t: Transcript, e: Bytes, ee: Bytes, se: Bytes, psk: Bytes,
                          t': Transcript, e': Bytes, ee': Bytes, se': Bytes, psk': Bytes)
    requires var (k, k') := (EmptyKey(t, e, ee, se, psk), EmptyKey(t', e', ee', se', psk'));
             k.key == k'.key && k.transcript.h == k'.transcript.h
    ensures t == t' && e == e' && ee == ee' && se == se' && psk == psk'
  {
    hide Hash, Hmac;
    var (c1, c1') := (Kdf1(t.ck, e), Kdf1(t'.ck, e'));
    var (c2, c2') := (Kdf1(c1, ee), Kdf1(c1', ee'));
    var (c3, c3') := (Kdf1(c2, se), Kdf1(c2', se'));
    Kdf3Injective(c3, psk, c3', psk');
    Kdf1Injective(c2, se, c2', se');
    Kdf1Injective(c1, ee, c1', ee');
    Kdf1Injective(t.ck, e, t'.ck, e');
    HashInjective(Hash(t.h, e), Kdf3(c3, psk).1, Hash(t'.h, e'), Kdf3(c3', psk').1);
    HashInjective(t.h, e, t'.h, e');
  }

  /** The transcript hash of an initiation determines the responder it was made for and all its
      fields. */
  lemma TranscriptDetermines(rp: Bytes, e: Bytes, fieldS: Bytes, fieldT: Bytes,
                             rp': Bytes, e': Bytes, fieldS': Bytes, fieldT': Bytes)
    requires |rp| == |rp'| && |e| == |e'| && |fieldS| == |fieldS'| && |fieldT| == |fieldT'|
    requires Hash(Hash(Hash(Hash(INITIAL_CHAIN_HASH, rp), e), fieldS), fieldT)
          == Hash(Hash(Hash(Hash(INITIAL_CHAIN_HASH, rp'), e'), fieldS'), fieldT')
    ensures rp == rp' && e == e' && fieldS == fieldS' && fieldT == fieldT'
  {
    hide Hash;
    HashInjective(Hash(Hash(Hash(INITIAL_CHAIN_HASH, rp), e), fieldS), fieldT,
                  Hash(Hash(Hash(INITIAL_CHAIN_HASH, rp'), e'), fieldS'), fieldT');
    HashInjective(Hash(Hash(INITIAL_CHAIN_HASH, rp), e), fieldS, Hash(Hash(INITIAL_CHAIN_HASH, rp'), e'), fieldS');
    HashInjective(Hash(INITIAL_CHAIN_HASH, rp), e, Hash(INITIAL_CHAIN_HASH, rp'), e');
    HashInjective(INITIAL_CHAIN_HASH, rp, INITIAL_CHAIN_HASH, rp');
  }

  /** For every packet the anonymous parse finds the configured peer exactly if the full receive
      does not fail on the static key. */
  lemma AnonParseAgrees(p: Params, packet: Packet)
    requires packet.HandshakeInit?
    ensures var anon := ParseAnon(p.staticPrivate, packet);
            var full := ReadInitiation(p, packet);
            && (anon.Err? ==> full == Err(InvalidAeadTag))
            && (full == Err(WrongKey) <==> anon.Ok? && anon.value.peerStaticPublic != p.peerStaticPublic)
            && (full.Ok? ==> anon == Ok(Half(packet.senderIdx, p.peerStaticPublic)))
  {
    hide StaticKey, TimestampKey, OpenField;
  }

  // Accepting each initiation at most once

  datatype Op =
    | Initiate(dstLen: nat, ephemeral: nat, now: nat)
    | Initiation(packet: Packet, dstLen: nat, ephemeral: nat)
    | Response(packet: Packet, now: nat)
    | CookieReply(packet: Packet)
    | Expire
    | DropCookie
    | Rekey(staticPrivate: nat)

  function Apply(s: State, op: Op): State {
    match op
    case Initiate(dstLen, ephemeral, now) => FormatInitiation(s, dstLen, ephemeral, now).0
    case Initiation(packet, dstLen, ephemeral) =>
      if packet.HandshakeInit? then ReceiveInitiation(s, packet, dstLen, ephemeral).0 else s
    case Response(packet, now) => if packet.HandshakeResponse? then ReceiveResponse(s, packet, now).0 else s
    case CookieReply(packet) => if packet.PacketCookieReply? then ReceiveCookieReply(s, packet).0 else s
    case Expire => SetExpired(s)
    case DropCookie => ClearCookie(s)
    case Rekey(staticPrivate) => SetStaticPrivate(s, staticPrivate)
  }

  function Exec(s: State, ops: seq<Op>): State {
    if ops == [] then s else Apply(Exec(s, ops[..|ops| - 1]), ops[|ops| - 1])
  }

  /** The initiation passes every check of the responder. */
  predicate Accepts(s: State, op: Op) {
    && op.Initiation? && op.packet.HandshakeInit?
    && ReadInitiation(s.params, op.packet).Ok?
    && After(ReadInitiation(s.params, op.packet).value.0, s.lastTimestamp)
  }

  lemma AfterIsTransitive(a: Tai64N, b: Tai64N, c: Tai64N)
    ensures After(a, b) && After(b, c) ==> After(a, c)
    ensures !After(a, a)
  {
  }

  /** The last timestamp only grows, and an accepted initiation raises it to its own. */
  lemma LastTimestampGrows(s: State, op: Op)
    ensures var s' := Apply(s, op);
            && (s'.lastTimestamp == s.lastTimestamp || After(s'.lastTimestamp, s.lastTimestamp))
            && (Accepts(s, op) ==> s'.lastTimestamp == ReadInitiation(s.params, op.packet).value.0)
  {
    hide ReadInitiation, InitiationFields, ResponderKey, OpenField, XOpen, Mac16, Encode, After, TransportKeys;
  }

  lemma {:induction false} TimestampGrowsOverRuns(s: State, ops: seq<Op>, i: nat, j: nat)
    requires i <= j <= |ops|
    ensures var (t, t') := (Exec(s, ops[..i]).lastTimestamp, Exec(s, ops[..j]).lastTimestamp);
            t' == t || After(t', t)
  {
    if i < j {
      TimestampGrowsOverRuns(s, ops, i, j - 1);
      assert ops[..j][..j - 1] == ops[..j - 1];
      var before := Exec(s, ops[..j - 1]);
      LastTimestampGrows(before, ops[j - 1]);
      AfterIsTransitive(Apply(before, ops[j - 1]).lastTimestamp, before.lastTimestamp, Exec(s, ops[..i]).lastTimestamp);
    }
  }

  /** The timestamp a packet carries does not depend on who opens it. */
  lemma TimestampIsInThePacket(p: Params, q: Params, packet: Packet)
    requires packet.HandshakeInit? && ReadInitiation(p, packet).Ok? && ReadInitiation(q, packet).Ok?
    ensures ReadInitiation(p, packet).value.0 == ReadInitiation(q, packet).value.0
  {
    hide StaticKey, TimestampKey, ParseTimestamp, Absorb;
  }

  /** In every run of a handshake, whatever else happens in between and even across a change of the
      static key, no initiation is accepted twice. */
  lemma NoInitiationTwice(s: State, ops: seq<Op>, i: nat, j: nat)
    requires i < j < |ops|
    requires Accepts(Exec(s, ops[..i]), ops[i]) && Accepts(Exec(s, ops[..j]), ops[j])
    ensures ops[i].packet != ops[j].packet
  {
    hide ReadInitiation, Apply;
    var (a, b) := (Exec(s, ops[..i]), Exec(s, ops[..j]));
    assert ops[..i + 1][..i] == ops[..i];
    LastTimestampGrows(a, ops[i]);
    TimestampGrowsOverRuns(s, ops, i + 1, j);
    if ops[i].packet == ops[j].packet {
      TimestampIsInThePacket(a.params, b.params, ops[i].packet);
      var time := ReadInitiation(a.params, ops[i].packet).value.0;
      AfterIsTransitive(time, b.lastTimestamp, time);
    }
  }

  /** A retransmission made later is newer, so a responder that accepted the earlier initiation
      accepts it too. */
  lemma LaterStampIsAfter(s: TimeStamper, t: nat, u: nat)
    requires s.instantAtStart <= t < u
    requires (u - s.instantAtStart + s.durationAtStart) / NANOS + TAI64_BASE < U64_SIZE
    ensures After(TimeOf(s, u), TimeOf(s, t))
  {
    var a := t - s.instantAtStart + s.durationAtStart;
    var b := u - s.instantAtStart + s.durationAtStart;
    assert a / NANOS <= b / NANOS;
  }

  /** The wall-clock time, in nanoseconds since 1970, that a tunnel makes of a reading of its clock. */
  function WallTime(s: TimeStamper, now: nat): nat {
    s.durationAtStart + if now < s.instantAtStart then 0 else now - s.instantAtStart
  }

  /** Stamps of any two tunnels, or of one before and after a restart, compare as their wall-clock times. */
  lemma StampsCompareAsTimes(s: TimeStamper, t: nat, s': TimeStamper, u: nat)
    requires WallTime(s, t) / NANOS + TAI64_BASE < U64_SIZE && WallTime(s', u) / NANOS + TAI64_BASE < U64_SIZE
    ensures After(TimeOf(s', u), TimeOf(s, t)) <==> WallTime(s', u) > WallTime(s, t)
    ensures TimeOf(s, t) == Tai64N(WallTime(s, t) / NANOS + TAI64_BASE, WallTime(s, t) % NANOS)
  {
    QuotientsCompare(WallTime(s, t), WallTime(s', u));
    assert Since(t, s.instantAtStart) + s.durationAtStart == WallTime(s, t);
    assert Since(u, s'.instantAtStart) + s'.durationAtStart == WallTime(s', u);
    hide WallTime, Since;
  }

  lemma QuotientsCompare(a: nat, b: nat)
    ensures b > a <==> b / NANOS > a / NANOS || (b / NANOS == a / NANOS && b % NANOS > a % NANOS)
  {
    assert a == a / NANOS * NANOS + a % NANOS && b == b / NANOS * NANOS + b % NANOS;
  }

  /** After a change of the private key the answer to an initiation sent before is refused. */
  lemma RekeyRefusesAnswer(si: State, sr: State, ephemeralI: nat, ephemeralR: nat, dstI: nat, dstR: nat, now: nat,
                           later: nat, staticPrivate: nat)
    requires Peers(si.params, sr.params) && staticPrivate != si.params.staticPrivate
    requires dstI >= HANDSHAKE_INIT_SZ && dstR >= HANDSHAKE_RESP_SZ
    requires After(TimeOf(si.stamper, now), sr.lastTimestamp)
    ensures var (si1, init) := FormatInitiation(si, dstI, ephemeralI, now);
            && init.Ok? && ParseIncomingPacket(init.value).Ok? && ParseIncomingPacket(init.value).value.HandshakeInit?
            && var resp := ReceiveInitiation(sr, ParseIncomingPacket(init.value).value, dstR, ephemeralR).1;
            && resp.Ok? && ParseIncomingPacket(resp.value.0).Ok?
            && var p := ParseIncomingPacket(resp.value.0).value;
            && p.HandshakeResponse?
            && var s := SetStaticPrivate(si1, staticPrivate);
            ReceiveResponse(s, p, later) == (s, Err(InvalidAeadTag))
  {
    var stamp := TimeOf(si.stamper, now);
    InitiationParses(si, dstI, ephemeralI, now);
    InitiationIsRead(si.params, sr.params, IncIndex(si.nextIndex), ephemeralI, stamp);
    InitiationSizes(si.params, IncIndex(si.nextIndex), ephemeralI, stamp);
    hide FormatInitiation, InitiationFields, ReadInitiation, ParseIncomingPacket, PublicKey, DiffieHellman, EmptyKey,
         TransportKeys, SealField, OpenField, FormatResponse, After, TimeOf;
    var (si1, init) := FormatInitiation(si, dstI, ephemeralI, now);
    var slot := si1.state;
    var sr0 := sr.(lastTimestamp := stamp, previous := sr.state,
                   state := InitReceived(slot.hash, slot.chainingKey, PublicKey(ephemeralI), IncIndex(si.nextIndex)));
    ResponseParses(sr0, dstR, ephemeralR);
    var kR := ResponderKey(sr.params, sr0.state, ephemeralR);
    var s := SetStaticPrivate(si1, staticPrivate);
    var kI := ResponseKey(s.params, slot, PublicKey(ephemeralR));
    SecretsDiffer(ephemeralR, si.params.staticPrivate, staticPrivate);
    if kI.key == kR.key {
      KeysOfOne(Transcript(slot.chainingKey, slot.hash), PublicKey(ephemeralR),
                DiffieHellman(slot.ephemeralPrivate, PublicKey(ephemeralR)),
                DiffieHellman(staticPrivate, PublicKey(ephemeralR)), Psk(s.params),
                DiffieHellman(ephemeralR, sr0.state.peerEphemeral),
                DiffieHellman(ephemeralR, sr.params.peerStaticPublic), Psk(sr.params));
      assert false;
    }
    OpensOnlyUnderItsKey(kI, kR, []);
  }

  lemma SecretsDiffer(n: nat, x: nat, y: nat)
    requires x != y
    ensures DiffieHellman(n, PublicKey(x)) != DiffieHellman(y, PublicKey(n))
  {
    assert PublicKey(x)[0] == Out(Public(x), 0) && PublicKey(n)[0] == Out(Public(n), 0);
    assert DiffieHellman(n, PublicKey(x))[0] != DiffieHellman(y, PublicKey(n))[0];
  }

  /** One transcript and ephemeral key: equal keys of the empty field need equal secrets. */
  lemma KeysOfOne(t: Transcript, e: Bytes, ee: Bytes, se: Bytes, psk: Bytes, ee': Bytes, se': Bytes, psk': Bytes)
    requires EmptyKey(t, e, ee, se, psk).key == EmptyKey(t, e, ee', se', psk').key
    ensures ee == ee' && se == se' && psk == psk'
  {
    hide Hash, Hmac;
    var c1 := Kdf1(t.ck, e);
    var (c3, c3') := (Kdf1(Kdf1(c1, ee), se), Kdf1(Kdf1(c1, ee'), se'));
    Kdf3Injective(c3, psk, c3', psk');
    Kdf1Injective(Kdf1(c1, ee), se, Kdf1(c1, ee'), se');
    Kdf1Injective(c1, ee, c1, ee');
  }

  /** Session indexes keep the 24 peer bits and cycle through the 8 session bits. */
  lemma IncIndexKeepsPeer(n: u32)
    ensures IncIndex(n) / 256 == n / 256
    ensures IncIndex(n) % 256 == (n + 1) % 256
  {
  }
}
