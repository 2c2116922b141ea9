/** What a tunnel accepts in that world was made by its peer. */
module AttackerProofs {
  import opened Wrappers
  import opened Crypto
  import opened Wire
  import opened Noise
  import S = Session
  import H = HandshakeSpec
  import HP = HandshakeProofs
  import opened TunnelSpec
  import opened AttackerKnowledge
  import opened AttackerWorld

  // What acceptance means

  function Other(side: Side): Side {
    if side.SideA? then SideB else SideA
  }

  /** A message under a secret key that the attacker holds was sealed by a peer. */
  lemma SecretSealIsLogged(c: Ends, w: World, cipher: Bytes, key: Bytes, nonce: Bytes, plain: Bytes, aad: Bytes)
    requires Inv(c, w) && Knows(w.known, cipher) && !AllComputable(c, key) && cipher == Seal(key, nonce, plain, aad)
    ensures Logged(w.log, key, nonce, plain, aad)
  {
    assert cipher[0] == Out(Sealed(key, nonce, plain, aad), 0);
    hide Logged, PartyOk, LogOk, AllComputable;
    assert cipher[0] in w.known;
    assert Fine(c, w.log, cipher[0]);
  }

  lemma PartIsKnown(known: set<Byte>, s: Bytes, i: nat, j: nat)
    requires Knows(known, s) && i <= j <= |s|
    ensures Knows(known, s[i..j])
  {
  }

  lemma FieldsAreKnown(known: set<Byte>, wire: Bytes)
    requires Knows(known, wire) && ParseIncomingPacket(wire).Ok?
    ensures match ParseIncomingPacket(wire).value
            case HandshakeInit(_, _, _, t) => Knows(known, t)
            case HandshakeResponse(_, _, _, n) => Knows(known, n)
            case PacketCookieReply(_, _, _) => true
            case PacketData(_, _, d) => Knows(known, d)
  {
    hide Knows, U32At, U64At;
    if |wire| >= 116 {
      PartIsKnown(known, wire, 88, 116);
    }
    if |wire| >= 60 {
      PartIsKnown(known, wire, 44, 60);
    }
    if |wire| >= 16 {
      PartIsKnown(known, wire, 16, |wire|);
      assert wire[16..] == wire[16..|wire|];
    }
  }

  /** The transcript hash of an initiation, on both sides. */
  function TranscriptHash(responder: Bytes, init: Packet): Bytes
    requires init.HandshakeInit?
  {
    Hash(Hash(Hash(Hash(INITIAL_CHAIN_HASH, responder), init.ephemeral), init.encryptedStatic), init.encryptedTimestamp)
  }

  lemma SentTranscript(p: H.Params, index: u32, ephemeral: nat, stamp: H.Tai64N)
    ensures var (packet, t) := H.InitiationFields(p, index, ephemeral, stamp);
            packet.HandshakeInit? && WellSized(packet) && t.h == TranscriptHash(p.peerStaticPublic, packet)
  {
    HP.InitiationSizes(p, index, ephemeral, stamp);
    hide Hash, Kdf1, Kdf2, DiffieHellman, SealField, PublicKey;
  }

  lemma ReadTranscript(p: H.Params, init: Packet)
    requires init.HandshakeInit? && H.ReadInitiation(p, init).Ok?
    ensures H.ReadInitiation(p, init).value.1.h == TranscriptHash(H.StaticPublic(p), init)
  {
    hide Hash, Kdf1, Kdf2, DiffieHellman, OpenField, H.ParseTimestamp, PublicKey;
  }

  /** The index is the one field that the transcript does not cover. */
  predicate SameButIndex(init: Packet, init': Packet) {
    && init.HandshakeInit? && init'.HandshakeInit?
    && init'.ephemeral == init.ephemeral && init'.encryptedStatic == init.encryptedStatic
    && init'.encryptedTimestamp == init.encryptedTimestamp
  }

  /** Equal transcript hashes are of the same initiation, but for the index, to the same responder. */
  lemma SameTranscript(responder: Bytes, init: Packet, responder': Bytes, init': Packet)
    requires init.HandshakeInit? && init'.HandshakeInit? && WellSized(init) && WellSized(init')
             && |responder| == |responder'|
    requires TranscriptHash(responder, init) == TranscriptHash(responder', init')
    ensures responder == responder' && SameButIndex(init, init')
  {
    hide Hash;
    HP.TranscriptDetermines(responder, init.ephemeral, init.encryptedStatic, init.encryptedTimestamp,
                            responder', init'.ephemeral, init'.encryptedStatic, init'.encryptedTimestamp);
  }

  lemma KeysDiffer(c: Ends)
    requires EndsOk(c)
    ensures H.StaticPublic(c.a) != H.StaticPublic(c.b)
  {
    assert H.StaticPublic(c.a)[0] == Out(Public(c.a.staticPrivate), 0);
    assert H.StaticPublic(c.b)[0] == Out(Public(c.b.staticPrivate), 0);
  }

  /** A sealed empty field of a response is a peer's. */
  lemma EmptyFieldIsResponse(c: Ends, log: set<Made>, k: Keyed)
    requires Logged(log, k.key, ZERO_NONCE, [], k.transcript.h) && k.transcript.h != []
    ensures exists p, init, ephemeral ::
              && MadeResponse(p, init, ephemeral) in log && LinkOk(p, Answered(init, ephemeral))
              && LinkKey(p, Answered(init, ephemeral)).key == k.key
              && LinkKey(p, Answered(init, ephemeral)).transcript.h == k.transcript.h
  {
    hide StaticKey, TimestampKey, DiffieHellman, SealField, LinkKey;
    var m :| m in log && Seals(m, k.key, ZERO_NONCE, [], k.transcript.h);
    match m
    case Given(_, _) =>
    case MadeInitiation(_, _, _, stamp) => assert false;
    case MadeResponse(p, init, ephemeral) => assert LinkOk(p, Answered(init, ephemeral));
    case MadeData(_, _, _, _) => assert false;
  }

  /** Every response a tunnel accepts in a reachable world, whoever delivered it: the peer made it in
      answer to an initiation that this tunnel made, under the same preshared key and with the same
      ephemeral key, and has the keys of both directions. */
  lemma AcceptedResponseIsPeers(c: Ends, w: World, side: Side, wire: Bytes, now: nat)
    requires EndsOk(c) && Reachable(c, w) && Knows(w.known, wire)
    requires ParseIncomingPacket(wire).Ok? && ParseIncomingPacket(wire).value.HandshakeResponse?
    requires H.ReceiveResponse(TunnelOf(w, side).handshake, ParseIncomingPacket(wire).value, now).1.Ok?
    ensures var q := ParseIncomingPacket(wire).value;
            var s := H.ReceiveResponse(TunnelOf(w, side).handshake, q, now).1.value;
            ResponseIsPeers(c, w, side, q.ephemeral, s)
  {
    ReachableIsOk(c, w);
    ParsedIsEncoded(wire);
    FieldsAreKnown(w.known, wire);
    hide ParseIncomingPacket, Reachable, EndsOk, Encode, Knows;
    ResponseFromPeer(c, w, side, ParseIncomingPacket(wire).value, now);
  }

  ghost predicate ResponseIsPeers(c: Ends, w: World, side: Side, point: Bytes, s: S.Session) {
    var (p, peer) := (ParamsOf(c, side), ParamsOf(c, Other(side)));
    exists init, ephemeral, index, e, stamp ::
      && MadeResponse(peer, init, ephemeral) in w.log && MadeInitiation(p, index, e, stamp) in w.log
      && SameButIndex(init, H.InitiationFields(p, index, e, stamp).0)
      && point == PublicKey(ephemeral) && H.Psk(p) == H.Psk(peer)
      && LinkOk(peer, Answered(init, ephemeral))
      && s.sendingKey == ReceiveKey(peer, Answered(init, ephemeral))
      && s.receivingKey == SendKey(peer, Answered(init, ephemeral))
  }

  lemma ResponseOpens(p: H.Params, h: H.State, q: Packet, now: nat, log: set<Made>) returns (l: Link)
    requires HandshakeOk(p, h, log) && q.HandshakeResponse? && WellSized(q) && H.ReceiveResponse(h, q, now).1.Ok?
    ensures l.Initiated? && l.point == q.ephemeral && MadeInitiation(p, l.index, l.ephemeral, l.stamp) in log
    ensures q.encryptedNothing == SealField(LinkKey(p, l), [])
    ensures var s := H.ReceiveResponse(h, q, now).1.value;
            s.sendingKey == SendKey(p, l) && s.receivingKey == ReceiveKey(p, l)
  {
    hide TransportKeys, EmptyKey, H.InitiationFields, OpenField;
    var slot := if H.Awaits(h.state, q.receiverIdx) then h.state else h.previous;
    var stamp :| && MadeInitiation(p, slot.localIndex, slot.ephemeralPrivate, stamp) in log
                 && slot == SentSlot(p, slot.localIndex, slot.ephemeralPrivate, stamp, slot.timeSent);
    l := Initiated(slot.localIndex, slot.ephemeralPrivate, stamp, q.ephemeral);
    assert H.ResponseKey(p, slot, q.ephemeral) == LinkKey(p, l);
    HP.OpenedFieldWasSealed(LinkKey(p, l), q.encryptedNothing, OpenField(LinkKey(p, l), q.encryptedNothing).value);
  }

  /** An initiator and a responder with the same key of the empty field are the two peers in one handshake. */
  lemma LinksMatch(c: Ends, side: Side, l: Link, p': H.Params, init: Packet, ephemeral: nat)
    requires EndsOk(c) && l.Initiated? && (p' == c.a || p' == c.b) && LinkOk(p', Answered(init, ephemeral))
             && WellSized(init)
    requires var (k, k') := (LinkKey(ParamsOf(c, side), l), LinkKey(p', Answered(init, ephemeral)));
             k'.key == k.key && k'.transcript.h == k.transcript.h
    ensures var (p, peer) := (ParamsOf(c, side), ParamsOf(c, Other(side)));
            && p' == peer && SameButIndex(init, H.InitiationFields(p, l.index, l.ephemeral, l.stamp).0)
            && l.point == PublicKey(ephemeral) && H.Psk(p) == H.Psk(peer)
            && LinkKey(p', Answered(init, ephemeral)) == LinkKey(p, l)
  {
    var p := ParamsOf(c, side);
    var (packet, t) := H.InitiationFields(p, l.index, l.ephemeral, l.stamp);
    var t' := H.ReadInitiation(p', init).value.1;
    KeysDiffer(c);
    SentTranscript(p, l.index, l.ephemeral, l.stamp);
    ReadTranscript(p', init);
    hide H.InitiationFields, H.ReadInitiation, EmptyKey, DiffieHellman, TranscriptHash, PublicKey;
    HP.EmptyKeyInjective(t, l.point, DiffieHellman(l.ephemeral, l.point), DiffieHellman(p.staticPrivate, l.point),
                         H.Psk(p),
                         t', PublicKey(ephemeral), DiffieHellman(ephemeral, init.ephemeral),
                         DiffieHellman(ephemeral, p'.peerStaticPublic), H.Psk(p'));
    PublicSizes(c);
    SameTranscript(H.StaticPublic(p'), init, p.peerStaticPublic, packet);
  }

  lemma PublicSizes(c: Ends)
    requires EndsOk(c)
    ensures |H.StaticPublic(c.a)| == |H.StaticPublic(c.b)| == |c.a.peerStaticPublic| == |c.b.peerStaticPublic|
  {
  }

  lemma ResponseFromPeer(c: Ends, w: World, side: Side, q: Packet, now: nat)
    requires EndsOk(c) && Inv(c, w) && q.HandshakeResponse? && WellSized(q) && Knows(w.known, q.encryptedNothing)
    requires H.ReceiveResponse(TunnelOf(w, side).handshake, q, now).1.Ok?
    ensures ResponseIsPeers(c, w, side, q.ephemeral, H.ReceiveResponse(TunnelOf(w, side).handshake, q, now).1.value)
  {
    var p := ParamsOf(c, side);
    var h := TunnelOf(w, side).handshake;
    PartOk(c, w, side);
    hide EndsOk, HandshakeOk, Knows, AllComputable, EmptyKey, Logged, H.ReceiveResponse, TransportKeys, Inv, LinkKey,
         WellSized,
         SealField, H.InitiationFields, H.ReadInitiation;
    var l := ResponseOpens(p, h, q, now, w.log);
    var k := LinkKey(p, l);
    LinkSecret(c, p, l);
    EmptyKeySize(p, l);
    assert q.encryptedNothing == Seal(k.key, ZERO_NONCE, [], k.transcript.h) by {
      FieldIsSeal(k, []);
    }
    SecretSealIsLogged(c, w, q.encryptedNothing, k.key, ZERO_NONCE, [], k.transcript.h);
    EmptyFieldIsResponse(c, w.log, k);
    var p', init, ephemeral :| && MadeResponse(p', init, ephemeral) in w.log && LinkOk(p', Answered(init, ephemeral))
                               && LinkKey(p', Answered(init, ephemeral)).key == k.key
                               && LinkKey(p', Answered(init, ephemeral)).transcript.h == k.transcript.h;
    ResponseIsOk(c, w, p', init, ephemeral);
    Conclude(c, w, side, l, p', init, ephemeral, H.ReceiveResponse(h, q, now).1.value);
  }

  lemma Conclude(c: Ends, w: World, side: Side, l: Link, p': H.Params, init: Packet, ephemeral: nat, s: S.Session)
    requires EndsOk(c) && l.Initiated? && (p' == c.a || p' == c.b) && LinkOk(p', Answered(init, ephemeral))
             && WellSized(init)
    requires var (k, k') := (LinkKey(ParamsOf(c, side), l), LinkKey(p', Answered(init, ephemeral)));
             k'.key == k.key && k'.transcript.h == k.transcript.h
    requires MadeResponse(p', init, ephemeral) in w.log
             && MadeInitiation(ParamsOf(c, side), l.index, l.ephemeral, l.stamp) in w.log
    requires s.sendingKey == SendKey(ParamsOf(c, side), l) && s.receivingKey == ReceiveKey(ParamsOf(c, side), l)
    ensures ResponseIsPeers(c, w, side, l.point, s)
  {
    LinksMatch(c, side, l, p', init, ephemeral);
    hide EndsOk, LinkKey, TransportKeys, H.InitiationFields, H.ReadInitiation, PublicKey, H.Psk;
  }

  lemma FieldIsSeal(k: Keyed, plain: Bytes)
    ensures SealField(k, plain) == Seal(k.key, ZERO_NONCE, plain, k.transcript.h)
  {
  }

  lemma PartOk(c: Ends, w: World, side: Side)
    requires Inv(c, w)
    ensures PartyOk(ParamsOf(c, side), TunnelOf(w, side), w.log)
    ensures HandshakeOk(ParamsOf(c, side), TunnelOf(w, side).handshake, w.log)
  {
    hide LogOk, KnownOk, HandshakeOk;
  }

  lemma ResponseIsOk(c: Ends, w: World, p: H.Params, init: Packet, ephemeral: nat)
    requires Inv(c, w) && MadeResponse(p, init, ephemeral) in w.log
    ensures (p == c.a || p == c.b) && init.HandshakeInit? && WellSized(init)
  {
    hide PartyOk, KnownOk;
    assert MadeOk(c, w.log, MadeResponse(p, init, ephemeral));
  }

  lemma EmptyKeySize(p: H.Params, l: Link)
    requires LinkOk(p, l)
    ensures LinkKey(p, l).transcript.h != []
  {
    hide H.InitiationFields, H.ReadInitiation, DiffieHellman, Kdf1, Kdf3;
  }

  // Accepted initiations

  /** A sealed timestamp is a peer's. */
  lemma TimestampIsInitiation(c: Ends, log: set<Made>, k: Keyed, plain: Bytes)
    requires Logged(log, k.key, ZERO_NONCE, plain, k.transcript.h) && k.transcript.h != [] && |plain| == 12
    ensures exists p, index, ephemeral, stamp ::
              && MadeInitiation(p, index, ephemeral, stamp) in log && plain == H.EncodeTimestamp(stamp)
              && TimestampKeyOf(p, ephemeral).key == k.key
                 && TimestampKeyOf(p, ephemeral).transcript.h == k.transcript.h
  {
    hide StaticKey, TimestampKey, DiffieHellman, SealField, LinkKey, H.EncodeTimestamp;
    var m :| m in log && Seals(m, k.key, ZERO_NONCE, plain, k.transcript.h);
    match m
    case Given(_, _) =>
    case MadeInitiation(p, index, ephemeral, stamp) =>
      assert plain == H.EncodeTimestamp(stamp);
    case MadeResponse(_, _, _) => assert false;
    case MadeData(_, _, _, _) => assert false;
  }

  /** The key of the timestamp field in an initiation. */
  function TimestampKeyOf(p: H.Params, ephemeral: nat): Keyed {
    var es := StaticKey(p.peerStaticPublic, PublicKey(ephemeral), DiffieHellman(ephemeral, p.peerStaticPublic));
    TimestampKey(es, SealField(es, H.StaticPublic(p)), DiffieHellman(p.staticPrivate, p.peerStaticPublic))
  }

  function ReaderKeyOf(p: H.Params, q: Packet): Keyed
    requires q.HandshakeInit?
  {
    var es := StaticKey(H.StaticPublic(p), q.ephemeral, DiffieHellman(p.staticPrivate, q.ephemeral));
    TimestampKey(es, q.encryptedStatic, DiffieHellman(p.staticPrivate, p.peerStaticPublic))
  }

  lemma ReadOpens(p: H.Params, q: Packet)
    requires q.HandshakeInit? && WellSized(q) && H.ReadInitiation(p, q).Ok?
    ensures exists plain :: && |plain| == 12 && q.encryptedTimestamp == SealField(ReaderKeyOf(p, q), plain)
                            && H.ParseTimestamp(plain) == Ok(H.ReadInitiation(p, q).value.0)
  {
    hide StaticKey, TimestampKey, DiffieHellman, H.ParseTimestamp, OpenField;
    var k := ReaderKeyOf(p, q);
    var plain := OpenField(k, q.encryptedTimestamp).value;
    HP.OpenedFieldWasSealed(k, q.encryptedTimestamp, plain);
  }

  /** The transcript before the timestamp field. */
  lemma HashBeforeTimestamp(p: H.Params, ephemeral: nat, q: H.Params, packet: Packet)
    requires packet.HandshakeInit? && WellSized(packet)
    requires |p.peerStaticPublic| == |H.StaticPublic(q)|
    requires TimestampKeyOf(p, ephemeral).transcript.h == ReaderKeyOf(q, packet).transcript.h
    ensures p.peerStaticPublic == H.StaticPublic(q) && packet.ephemeral == PublicKey(ephemeral)
    ensures var es := StaticKey(p.peerStaticPublic, PublicKey(ephemeral), DiffieHellman(ephemeral, p.peerStaticPublic));
            packet.encryptedStatic == SealField(es, H.StaticPublic(p))
  {
    hide Hash, Kdf1, Kdf2, DiffieHellman;
    var es := StaticKey(p.peerStaticPublic, PublicKey(ephemeral), DiffieHellman(ephemeral, p.peerStaticPublic));
    HP.TranscriptDetermines(p.peerStaticPublic, PublicKey(ephemeral), SealField(es, H.StaticPublic(p)), [],
                            H.StaticPublic(q), packet.ephemeral, packet.encryptedStatic, []);
  }

  /** Every initiation a tunnel can read in a reachable world, whoever delivered it: the peer made it at
      the time it carries, and it is unchanged but for the index. */
  lemma AcceptedInitiationIsPeers(c: Ends, w: World, side: Side, wire: Bytes)
    requires EndsOk(c) && Reachable(c, w) && Knows(w.known, wire)
    requires ParseIncomingPacket(wire).Ok? && ParseIncomingPacket(wire).value.HandshakeInit?
    requires H.ReadInitiation(ParamsOf(c, side), ParseIncomingPacket(wire).value).Ok?
    ensures var q := ParseIncomingPacket(wire).value;
            InitiationIsPeers(c, w, side, q, H.ReadInitiation(ParamsOf(c, side), q).value.0)
  {
    ReachableIsOk(c, w);
    ParsedIsEncoded(wire);
    FieldsAreKnown(w.known, wire);
    hide ParseIncomingPacket, Reachable, EndsOk, Encode, Knows, Inv, H.ReadInitiation, InitiationIsPeers;
    InitiationFromPeer(c, w, side, ParseIncomingPacket(wire).value);
  }

  ghost predicate InitiationIsPeers(c: Ends, w: World, side: Side, q: Packet, time: H.Tai64N) {
    exists index, ephemeral ::
      && MadeInitiation(ParamsOf(c, Other(side)), index, ephemeral, time) in w.log
      && SameButIndex(q, H.InitiationFields(ParamsOf(c, Other(side)), index, ephemeral, time).0)
  }

  lemma InitiationFromPeer(c: Ends, w: World, side: Side, q: Packet)
    requires EndsOk(c) && Inv(c, w) && q.HandshakeInit? && WellSized(q) && Knows(w.known, q.encryptedTimestamp)
    requires H.ReadInitiation(ParamsOf(c, side), q).Ok?
    ensures InitiationIsPeers(c, w, side, q, H.ReadInitiation(ParamsOf(c, side), q).value.0)
  {
    var p := ParamsOf(c, side);
    var k := ReaderKeyOf(p, q);
    ReadOpens(p, q);
    ReaderSecret(c, p, q);
    hide EndsOk, Knows, AllComputable, Inv, SealField, H.ReadInitiation, ReaderKeyOf, H.ParseTimestamp, Logged,
         TimestampKeyOf,
         H.EncodeTimestamp, InitiationIsPeers, WellSized;
    var plain :| && |plain| == 12 && q.encryptedTimestamp == SealField(k, plain)
                 && H.ParseTimestamp(plain) == Ok(H.ReadInitiation(p, q).value.0);
    FieldIsSeal(k, plain);
    SecretSealIsLogged(c, w, q.encryptedTimestamp, k.key, ZERO_NONCE, plain, k.transcript.h);
    TimestampIsInitiation(c, w.log, k, plain);
    var p', index, ephemeral, stamp :| && MadeInitiation(p', index, ephemeral, stamp) in w.log
                                       && plain == H.EncodeTimestamp(stamp)
                                       && TimestampKeyOf(p', ephemeral).key == k.key
                                       && TimestampKeyOf(p', ephemeral).transcript.h == k.transcript.h;
    H.TimestampRoundTrip(stamp);
    MakerIsEnd(c, w, MadeInitiation(p', index, ephemeral, stamp));
    SameInitiation(c, side, p', index, ephemeral, stamp, q);
    assert InitiationIsPeers(c, w, side, q, stamp) by {
      Peer(c, w, side, q, index, ephemeral, stamp);
    }
  }

  lemma Peer(c: Ends, w: World, side: Side, q: Packet, index: u32, ephemeral: nat, stamp: H.Tai64N)
    requires MadeInitiation(ParamsOf(c, Other(side)), index, ephemeral, stamp) in w.log
    requires SameButIndex(q, H.InitiationFields(ParamsOf(c, Other(side)), index, ephemeral, stamp).0)
    ensures InitiationIsPeers(c, w, side, q, stamp)
  {
  }

  lemma MakerIsEnd(c: Ends, w: World, m: Made)
    requires Inv(c, w) && m in w.log
    ensures (m.p == c.a || m.p == c.b) && MadeOk(c, w.log, m)
  {
    hide PartyOk, KnownOk;
    assert MadeOk(c, w.log, m);
  }

  lemma ReaderSecret(c: Ends, p: H.Params, q: Packet)
    requires EndsOk(c) && (p == c.a || p == c.b) && q.HandshakeInit?
    ensures !AllComputable(c, ReaderKeyOf(p, q).key) && ReaderKeyOf(p, q).transcript.h != []
  {
    var es := StaticKey(H.StaticPublic(p), q.ephemeral, DiffieHellman(p.staticPrivate, q.ephemeral));
    TimestampSecret(c, p, es, q.encryptedStatic);
    hide DiffieHellman, AllComputable, EndsOk, StaticKey, Kdf2;
  }

  /** A timestamp key that maker and reader share is of one initiation from one peer to the other. */
  lemma SameInitiation(c: Ends, side: Side, p': H.Params, index: u32, ephemeral: nat, stamp: H.Tai64N, q: Packet)
    requires EndsOk(c) && (p' == c.a || p' == c.b) && q.HandshakeInit? && WellSized(q)
    requires var (k, k') := (ReaderKeyOf(ParamsOf(c, side), q), TimestampKeyOf(p', ephemeral));
             && k'.key == k.key && k'.transcript.h == k.transcript.h
             && q.encryptedTimestamp == SealField(k, H.EncodeTimestamp(stamp))
    ensures p' == ParamsOf(c, Other(side))
    ensures SameButIndex(q, H.InitiationFields(p', index, ephemeral, stamp).0)
  {
    var p := ParamsOf(c, side);
    KeysDiffer(c);
    PublicSizes(c);
    HashBeforeTimestamp(p', ephemeral, p, q);
    FieldIsSeal(ReaderKeyOf(p, q), H.EncodeTimestamp(stamp));
    FieldIsSeal(TimestampKeyOf(p', ephemeral), H.EncodeTimestamp(stamp));
    hide StaticKey, TimestampKey, DiffieHellman, SealField, PublicKey, H.EncodeTimestamp;
  }

  // Accepted data

  /** Data under a key of a session is data a peer sent. */
  lemma PlainIsData(c: Ends, log: set<Made>, key: Bytes, counter: u64, plain: Bytes)
    requires Logged(log, key, CounterNonce(counter), plain, [])
    ensures exists p :: MadeData(p, key, counter, plain) in log
  {
    hide DiffieHellman, SealField, CounterNonce, Kdf1, Kdf2, Kdf3, H.ReadInitiation, H.InitiationFields;
    var m :| m in log && Seals(m, key, CounterNonce(counter), plain, []);
    match m
    case Given(_, _) =>
    case MadeInitiation(_, _, _, _) => assert false;
    case MadeResponse(p, init, ephemeral) => assert false;
    case MadeData(p, k, counter', data) => CounterNonceInjective(counter, counter');
  }

  lemma TransportKeysInjective(ck: Bytes, ck': Bytes)
    ensures TransportKeys(ck).0 == TransportKeys(ck').0 || TransportKeys(ck).1 == TransportKeys(ck').1 ==> ck == ck'
    ensures TransportKeys(ck).0 != TransportKeys(ck').1
  {
    hide Hmac;
    forall k, d, k', d' | Hmac(k, d) == Hmac(k', d') ensures k == k' && d == d' {
      HP.HmacInjective(k, d, k', d');
    }
    var t := TransportKeys(ck').0;
    assert (t + [Lit(2)])[|t|] == Lit(2) && [Lit(1)][0] != Lit(2);
    assert t + [Lit(2)] != [Lit(1)];
  }

  lemma ChainInjective(t: Transcript, e: Bytes, ee: Bytes, se: Bytes, psk: Bytes,
                       t': Transcript, e': Bytes, ee': Bytes, se': Bytes, psk': Bytes)
    requires EmptyKey(t, e, ee, se, psk).transcript.ck == EmptyKey(t', e', ee', se', psk').transcript.ck
    ensures t.ck == t'.ck
  {
    hide Hmac, Hash;
    var (c1, c1') := (Kdf1(t.ck, e), Kdf1(t'.ck, e'));
    var (c2, c2') := (Kdf1(c1, ee), Kdf1(c1', ee'));
    var (c3, c3') := (Kdf1(c2, se), Kdf1(c2', se'));
    HP.Kdf1Injective(c3, psk, c3', psk');
    HP.Kdf1Injective(c2, se, c2', se');
    HP.Kdf1Injective(c1, ee, c1', ee');
    HP.Kdf1Injective(t.ck, e, t'.ck, e');
  }

  /** The chaining key after an initiation. */
  function ChainAfter(e: Bytes, es: Bytes, ss: Bytes): Bytes {
    Kdf1(Kdf1(Kdf1(INITIAL_CHAIN_KEY, e), es), ss)
  }

  lemma SentChain(p: H.Params, index: u32, ephemeral: nat, stamp: H.Tai64N)
    ensures H.InitiationFields(p, index, ephemeral, stamp).1.ck
         == ChainAfter(PublicKey(ephemeral), DiffieHellman(ephemeral, p.peerStaticPublic),
                       DiffieHellman(p.staticPrivate, p.peerStaticPublic))
  {
    hide Hmac, Hash, DiffieHellman, SealField, PublicKey, H.EncodeTimestamp;
  }

  lemma ReadChain(p: H.Params, init: Packet)
    requires init.HandshakeInit? && H.ReadInitiation(p, init).Ok?
    ensures H.ReadInitiation(p, init).value.1.ck
         == ChainAfter(init.ephemeral, DiffieHellman(p.staticPrivate, init.ephemeral),
                       DiffieHellman(p.staticPrivate, p.peerStaticPublic))
  {
    hide Hmac, Hash, DiffieHellman, OpenField, PublicKey, H.ParseTimestamp;
  }

  /** A peer never receives under a key that it sends under itself. */
  lemma NotItsOwn(c: Ends, p: H.Params, l: Link, l': Link)
    requires EndsOk(c) && (p == c.a || p == c.b) && LinkOk(p, l) && LinkOk(p, l')
    ensures SendKey(p, l) != ReceiveKey(p, l')
  {
    hide EndsOk, H.InitiationFields, H.ReadInitiation, TransportKeys, EmptyKey, DiffieHellman, PublicKey;
    TransportKeysInjective(LinkKey(p, l).transcript.ck, LinkKey(p, l').transcript.ck);
    TransportKeysInjective(LinkKey(p, l').transcript.ck, LinkKey(p, l).transcript.ck);
    if SendKey(p, l) == ReceiveKey(p, l') {
      if l.Initiated? {
        NotBoth(c, p, l, l');
      } else {
        NotBoth(c, p, l', l);
      }
    }
  }

  /** Nobody is initiator and responder of one handshake. */
  lemma NotBoth(c: Ends, p: H.Params, l: Link, l': Link)
    requires EndsOk(c) && (p == c.a || p == c.b) && LinkOk(p, l) && LinkOk(p, l') && l.Initiated? && l'.Answered?
    ensures LinkKey(p, l).transcript.ck != LinkKey(p, l').transcript.ck
  {
    hide EmptyKey, H.InitiationFields, H.ReadInitiation, ChainAfter;
    if LinkKey(p, l).transcript.ck == LinkKey(p, l').transcript.ck {
      var (t, t') := (H.InitiationFields(p, l.index, l.ephemeral, l.stamp).1, H.ReadInitiation(p, l'.init).value.1);
      ChainInjective(t, l.point, DiffieHellman(l.ephemeral, l.point), DiffieHellman(p.staticPrivate, l.point), H.Psk(p),
                     t', PublicKey(l'.ephemeral), DiffieHellman(l'.ephemeral, l'.init.ephemeral),
                     DiffieHellman(l'.ephemeral, p.peerStaticPublic), H.Psk(p));
      SentChain(p, l.index, l.ephemeral, l.stamp);
      ReadChain(p, l'.init);
      hide *;
      assert false by { DifferentChains(c, p, l.ephemeral, l'.init.ephemeral); }
    }
  }

  lemma DifferentChains(c: Ends, p: H.Params, ephemeral: nat, point: Bytes)
    requires EndsOk(c) && (p == c.a || p == c.b)
    ensures ChainAfter(PublicKey(ephemeral), DiffieHellman(ephemeral, p.peerStaticPublic),
                       DiffieHellman(p.staticPrivate, p.peerStaticPublic))
         != ChainAfter(point, DiffieHellman(p.staticPrivate, point), DiffieHellman(p.staticPrivate, p.peerStaticPublic))
  {
    hide Hmac;
    if ChainAfter(PublicKey(ephemeral), DiffieHellman(ephemeral, p.peerStaticPublic),
                  DiffieHellman(p.staticPrivate, p.peerStaticPublic))
       == ChainAfter(point, DiffieHellman(p.staticPrivate, point), DiffieHellman(p.staticPrivate, p.peerStaticPublic)) {
      ChainAfterInjective(PublicKey(ephemeral), DiffieHellman(ephemeral, p.peerStaticPublic), point,
                          DiffieHellman(p.staticPrivate, point), DiffieHellman(p.staticPrivate, p.peerStaticPublic));
      var peer := if p == c.a then c.b.staticPrivate else c.a.staticPrivate;
      HP.SecretsDiffer(ephemeral, peer, p.staticPrivate);
      assert false;
    }
  }

  lemma ChainAfterInjective(e: Bytes, es: Bytes, e': Bytes, es': Bytes, ss: Bytes)
    requires ChainAfter(e, es, ss) == ChainAfter(e', es', ss)
    ensures e == e' && es == es'
  {
    hide Kdf1;
    HP.Kdf1Injective(Kdf1(Kdf1(INITIAL_CHAIN_KEY, e), es), ss, Kdf1(Kdf1(INITIAL_CHAIN_KEY, e'), es'), ss);
    HP.Kdf1Injective(Kdf1(INITIAL_CHAIN_KEY, e), es, Kdf1(INITIAL_CHAIN_KEY, e'), es');
    HP.Kdf1Injective(INITIAL_CHAIN_KEY, e, INITIAL_CHAIN_KEY, e');
  }

  predicate Delivers(r: TunnResult) {
    r.WriteToTunnelV4? || r.WriteToTunnelV6?
  }

  lemma DeliveryOpens(t: Tunnel, q: Packet, i: Input) returns (plain: Bytes)
    requires Delivers(Step(t, Receive(q, i)).1)
    ensures q.PacketData? && t.sessions[q.receiverIdx % N_SESSIONS].Some?
    ensures q.encryptedPacket == Seal(t.sessions[q.receiverIdx % N_SESSIONS].value.receivingKey,
                                      CounterNonce(q.counter), plain, [])
    ensures IsPacketOf(Step(t, Receive(q, i)).1.packet, plain)
  {
    assert q.PacketData? by {
      hide H.ReceiveInitiation, H.ReceiveResponse, H.ReceiveCookieReply, S.FormatPacketData, HandleData;
    }
    var s := t.sessions[q.receiverIdx % N_SESSIONS].value;
    hide S.ReceivePacketData, IpHeader, Version, Seal, CounterNonce;
    plain := S.ReceivePacketData(s, q).1.value;
    Opens(s, q);
  }

  lemma Opens(s: S.Session, q: Packet)
    requires q.PacketData? && S.ReceivePacketData(s, q).1.Ok?
    ensures q.encryptedPacket == Seal(s.receivingKey, CounterNonce(q.counter), S.ReceivePacketData(s, q).1.value, [])
  {
    var plain := S.ReceivePacketData(s, q).1.value;
    hide CounterNonce, Seal, Open;
    OpenIffSealed(s.receivingKey, CounterNonce(q.counter), q.encryptedPacket, [], plain);
  }

  /** What is delivered of a packet: as much as its header announces. */
  predicate IsPacketOf(packet: Bytes, plain: Bytes) {
    && plain != [] && IpHeader(plain).Some? && IpHeader(plain).value.0 <= |plain|
    && packet == plain[..IpHeader(plain).value.0]
  }

  /** Every packet a tunnel hands to its interface in a reachable world, whoever delivered the datagram:
      the peer was given this packet to send, and sent it under the key of the session and the counter
      of the datagram. */
  lemma DeliveredIsPeers(c: Ends, w: World, side: Side, wire: Bytes, i: Input)
    requires EndsOk(c) && Reachable(c, w) && Knows(w.known, wire) && ParseIncomingPacket(wire).Ok?
    requires Delivers(Step(TunnelOf(w, side), Receive(ParseIncomingPacket(wire).value, i)).1)
    ensures var (t, q) := (TunnelOf(w, side), ParseIncomingPacket(wire).value);
            DataIsPeers(c, w, side, q, Step(t, Receive(q, i)).1.packet)
  {
    ReachableIsOk(c, w);
    FieldsAreKnown(w.known, wire);
    hide ParseIncomingPacket, Reachable, EndsOk, Knows, Inv, Step, DataIsPeers;
    var (t, q) := (TunnelOf(w, side), ParseIncomingPacket(wire).value);
    var plain := DeliveryOpens(t, q, i);
    DataFromPeer(c, w, side, q, plain, Step(t, Receive(q, i)).1.packet);
  }

  ghost predicate DataIsPeers(c: Ends, w: World, side: Side, q: Packet, packet: Bytes) {
    && q.PacketData? && TunnelOf(w, side).sessions[q.receiverIdx % N_SESSIONS].Some?
    && var s := TunnelOf(w, side).sessions[q.receiverIdx % N_SESSIONS].value;
    exists plain ::
      && Given(ParamsOf(c, Other(side)), plain) in w.log
      && MadeData(ParamsOf(c, Other(side)), s.receivingKey, q.counter, plain) in w.log
      && IsPacketOf(packet, plain)
  }

  lemma DataFromPeer(c: Ends, w: World, side: Side, q: Packet, plain: Bytes, packet: Bytes)
    requires EndsOk(c) && Inv(c, w) && q.PacketData? && Knows(w.known, q.encryptedPacket)
    requires TunnelOf(w, side).sessions[q.receiverIdx % N_SESSIONS].Some?
    requires var s := TunnelOf(w, side).sessions[q.receiverIdx % N_SESSIONS].value;
             q.encryptedPacket == Seal(s.receivingKey, CounterNonce(q.counter), plain, [])
    requires IsPacketOf(packet, plain)
    ensures DataIsPeers(c, w, side, q, packet)
  {
    var s := TunnelOf(w, side).sessions[q.receiverIdx % N_SESSIONS].value;
    SessionsAreOk(c, w, side, q.receiverIdx % N_SESSIONS);
    hide EndsOk, Knows, AllComputable, Inv, Seal, CounterNonce, Logged, SessionOk, IsPacketOf;
    ReceivingKeySecret(c, ParamsOf(c, side), s);
    SecretSealIsLogged(c, w, q.encryptedPacket, s.receivingKey, CounterNonce(q.counter), plain, []);
    PlainIsData(c, w.log, s.receivingKey, q.counter, plain);
    var p' :| MadeData(p', s.receivingKey, q.counter, plain) in w.log;
    SenderIsPeer(c, w, side, s, p', q.counter, plain);
    NotEmpty(packet, plain);
  }

  lemma ReceivingKeySecret(c: Ends, p: H.Params, s: S.Session)
    requires EndsOk(c) && (p == c.a || p == c.b) && SessionOk(p, s)
    ensures !AllComputable(c, s.receivingKey)
  {
    hide EndsOk, SendKey, ReceiveKey, AllComputable, LinkOk;
    var l :| LinkOk(p, l) && s.sendingKey == SendKey(p, l) && s.receivingKey == ReceiveKey(p, l);
    LinkSecret(c, p, l);
  }

  lemma SenderIsPeer(c: Ends, w: World, side: Side, s: S.Session, p': H.Params, counter: u64, plain: Bytes)
    requires EndsOk(c) && Inv(c, w) && SessionOk(ParamsOf(c, side), s)
    requires MadeData(p', s.receivingKey, counter, plain) in w.log
    ensures p' == ParamsOf(c, Other(side)) && Handed(p', plain, w.log)
  {
    MakerIsEnd(c, w, MadeData(p', s.receivingKey, counter, plain));
    hide EndsOk, Inv, SendKey, ReceiveKey, LinkOk;
    var p := ParamsOf(c, side);
    var l :| LinkOk(p, l) && s.sendingKey == SendKey(p, l) && s.receivingKey == ReceiveKey(p, l);
    var l' :| LinkOk(p', l') && s.receivingKey == SendKey(p', l');
    if p' == p {
      NotItsOwn(c, p, l', l);
      assert false;
    }
  }

  lemma NotEmpty(packet: Bytes, plain: Bytes)
    requires IsPacketOf(packet, plain)
    ensures plain != []
  {
  }

  lemma SessionsAreOk(c: Ends, w: World, side: Side, k: nat)
    requires Inv(c, w) && k < 8 && TunnelOf(w, side).sessions[k].Some?
    ensures SessionOk(ParamsOf(c, side), TunnelOf(w, side).sessions[k].value)
  {
    hide LogOk, KnownOk, HandshakeOk, SessionOk;
  }

  /** In no reachable world does the attacker hold a byte of a session key. */
  lemma SessionKeysStaySecret(c: Ends, w: World, side: Side, k: nat)
    requires EndsOk(c) && Reachable(c, w) && k < 8 && TunnelOf(w, side).sessions[k].Some?
    ensures var s := TunnelOf(w, side).sessions[k].value;
            && (forall b | b in s.sendingKey :: b !in w.known && !b.Lit?)
            && (forall b | b in s.receivingKey :: b !in w.known && !b.Lit?)
  {
    hide EndsOk, Reachable, Inv, LinkKey, AllComputable, TransportKeys, LinkOk;
    var (p, s) := (ParamsOf(c, side), TunnelOf(w, side).sessions[k].value);
    ReachableIsOk(c, w);
    SessionsAreOk(c, w, side, k);
    var l :| LinkOk(p, l) && s.sendingKey == SendKey(p, l) && s.receivingKey == ReceiveKey(p, l);
    LinkSecret(c, p, l);
    KeySecret(c, w, LinkKey(p, l).transcript.ck);
  }

  lemma KeySecret(c: Ends, w: World, ck: Bytes)
    requires Inv(c, w)
    ensures !AllComputable(c, TransportKeys(ck).0) ==> forall b | b in TransportKeys(ck).0 :: b !in w.known && !b.Lit?
    ensures !AllComputable(c, TransportKeys(ck).1) ==> forall b | b in TransportKeys(ck).1 :: b !in w.known && !b.Lit?
  {
    var t0 := Hmac(ck, []);
    OutputSecret(c, w, t0, [Lit(1)]);
    OutputSecret(c, w, t0, Hmac(t0, [Lit(1)]) + [Lit(2)]);
    hide Hmac, AllComputable, Inv;
  }

  lemma OutputSecret(c: Ends, w: World, key: Bytes, data: Bytes)
    requires Inv(c, w)
    ensures !AllComputable(c, Hmac(key, data)) ==> forall b | b in Hmac(key, data) :: b !in w.known && !b.Lit?
  {
    HmacComputable(c, key, data);
    hide PartyOk, LogOk;
    if !AllComputable(c, Hmac(key, data)) {
      forall b | b in Hmac(key, data) ensures b !in w.known && !b.Lit? {
        var k :| 0 <= k < |Hmac(key, data)| && Hmac(key, data)[k] == b;
        HmacSecret(c, key, data, k);
        assert b in w.known ==> Fine(c, w.log, b);
      }
    }
  }

  // The caller's identity

  /** The sealed static key of an initiation, and the key it is sealed under. */
  function CallerKey(p: H.Params, ephemeral: nat): Keyed {
    StaticKey(p.peerStaticPublic, PublicKey(ephemeral), DiffieHellman(ephemeral, p.peerStaticPublic))
  }

  function CallerField(p: H.Params, ephemeral: nat): Bytes {
    SealField(CallerKey(p, ephemeral), H.StaticPublic(p))
  }

  lemma CallerFieldIsSent(p: H.Params, index: u32, ephemeral: nat, stamp: H.Tai64N)
    ensures var packet := H.InitiationFields(p, index, ephemeral, stamp).0;
            packet.HandshakeInit? && packet.encryptedStatic == CallerField(p, ephemeral)
            && packet.ephemeral == PublicKey(ephemeral)
  {
    hide StaticKey, TimestampKey, DiffieHellman, SealField, PublicKey;
  }

  /** Under the transcript of an initiation its static field opens with the right Diffie-Hellman secret and
      with no other. */
  lemma OpensWithSecretIff(p: H.Params, ephemeral: nat, es: Bytes)
    ensures OpenField(StaticKey(p.peerStaticPublic, PublicKey(ephemeral), es), CallerField(p, ephemeral))
         == if es == DiffieHellman(ephemeral, p.peerStaticPublic) then Some(H.StaticPublic(p)) else None
  {
    hide OpenField, SealField, DiffieHellman, PublicKey, Hmac, Hash;
    var (k, k') := (StaticKey(p.peerStaticPublic, PublicKey(ephemeral), es), CallerKey(p, ephemeral));
    OpenSealedField(k', H.StaticPublic(p));
    if es != DiffieHellman(ephemeral, p.peerStaticPublic) {
      if k.key == k'.key {
        var ck := Kdf1(INITIAL_CHAIN_KEY, PublicKey(ephemeral));
        Kdf2Injective(ck, es, ck, DiffieHellman(ephemeral, p.peerStaticPublic));
        assert false;
      }
      HP.OpensOnlyUnderItsKey(k, k', H.StaticPublic(p));
    }
  }

  lemma Kdf2Injective(key: Bytes, input: Bytes, key': Bytes, input': Bytes)
    requires Kdf2(key, input).1 == Kdf2(key', input').1
    ensures key == key' && input == input'
  {
    hide Hmac;
    var (t0, t0') := (Hmac(key, input), Hmac(key', input'));
    HP.HmacInjective(t0, Hmac(t0, [Lit(1)]) + [Lit(2)], t0', Hmac(t0', [Lit(1)]) + [Lit(2)]);
    HP.HmacInjective(key, input, key', input');
  }

  /** The anonymous parse tells who is calling exactly with the private key that the initiation was made
      for. */
  lemma OnlyResponderReads(p: H.Params, index: u32, ephemeral: nat, stamp: H.Tai64N, n: nat)
    requires |p.peerStaticPublic| == KEY_LEN
    ensures var packet := H.InitiationFields(p, index, ephemeral, stamp).0;
            && packet.HandshakeInit?
            && (H.ParseAnon(n, packet).Ok? <==> PublicKey(n) == p.peerStaticPublic)
            && (H.ParseAnon(n, packet).Ok? ==> H.ParseAnon(n, packet).value.peerStaticPublic == H.StaticPublic(p))
  {
    CallerFieldIsSent(p, index, ephemeral, stamp);
    DiffieHellmanCommutes(ephemeral, n);
    PublicSize(n);
    hide StaticKey, DiffieHellman, OpenField, SealField, PublicKey, H.InitiationFields;
    var k := StaticKey(PublicKey(n), PublicKey(ephemeral), DiffieHellman(n, PublicKey(ephemeral)));
    var field := CallerField(p, ephemeral);
    OpensWithSecretIff(p, ephemeral, DiffieHellman(ephemeral, p.peerStaticPublic));
    if OpenField(k, field).Some? {
      HP.OpenedFieldWasSealed(k, field, OpenField(k, field).value);
      HP.SealFieldInjective(k, OpenField(k, field).value, CallerKey(p, ephemeral), H.StaticPublic(p));
      SameResponder(PublicKey(n), p.peerStaticPublic, PublicKey(ephemeral), DiffieHellman(n, PublicKey(ephemeral)),
                    DiffieHellman(ephemeral, p.peerStaticPublic));
    }
  }

  lemma PublicSize(n: nat)
    ensures |PublicKey(n)| == KEY_LEN
  {
  }

  lemma SameResponder(r: Bytes, r': Bytes, e: Bytes, es: Bytes, es': Bytes)
    requires |r| == |r'| && StaticKey(r, e, es).transcript.h == StaticKey(r', e, es').transcript.h
    ensures r == r'
  {
    hide Hash, Kdf1, Kdf2;
    HP.HashInjective(Hash(INITIAL_CHAIN_HASH, r), e, Hash(INITIAL_CHAIN_HASH, r'), e);
    HP.HashInjective(INITIAL_CHAIN_HASH, r, INITIAL_CHAIN_HASH, r');
  }

  /** In no reachable world does an attacker who holds neither the ephemeral private key of an initiation
      nor the responder's have a byte of the key of the static field; it never opens that field, and so
      never learns from it who is calling. */
  lemma CallerStaysHidden(c: Ends, w: World, p: H.Params, responder: nat, ephemeral: nat, r: Recipe)
    requires EndsOk(c) && Reachable(c, w)
    requires p.peerStaticPublic == PublicKey(responder) && Private(c, responder) && Private(c, ephemeral)
    ensures forall b | b in CallerKey(p, ephemeral).key :: b !in w.known && !b.Lit?
    ensures CanMake(c, w.known, r) && r.OpenWith? && r.cipher == CallerField(p, ephemeral) ==> Product(r) == []
  {
    ReachableIsOk(c, w);
    hide EndsOk, Reachable, Inv, AllComputable, PublicKey, DiffieHellman;
    StaticFieldSecretIff(c, responder, ephemeral);
    StaticKeyIsOutput(c, w, p.peerStaticPublic, PublicKey(ephemeral), DiffieHellman(ephemeral, p.peerStaticPublic));
    var k := CallerKey(p, ephemeral);
    assert k.key[0] in k.key && !(k.key[0] in w.known) && !k.key[0].Lit?;
    hide StaticKey;
    if CanMake(c, w.known, r) && r.OpenWith? && r.cipher == CallerField(p, ephemeral) {
      if Open(r.key, r.nonce, r.cipher, r.aad).Some? {
        SameKeyOpens(k, H.StaticPublic(p), r.key, r.nonce, r.aad);
        assert false;
      }
    }
  }

  lemma SameKeyOpens(k: Keyed, plain: Bytes, key: Bytes, nonce: Bytes, aad: Bytes)
    requires Open(key, nonce, SealField(k, plain), aad).Some?
    ensures key == k.key
  {
    var cipher := SealField(k, plain);
    assert cipher[0] == Out(Sealed(k.key, ZERO_NONCE, plain, k.transcript.h), 0);
    var text := Open(key, nonce, cipher, aad).value;
    assert cipher == Seal(key, nonce, text, aad);
    assert cipher[0] == Out(Sealed(key, nonce, text, aad), 0);
  }

  lemma StaticKeyIsOutput(c: Ends, w: World, responder: Bytes, e: Bytes, es: Bytes)
    requires Inv(c, w)
    ensures var k := StaticKey(responder, e, es);
            && |k.key| == 32
            && (!AllComputable(c, k.key) ==> forall b | b in k.key :: b !in w.known && !b.Lit?)
  {
    var t0 := Hmac(Kdf1(INITIAL_CHAIN_KEY, e), es);
    OutputSecret(c, w, t0, Hmac(t0, [Lit(1)]) + [Lit(2)]);
    HmacSize(t0, Hmac(t0, [Lit(1)]) + [Lit(2)]);
    hide Hmac, AllComputable, Inv;
  }

  lemma HmacSize(key: Bytes, data: Bytes)
    ensures |Hmac(key, data)| == 32
  {
  }

  // Acceptance happens

  function Begin(c: Ends): World {
    var stamper := H.TimeStamper(0, 0);
    World(New(c.a, 0, stamper, None, 0), New(c.b, 0, stamper, None, 0), {}, {})
  }

  lemma KnowsLearned(known: set<Byte>, s: Bytes)
    ensures Knows(Learn(known, s), s)
    ensures forall t | Knows(known, t) :: Knows(Learn(known, s), t)
  {
  }

  /** The first call of a tunnel sends an initiation; all else it does is for itself. */
  lemma FirstSend(p: H.Params, src: Bytes, i: Input)
    requires i.dstLen >= HANDSHAKE_INIT_SZ
    ensures var t := New(p, 0, H.TimeStamper(0, 0), None, 0);
            var ((u, r), (h, m)) := (Step(t, Send(src, i)),
                                     H.FormatInitiation(t.handshake, i.dstLen, i.ephemeral, i.sent));
            m.Ok? && r == WriteToNetwork(m.value) && u.handshake == h
  {
    var t := New(p, 0, H.TimeStamper(0, 0), None, 0);
    HP.InitiationParses(t.handshake, i.dstLen, i.ephemeral, i.sent);
    hide H.FormatInitiation, ParseIncomingPacket, H.InitiationFields;
  }

  /** A tunnel answers what its handshake answers. */
  lemma FirstAnswer(t: Tunnel, q: Packet, i: Input)
    requires q.HandshakeInit? && H.ReceiveInitiation(t.handshake, q, i.dstLen, i.ephemeral).1.Ok?
    ensures Step(t, Receive(q, i)).1
         == WriteToNetwork(H.ReceiveInitiation(t.handshake, q, i.dstLen, i.ephemeral).1.value.0)
  {
    hide H.ReceiveInitiation;
  }

  /** The premises of the theorems above are met: with one preshared key and nothing but delivery by
      the attacker, the initiation is read and its response accepted. */
  lemma HonestRunIsAccepted(c: Ends, src: Bytes, i: Input)
    requires EndsOk(c) && H.Psk(c.a) == H.Psk(c.b)
    requires i.dstLen >= HANDSHAKE_INIT_SZ && SECOND <= i.sent < 600 * SECOND
    ensures exists init, resp ::
              && var moves := [Call(SideA, Send(src, i)), Deliver(SideB, init, i)];
              Starts(c, Begin(c)) && LegalRun(c, Begin(c), moves)
              && var w := Run(c, Begin(c), moves);
              && Reachable(c, w) && Knows(w.known, init) && Knows(w.known, resp)
              && ParseIncomingPacket(init).Ok? && ParseIncomingPacket(init).value.HandshakeInit?
              && H.ReadInitiation(c.b, ParseIncomingPacket(init).value).Ok?
              && ParseIncomingPacket(resp).Ok? && ParseIncomingPacket(resp).value.HandshakeResponse?
              && H.ReceiveResponse(w.a.handshake, ParseIncomingPacket(resp).value, i.later).1.Ok?
  {
    hide Step, ParseIncomingPacket, H.FormatInitiation, H.ReceiveInitiation, H.ReceiveResponse, Learn, Makes, Knows,
         H.InitiationFields, H.ReadInitiation;
    var begin := Begin(c);
    FirstSend(c.a, src, i);
    var init := H.FormatInitiation(begin.a.handshake, i.dstLen, i.ephemeral, i.sent).1.value;
    HP.HandshakeAgreement(begin.a.handshake, begin.b.handshake, i.ephemeral, i.ephemeral, i.dstLen, i.dstLen, i.sent,
                          i.later);
    var q := ParseIncomingPacket(init).value;
    FirstAnswer(begin.b, q, i);
    var resp := H.ReceiveInitiation(begin.b.handshake, q, i.dstLen, i.ephemeral).1.value.0;
    HP.InitiationParses(begin.a.handshake, i.dstLen, i.ephemeral, i.sent);
    HP.InitiationIsRead(c.a, c.b, H.IncIndex(begin.a.handshake.nextIndex), i.ephemeral,
                        H.TimeOf(H.TimeStamper(0, 0), i.sent));
    var (m1, m2) := (Call(SideA, Send(src, i)), Deliver(SideB, init, i));
    var w1 := Apply(c, begin, m1);
    KnowsLearned({}, init);
    assert w1.known == Learn({}, init) && w1.b == begin.b;
    var w := Apply(c, w1, m2);
    KnowsLearned(w1.known, resp);
    assert w.known == Learn(w1.known, resp) && w.a == w1.a;
    TwoMoves(c, begin, m1, m2);
    assert Knows(w.known, init) && Knows(w.known, resp);
  }

  lemma TwoMoves(c: Ends, w: World, m1: Move, m2: Move)
    requires Starts(c, w) && LegalMove(c, w, m1) && LegalMove(c, Apply(c, w, m1), m2)
    ensures LegalRun(c, w, [m1, m2]) && Run(c, w, [m1, m2]) == Apply(c, Apply(c, w, m1), m2)
    ensures Reachable(c, Apply(c, Apply(c, w, m1), m2))
  {
    hide Apply, Knows, CanMake, Starts;
    var w1 := Apply(c, w, m1);
    var w2 := Apply(c, w1, m2);
    assert [m1, m2][1..] == [m2] && [m2][1..] == [];
    assert LegalRun(c, w2, []);
    assert LegalRun(c, w1, [m2]);
    assert Run(c, w1, [m2]) == Run(c, w2, []) == w2;
    assert LegalRun(c, w, [m1, m2]) && Run(c, w, [m1, m2]) == w2;
  }
}
