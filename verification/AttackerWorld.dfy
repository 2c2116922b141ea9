/** The world of two tunnels and the attacker, and what each of its moves keeps. */
module AttackerWorld {
  import opened Wrappers
  import opened ByteStrings
  import opened Crypto
  import opened Wire
  import opened Noise
  import S = Session
  import H = HandshakeSpec
  import HP = HandshakeProofs
  import R = RateLimiterSpec
  import opened TunnelSpec
  import opened AttackerKnowledge

  // What a tunnel keeps

  /** An initiation under way was made by this peer. */
  ghost predicate SlotOk(p: H.Params, slot: H.Slot, log: set<Made>) {
    slot.InitSent? ==>
      exists stamp :: && MadeInitiation(p, slot.localIndex, slot.ephemeralPrivate, stamp) in log
                      && slot == SentSlot(p, slot.localIndex, slot.ephemeralPrivate, stamp, slot.timeSent)
  }

  function SentSlot(p: H.Params, index: u32, ephemeral: nat, stamp: H.Tai64N, now: nat): H.Slot {
    var t := H.InitiationFields(p, index, ephemeral, stamp).1;
    H.InitSent(index, t.h, t.ck, ephemeral, now)
  }

  ghost predicate SessionOk(p: H.Params, s: S.Session) {
    exists l :: LinkOk(p, l) && s.sendingKey == SendKey(p, l) && s.receivingKey == ReceiveKey(p, l)
  }

  ghost predicate RingOk(p: H.Params, sessions: Ring) {
    forall k | 0 <= k < 8 && sessions[k].Some? :: SessionOk(p, sessions[k].value)
  }

  /** The packet was handed in, or is an empty one, which a tunnel sends by itself. */
  predicate Handed(p: H.Params, src: Bytes, log: set<Made>) {
    src == [] || Given(p, src) in log
  }

  ghost predicate QueueOk(p: H.Params, queue: seq<Bytes>, log: set<Made>) {
    forall k | 0 <= k < |queue| :: Handed(p, queue[k], log)
  }

  ghost predicate HandshakeOk(p: H.Params, h: H.State, log: set<Made>) {
    h.params == p && SlotOk(p, h.state, log) && SlotOk(p, h.previous, log)
  }

  ghost predicate PartyOk(p: H.Params, t: Tunnel, log: set<Made>) {
    HandshakeOk(p, t.handshake, log) && RingOk(p, t.sessions) && QueueOk(p, t.queue, log)
  }

  /** The peers' own records: data was sealed for a session, and handed in before unless it is empty. */
  ghost predicate MadeOk(c: Ends, log: set<Made>, m: Made) {
    && (m.p == c.a || m.p == c.b)
    && match m
       case Given(_, _) => true
       case MadeInitiation(_, _, _, _) => true
       case MadeResponse(p, init, _) => init.HandshakeInit? && WellSized(init) && H.ReadInitiation(p, init).Ok?
       case MadeData(p, key, _, plain) =>
         && Handed(p, plain, log)
         && exists l :: LinkOk(p, l) && key == SendKey(p, l)
  }

  ghost predicate LogOk(c: Ends, log: set<Made>) {
    forall m | m in log :: MadeOk(c, log, m)
  }

  /** What goes on the network may be seen. */
  ghost predicate Publishes(c: Ends, log: set<Made>, r: TunnResult) {
    r.WriteToNetwork? ==> AllFine(c, log, r.wire)
  }

  /** The message in a result, as it goes into the log: made by p from this input, in answer to q,
      carrying src. */
  function MadeBy(p: H.Params, r: TunnResult, stamper: H.TimeStamper, i: Input, q: Packet, src: Bytes): set<Made> {
    if r.WriteToNetwork? && ParseIncomingPacket(r.wire).Ok? then
      match ParseIncomingPacket(r.wire).value
      case HandshakeInit(index, _, _, _) => {MadeInitiation(p, index, i.ephemeral, H.TimeOf(stamper, i.sent))}
      case HandshakeResponse(_, _, _, _) => {MadeResponse(p, q, i.ephemeral)}
      case PacketCookieReply(_, _, _) => {}
      case PacketData(_, counter, sealed) => {MadeData(p, SealedUnder(sealed), counter, src)}
    else {}
  }

  function SealedUnder(cipher: Bytes): Bytes {
    if cipher != [] && cipher[0].Out? && cipher[0].term.Sealed? then cipher[0].term.key else []
  }

  /** What a call adds to the log. */
  function Makes(p: H.Params, t: Tunnel, e: Event): set<Made> {
    var src := if e.Send? then e.src else if e.Flush? && t.queue != [] then t.queue[0] else [];
    var q := if e.Receive? then e.packet else PacketData(0, 0, []);
    (if e.Send? then {Given(p, e.src)} else {}) + MadeBy(p, Step(t, e).1, t.handshake.stamper, e.input, q, src)
  }

  /** A peer after a call, with the log the call extends. */
  ghost predicate Did(c: Ends, p: H.Params, u: Tunnel, r: TunnResult, log: set<Made>, made: set<Made>) {
    PartyOk(p, u, log + made) && LogOk(c, log + made) && Publishes(c, log + made, r)
  }

  lemma SlotStays(p: H.Params, slot: H.Slot, log: set<Made>, log': set<Made>)
    requires SlotOk(p, slot, log) && log <= log'
    ensures SlotOk(p, slot, log')
  {
    hide SentSlot;
    if slot.InitSent? {
      var stamp :| && MadeInitiation(p, slot.localIndex, slot.ephemeralPrivate, stamp) in log
                   && slot == SentSlot(p, slot.localIndex, slot.ephemeralPrivate, stamp, slot.timeSent);
      assert MadeInitiation(p, slot.localIndex, slot.ephemeralPrivate, stamp) in log';
    }
  }

  lemma PartyStays(p: H.Params, t: Tunnel, log: set<Made>, log': set<Made>)
    requires PartyOk(p, t, log) && log <= log'
    ensures PartyOk(p, t, log')
  {
    SlotStays(p, t.handshake.state, log, log');
    SlotStays(p, t.handshake.previous, log, log');
    hide SlotOk, RingOk;
  }

  lemma OneMoreMade(c: Ends, log: set<Made>, m: Made)
    requires LogOk(c, log) && MadeOk(c, log + {m}, m)
    ensures LogOk(c, log + {m})
  {
    forall n | n in log + {m} ensures MadeOk(c, log + {m}, n) {
      if n in log {
        assert MadeOk(c, log, n);
      }
    }
  }

  lemma NothingMade(c: Ends, p: H.Params, t: Tunnel, r: TunnResult, log: set<Made>)
    requires PartyOk(p, t, log) && LogOk(c, log) && !r.WriteToNetwork?
    ensures Did(c, p, t, r, log, {})
  {
    assert log + {} == log;
    hide PartyOk, LogOk;
  }

  // Messages may be seen

  lemma LitsAreFine(c: Ends, log: set<Made>, s: seq<u8>)
    ensures AllFine(c, log, Lits(s))
  {
  }

  lemma SealIsFine(c: Ends, log: set<Made>, key: Bytes, nonce: Bytes, plain: Bytes, aad: Bytes)
    requires AllComputable(c, key) ==> AllFine(c, log, plain)
    requires Logged(log, key, nonce, plain, aad)
    ensures AllFine(c, log, Seal(key, nonce, plain, aad))
  {
    hide Logged;
  }

  /** Macs show nothing. */
  lemma MacsAreFine(c: Ends, log: set<Made>, s: H.State, index: u32, msg: Bytes)
    requires AllFine(c, log, msg)
    ensures AllFine(c, log, H.AppendMacs(s, index, msg).1)
  {
    forall key, data ensures AllFine(c, log, Mac16(key, data)) {
      OutputIsFine(c, log, MacOf(key, data, 16), 16);
    }
    hide Mac16, Fine;
    ZerosAreFine(c, log);
  }

  lemma OutputIsFine(c: Ends, log: set<Made>, t: Term, n: nat)
    requires t.MacOf? || t.Public?
    ensures AllFine(c, log, Output(t, n))
  {
  }

  lemma ZerosAreFine(c: Ends, log: set<Made>)
    ensures AllFine(c, log, H.Zeros(16))
  {
  }

  lemma EncodedIsFine(c: Ends, log: set<Made>, p: Packet)
    requires match p
             case HandshakeInit(_, e, s, t) => AllFine(c, log, e) && AllFine(c, log, s) && AllFine(c, log, t)
             case HandshakeResponse(_, _, e, n) => AllFine(c, log, e) && AllFine(c, log, n)
             case PacketCookieReply(_, n, x) => AllFine(c, log, n) && AllFine(c, log, x)
             case PacketData(_, _, d) => AllFine(c, log, d)
    ensures AllFine(c, log, Encode(p))
  {
    forall n: u32 ensures AllFine(c, log, Le32(n)) {
      LitsAreFine(c, log, ToLe(n, 4));
    }
    forall n: u64 ensures AllFine(c, log, Le64(n)) {
      LitsAreFine(c, log, ToLe(n, 8));
    }
    hide Fine, Le32, Le64;
  }

  // One call

  lemma InitiationIsFine(c: Ends, log: set<Made>, p: H.Params, index: u32, ephemeral: nat, stamp: H.Tai64N)
    requires MadeInitiation(p, index, ephemeral, stamp) in log
    ensures AllFine(c, log, Encode(H.InitiationFields(p, index, ephemeral, stamp).0))
  {
    var m := MadeInitiation(p, index, ephemeral, stamp);
    var es := StaticKey(p.peerStaticPublic, PublicKey(ephemeral), DiffieHellman(ephemeral, p.peerStaticPublic));
    var field := SealField(es, H.StaticPublic(p));
    var ss := TimestampKey(es, field, DiffieHellman(p.staticPrivate, p.peerStaticPublic));
    assert Seals(m, es.key, ZERO_NONCE, H.StaticPublic(p), es.transcript.h);
    assert Seals(m, ss.key, ZERO_NONCE, H.EncodeTimestamp(stamp), ss.transcript.h);
    OutputIsFine(c, log, Public(ephemeral), KEY_LEN);
    OutputIsFine(c, log, Public(p.staticPrivate), KEY_LEN);
    LitsAreFine(c, log, ToBe(stamp.secs, 8));
    LitsAreFine(c, log, ToBe(stamp.nano, 4));
    hide StaticKey, TimestampKey, DiffieHellman, AllComputable, Encode, Fine, Seals;
    SealIsFine(c, log, es.key, ZERO_NONCE, H.StaticPublic(p), es.transcript.h);
    SealIsFine(c, log, ss.key, ZERO_NONCE, H.EncodeTimestamp(stamp), ss.transcript.h);
    EncodedIsFine(c, log, H.InitiationFields(p, index, ephemeral, stamp).0);
  }

  lemma FormatsInitiation(c: Ends, p: H.Params, h: H.State, i: Input, log: set<Made>)
    requires HandshakeOk(p, h, log) && LogOk(c, log) && (p == c.a || p == c.b) && i.dstLen >= HANDSHAKE_INIT_SZ
    ensures var index := H.IncIndex(h.nextIndex);
            var m := MadeInitiation(p, index, i.ephemeral, H.TimeOf(h.stamper, i.sent));
            var (h', r) := H.FormatInitiation(h, i.dstLen, i.ephemeral, i.sent);
            && r.Ok? && ParseIncomingPacket(r.value).Ok? && ParseIncomingPacket(r.value).value.HandshakeInit?
            && ParseIncomingPacket(r.value).value.senderIdx == index
            && HandshakeOk(p, h', log + {m}) && LogOk(c, log + {m}) && AllFine(c, log + {m}, r.value)
  {
    var index := H.IncIndex(h.nextIndex);
    var stamp := H.TimeOf(h.stamper, i.sent);
    var m := MadeInitiation(p, index, i.ephemeral, stamp);
    HP.InitiationParses(h, i.dstLen, i.ephemeral, i.sent);
    HP.InitiationSizes(p, index, i.ephemeral, stamp);
    OneMoreMade(c, log, m);
    InitiationIsFine(c, log + {m}, p, index, i.ephemeral, stamp);
    SlotStays(p, h.state, log, log + {m});
    var (packet, t) := H.InitiationFields(p, index, i.ephemeral, stamp);
    var s1 := h.(nextIndex := index, previous := h.state, state := H.InitSent(index, t.h, t.ck, i.ephemeral, i.sent));
    hide ParseIncomingPacket, H.InitiationFields, LogOk, Encode, H.AppendMacs, AllFine, SlotOk;
    MacsAreFine(c, log + {m}, s1, index, Encode(packet));
    assert SlotOk(p, SentSlot(p, index, i.ephemeral, stamp, i.sent), log + {m}) by {
      SentIsOk(p, index, i.ephemeral, stamp, i.sent, log + {m});
    }
  }

  lemma SentIsOk(p: H.Params, index: u32, ephemeral: nat, stamp: H.Tai64N, now: nat, log: set<Made>)
    requires MadeInitiation(p, index, ephemeral, stamp) in log
    ensures SlotOk(p, SentSlot(p, index, ephemeral, stamp, now), log)
  {
    hide H.InitiationFields;
  }

  lemma InitiationDid(c: Ends, p: H.Params, t: Tunnel, force: bool, i: Input, q: Packet, src: Bytes, log: set<Made>)
    requires PartyOk(p, t, log) && LogOk(c, log) && (p == c.a || p == c.b)
    ensures var (u, r) := FormatInitiation(t, force, i);
            Did(c, p, u, r, log, MadeBy(p, r, t.handshake.stamper, i, q, src))
  {
    hide HandshakeOk, RingOk, LogOk, AllFine, ParseIncomingPacket;
    var (u, r) := FormatInitiation(t, force, i);
    if r.WriteToNetwork? {
      FormatsInitiation(c, p, t.handshake, i, log);
      var made := MadeBy(p, r, t.handshake.stamper, i, q, src);
      assert QueueOk(p, t.queue, log + made);
    } else {
      hide H.FormatInitiation;
      NothingMade(c, p, u, r, log);
    }
  }

  lemma DataIsMade(p: H.Params, s: S.Session, stamper: H.TimeStamper, i: Input, q: Packet, src: Bytes)
    ensures MadeBy(p, WriteToNetwork(S.FormatPacketData(s, src).1), stamper, i, q, src)
         == {MadeData(p, s.sendingKey, s.sendCounter, src)}
  {
    var sealed := Seal(s.sendingKey, CounterNonce(s.sendCounter), src, []);
    var packet := PacketData(s.peerIndex, s.sendCounter, sealed);
    assert SealedUnder(sealed) == s.sendingKey by {
      assert sealed[0] == Out(Sealed(s.sendingKey, CounterNonce(s.sendCounter), src, []), 0);
    }
    hide ParseIncomingPacket, Encode, Seal, CounterNonce, SealedUnder;
    assert Encode(packet) + [] == Encode(packet);
    ParseEncoded(packet, []);
  }

  lemma DataIsFine(c: Ends, p: H.Params, s: S.Session, src: Bytes, log: set<Made>)
    requires MadeData(p, s.sendingKey, s.sendCounter, src) in log && !AllComputable(c, s.sendingKey)
    ensures AllFine(c, log, S.FormatPacketData(s, src).1)
  {
    assert Seals(MadeData(p, s.sendingKey, s.sendCounter, src), s.sendingKey, CounterNonce(s.sendCounter), src, []);
    hide Encode, Seal, CounterNonce, AllFine, AllComputable, Seals;
    SealIsFine(c, log, s.sendingKey, CounterNonce(s.sendCounter), src, []);
    EncodedIsFine(c, log, PacketData(s.peerIndex, s.sendCounter,
                                     Seal(s.sendingKey, CounterNonce(s.sendCounter), src, [])));
  }

  /** Sending over a session. */
  lemma DataDid(c: Ends, p: H.Params, s: S.Session, stamper: H.TimeStamper, i: Input, q: Packet, src: Bytes,
                log: set<Made>)
    requires SessionOk(p, s) && LogOk(c, log) && (p == c.a || p == c.b) && Handed(p, src, log) && EndsOk(c)
    ensures var (s', wire) := S.FormatPacketData(s, src);
            var made := MadeBy(p, WriteToNetwork(wire), stamper, i, q, src);
            && SessionOk(p, s') && LogOk(c, log + made) && AllFine(c, log + made, wire)
  {
    hide LogOk, SendKey, ReceiveKey, LinkOk, Seal, CounterNonce, Encode, AllFine, AllComputable, MadeBy, EndsOk;
    var m := MadeData(p, s.sendingKey, s.sendCounter, src);
    DataIsMade(p, s, stamper, i, q, src);
    var l :| LinkOk(p, l) && s.sendingKey == SendKey(p, l) && s.receivingKey == ReceiveKey(p, l);
    LinkSecret(c, p, l);
    var s' := S.FormatPacketData(s, src).0;
    assert s'.sendingKey == SendKey(p, l) && s'.receivingKey == ReceiveKey(p, l);
    assert MadeOk(c, log + {m}, m);
    OneMoreMade(c, log, m);
    DataIsFine(c, p, s, src, log + {m});
  }

  lemma RingWith(p: H.Params, sessions: Ring, k: nat, s: S.Session)
    requires RingOk(p, sessions) && SessionOk(p, s) && k < 8
    ensures RingOk(p, sessions[k := Some(s)])
  {
    hide SessionOk;
  }

  lemma EncapsulateDid(c: Ends, p: H.Params, t: Tunnel, src: Bytes, i: Input, q: Packet, log: set<Made>)
    requires PartyOk(p, t, log) && LogOk(c, log) && (p == c.a || p == c.b) && Handed(p, src, log) && EndsOk(c)
    ensures var (u, r) := Encapsulate(t, src, i);
            Did(c, p, u, r, log, MadeBy(p, r, t.handshake.stamper, i, q, src))
  {
    hide FormatInitiation, S.FormatPacketData, LogOk, SessionOk, HandshakeOk, MadeBy, EndsOk, AllFine;
    if CurrentSession(t).Some? {
      var s := CurrentSession(t).value;
      assert SessionOk(p, s);
      DataDid(c, p, s, t.handshake.stamper, i, q, src, log);
      RingWith(p, t.sessions, t.current % N_SESSIONS, S.FormatPacketData(s, src).0);
      var (u, r) := Encapsulate(t, src, i);
      PartyStays(p, t, log, log + MadeBy(p, r, t.handshake.stamper, i, q, src));
      assert u.handshake == t.handshake && u.queue == t.queue;
    } else {
      InitiationDid(c, p, QueuePacket(t, src), false, i, q, src, log);
    }
  }

  lemma FlushDid(c: Ends, p: H.Params, t: Tunnel, i: Input, q: Packet, log: set<Made>)
    requires PartyOk(p, t, log) && LogOk(c, log) && (p == c.a || p == c.b) && EndsOk(c)
    ensures var (u, r) := SendQueuedPacket(t, i);
            var src := if t.queue != [] then t.queue[0] else [];
            Did(c, p, u, r, log, MadeBy(p, r, t.handshake.stamper, i, q, src))
  {
    hide Encapsulate, LogOk, HandshakeOk, RingOk, AllFine, EndsOk;
    if t.queue == [] {
      NothingMade(c, p, t, Done, log);
    } else {
      var rest := t.(queue := t.queue[1..]);
      assert PartyOk(p, rest, log);
      EncapsulateDid(c, p, rest, t.queue[0], i, q, log);
    }
  }

  /** Answering an initiation. */
  lemma AnswersInitiation(c: Ends, p: H.Params, h: H.State, packet: Packet, i: Input, log: set<Made>)
    requires packet.HandshakeInit? && WellSized(packet) && EndsOk(c)
    requires HandshakeOk(p, h, log) && LogOk(c, log) && (p == c.a || p == c.b)
    ensures var (h', r) := H.ReceiveInitiation(h, packet, i.dstLen, i.ephemeral);
            && HandshakeOk(p, h', log)
            && (r.Ok? ==>
                  var m := MadeResponse(p, packet, i.ephemeral);
                  && ParseIncomingPacket(r.value.0).Ok? && ParseIncomingPacket(r.value.0).value.HandshakeResponse?
                  && SessionOk(p, r.value.1) && LogOk(c, log + {m}) && AllFine(c, log + {m}, r.value.0))
  {
    hide H.ReadInitiation, H.After, LogOk, AllFine, Seals, Encode, ParseIncomingPacket, H.AppendMacs, LinkKey,
         AllComputable, Fine;
    var (h', r) := H.ReceiveInitiation(h, packet, i.dstLen, i.ephemeral);
    if r.Ok? {
      var m := MadeResponse(p, packet, i.ephemeral);
      var (time, t) := H.ReadInitiation(p, packet).value;
      var s := h.(lastTimestamp := time, previous := h.state,
                  state := H.InitReceived(t.h, t.ck, packet.ephemeral, packet.senderIdx));
      HP.ResponseParses(s, i.dstLen, i.ephemeral);
      OneMoreMade(c, log, m);
      AnswerLink(p, s, packet, i.ephemeral);
      var l := Answered(packet, i.ephemeral);
      assert LinkOk(p, l) && r.value.1.sendingKey == SendKey(p, l) && r.value.1.receivingKey == ReceiveKey(p, l);
      ResponseIsFine(c, log + {m}, p, packet, i.ephemeral, H.IncIndex(h.nextIndex));
      MacsAreFine(c, log + {m}, s.(nextIndex := H.IncIndex(h.nextIndex), state := H.NoHandshake),
                  H.IncIndex(h.nextIndex),
                  Encode(ResponseTo(p, packet, i.ephemeral, H.IncIndex(h.nextIndex))));
    }
  }

  function ResponseTo(p: H.Params, init: Packet, ephemeral: nat, index: u32): Packet
    requires LinkOk(p, Answered(init, ephemeral))
  {
    HandshakeResponse(index, init.senderIdx, PublicKey(ephemeral), SealField(LinkKey(p, Answered(init, ephemeral)), []))
  }

  lemma AnswerLink(p: H.Params, s: H.State, init: Packet, ephemeral: nat)
    requires LinkOk(p, Answered(init, ephemeral)) && s.params == p
    requires var t := H.ReadInitiation(p, init).value.1;
             s.state == H.InitReceived(t.h, t.ck, init.ephemeral, init.senderIdx)
    ensures H.ResponderKey(p, s.state, ephemeral) == LinkKey(p, Answered(init, ephemeral))
  {
    hide H.ReadInitiation, EmptyKey;
  }

  lemma ResponseIsFine(c: Ends, log: set<Made>, p: H.Params, init: Packet, ephemeral: nat, index: u32)
    requires LinkOk(p, Answered(init, ephemeral)) && MadeResponse(p, init, ephemeral) in log
    ensures AllFine(c, log, Encode(ResponseTo(p, init, ephemeral, index)))
  {
    var k := LinkKey(p, Answered(init, ephemeral));
    assert Seals(MadeResponse(p, init, ephemeral), k.key, ZERO_NONCE, [], k.transcript.h);
    OutputIsFine(c, log, Public(ephemeral), KEY_LEN);
    hide LinkKey, Encode, Fine, Seals, AllComputable, LinkOk;
    SealIsFine(c, log, k.key, ZERO_NONCE, [], k.transcript.h);
    EncodedIsFine(c, log, ResponseTo(p, init, ephemeral, index));
  }

  lemma HandshakeInitDid(c: Ends, p: H.Params, t: Tunnel, packet: Packet, i: Input, log: set<Made>)
    requires packet.HandshakeInit? && WellSized(packet) && EndsOk(c)
    requires PartyOk(p, t, log) && LogOk(c, log) && (p == c.a || p == c.b)
    ensures var (u, r) := HandleHandshakeInit(t, packet, i);
            Did(c, p, u, r, log, MadeBy(p, r, t.handshake.stamper, i, packet, []))
  {
    hide H.ReceiveInitiation, LogOk, AllFine, ParseIncomingPacket, SessionOk, EndsOk, SlotOk, WellSized;
    AnswersInitiation(c, p, t.handshake, packet, i, log);
    var (u, r) := HandleHandshakeInit(t, packet, i);
    if r.WriteToNetwork? {
      var s := H.ReceiveInitiation(t.handshake, packet, i.dstLen, i.ephemeral).1.value.1;
      RingWith(p, t.sessions, s.localIndex % N_SESSIONS, s);
      assert PartyOk(p, u, log);
      PartyStays(p, u, log, log + {MadeResponse(p, packet, i.ephemeral)});
    } else {
      NothingMade(c, p, u, r, log);
    }
  }

  lemma SessionFromResponse(p: H.Params, h: H.State, packet: Packet, now: nat, log: set<Made>)
    requires packet.HandshakeResponse? && HandshakeOk(p, h, log)
    ensures var (h', r) := H.ReceiveResponse(h, packet, now);
            HandshakeOk(p, h', log) && (r.Ok? ==> SessionOk(p, r.value))
  {
    hide TransportKeys, EmptyKey, OpenField, H.InitiationFields;
    var (h', r) := H.ReceiveResponse(h, packet, now);
    if r.Ok? {
      var slot := if H.Awaits(h.state, packet.receiverIdx) then h.state else h.previous;
      var stamp :| && MadeInitiation(p, slot.localIndex, slot.ephemeralPrivate, stamp) in log
                   && slot == SentSlot(p, slot.localIndex, slot.ephemeralPrivate, stamp, slot.timeSent);
      var l := Initiated(slot.localIndex, slot.ephemeralPrivate, stamp, packet.ephemeral);
      assert LinkOk(p, l) && H.ResponseKey(p, slot, packet.ephemeral) == LinkKey(p, l);
      assert r.value.sendingKey == SendKey(p, l) && r.value.receivingKey == ReceiveKey(p, l);
    }
  }

  lemma HandshakeResponseDid(c: Ends, p: H.Params, t: Tunnel, packet: Packet, i: Input, log: set<Made>)
    requires packet.HandshakeResponse? && EndsOk(c)
    requires PartyOk(p, t, log) && LogOk(c, log) && (p == c.a || p == c.b)
    ensures var (u, r) := HandleHandshakeResponse(t, packet, i);
            Did(c, p, u, r, log, MadeBy(p, r, t.handshake.stamper, i, packet, []))
  {
    hide H.ReceiveResponse, LogOk, AllFine, SessionOk, EndsOk, SlotOk, MadeBy, S.FormatPacketData;
    SessionFromResponse(p, t.handshake, packet, i.later, log);
    var (u, r) := HandleHandshakeResponse(t, packet, i);
    var made := MadeBy(p, r, t.handshake.stamper, i, packet, []);
    if r.WriteToNetwork? {
      var s := H.ReceiveResponse(t.handshake, packet, i.later).1.value;
      DataDid(c, p, s, t.handshake.stamper, i, packet, [], log);
      RingWith(p, t.sessions, s.localIndex % N_SESSIONS, S.FormatPacketData(s, []).0);
      assert PartyOk(p, u, log);
      PartyStays(p, u, log, log + made);
    } else {
      NothingMade(c, p, u, r, log);
      assert made == {} by { NoWireNothingMade(p, r, t.handshake.stamper, i, packet, []); }
    }
  }

  lemma NoWireNothingMade(p: H.Params, r: TunnResult, stamper: H.TimeStamper, i: Input, q: Packet, src: Bytes)
    requires !r.WriteToNetwork?
    ensures MadeBy(p, r, stamper, i, q, src) == {}
  {
  }

  lemma CookieReplyDid(c: Ends, p: H.Params, t: Tunnel, packet: Packet, i: Input, log: set<Made>)
    requires packet.PacketCookieReply? && PartyOk(p, t, log) && LogOk(c, log)
    ensures var (u, r) := HandleCookieReply(t, packet);
            Did(c, p, u, r, log, MadeBy(p, r, t.handshake.stamper, i, packet, []))
  {
    hide XOpen, LogOk, SlotOk, RingOk;
    var (u, r) := HandleCookieReply(t, packet);
    NothingMade(c, p, u, r, log);
  }

  lemma DataReceivedDid(c: Ends, p: H.Params, t: Tunnel, packet: Packet, i: Input, log: set<Made>)
    requires packet.PacketData? && PartyOk(p, t, log) && LogOk(c, log)
    ensures var (u, r) := HandleData(t, packet);
            Did(c, p, u, r, log, MadeBy(p, r, t.handshake.stamper, i, packet, []))
  {
    hide S.ReceivePacketData, LogOk, HandshakeOk, IpHeader, SendKey, ReceiveKey, LinkOk;
    var (u, r) := HandleData(t, packet);
    var slot := packet.receiverIdx % N_SESSIONS;
    if t.sessions[slot].Some? {
      var s := t.sessions[slot].value;
      ReceivingKeepsKeys(s, packet);
      SameKeys(p, s, S.ReceivePacketData(s, packet).0);
      RingWith(p, t.sessions, slot, S.ReceivePacketData(s, packet).0);
    }
    NothingMade(c, p, u, r, log);
  }

  lemma ReceivingKeepsKeys(s: S.Session, packet: Packet)
    requires packet.PacketData?
    ensures var s' := S.ReceivePacketData(s, packet).0;
            s'.sendingKey == s.sendingKey && s'.receivingKey == s.receivingKey
  {
  }

  lemma SameKeys(p: H.Params, s: S.Session, s': S.Session)
    requires SessionOk(p, s) && s'.sendingKey == s.sendingKey && s'.receivingKey == s.receivingKey
    ensures SessionOk(p, s')
  {
    hide LinkOk, SendKey, ReceiveKey;
  }

  lemma UpdateEstablishedDid(c: Ends, p: H.Params, t: Tunnel, i: Input, q: Packet, log: set<Made>)
    requires PartyOk(p, t, log) && LogOk(c, log) && (p == c.a || p == c.b) && EndsOk(c)
    ensures var (u, r) := UpdateEstablished(t, i);
            Did(c, p, u, r, log, MadeBy(p, r, t.handshake.stamper, i, q, []))
  {
    hide FormatInitiation, Encapsulate, RekeyDue, SilenceDue, KeepaliveDue, PersistentKeepaliveDue, LogOk, HandshakeOk,
         RingOk,
         QueueOk, EndsOk, Did;
    var t1 := if SilenceDue(t.timers) then t.(timers := t.timers.(wantHandshake := false)) else t;
    var t2 := if KeepaliveDue(t.timers) then t1.(timers := t1.timers.(wantKeepalive := false)) else t1;
    var t3 := if PersistentKeepaliveDue(t.timers) then Tick(t2, TimePersistentKeepalive) else t2;
    InitiationDid(c, p, t1, true, i, q, [], log);
    EncapsulateDid(c, p, t3, [], i, q, log);
    NothingMade(c, p, t3, Done, log);
  }

  lemma BeginUpdateKeeps(p: H.Params, t: Tunnel, i: Input, log: set<Made>)
    requires PartyOk(p, t, log)
    ensures PartyOk(p, DropOldCookie(BeginUpdate(t, i)), log)
    ensures PartyOk(p, ExpireConnection(DropOldCookie(BeginUpdate(t, i)), i.later).0, log)
    ensures DropOldCookie(BeginUpdate(t, i)).handshake.stamper == t.handshake.stamper
  {
    hide SlotOk, SessionOk;
    assert SlotOk(p, H.Expired, log) by {
      ExpiredIsOk(p, log);
    }
  }

  lemma ExpiredIsOk(p: H.Params, log: set<Made>)
    ensures SlotOk(p, H.Expired, log)
  {
  }

  lemma UpdateDid(c: Ends, p: H.Params, t: Tunnel, i: Input, q: Packet, log: set<Made>)
    requires PartyOk(p, t, log) && LogOk(c, log) && (p == c.a || p == c.b) && EndsOk(c)
    ensures var (u, r) := UpdateTimers(t, i);
            Did(c, p, u, r, log, MadeBy(p, r, t.handshake.stamper, i, q, []))
  {
    hide BeginUpdate, DropOldCookie, ExpireConnection, FormatInitiation, UpdateEstablished, LogOk, PartyOk, EndsOk, Did,
         MadeBy;
    BeginUpdateKeeps(p, t, i, log);
    BeginKeeps(p, t, i, log);
    forall e: TunnResult, tr: H.TimeStamper | !e.WriteToNetwork? ensures MadeBy(p, e, tr, i, q, []) == {} {
      NoWireNothingMade(p, e, tr, i, q, []);
    }
    var t2 := DropOldCookie(BeginUpdate(t, i));
    NothingMade(c, p, BeginUpdate(t, i), Fault(ConnectionExpired), log);
    NothingMade(c, p, ExpireConnection(t2, i.later).0, Fault(ConnectionExpired), log);
    NothingMade(c, p, t2, Done, log);
    InitiationDid(c, p, t2, true, i, q, [], log);
    UpdateEstablishedDid(c, p, t2, i, q, log);
    Expires(t2, i.later);
  }

  lemma Expires(t: Tunnel, later: nat)
    ensures ExpireConnection(t, later).1 == Fault(ConnectionExpired)
  {
  }

  lemma BeginKeeps(p: H.Params, t: Tunnel, i: Input, log: set<Made>)
    requires PartyOk(p, t, log)
    ensures PartyOk(p, BeginUpdate(t, i), log)
  {
    hide HandshakeOk, SessionOk;
  }

  /** Every call but a change of the private key: the peer keeps its records, and what it sends may
      be seen. */
  lemma StepDid(c: Ends, p: H.Params, t: Tunnel, e: Event, log: set<Made>)
    requires PartyOk(p, t, log) && LogOk(c, log) && (p == c.a || p == c.b) && EndsOk(c)
    requires !e.Rekey? && (e.Receive? ==> WellSized(e.packet))
    ensures Did(c, p, Step(t, e).0, Step(t, e).1, log, Makes(p, t, e))
  {
    hide Encapsulate, SendQueuedPacket, UpdateTimers, HandleHandshakeInit, HandleHandshakeResponse, HandleData,
         HandleCookieReply,
         LogOk, PartyOk, EndsOk, MadeBy, WellSized, Did;
    var none := PacketData(0, 0, []);
    var (u, r) := Step(t, e);
    match e
    case Send(src, i) =>
      var given := Given(p, src);
      var log1 := log + {given};
      assert given in log1;
      OneMoreMade(c, log, given) by { GivenIsOk(c, log1, given); }
      PartyStays(p, t, log, log1);
      EncapsulateDid(c, p, t, src, i, none, log1);
      MadeInTwo(c, p, u, r, log, {given}, MadeBy(p, r, t.handshake.stamper, i, none, src));
    case Receive(q, i) =>
      assert Makes(p, t, e) == MadeBy(p, r, t.handshake.stamper, i, q, []);
      match q {
        case HandshakeInit(_, _, _, _) => HandshakeInitDid(c, p, t, q, i, log);
        case HandshakeResponse(_, _, _, _) => HandshakeResponseDid(c, p, t, q, i, log);
        case PacketCookieReply(_, _, _) => CookieReplyDid(c, p, t, q, i, log);
        case PacketData(_, _, _) => DataReceivedDid(c, p, t, q, i, log);
      }
    case Flush(i) =>
      FlushDid(c, p, t, i, none, log);
      assert Makes(p, t, e) == MadeBy(p, r, t.handshake.stamper, i, none, if t.queue != [] then t.queue[0] else []);
    case TimerEvent(i) =>
      UpdateDid(c, p, t, i, none, log);
      assert Makes(p, t, e) == MadeBy(p, r, t.handshake.stamper, i, none, []);
  }

  lemma GivenIsOk(c: Ends, log: set<Made>, m: Made)
    requires m.Given? && (m.p == c.a || m.p == c.b)
    ensures MadeOk(c, log, m)
  {
  }

  lemma MadeInTwo(c: Ends, p: H.Params, u: Tunnel, r: TunnResult, log: set<Made>, first: set<Made>, second: set<Made>)
    requires Did(c, p, u, r, log + first, second)
    ensures Did(c, p, u, r, log, first + second)
  {
    assert log + (first + second) == log + first + second;
    hide PartyOk, LogOk, Publishes;
  }

  // The world

  datatype Side = SideA | SideB

  /** Both tunnels, the bytes the attacker has, and the peers' records. */
  datatype World = World(a: Tunnel, b: Tunnel, known: set<Byte>, log: set<Made>)

  /** An owner calls its tunnel; the attacker delivers a datagram, computes something, or has any
      limiter answer a datagram. */
  datatype Move =
    | Call(side: Side, event: Event)
    | Deliver(side: Side, wire: Bytes, input: Input)
    | Compute(recipe: Recipe)
    | Limit(rl: R.State, addr: R.IpAddr, wire: Bytes, dstLen: nat, now: nat)

  function ParamsOf(c: Ends, side: Side): H.Params {
    if side.SideA? then c.a else c.b
  }

  function TunnelOf(w: World, side: Side): Tunnel {
    if side.SideA? then w.a else w.b
  }

  function Learn(known: set<Byte>, s: Bytes): set<Byte> {
    known + set k | 0 <= k < |s| :: s[k]
  }

  function Sent(r: TunnResult): Bytes {
    if r.WriteToNetwork? then r.wire else []
  }

  function After(c: Ends, w: World, side: Side, e: Event): World {
    var (u, r) := Step(TunnelOf(w, side), e);
    var w1 := if side.SideA? then w.(a := u) else w.(b := u);
    w1.(known := Learn(w.known, Sent(r)), log := w.log + Makes(ParamsOf(c, side), TunnelOf(w, side), e))
  }

  /** A datagram that does not parse is dropped. */
  function Apply(c: Ends, w: World, m: Move): World
    requires m.Limit? ==> R.IsAddr(m.addr)
  {
    match m
    case Call(side, e) => After(c, w, side, e)
    case Deliver(side, wire, i) =>
      (match ParseIncomingPacket(wire)
       case Ok(p) => After(c, w, side, Receive(p, i))
       case Err(_) => w)
    case Compute(r) => w.(known := Learn(w.known, Product(r)))
    case Limit(rl, addr, wire, dstLen, now) =>
      (match R.VerifyPacket(rl, Some(addr), wire, dstLen, now).1
       case Reply(reply) => w.(known := Learn(w.known, reply))
       case _ => w)
  }

  /** The attacker delivers only what it has; the private keys stay what they are. */
  ghost predicate LegalMove(c: Ends, w: World, m: Move) {
    match m
    case Call(_, e) => !e.Receive? && !e.Rekey?
    case Deliver(_, wire, _) => Knows(w.known, wire)
    case Compute(r) => CanMake(c, w.known, r)
    case Limit(_, addr, wire, _, _) => R.IsAddr(addr) && Knows(w.known, wire)
  }

  ghost predicate Inv(c: Ends, w: World) {
    && PartyOk(c.a, w.a, w.log) && PartyOk(c.b, w.b, w.log)
    && LogOk(c, w.log) && KnownOk(c, w.log, w.known)
  }

  lemma LearnKeeps(c: Ends, log: set<Made>, log': set<Made>, known: set<Byte>, s: Bytes)
    requires KnownOk(c, log, known) && log <= log' && AllFine(c, log', s)
    ensures KnownOk(c, log', Learn(known, s))
  {
    forall b | b in Learn(known, s) ensures Fine(c, log', b) {
      if b in known {
        FineStays(c, log, log', b);
      }
    }
  }

  lemma AfterKeepsInv(c: Ends, w: World, side: Side, e: Event)
    requires EndsOk(c) && Inv(c, w) && !e.Rekey? && (e.Receive? ==> WellSized(e.packet))
    ensures Inv(c, After(c, w, side, e))
  {
    hide PartyOk, LogOk, EndsOk, Step, Makes, WellSized, KnownOk, AllFine, Learn;
    var (p, t) := (ParamsOf(c, side), TunnelOf(w, side));
    var log' := w.log + Makes(p, t, e);
    StepDid(c, p, t, e, w.log);
    PartyStays(c.a, w.a, w.log, log');
    PartyStays(c.b, w.b, w.log, log');
    assert AllFine(c, log', []) by { EmptyIsFine(c, log'); }
    LearnKeeps(c, w.log, log', w.known, Sent(Step(t, e).1));
  }

  lemma EmptyIsFine(c: Ends, log: set<Made>)
    ensures AllFine(c, log, [])
  {
  }

  /** A cookie reply shows a nonce and a sealed mac. */
  lemma ReplyIsFine(c: Ends, log: set<Made>, rl: R.State, addr: R.IpAddr, wire: Bytes, dstLen: nat, now: nat)
    requires R.IsAddr(addr) && R.VerifyPacket(rl, Some(addr), wire, dstLen, now).1.Reply?
    ensures AllFine(c, log, R.VerifyPacket(rl, Some(addr), wire, dstLen, now).1.wire)
  {
    var p := ParseIncomingPacket(wire).value;
    var mac1 := R.SplitMacs(wire).1;
    var cookie := R.CurrentCookie(rl, addr, now);
    var nonce := Mac24(rl.nonceKey, Le64(rl.nonceCtr));
    OutputIsFine(c, log, MacOf(rl.nonceKey, Le64(rl.nonceCtr), 24), 24);
    CookieIsFine(c, log, rl, addr, now);
    XSealIsFine(c, log, rl.cookieKey, nonce, cookie, mac1);
    hide Fine, Encode, XSeal, Mac24, R.CurrentCookie, ParseIncomingPacket, Mac16;
    EncodedIsFine(c, log, PacketCookieReply(p.senderIdx, nonce, XSeal(rl.cookieKey, nonce, cookie, mac1)));
  }

  lemma CookieIsFine(c: Ends, log: set<Made>, rl: R.State, addr: R.IpAddr, now: nat)
    requires R.IsAddr(addr)
    ensures AllFine(c, log, R.CurrentCookie(rl, addr, now))
  {
    OutputIsFine(c, log, MacOf(rl.secretKey, Le64(R.Epoch(rl, now)) + Lits(R.AddrBytes(addr)), 16), 16);
    hide Fine, R.Epoch, R.AddrBytes;
  }

  lemma XSealIsFine(c: Ends, log: set<Made>, key: Bytes, nonce: Bytes, plain: Bytes, aad: Bytes)
    requires AllFine(c, log, plain)
    ensures AllFine(c, log, XSeal(key, nonce, plain, aad))
  {
    hide Logged;
  }

  lemma MoveKeepsInv(c: Ends, w: World, m: Move)
    requires EndsOk(c) && Inv(c, w) && LegalMove(c, w, m)
    ensures Inv(c, Apply(c, w, m))
  {
    hide After, PartyOk, LogOk, EndsOk, ParseIncomingPacket, R.VerifyPacket, Product, CanMake, KnownOk, Knows, AllFine,
         Learn;
    match m
    case Call(side, e) => AfterKeepsInv(c, w, side, e);
    case Deliver(side, wire, i) =>
      if ParseIncomingPacket(wire).Ok? {
        ParsedIsEncoded(wire);
        AfterKeepsInv(c, w, side, Receive(ParseIncomingPacket(wire).value, i));
      }
    case Compute(r) =>
      ProductIsFine(c, w.log, w.known, r);
      LearnKeeps(c, w.log, w.log, w.known, Product(r));
    case Limit(rl, addr, wire, dstLen, now) =>
      if R.VerifyPacket(rl, Some(addr), wire, dstLen, now).1.Reply? {
        ReplyIsFine(c, w.log, rl, addr, wire, dstLen, now);
        LearnKeeps(c, w.log, w.log, w.known, R.VerifyPacket(rl, Some(addr), wire, dstLen, now).1.wire);
      }
  }

  // Whole runs

  ghost function Run(c: Ends, w: World, moves: seq<Move>): World
    requires LegalRun(c, w, moves)
    decreases |moves|
  {
    if moves == [] then w else Run(c, Apply(c, w, moves[0]), moves[1..])
  }

  ghost predicate LegalRun(c: Ends, w: World, moves: seq<Move>)
    decreases |moves|
  {
    moves != [] ==> LegalMove(c, w, moves[0]) && LegalRun(c, Apply(c, w, moves[0]), moves[1..])
  }

  /** Both tunnels fresh; the attacker has nothing yet. */
  predicate Starts(c: Ends, w: World) {
    && w.known == {} && w.log == {}
    && w.a.handshake.params == c.a && Fresh(w.a) && w.b.handshake.params == c.b && Fresh(w.b)
  }

  predicate Fresh(t: Tunnel) {
    t.handshake.state.NoHandshake? && t.handshake.previous.NoHandshake? && t.sessions == NO_SESSIONS && t.queue == []
  }

  ghost predicate Reachable(c: Ends, w: World) {
    exists begin, moves :: Starts(c, begin) && LegalRun(c, begin, moves) && w == Run(c, begin, moves)
  }

  lemma {:induction false} RunKeepsInv(c: Ends, w: World, moves: seq<Move>)
    requires EndsOk(c) && Inv(c, w) && LegalRun(c, w, moves)
    ensures Inv(c, Run(c, w, moves))
    decreases |moves|
  {
    if moves != [] {
      hide Inv, LegalMove, Apply, EndsOk;
      MoveKeepsInv(c, w, moves[0]);
      RunKeepsInv(c, Apply(c, w, moves[0]), moves[1..]);
    }
  }

  lemma FreshIsOk(p: H.Params, t: Tunnel)
    requires Fresh(t) && t.handshake.params == p
    ensures PartyOk(p, t, {})
  {
    hide SentSlot, SessionOk, Handed;
  }

  lemma StartIsOk(c: Ends, w: World)
    requires Starts(c, w)
    ensures Inv(c, w)
  {
    FreshIsOk(c.a, w.a);
    FreshIsOk(c.b, w.b);
    hide PartyOk, MadeOk, Fine, Fresh;
  }

  lemma ReachableIsOk(c: Ends, w: World)
    requires EndsOk(c) && Reachable(c, w)
    ensures Inv(c, w)
  {
    hide Starts, LegalRun, Run, EndsOk, Inv;
    var begin, moves :| Starts(c, begin) && LegalRun(c, begin, moves) && w == Run(c, begin, moves);
    StartIsOk(c, begin);
    RunKeepsInv(c, begin, moves);
  }
}
