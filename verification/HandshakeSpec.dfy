/** Handshake state and its operations as functions on values, written with the whitepaper's key
    schedule. */
module HandshakeSpec {
  import opened Wrappers
  import opened ByteStrings
  import opened Crypto
  import opened Wire
  import opened Noise
  import Session

  const TAI64_BASE: nat := 0x4000_0000_0000_0025
  const NANOS: nat := 1_000_000_000

  datatype Tai64N = Tai64N(secs: u64, nano: u32)

  const ZERO_TIME := Tai64N(0, 0)

  predicate After(a: Tai64N, b: Tai64N) {
    a.secs > b.secs || (a.secs == b.secs && a.nano > b.nano)
  }

  function ParseTimestamp(buf: Bytes): Result<Tai64N> {
    if |buf| != 12 || Values(buf).None? then Err(InvalidTai64nTimestamp)
    else
      var v := Values(buf).value;
      BeBound(v[..8]);
      BeBound(v[8..]);
      Sizes();
      Ok(Tai64N(FromBe(v[..8]), FromBe(v[8..])))
  }

  /** Wall-clock time at the tunnel's start and the monotone clock's reading then, in nanoseconds. */
  datatype TimeStamper = TimeStamper(durationAtStart: nat, instantAtStart: nat)

  function Since(now: nat, earlier: nat): nat {
    if now < earlier then 0 else now - earlier
  }

  function TimeOf(s: TimeStamper, now: nat): Tai64N {
    var stamp := Since(now, s.instantAtStart) + s.durationAtStart;
    Tai64N((stamp / NANOS + TAI64_BASE) % U64_SIZE, stamp % NANOS)
  }

  function EncodeTimestamp(t: Tai64N): (b: Bytes)
    ensures |b| == 12
  {
    Lits(ToBe(t.secs, 8)) + Lits(ToBe(t.nano, 4))
  }

  lemma TimestampRoundTrip(t: Tai64N)
    ensures ParseTimestamp(EncodeTimestamp(t)) == Ok(t)
  {
    var v := ToBe(t.secs, 8) + ToBe(t.nano, 4);
    assert EncodeTimestamp(t) == Lits(v);
    ValuesOfLits(v);
    assert v[..8] == ToBe(t.secs, 8) && v[8..] == ToBe(t.nano, 4);
    Sizes();
    BeRoundTrip(t.secs, 8);
    BeRoundTrip(t.nano, 4);
  }

  datatype Params = Params(staticPrivate: nat, peerStaticPublic: Bytes, presharedKey: Option<Bytes>)

  datatype Slot =
    | NoHandshake
    | InitSent(localIndex: u32, hash: Bytes, chainingKey: Bytes, ephemeralPrivate: nat, timeSent: nat)
    | InitReceived(hash: Bytes, chainingKey: Bytes, peerEphemeral: Bytes, peerIndex: u32)
    | Expired

  datatype Cookies = Cookies(lastMac1: Option<Bytes>, index: u32, writeCookie: Option<Bytes>)

  datatype State = State(
    params: Params,
    nextIndex: u32,
    previous: Slot,
    state: Slot,
    cookies: Cookies,
    lastTimestamp: Tai64N,
    stamper: TimeStamper,
    lastRtt: Option<nat>)

  function New(params: Params, globalIdx: u32, stamper: TimeStamper): State {
    State(params, globalIdx, NoHandshake, NoHandshake, Cookies(None, 0, None), ZERO_TIME, stamper, None)
  }

  function StaticPublic(p: Params): Bytes {
    PublicKey(p.staticPrivate)
  }

  function Zeros(n: nat): (b: Bytes)
    ensures |b| == n
  {
    seq(n, i requires 0 <= i < n => Lit(0))
  }

  function Psk(p: Params): Bytes {
    if p.presharedKey.Some? then p.presharedKey.value else Zeros(32)
  }

  predicate InProgress(s: State) {
    s.state.InitSent? || s.state.InitReceived?
  }

  /** 24 bits of peer index, 8 bits of cyclic session index. */
  function IncIndex(index: u32): u32 {
    index - index % 256 + (index % 256 + 1) % 256
  }

  function SendingMac1Key(p: Params): Bytes {
    Hash(LABEL_MAC1, p.peerStaticPublic)
  }

  function AppendMacs(s: State, localIndex: u32, msg: Bytes): (State, Bytes) {
    var mac1 := Mac16(SendingMac1Key(s.params), msg);
    var mac2 := if s.cookies.writeCookie.Some? then Mac16(s.cookies.writeCookie.value, msg + mac1) else Zeros(16);
    (s.(cookies := Cookies(Some(mac1), localIndex, s.cookies.writeCookie)), msg + mac1 + mac2)
  }

  /** The fields of an initiation and the transcript after it. */
  function InitiationFields(p: Params, localIndex: u32, ephemeral: nat, stamp: Tai64N): (Packet, Transcript) {
    var e := PublicKey(ephemeral);
    var es := StaticKey(p.peerStaticPublic, e, DiffieHellman(ephemeral, p.peerStaticPublic));
    var staticField := SealField(es, StaticPublic(p));
    var ss := TimestampKey(es, staticField, DiffieHellman(p.staticPrivate, p.peerStaticPublic));
    var timeField := SealField(ss, EncodeTimestamp(stamp));
    (HandshakeInit(localIndex, e, staticField, timeField), Absorb(ss.transcript, timeField))
  }

  function FormatInitiation(s: State, dstLen: nat, ephemeral: nat, now: nat): (State, Result<Bytes>) {
    if dstLen < HANDSHAKE_INIT_SZ then (s, Err(DestinationBufferTooSmall))
    else
      var localIndex := IncIndex(s.nextIndex);
      var (packet, t) := InitiationFields(s.params, localIndex, ephemeral, TimeOf(s.stamper, now));
      var s1 := s.(nextIndex := localIndex, previous := s.state,
                   state := InitSent(localIndex, t.h, t.ck, ephemeral, now));
      var (s2, wire) := AppendMacs(s1, localIndex, Encode(packet));
      (s2, Ok(wire))
  }

  /** The key of the response's empty field, as the responder computes it. */
  function ResponderKey(p: Params, init: Slot, ephemeral: nat): Keyed
    requires init.InitReceived?
  {
    EmptyKey(Transcript(init.chainingKey, init.hash), PublicKey(ephemeral),
             DiffieHellman(ephemeral, init.peerEphemeral), DiffieHellman(ephemeral, p.peerStaticPublic), Psk(p))
  }

  function FormatResponse(s: State, dstLen: nat, ephemeral: nat): (State, Result<(Bytes, Session.Session)>)
    requires s.state.InitReceived?
  {
    if dstLen < HANDSHAKE_RESP_SZ then (s, Err(DestinationBufferTooSmall))
    else
      var localIndex := IncIndex(s.nextIndex);
      var k := ResponderKey(s.params, s.state, ephemeral);
      var packet := HandshakeResponse(localIndex, s.state.peerIndex, PublicKey(ephemeral), SealField(k, []));
      var (initiatorSends, initiatorReceives) := TransportKeys(k.transcript.ck);
      var (s1, wire) := AppendMacs(s.(nextIndex := localIndex, state := NoHandshake), localIndex, Encode(packet));
      (s1, Ok((wire, Session.New(localIndex, s.state.peerIndex, initiatorSends, initiatorReceives))))
  }

  /** What the responder learns from an initiation before it looks at its own state. */
  function ReadInitiation(p: Params, packet: Packet): Result<(Tai64N, Transcript)>
    requires packet.HandshakeInit?
  {
    var es := StaticKey(StaticPublic(p), packet.ephemeral, DiffieHellman(p.staticPrivate, packet.ephemeral));
    match OpenField(es, packet.encryptedStatic)
    case None => Err(InvalidAeadTag)
    case Some(peerStatic) =>
      if peerStatic != p.peerStaticPublic then Err(WrongKey)
      else
        var ss := TimestampKey(es, packet.encryptedStatic, DiffieHellman(p.staticPrivate, p.peerStaticPublic));
        match OpenField(ss, packet.encryptedTimestamp)
        case None => Err(InvalidAeadTag)
        case Some(stamp) =>
          match ParseTimestamp(stamp)
          case Err(e) => Err(e)
          case Ok(time) => Ok((time, Absorb(ss.transcript, packet.encryptedTimestamp)))
  }

  function ReceiveInitiation(s: State, packet: Packet, dstLen: nat, ephemeral: nat)
    : (State, Result<(Bytes, Session.Session)>)
    requires packet.HandshakeInit?
  {
    match ReadInitiation(s.params, packet)
    case Err(e) => (s, Err(e))
    case Ok((time, t)) =>
      if !After(time, s.lastTimestamp) then (s, Err(WrongTai64nTimestamp))
      else FormatResponse(
             s.(lastTimestamp := time, previous := s.state,
                state := InitReceived(t.h, t.ck, packet.ephemeral, packet.senderIdx)), dstLen, ephemeral)
  }

  datatype Half = Half(peerIndex: u32, peerStaticPublic: Bytes)

  /** The anonymous parse that finds out which peer is calling. */
  function ParseAnon(staticPrivate: nat, packet: Packet): Result<Half>
    requires packet.HandshakeInit?
  {
    var es := StaticKey(PublicKey(staticPrivate), packet.ephemeral, DiffieHellman(staticPrivate, packet.ephemeral));
    match OpenField(es, packet.encryptedStatic)
    case None => Err(InvalidAeadTag)
    case Some(peerStatic) => Ok(Half(packet.senderIdx, peerStatic))
  }

  predicate Awaits(slot: Slot, index: u32) {
    slot.InitSent? && slot.localIndex == index
  }

  /** The key of the response's empty field, as the initiator of `init` computes it. */
  function ResponseKey(p: Params, init: Slot, ephemeral: Bytes): Keyed
    requires init.InitSent?
  {
    EmptyKey(Transcript(init.chainingKey, init.hash), ephemeral,
             DiffieHellman(init.ephemeralPrivate, ephemeral), DiffieHellman(p.staticPrivate, ephemeral), Psk(p))
  }

  function ReceiveResponse(s: State, packet: Packet, now: nat): (State, Result<Session.Session>)
    requires packet.HandshakeResponse?
  {
    if !Awaits(s.state, packet.receiverIdx) && !Awaits(s.previous, packet.receiverIdx) then (s, Err(UnexpectedPacket))
    else
      var isPrevious := !Awaits(s.state, packet.receiverIdx);
      var init := if isPrevious then s.previous else s.state;
      var k := ResponseKey(s.params, init, packet.ephemeral);
      match OpenField(k, packet.encryptedNothing)
      case None => (s, Err(InvalidAeadTag))
      case Some(_) =>
        var (sending, receiving) := TransportKeys(k.transcript.ck);
        var s1 := s.(lastRtt := Some(Since(now, init.timeSent) / 1_000_000 % U32_SIZE));
        (if isPrevious then s1.(previous := NoHandshake) else s1.(state := NoHandshake),
         Ok(Session.New(init.localIndex, packet.senderIdx, receiving, sending)))
  }

  function CookieKey(peerStaticPublic: Bytes): Bytes {
    Hash(LABEL_COOKIE, peerStaticPublic)
  }

  function ReceiveCookieReply(s: State, packet: Packet): (State, Result<Unit>)
    requires packet.PacketCookieReply?
  {
    if s.cookies.lastMac1.None? then (s, Err(UnexpectedPacket))
    else if packet.receiverIdx != s.cookies.index then (s, Err(WrongIndex))
    else match XOpen(CookieKey(s.params.peerStaticPublic), packet.nonce, packet.encryptedCookie,
                     s.cookies.lastMac1.value)
      case None => (s, Err(InvalidAeadTag))
      case Some(cookie) =>
        if |cookie| != 16 then (s, Err(InvalidPacket))
        else (s.(cookies := s.cookies.(writeCookie := Some(cookie))), Ok(Unit))
  }

  function SetExpired(s: State): State {
    s.(previous := Expired, state := Expired)
  }

  function ClearCookie(s: State): State {
    s.(cookies := s.cookies.(writeCookie := None))
  }

  function SetStaticPrivate(s: State, staticPrivate: nat): State {
    s.(params := s.params.(staticPrivate := staticPrivate))
  }
}
