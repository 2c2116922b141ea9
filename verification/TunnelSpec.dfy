/** The tunnel state machine (whitepaper section 6) as functions on values. Times are nanoseconds. */
module TunnelSpec {
  import opened Wrappers
  import opened ByteStrings
  import opened Crypto
  import opened Wire
  import S = Session
  import H = HandshakeSpec

  const N_SESSIONS: nat := 8
  const MAX_QUEUE_DEPTH: nat := 256

  const SECOND: nat := 1_000_000_000
  const REKEY_AFTER_TIME: nat := 120 * SECOND
  const REJECT_AFTER_TIME: nat := 180 * SECOND
  const REKEY_ATTEMPT_TIME: nat := 90 * SECOND
  const REKEY_TIMEOUT: nat := 5 * SECOND
  const KEEPALIVE_TIMEOUT: nat := 10 * SECOND
  const COOKIE_EXPIRATION_TIME: nat := 120 * SECOND

  datatype TimerName =
    | TimeCurrent
    | TimeSessionEstablished
    | TimeLastHandshakeStarted
    | TimeLastPacketReceived
    | TimeLastPacketSent
    | TimeLastDataPacketReceived
    | TimeLastDataPacketSent
    | TimeCookieReceived
    | TimePersistentKeepalive

  /** One value for each timer name, counted from the start of the tunnel. */
  datatype TimerValues = TimerValues(
    current: nat,
    sessionEstablished: nat,
    handshakeStarted: nat,
    packetReceived: nat,
    packetSent: nat,
    dataReceived: nat,
    dataSent: nat,
    cookieReceived: nat,
    keepalive: nat)

  function AllAt(now: nat): TimerValues {
    TimerValues(now, now, now, now, now, now, now, now, now)
  }

  function Put(v: TimerValues, name: TimerName, time: nat): TimerValues {
    match name
    case TimeCurrent => v.(current := time)
    case TimeSessionEstablished => v.(sessionEstablished := time)
    case TimeLastHandshakeStarted => v.(handshakeStarted := time)
    case TimeLastPacketReceived => v.(packetReceived := time)
    case TimeLastPacketSent => v.(packetSent := time)
    case TimeLastDataPacketReceived => v.(dataReceived := time)
    case TimeLastDataPacketSent => v.(dataSent := time)
    case TimeCookieReceived => v.(cookieReceived := time)
    case TimePersistentKeepalive => v.(keepalive := time)
  }

  type Ring = s: seq<Option<S.Session>> | |s| == 8 witness [None, None, None, None, None, None, None, None]
  type RingTimes = s: seq<nat> | |s| == 8 witness [0, 0, 0, 0, 0, 0, 0, 0]

  const NO_SESSIONS: Ring := [None, None, None, None, None, None, None, None]

  datatype Timers = Timers(
    isInitiator: bool,
    timeStarted: nat,
    values: TimerValues,
    sessionTimers: RingTimes,
    wantKeepalive: bool,
    wantHandshake: bool,
    persistentKeepalive: nat)

  datatype Tunnel = Tunnel(
    handshake: H.State,
    sessions: Ring,
    current: nat,
    queue: seq<Bytes>,
    timers: Timers,
    txBytes: nat,
    rxBytes: nat)

  datatype TunnResult =
    | Done
    | Fault(error: Error)
    | WriteToNetwork(wire: Bytes)
    | WriteToTunnelV4(packet: Bytes, source: Bytes)
    | WriteToTunnelV6(packet: Bytes, source: Bytes)

  /** What one call gets from outside: its readings of the monotone clock at its beginning, in its
      middle and when it stamps an initiation; a fresh ephemeral secret; the output buffer's size. */
  datatype Input = Input(now: nat, later: nat, sent: nat, ephemeral: nat, dstLen: nat)

  function New(params: H.Params, index: nat, stamper: H.TimeStamper, keepalive: Option<nat>, now: nat): Tunnel
    requires index < 0x100_0000
  {
    Tunnel(H.New(params, index * 256, stamper), NO_SESSIONS, 0, [],
           Timers(false, now, AllAt(0), [0, 0, 0, 0, 0, 0, 0, 0], false, false,
                  if keepalive.Some? then keepalive.value else 0), 0, 0)
  }

  function Tick(t: Tunnel, name: TimerName): Tunnel {
    var tm := t.timers;
    var tm1 := match name
               case TimeLastPacketReceived => tm.(wantKeepalive := true, wantHandshake := false)
               case TimeLastPacketSent => tm.(wantHandshake := true, wantKeepalive := false)
               case _ => tm;
    t.(timers := tm1.(values := Put(tm1.values, name, tm1.values.current)))
  }

  function TickSessionEstablished(t: Tunnel, isInitiator: bool, index: nat): Tunnel {
    var t1 := Tick(t, TimeSessionEstablished);
    t1.(timers := t1.timers.(isInitiator := isInitiator,
                             sessionTimers := t1.timers.sessionTimers[index % N_SESSIONS := t1.timers.values.current]))
  }

  /** The timers are not zeroed but set to the current time. */
  function ClearTimers(tm: Timers, now: nat): Timers {
    tm.(values := AllAt(H.Since(now, tm.timeStarted)), wantHandshake := false, wantKeepalive := false)
  }

  function ClearAll(t: Tunnel, now: nat): Tunnel {
    t.(sessions := NO_SESSIONS, queue := [], timers := ClearTimers(t.timers, now))
  }

  function QueuePacket(t: Tunnel, packet: Bytes): Tunnel {
    if |t.queue| < MAX_QUEUE_DEPTH then t.(queue := t.queue + [packet]) else t
  }

  function RequeuePacket(t: Tunnel, packet: Bytes): Tunnel {
    if |t.queue| < MAX_QUEUE_DEPTH then t.(queue := [packet] + t.queue) else t
  }

  function FormatInitiation(t: Tunnel, forceResend: bool, i: Input): (Tunnel, TunnResult) {
    if H.InProgress(t.handshake) && !forceResend then (t, Done)
    else
      var t1 := if t.handshake.state.Expired? then t.(timers := ClearTimers(t.timers, i.now)) else t;
      match H.FormatInitiation(t1.handshake, i.dstLen, i.ephemeral, i.sent)
      case (_, Err(e)) => (t1, Fault(e))
      case (h, Ok(wire)) =>
        var t2 := t1.(handshake := h);
        var t3 := if H.InProgress(t.handshake) then t2 else Tick(t2, TimeLastHandshakeStarted);
        (Tick(t3, TimeLastPacketSent), WriteToNetwork(wire))
  }

  function CurrentSession(t: Tunnel): Option<S.Session> {
    t.sessions[t.current % N_SESSIONS]
  }

  function Encapsulate(t: Tunnel, src: Bytes, i: Input): (Tunnel, TunnResult) {
    match CurrentSession(t)
    case Some(session) =>
      var (s, wire) := S.FormatPacketData(session, src);
      var t1 := Tick(t.(sessions := t.sessions[t.current % N_SESSIONS := Some(s)]), TimeLastPacketSent);
      var t2 := if src != [] then Tick(t1, TimeLastDataPacketSent) else t1;
      (t2.(txBytes := t2.txBytes + |src|), WriteToNetwork(wire))
    case None => FormatInitiation(QueuePacket(t, src), false, i)
  }

  function SetCurrent(t: Tunnel, index: nat): Tunnel {
    if t.current == index then t
    else if CurrentSession(t).None?
            || t.timers.sessionTimers[index % N_SESSIONS] >= t.timers.sessionTimers[t.current % N_SESSIONS]
    then t.(current := index) else t
  }

  function HandleHandshakeInit(t: Tunnel, p: Packet, i: Input): (Tunnel, TunnResult)
    requires p.HandshakeInit?
  {
    match H.ReceiveInitiation(t.handshake, p, i.dstLen, i.ephemeral)
    case (h, Err(e)) => (t.(handshake := h), Fault(e))
    case (h, Ok((wire, session))) =>
      var index := session.localIndex;
      var t1 := t.(handshake := h, sessions := t.sessions[index % N_SESSIONS := Some(session)]);
      var t2 := Tick(Tick(t1, TimeLastPacketReceived), TimeLastPacketSent);
      (TickSessionEstablished(t2, false, index), WriteToNetwork(wire))
  }

  function HandleHandshakeResponse(t: Tunnel, p: Packet, i: Input): (Tunnel, TunnResult)
    requires p.HandshakeResponse?
  {
    match H.ReceiveResponse(t.handshake, p, i.later)
    case (h, Err(e)) => (t.(handshake := h), Fault(e))
    case (h, Ok(session)) =>
      var (s, keepalive) := S.FormatPacketData(session, []);
      var index := session.localIndex;
      var t1 := t.(handshake := h, sessions := t.sessions[index % N_SESSIONS := Some(s)]);
      var t2 := TickSessionEstablished(Tick(t1, TimeLastPacketReceived), true, index);
      (SetCurrent(t2, index), WriteToNetwork(keepalive))
  }

  function HandleCookieReply(t: Tunnel, p: Packet): (Tunnel, TunnResult)
    requires p.PacketCookieReply?
  {
    match H.ReceiveCookieReply(t.handshake, p)
    case (h, Err(e)) => (t.(handshake := h), Fault(e))
    case (h, Ok(_)) => (Tick(Tick(t.(handshake := h), TimeLastPacketReceived), TimeCookieReceived), Done)
  }

  const IPV4_MIN_HEADER_SIZE: nat := 20
  const IPV6_MIN_HEADER_SIZE: nat := 40

  /** The IP version in the first half byte. */
  function Version(packet: Bytes): nat {
    if |packet| > 0 && packet[0].Lit? then packet[0].v / 16 else 0
  }

  function Be16At(packet: Bytes, off: nat): Option<nat>
    requires off + 2 <= |packet|
  {
    match Values(packet[off..off + 2])
    case None => None
    case Some(s) => Some(FromBe(s))
  }

  /** The length the header announces and the source address, for a packet long enough for the
      header of its version. */
  function IpHeader(packet: Bytes): Option<(nat, Bytes)> {
    if Version(packet) == 4 && |packet| >= IPV4_MIN_HEADER_SIZE then
      match Be16At(packet, 2)
      case Some(len) => Some((len, packet[12..16]))
      case None => None
    else if Version(packet) == 6 && |packet| >= IPV6_MIN_HEADER_SIZE then
      match Be16At(packet, 4)
      case Some(len) => Some((len + IPV6_MIN_HEADER_SIZE, packet[8..24]))
      case None => None
    else None
  }

  function ValidatePacket(t: Tunnel, packet: Bytes): (Tunnel, TunnResult) {
    if packet == [] then (t, Done)
    else match IpHeader(packet)
      case None => (t, Fault(InvalidPacket))
      case Some((len, source)) =>
        if len > |packet| then (t, Fault(InvalidPacket))
        else
          var t1 := Tick(t, TimeLastDataPacketReceived);
          (t1.(rxBytes := t1.rxBytes + len),
           if Version(packet) == 4 then WriteToTunnelV4(packet[..len], source)
           else WriteToTunnelV6(packet[..len], source))
  }

  function HandleData(t: Tunnel, p: Packet): (Tunnel, TunnResult)
    requires p.PacketData?
  {
    var slot := p.receiverIdx % N_SESSIONS;
    match t.sessions[slot]
    case None => (t, Fault(NoCurrentSession))
    case Some(session) =>
      match S.ReceivePacketData(session, p)
      case (_, Err(e)) => (t, Fault(e))
      case (s, Ok(packet)) =>
        var t1 := SetCurrent(t.(sessions := t.sessions[slot := Some(s)]), p.receiverIdx);
        ValidatePacket(Tick(t1, TimeLastPacketReceived), packet)
  }

  function HandleVerifiedPacket(t: Tunnel, p: Packet, i: Input): (Tunnel, TunnResult) {
    match p
    case HandshakeInit(_, _, _, _) => HandleHandshakeInit(t, p, i)
    case HandshakeResponse(_, _, _, _) => HandleHandshakeResponse(t, p, i)
    case PacketCookieReply(_, _, _) => HandleCookieReply(t, p)
    case PacketData(_, _, _) => HandleData(t, p)
  }

  function SendQueuedPacket(t: Tunnel, i: Input): (Tunnel, TunnResult) {
    if t.queue == [] then (t, Done)
    else
      match Encapsulate(t.(queue := t.queue[1..]), t.queue[0], i)
      case (t1, Fault(_)) => (RequeuePacket(t1, t.queue[0]), Done)
      case (t1, r) => (t1, r)
  }

  function UpdateSessionTimers(t: Tunnel, now: nat): Tunnel {
    var times := t.timers.sessionTimers;
    t.(sessions := seq(8, i requires 0 <= i < 8 => if now - times[i] > REJECT_AFTER_TIME then None else t.sessions[i]),
       timers := t.timers.(sessionTimers :=
         seq(8, i requires 0 <= i < 8 => if now - times[i] > REJECT_AFTER_TIME then now else times[i])))
  }

  function ExpireConnection(t: Tunnel, later: nat): (Tunnel, TunnResult) {
    (ClearAll(t.(handshake := H.SetExpired(t.handshake)), later), Fault(ConnectionExpired))
  }

  function AwaitsResponse(t: Tunnel): bool {
    t.handshake.state.InitSent?
  }

  /** The reasons to start a new handshake while none is awaited. */
  predicate RekeyDue(tm: Timers) {
    var v := tm.values;
    || (tm.isInitiator && v.sessionEstablished < v.dataSent && v.current - v.sessionEstablished >= REKEY_AFTER_TIME)
    || (tm.isInitiator && v.sessionEstablished < v.dataReceived
        && v.current - v.sessionEstablished >= REJECT_AFTER_TIME - KEEPALIVE_TIMEOUT - REKEY_TIMEOUT)
    || (SilenceDue(tm) && tm.wantHandshake)
  }

  /** Data was sent, and nothing came back for too long. */
  predicate SilenceDue(tm: Timers) {
    var v := tm.values;
    v.dataSent > v.packetReceived && v.current - v.packetReceived >= KEEPALIVE_TIMEOUT + REKEY_TIMEOUT
  }

  /** Data was received, and nothing was sent back for too long. */
  predicate KeepaliveDue(tm: Timers) {
    var v := tm.values;
    v.dataReceived > v.packetSent && v.current - v.packetSent >= KEEPALIVE_TIMEOUT
  }

  predicate PersistentKeepaliveDue(tm: Timers) {
    tm.persistentKeepalive > 0 && tm.values.current - tm.values.keepalive >= tm.persistentKeepalive * SECOND
  }

  function UpdateEstablished(t: Tunnel, i: Input): (Tunnel, TunnResult) {
    var t1 := if SilenceDue(t.timers) then t.(timers := t.timers.(wantHandshake := false)) else t;
    if RekeyDue(t.timers) then FormatInitiation(t1, true, i)
    else
      var t2 := if KeepaliveDue(t.timers) then t1.(timers := t1.timers.(wantKeepalive := false)) else t1;
      var t3 := if PersistentKeepaliveDue(t.timers) then Tick(t2, TimePersistentKeepalive) else t2;
      if (KeepaliveDue(t.timers) && t.timers.wantKeepalive) || PersistentKeepaliveDue(t.timers)
      then Encapsulate(t3, [], i) else (t3, Done)
  }

  /** Set the current time, then drop the sessions that are too old. */
  function BeginUpdate(t: Tunnel, i: Input): Tunnel {
    var now := H.Since(i.now, t.timers.timeStarted);
    UpdateSessionTimers(t.(timers := t.timers.(values := Put(t.timers.values, TimeCurrent, now))), now)
  }

  function DropOldCookie(t: Tunnel): Tunnel {
    if t.handshake.cookies.writeCookie.Some?
       && t.timers.values.current - t.timers.values.cookieReceived >= COOKIE_EXPIRATION_TIME
    then t.(handshake := H.ClearCookie(t.handshake)) else t
  }

  function UpdateTimers(t: Tunnel, i: Input): (Tunnel, TunnResult) {
    var t1 := BeginUpdate(t, i);
    if t1.handshake.state.Expired? then (t1, Fault(ConnectionExpired))
    else
      var t2 := DropOldCookie(t1);
      var v := t2.timers.values;
      if v.current - v.sessionEstablished >= REJECT_AFTER_TIME * 3 then ExpireConnection(t2, i.later)
      else if AwaitsResponse(t2) then
        if v.current - v.handshakeStarted >= REKEY_ATTEMPT_TIME then ExpireConnection(t2, i.later)
        else if H.Since(i.later, t2.handshake.state.timeSent) >= REKEY_TIMEOUT then FormatInitiation(t2, true, i)
        else (t2, Done)
      else UpdateEstablished(t2, i)
  }

  /** A new private key ends all sessions. */
  function SetStaticPrivate(t: Tunnel, staticPrivate: nat): Tunnel {
    t.(handshake := H.SetStaticPrivate(t.handshake, staticPrivate), sessions := NO_SESSIONS)
  }

  /** The calls a tunnel's owner makes. */
  datatype Event =
    | Send(src: Bytes, input: Input)
    | Receive(packet: Packet, input: Input)
    | Flush(input: Input)
    | TimerEvent(input: Input)
    | Rekey(staticPrivate: nat, input: Input)

  function Step(t: Tunnel, e: Event): (Tunnel, TunnResult) {
    match e
    case Send(src, i) => Encapsulate(t, src, i)
    case Receive(p, i) => HandleVerifiedPacket(t, p, i)
    case Flush(i) => SendQueuedPacket(t, i)
    case TimerEvent(i) => UpdateTimers(t, i)
    case Rekey(key, _) => (SetStaticPrivate(t, key), Done)
  }
}
