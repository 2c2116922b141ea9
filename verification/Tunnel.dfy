/** The timers of a tunnel: an array of times since the start, one for each name, and the times at
    which the session slots were filled. */
module TimersObject {
  import opened TunnelSpec
  import H = HandshakeSpec

  function Index(name: TimerName): (i: nat)
    ensures i < 9
  {
    match name
    case TimeCurrent => 0
    case TimeSessionEstablished => 1
    case TimeLastHandshakeStarted => 2
    case TimeLastPacketReceived => 3
    case TimeLastPacketSent => 4
    case TimeLastDataPacketReceived => 5
    case TimeLastDataPacketSent => 6
    case TimeCookieReceived => 7
    case TimePersistentKeepalive => 8
  }

  function ValuesOf(times: seq<nat>): TimerValues
    requires |times| == 9
  {
    TimerValues(times[0], times[1], times[2], times[3], times[4], times[5], times[6], times[7], times[8])
  }

  lemma SetValue(times: seq<nat>, name: TimerName, time: nat)
    requires |times| == 9
    ensures ValuesOf(times[Index(name) := time]) == Put(ValuesOf(times), name, time)
  {
  }

  class Timers {
    var isInitiator: bool
    const timeStarted: nat
    const timers: array<nat>
    const sessionTimers: array<nat>
    var wantKeepalive: bool
    var wantHandshake: bool
    const persistentKeepalive: nat
    var shouldResetRr: bool

    ghost predicate Valid() {
      timers.Length == 9 && sessionTimers.Length == 8 && timers != sessionTimers
    }

    ghost function View(): TunnelSpec.Timers
      requires Valid()
      reads this, timers, sessionTimers
    {
      TunnelSpec.Timers(isInitiator, timeStarted, ValuesOf(timers[..]), sessionTimers[..], wantKeepalive, wantHandshake,
                        persistentKeepalive)
    }

    constructor (persistentKeepalive: nat, resetRr: bool, now: nat)
      ensures Valid() && fresh(timers) && fresh(sessionTimers) && shouldResetRr == resetRr
      ensures View() == TunnelSpec.Timers(false, now, AllAt(0), [0, 0, 0, 0, 0, 0, 0, 0], false, false,
                                          persistentKeepalive)
    {
      this.isInitiator, this.wantKeepalive, this.wantHandshake := false, false, false;
      this.timeStarted, this.persistentKeepalive, this.shouldResetRr := now, persistentKeepalive, resetRr;
      timers := new nat[9](_ => 0);
      sessionTimers := new nat[8](_ => 0);
      new;
      assert sessionTimers[..] == [0, 0, 0, 0, 0, 0, 0, 0];
    }

    method Set(name: TimerName, time: nat)
      requires Valid()
      modifies timers
      ensures View() == old(View()).(values := Put(old(View()).values, name, time))
    {
      SetValue(timers[..], name, time);
      timers[Index(name)] := time;
      assert timers[..] == old(timers[..])[Index(name) := time];
    }

    method Clear(now: nat)
      requires Valid()
      modifies this, timers
      ensures View() == ClearTimers(old(View()), now) && shouldResetRr == old(shouldResetRr)
    {
      var since := H.Since(now, timeStarted);
      var i := 0;
      while i < timers.Length
        invariant i <= timers.Length && forall k | 0 <= k < i :: timers[k] == since
        modifies timers
      {
        timers[i] := since;
        i := i + 1;
      }
      assert sessionTimers[..] == old(sessionTimers[..]);
      wantHandshake := false;
      wantKeepalive := false;
    }
  }
}

/** The tunnel object. Every method is proved to do what the state machine of TunnelSpec does. */
module Tunnel {
  import opened Wrappers
  import opened Crypto
  import opened Wire
  import S = Session
  import H = HandshakeSpec
  import HO = Handshake
  import RL = RateLimiter
  import RS = RateLimiterSpec
  import opened TimersObject
  import opened Spec = TunnelSpec
  import opened TunnelInvariants
  import opened TunnelFlush

  const PEER_HANDSHAKE_RATE_LIMIT: u64 := 10

  /** A datagram from the network: an empty one asks for the next queued packet, any other passes the
      rate limiter first. */
  function Decapsulated(t: Spec.Tunnel, limiter: RS.State, srcAddr: Option<RS.IpAddr>, datagram: Bytes, i: Input)
    : (Spec.Tunnel, RS.State, TunnResult)
    requires srcAddr.Some? ==> RS.IsAddr(srcAddr.value)
  {
    if datagram == [] then
      var (u, r) := Spec.SendQueuedPacket(t, i);
      (u, limiter, r)
    else
      match RS.VerifyPacket(limiter, srcAddr, datagram, i.dstLen, i.now)
      case (rl, Reply(wire)) => (t, rl, WriteToNetwork(wire))
      case (rl, Refused(e)) => (t, rl, Fault(e))
      case (rl, Accepted(p)) =>
        var (u, r) := Spec.HandleVerifiedPacket(t, p, i);
        (u, rl, r)
  }

  /** Data packets are never limited, and a limiter that is not under load passes every handshake
      message with a right first mac; both are then handled as if there were no limiter. */
  lemma UnlimitedUnlessLoaded(t: Spec.Tunnel, limiter: RS.State, srcAddr: Option<RS.IpAddr>, datagram: Bytes, i: Input)
    requires datagram != [] && (srcAddr.Some? ==> RS.IsAddr(srcAddr.value))
    requires var p := ParseIncomingPacket(datagram);
             p.Ok? && HasMacs(p.value) ==>
               && limiter.count < limiter.limit
               && Mac16(limiter.mac1Key, RS.SplitMacs(datagram).0) == RS.SplitMacs(datagram).1
    ensures var (u, rl, r) := Decapsulated(t, limiter, srcAddr, datagram, i);
            && (u, r) == ReceiveDatagram(t, datagram, i)
            && (ParseIncomingPacket(datagram).Ok? && !HasMacs(ParseIncomingPacket(datagram).value) ==> rl == limiter)
  {
    hide ParseIncomingPacket, Spec.HandleVerifiedPacket, Mac16, RS.SplitMacs;
  }

  class Tunn {
    const handshake: HO.Handshake
    const sessions: array<Option<S.Session>>
    var current: nat
    var packetQueue: seq<Bytes>
    const timers: TimersObject.Timers
    var txBytes: nat
    var rxBytes: nat
    /** Possibly shared with other tunnels. */
    var rateLimiter: RL.RateLimiter

    ghost predicate Valid()
      reads handshake
    {
      && handshake.Valid()
      && sessions.Length == N_SESSIONS
      && timers.Valid()
      && sessions as object != timers.timers && sessions as object != timers.sessionTimers
    }

    ghost function View(): Spec.Tunnel
      requires Valid()
      reads this, handshake, sessions, timers, timers.timers, timers.sessionTimers
    {
      Spec.Tunnel(handshake.View(), sessions[..], current, packetQueue, timers.View(), txBytes, rxBytes)
    }

    ghost function Repr(): set<object> {
      {this, handshake, sessions, timers, timers.timers, timers.sessionTimers}
    }

    /** Only a new private key gives a tunnel another limiter. */
    twostate predicate KeepsLimiter()
      reads this, timers
    {
      rateLimiter == old(rateLimiter) && timers.shouldResetRr == old(timers.shouldResetRr)
    }

    /** Without a limiter the tunnel makes its own, from fresh random keys. */
    constructor (staticPrivate: nat, peerStaticPublic: Bytes, presharedKey: Option<Bytes>,
                 persistentKeepalive: Option<nat>, index: nat, limiter: Option<RL.RateLimiter>,
                 stamper: H.TimeStamper, nonceKey: Bytes, secretKey: Bytes, now: nat)
      requires index < 0x100_0000
      ensures Valid() && fresh(Repr())
      ensures View() == New(H.Params(staticPrivate, peerStaticPublic, presharedKey), index, stamper,
                            persistentKeepalive, now)
      ensures timers.shouldResetRr == limiter.None?
      ensures limiter.Some? ==> rateLimiter == limiter.value
      ensures limiter.None? ==>
                rateLimiter.View() == RS.New(PublicKey(staticPrivate), PEER_HANDSHAKE_RATE_LIMIT, nonceKey, secretKey,
                                             now)
    {
      handshake := new HO.Handshake(staticPrivate, peerStaticPublic, index * 256, presharedKey, stamper);
      sessions := new Option<S.Session>[N_SESSIONS](_ => None);
      timers := new TimersObject.Timers(if persistentKeepalive.Some? then persistentKeepalive.value else 0,
                                        limiter.None?, now);
      current, packetQueue, txBytes, rxBytes := 0, [], 0, 0;
      if limiter.Some? {
        rateLimiter := limiter.value;
      } else {
        rateLimiter := new RL.RateLimiter(PublicKey(staticPrivate), PEER_HANDSHAKE_RATE_LIMIT, nonceKey, secretKey,
                                          now);
      }
      new;
      assert sessions[..] == NO_SESSIONS;
    }

    method SetStaticPrivate(staticPrivate: nat, limiter: Option<RL.RateLimiter>, nonceKey: Bytes, secretKey: Bytes,
                            now: nat)
      requires Valid()
      modifies Repr()
      ensures Valid() && View() == Spec.SetStaticPrivate(old(View()), staticPrivate)
      ensures timers.shouldResetRr == limiter.None?
      ensures limiter.Some? ==> rateLimiter == limiter.value
      ensures limiter.None? ==>
                rateLimiter.View() == RS.New(PublicKey(staticPrivate), PEER_HANDSHAKE_RATE_LIMIT, nonceKey, secretKey,
                                             now)
    {
      timers.shouldResetRr := limiter.None?;
      if limiter.Some? {
        rateLimiter := limiter.value;
      } else {
        rateLimiter := new RL.RateLimiter(PublicKey(staticPrivate), PEER_HANDSHAKE_RATE_LIMIT, nonceKey, secretKey,
                                          now);
      }
      handshake.SetStaticPrivate(staticPrivate, PublicKey(staticPrivate));
      DropSessions();
    }

    method DropSessions()
      requires Valid()
      modifies sessions
      ensures Valid() && View() == old(View()).(sessions := NO_SESSIONS)
    {
      var i := 0;
      while i < sessions.Length
        invariant i <= sessions.Length && forall k | 0 <= k < i :: sessions[k].None?
        modifies sessions
      {
        sessions[i] := None;
        i := i + 1;
      }
      assert sessions[..] == NO_SESSIONS;
    }

    // Timers

    method TimerTick(name: TimerName)
      requires Valid()
      modifies Repr()
      ensures KeepsLimiter()
      ensures Valid() && View() == Tick(old(View()), name)
    {
      match name {
        case TimeLastPacketReceived =>
          timers.wantKeepalive := true;
          timers.wantHandshake := false;
        case TimeLastPacketSent =>
          timers.wantHandshake := true;
          timers.wantKeepalive := false;
        case _ =>
      }
      var time := timers.timers[Index(TimeCurrent)];
      timers.Set(name, time);
    }

    method TimerTickSessionEstablished(isInitiator: bool, sessionIdx: nat)
      requires Valid()
      modifies Repr()
      ensures KeepsLimiter()
      ensures Valid() && View() == TickSessionEstablished(old(View()), isInitiator, sessionIdx)
    {
      hide Tick, ValuesOf;
      TimerTick(TimeSessionEstablished);
      ghost var t := View();
      assert timers.timers[0] == t.timers.values.current by { CurrentIsFirst(timers.timers[..]); }
      timers.sessionTimers[sessionIdx % N_SESSIONS] := timers.timers[Index(TimeCurrent)];
      timers.isInitiator := isInitiator;
      assert timers.sessionTimers[..] == t.timers.sessionTimers[sessionIdx % N_SESSIONS := t.timers.values.current];
    }

    method ClearAll(now: nat)
      requires Valid()
      modifies Repr()
      ensures KeepsLimiter()
      ensures Valid() && View() == Spec.ClearAll(old(View()), now)
    {
      DropSessions();
      packetQueue := [];
      timers.Clear(now);
    }

    /** The times are at or below the current one, so no subtraction underflows. */
    method UpdateSessionTimers(timeNow: nat)
      requires Valid() && forall k | 0 <= k < 8 :: timers.sessionTimers[k] <= timeNow
      modifies Repr()
      ensures KeepsLimiter()
      ensures Valid() && View() == Spec.UpdateSessionTimers(old(View()), timeNow)
    {
      var i := 0;
      while i < 8
        invariant i <= 8
        invariant forall k | 0 <= k < 8 :: timers.sessionTimers[k] <= timeNow
        invariant forall k | 0 <= k < 8 :: timers.sessionTimers[k]
                    == if k < i && timeNow - old(timers.sessionTimers[k]) > REJECT_AFTER_TIME then timeNow
                        else old(timers.sessionTimers[k])
        invariant forall k | 0 <= k < 8 :: sessions[k]
                    == if k < i && timeNow - old(timers.sessionTimers[k]) > REJECT_AFTER_TIME then None
                        else old(sessions[k])
        modifies sessions, timers.sessionTimers
      {
        var age: nat := timeNow - timers.sessionTimers[i];
        if age > REJECT_AFTER_TIME {
          sessions[i] := None;
          timers.sessionTimers[i] := timeNow;
        }
        i := i + 1;
      }
      assert timers.timers[..] == old(timers.timers[..]);
      assert View().sessions == Spec.UpdateSessionTimers(old(View()), timeNow).sessions;
      assert View().timers.sessionTimers == Spec.UpdateSessionTimers(old(View()), timeNow).timers.sessionTimers;
    }

    method TimeSinceLastHandshake(clock: nat, now: nat) returns (since: Option<nat>)
      requires Valid() && TimersOk(View(), clock) && clock <= now
      ensures since == if CurrentSession(View()).None? then None
                       else Some(now - (timers.timeStarted + View().timers.values.sessionEstablished))
    {
      if sessions[current % N_SESSIONS].Some? {
        var sinceStart: nat := H.Since(now, timers.timeStarted);
        var sinceEstablished := timers.timers[Index(TimeSessionEstablished)];
        var age: nat := sinceStart - sinceEstablished;
        since := Some(age);
      } else {
        since := None;
      }
    }

    /** The average of the loss in the ring's sessions, from the current one back, each weighing a third
        of the one after it; without sessions it is zero. */
    method EstimateLoss() returns (loss: real)
      requires Valid() && CountsOk(View())
      ensures 0.0 <= loss <= 1.0
      ensures var (average, total) := LossFrom(View().sessions, current, 0, 9.0);
              loss == if total == 0.0 then 0.0 else average / total
    {
      hide S.Counted, Weighted, LossOf, LossFrom, CountsOk, ValuesOf;
      ghost var ring := View().sessions;
      RingCounts(View());
      var (weight, average, total) := (9.0, 0.0, 0.0);
      var i := 0;
      while i < N_SESSIONS
        invariant i <= N_SESSIONS && weight > 0.0 && 0.0 <= average <= total
        invariant var (all, rest) := (LossFrom(ring, current, 0, 9.0), LossFrom(ring, current, i, weight));
                  all.0 == average + rest.0 && all.1 == total + rest.1
      {
        OneMoreLoss(ring, current, i, weight);
        var slot := (current - i) % N_SESSIONS;
        if sessions[slot].Some? {
          var session := sessions[slot].value;
          assert ring[slot] == Some(session);
          LossIsFraction(session);
          average, total, weight := average + Weighted(LossOf(session), weight), total + weight, weight / 3.0;
        }
        i := i + 1;
      }
      NoMoreLoss(ring, current, weight);
      if total == 0.0 {
        return 0.0;
      }
      S.RatioInRange(average, total);
      loss := average / total;
    }

    // The queue

    method QueuePacket(packet: Bytes)
      requires Valid()
      modifies this`packetQueue
      ensures Valid() && View() == Spec.QueuePacket(old(View()), packet)
    {
      if |packetQueue| < MAX_QUEUE_DEPTH {
        packetQueue := packetQueue + [packet];
      }
    }

    method RequeuePacket(packet: Bytes)
      requires Valid()
      modifies this`packetQueue
      ensures Valid() && View() == Spec.RequeuePacket(old(View()), packet)
    {
      if |packetQueue| < MAX_QUEUE_DEPTH {
        packetQueue := [packet] + packetQueue;
      }
    }

    method DequeuePacket() returns (packet: Option<Bytes>)
      requires Valid()
      modifies this`packetQueue
      ensures Valid()
      ensures old(packetQueue) == [] ==> packet == None && View() == old(View())
      ensures old(packetQueue) != [] ==>
                packet == Some(old(packetQueue)[0]) && View() == old(View()).(queue := old(packetQueue)[1..])
    {
      if packetQueue == [] {
        return None;
      }
      packet := Some(packetQueue[0]);
      packetQueue := packetQueue[1..];
    }

    // Sending

    method FormatHandshakeInitiation(forceResend: bool, i: Input) returns (r: TunnResult)
      requires Valid()
      modifies Repr()
      ensures KeepsLimiter()
      ensures Valid() && (View(), r) == Spec.FormatInitiation(old(View()), forceResend, i)
    {
      hide H.FormatInitiation, Tick, ClearTimers, ValuesOf;
      if (handshake.state.InitSent? || handshake.state.InitReceived?) && !forceResend {
        return Done;
      }
      if handshake.state.Expired? {
        timers.Clear(i.now);
      }
      var startingNewHandshake := !(handshake.state.InitSent? || handshake.state.InitReceived?);
      var packet := handshake.FormatHandshakeInitiation(i.dstLen, i.ephemeral, i.sent);
      if packet.Err? {
        FailedInitiation(old(handshake.View()), i);
        return Fault(packet.error);
      }
      if startingNewHandshake {
        TimerTick(TimeLastHandshakeStarted);
      }
      TimerTick(TimeLastPacketSent);
      r := WriteToNetwork(packet.value);
    }

    method Encapsulate(src: Bytes, i: Input) returns (r: TunnResult)
      requires Valid()
      modifies Repr()
      ensures KeepsLimiter()
      ensures Valid() && (View(), r) == Spec.Encapsulate(old(View()), src, i)
    {
      hide S.FormatPacketData, Spec.FormatInitiation, Tick, ValuesOf, Spec.QueuePacket;
      var slot := current % N_SESSIONS;
      if sessions[slot].Some? {
        var (session, packet) := S.FormatPacketData(sessions[slot].value, src);
        sessions[slot] := Some(session);
        assert sessions[..] == old(sessions[..])[slot := Some(session)];
        TimerTick(TimeLastPacketSent);
        if src != [] {
          TimerTick(TimeLastDataPacketSent);
        }
        ghost var t := View();
        txBytes := txBytes + |src|;
        assert View() == t.(txBytes := t.txBytes + |src|);
        return WriteToNetwork(packet);
      }
      QueuePacket(src);
      r := FormatHandshakeInitiation(false, i);
    }

    method SendQueuedPacket(i: Input) returns (r: TunnResult)
      requires Valid()
      modifies Repr()
      ensures KeepsLimiter()
      ensures Valid() && (View(), r) == Spec.SendQueuedPacket(old(View()), i)
    {
      hide Spec.Encapsulate, Spec.RequeuePacket;
      var packet := DequeuePacket();
      if packet.Some? {
        r := Encapsulate(packet.value, i);
        if r.Fault? {
          RequeuePacket(packet.value);
        } else {
          return;
        }
      }
      r := Done;
    }

    // Receiving

    method SetCurrentSession(newIdx: nat)
      requires Valid()
      modifies this`current
      ensures Valid() && View() == SetCurrent(old(View()), newIdx)
    {
      if current == newIdx {
        return;
      }
      if sessions[current % N_SESSIONS].None?
         || timers.sessionTimers[newIdx % N_SESSIONS] >= timers.sessionTimers[current % N_SESSIONS] {
        current := newIdx;
      }
    }

    method StoreSession(slot: nat, session: S.Session)
      requires Valid() && slot < N_SESSIONS
      modifies sessions
      ensures Valid() && View() == old(View()).(sessions := old(View()).sessions[slot := Some(session)])
    {
      sessions[slot] := Some(session);
      assert sessions[..] == old(sessions[..])[slot := Some(session)];
    }

    method HandleHandshakeInit(p: Packet, i: Input) returns (r: TunnResult)
      requires Valid() && p.HandshakeInit?
      modifies Repr()
      ensures KeepsLimiter()
      ensures Valid() && (View(), r) == Spec.HandleHandshakeInit(old(View()), p, i)
    {
      hide H.ReceiveInitiation, Tick, TickSessionEstablished, ValuesOf;
      var received := handshake.ReceiveHandshakeInitialization(p, i.dstLen, i.ephemeral);
      if received.Err? {
        return Fault(received.error);
      }
      var (packet, session) := received.value;
      var index := session.localIndex;
      StoreSession(index % N_SESSIONS, session);
      TimerTick(TimeLastPacketReceived);
      TimerTick(TimeLastPacketSent);
      TimerTickSessionEstablished(false, index);
      r := WriteToNetwork(packet);
    }

    method HandleHandshakeResponse(p: Packet, i: Input) returns (r: TunnResult)
      requires Valid() && p.HandshakeResponse?
      modifies Repr()
      ensures KeepsLimiter()
      ensures Valid() && (View(), r) == Spec.HandleHandshakeResponse(old(View()), p, i)
    {
      hide H.ReceiveResponse, S.FormatPacketData, Tick, TickSessionEstablished, SetCurrent, ValuesOf;
      var received := handshake.ReceiveHandshakeResponse(p, i.later);
      if received.Err? {
        return Fault(received.error);
      }
      var (session, keepalive) := S.FormatPacketData(received.value, []);
      var lIdx := received.value.localIndex;
      StoreSession(lIdx % N_SESSIONS, session);
      TimerTick(TimeLastPacketReceived);
      TimerTickSessionEstablished(true, lIdx);
      SetCurrentSession(lIdx);
      r := WriteToNetwork(keepalive);
    }

    method HandleCookieReply(p: Packet) returns (r: TunnResult)
      requires Valid() && p.PacketCookieReply?
      modifies Repr()
      ensures KeepsLimiter()
      ensures Valid() && (View(), r) == Spec.HandleCookieReply(old(View()), p)
    {
      hide H.ReceiveCookieReply, Tick, ValuesOf;
      var received := handshake.ReceiveCookieReply(p);
      if received.Err? {
        return Fault(received.error);
      }
      TimerTick(TimeLastPacketReceived);
      TimerTick(TimeCookieReceived);
      r := Done;
    }

    method ValidateDecapsulatedPacket(packet: Bytes) returns (r: TunnResult)
      requires Valid()
      modifies Repr()
      ensures KeepsLimiter()
      ensures Valid() && (View(), r) == ValidatePacket(old(View()), packet)
    {
      hide Tick, ValuesOf, Be16At, IpHeader;
      if packet == [] {
        return Done;
      }
      var header := IpHeader(packet);
      if header.None? {
        return Fault(InvalidPacket);
      }
      var (computedLen, source) := header.value;
      if computedLen > |packet| {
        return Fault(InvalidPacket);
      }
      TimerTick(TimeLastDataPacketReceived);
      ghost var t := View();
      rxBytes := rxBytes + computedLen;
      assert View() == t.(rxBytes := t.rxBytes + computedLen);
      r := if Version(packet) == 4 then WriteToTunnelV4(packet[..computedLen], source)
           else WriteToTunnelV6(packet[..computedLen], source);
    }

    method HandleData(p: Packet) returns (r: TunnResult)
      requires Valid() && p.PacketData?
      modifies Repr()
      ensures KeepsLimiter()
      ensures Valid() && (View(), r) == Spec.HandleData(old(View()), p)
    {
      hide S.ReceivePacketData, Tick, SetCurrent, ValidatePacket, ValuesOf;
      var idx := p.receiverIdx % N_SESSIONS;
      if sessions[idx].None? {
        return Fault(NoCurrentSession);
      }
      var (session, received) := S.ReceivePacketData(sessions[idx].value, p);
      if received.Err? {
        return Fault(received.error);
      }
      StoreSession(idx, session);
      SetCurrentSession(p.receiverIdx);
      TimerTick(TimeLastPacketReceived);
      r := ValidateDecapsulatedPacket(received.value);
    }

    method HandleVerifiedPacket(p: Packet, i: Input) returns (r: TunnResult)
      requires Valid()
      modifies Repr()
      ensures KeepsLimiter()
      ensures Valid() && (View(), r) == Spec.HandleVerifiedPacket(old(View()), p, i)
    {
      hide Spec.HandleHandshakeInit, Spec.HandleHandshakeResponse, Spec.HandleCookieReply, Spec.HandleData;
      match p
      case HandshakeInit(_, _, _, _) => r := HandleHandshakeInit(p, i);
      case HandshakeResponse(_, _, _, _) => r := HandleHandshakeResponse(p, i);
      case PacketCookieReply(_, _, _) => r := HandleCookieReply(p);
      case PacketData(_, _, _) => r := HandleData(p);
    }

    method Decapsulate(srcAddr: Option<RS.IpAddr>, datagram: Bytes, i: Input) returns (r: TunnResult)
      requires Valid() && (srcAddr.Some? ==> RS.IsAddr(srcAddr.value))
      modifies Repr(), rateLimiter
      ensures KeepsLimiter()
      ensures Valid()
      ensures (View(), old(rateLimiter).View(), r)
              == Decapsulated(old(View()), old(rateLimiter.View()), srcAddr, datagram, i)
    {
      hide RS.VerifyPacket, Spec.SendQueuedPacket, Spec.HandleVerifiedPacket;
      ghost var t := View();
      if datagram == [] {
        r := SendQueuedPacket(i);
        return;
      }
      var verdict := rateLimiter.VerifyPacket(srcAddr, datagram, i.dstLen, i.now);
      assert View() == t;
      match verdict
      case Accepted(packet) => r := HandleVerifiedPacket(packet, i);
      case Reply(cookie) => r := WriteToNetwork(cookie);
      case Refused(e) => r := Fault(e);
    }

    // The periodic update

    /** Sets the current time and drops the old sessions. */
    method BeginUpdate(ghost clock: nat, i: Input)
      requires Valid() && TimersOk(View(), clock) && ClockOk(clock, i)
      modifies Repr()
      ensures KeepsLimiter()
      ensures Valid() && View() == Spec.BeginUpdate(old(View()), i)
      ensures TimersOk(View(), i.now)
    {
      hide Spec.UpdateSessionTimers, ValuesOf, TimersOk;
      ghost var t := View();
      BeginUpdateKeepsTimers(t, clock, i);
      var now := H.Since(i.now, timers.timeStarted);
      timers.Set(TimeCurrent, now);
      assert View() == t.(timers := t.timers.(values := Put(t.timers.values, TimeCurrent, now)));
      SetBelow(t, clock, i);
      UpdateSessionTimers(now);
    }

    method UpdateTimers(ghost clock: nat, i: Input) returns (r: TunnResult)
      requires Valid() && TimersOk(View(), clock) && ClockOk(clock, i)
      modifies Repr(), rateLimiter
      ensures KeepsLimiter()
      ensures Valid() && (View(), r) == Spec.UpdateTimers(old(View()), i)
      ensures old(rateLimiter).View()
           == if old(timers.shouldResetRr) then RS.ResetCount(old(rateLimiter.View()), i.now)
               else old(rateLimiter.View())
    {
      hide RS.ResetCount, Spec.UpdateTimers, TimersOk, ClockOk;
      ghost var t := View();
      if timers.shouldResetRr {
        rateLimiter.ResetCount(i.now);
      }
      assert View() == t;
      r := UpdateConnection(clock, i);
    }

    method UpdateConnection(ghost clock: nat, i: Input) returns (r: TunnResult)
      requires Valid() && TimersOk(View(), clock) && ClockOk(clock, i)
      modifies Repr()
      ensures KeepsLimiter()
      ensures Valid() && (View(), r) == Spec.UpdateTimers(old(View()), i)
    {
      hide Spec.BeginUpdate, Spec.ClearAll, Spec.FormatInitiation, Spec.UpdateEstablished, H.SetExpired, H.ClearCookie,
           ValuesOf, TimersOk;
      BeginUpdate(clock, i);
      ghost var t1 := View();
      AllBelow(t1, i.now);
      var v := ValuesOf(timers.timers[..]);
      if handshake.state.Expired? {
        return Fault(ConnectionExpired);
      }
      var cookieAge: nat := v.current - v.cookieReceived;
      if handshake.writeCookie.Some? && cookieAge >= COOKIE_EXPIRATION_TIME {
        handshake.ClearCookie();
      }
      ghost var t2 := View();
      assert t2 == DropOldCookie(t1);
      var keyAge: nat := v.current - v.sessionEstablished;
      if keyAge >= REJECT_AFTER_TIME * 3 {
        handshake.SetExpired();
        ClearAll(i.later);
        return Fault(ConnectionExpired);
      }
      if handshake.state.InitSent? {
        var attemptAge: nat := v.current - v.handshakeStarted;
        if attemptAge >= REKEY_ATTEMPT_TIME {
          handshake.SetExpired();
          ClearAll(i.later);
          return Fault(ConnectionExpired);
        }
        if H.Since(i.later, handshake.state.timeSent) >= REKEY_TIMEOUT {
          r := FormatHandshakeInitiation(true, i);
        } else {
          r := Done;
        }
      } else {
        r := UpdateEstablished(v, i);
      }
    }

    /** The part of the update for a tunnel that awaits no response. */
    method UpdateEstablished(v: TimerValues, i: Input) returns (r: TunnResult)
      requires Valid() && v == View().timers.values && Below(v)
      modifies Repr()
      ensures KeepsLimiter()
      ensures Valid() && (View(), r) == Spec.UpdateEstablished(old(View()), i)
    {
      hide Spec.FormatInitiation, Spec.Encapsulate, Tick, ValuesOf, RekeyDue, SilenceDue;
      var handshakeRequired := CheckRekey(v);
      if handshakeRequired {
        r := FormatHandshakeInitiation(true, i);
        return;
      }
      var keepaliveRequired := CheckKeepalive(v);
      var keepaliveAge: nat := v.current - v.keepalive;
      if timers.persistentKeepalive > 0 && keepaliveAge >= timers.persistentKeepalive * SECOND {
        TimerTick(TimePersistentKeepalive);
        keepaliveRequired := true;
      }
      if keepaliveRequired {
        r := Encapsulate([], i);
      } else {
        r := Done;
      }
    }

    method CheckRekey(v: TimerValues) returns (required: bool)
      requires Valid() && v == View().timers.values && Below(v)
      modifies timers
      ensures KeepsLimiter()
      ensures Valid() && required == RekeyDue(old(View()).timers)
      ensures var t := old(View());
              View() == if SilenceDue(t.timers) then t.(timers := t.timers.(wantHandshake := false)) else t
    {
      hide ValuesOf;
      var keyAge: nat := v.current - v.sessionEstablished;
      var receivedAge: nat := v.current - v.packetReceived;
      required := false;
      if timers.isInitiator {
        if v.sessionEstablished < v.dataSent && keyAge >= REKEY_AFTER_TIME {
          required := true;
        }
        if v.sessionEstablished < v.dataReceived && keyAge >= REJECT_AFTER_TIME - KEEPALIVE_TIMEOUT - REKEY_TIMEOUT {
          required := true;
        }
      }
      if v.dataSent > v.packetReceived && receivedAge >= KEEPALIVE_TIMEOUT + REKEY_TIMEOUT {
        required := required || timers.wantHandshake;
        timers.wantHandshake := false;
      }
    }

    method CheckKeepalive(v: TimerValues) returns (required: bool)
      requires Valid() && v == View().timers.values && Below(v)
      modifies timers
      ensures KeepsLimiter()
      ensures Valid() && required == (KeepaliveDue(old(View()).timers) && old(View()).timers.wantKeepalive)
      ensures var t := old(View());
              View() == if KeepaliveDue(t.timers) then t.(timers := t.timers.(wantKeepalive := false)) else t
    {
      hide ValuesOf;
      var sentAge: nat := v.current - v.packetSent;
      required := false;
      if v.dataReceived > v.packetSent && sentAge >= KEEPALIVE_TIMEOUT {
        required := timers.wantKeepalive;
        timers.wantKeepalive := false;
      }
    }
  }

  /** Every timer is at or below the current time. */
  predicate Below(v: TimerValues) {
    && v.sessionEstablished <= v.current && v.handshakeStarted <= v.current
    && v.packetReceived <= v.current && v.packetSent <= v.current
    && v.dataReceived <= v.current && v.dataSent <= v.current
    && v.cookieReceived <= v.current && v.keepalive <= v.current
  }

  lemma AllBelow(t: Spec.Tunnel, clock: nat)
    requires TimersOk(t, clock)
    ensures Below(t.timers.values)
  {
  }

  function LossOf(s: S.Session): real {
    if s.window.next == 0 then 0.0 else 1.0 - s.receiveCnt as real / s.window.next as real
  }

  lemma RingCounts(t: Spec.Tunnel)
    requires CountsOk(t)
    ensures forall k | 0 <= k < 8 && t.sessions[k].Some? :: S.Counted(t.sessions[k].value)
  {
  }

  lemma OneMoreLoss(ring: Ring, current: nat, i: nat, weight: real)
    requires weight > 0.0 && i < N_SESSIONS
    ensures var session := ring[(current - i) % N_SESSIONS];
            LossFrom(ring, current, i, weight)
            == if session.None? then LossFrom(ring, current, i + 1, weight)
               else (Weighted(LossOf(session.value), weight) + LossFrom(ring, current, i + 1, weight / 3.0).0,
                     weight + LossFrom(ring, current, i + 1, weight / 3.0).1)
  {
    hide Weighted, LossOf;
  }

  lemma NoMoreLoss(ring: Ring, current: nat, weight: real)
    requires weight > 0.0
    ensures LossFrom(ring, current, N_SESSIONS, weight) == (0.0, 0.0)
  {
  }

  lemma LossIsFraction(s: S.Session)
    requires S.Counted(s)
    ensures 0.0 <= LossOf(s) <= 1.0
  {
    S.LossInRange(s);
  }

  function Weighted(lost: real, weight: real): (w: real)
    requires weight > 0.0
    ensures 0.0 <= lost <= 1.0 ==> 0.0 <= w <= weight
  {
    lost * weight
  }

  /** The weighted losses and the weights of the sessions from the i-th before the current one on. */
  function LossFrom(ring: Ring, current: nat, i: nat, weight: real): (real, real)
    requires weight > 0.0 && i <= N_SESSIONS
    decreases N_SESSIONS - i
  {
    if i == N_SESSIONS then (0.0, 0.0)
    else
      var session := ring[(current - i) % N_SESSIONS];
      if session.None? then LossFrom(ring, current, i + 1, weight)
      else
        var (average, total) := LossFrom(ring, current, i + 1, weight / 3.0);
        (Weighted(LossOf(session.value), weight) + average, weight + total)
  }

  lemma SetBelow(t: Spec.Tunnel, clock: nat, i: Input)
    requires TimersOk(t, clock) && ClockOk(clock, i)
    ensures forall k | 0 <= k < 8 :: t.timers.sessionTimers[k] <= H.Since(i.now, t.timers.timeStarted)
  {
  }

  lemma FailedInitiation(h: H.State, i: Input)
    ensures var (u, r) := H.FormatInitiation(h, i.dstLen, i.ephemeral, i.sent);
            r.Err? ==> u == h
  {
    hide H.InitiationFields, H.AppendMacs;
  }

  lemma CurrentIsFirst(times: seq<nat>)
    requires |times| == 9
    ensures ValuesOf(times).current == times[0]
  {
  }
}
