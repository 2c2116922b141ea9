/** What every run of a tunnel keeps. */
module TunnelInvariants {
  import opened Wrappers
  import opened Crypto
  import opened Wire
  import R = ReplayWindow
  import S = Session
  import H = HandshakeSpec
  import HP = HandshakeProofs
  import opened TunnelSpec

  /** Every timer is at or below the current time, which is at or below the clock. */
  ghost predicate TimersOk(t: Tunnel, clock: nat) {
    var v := t.timers.values;
    && t.timers.timeStarted <= clock
    && v.current <= clock - t.timers.timeStarted
    && v.sessionEstablished <= v.current && v.handshakeStarted <= v.current
    && v.packetReceived <= v.current && v.packetSent <= v.current
    && v.dataReceived <= v.current && v.dataSent <= v.current
    && v.cookieReceived <= v.current && v.keepalive <= v.current
    && forall k | 0 <= k < 8 :: t.timers.sessionTimers[k] <= v.current
  }

  /** Every session, and every handshake under way, has an index of this peer; sessions sit in
      their slots. */
  ghost predicate IndexesOk(t: Tunnel, peer: nat) {
    && HandshakeIndexesOk(t.handshake, peer)
    && forall k | 0 <= k < 8 && t.sessions[k].Some? ::
         t.sessions[k].value.localIndex % 8 == k && t.sessions[k].value.localIndex / 256 == peer
  }

  predicate HandshakeIndexesOk(h: H.State, peer: nat) {
    && h.nextIndex / 256 == peer && SlotOk(h.state, peer) && SlotOk(h.previous, peer)
    && (h.cookies.lastMac1.Some? ==> h.cookies.index / 256 == peer)
  }

  predicate SlotOk(slot: H.Slot, peer: nat) {
    slot.InitSent? ==> slot.localIndex / 256 == peer
  }

  /** An expired connection holds nothing. */
  ghost predicate ExpiredIsQuiet(t: Tunnel) {
    t.handshake.state.Expired? ==> t.handshake.previous.Expired? && t.sessions == NO_SESSIONS && t.queue == []
  }

  ghost predicate QueueOk(t: Tunnel) {
    |t.queue| <= MAX_QUEUE_DEPTH
  }

  ghost predicate ClockOk(clock: nat, i: Input) {
    clock <= i.now <= i.later <= i.sent
  }

  function InputOf(e: Event): Input {
    e.input
  }

  // Timers

  lemma ClearKeepsTimers(t: Tunnel, clock: nat, now: nat)
    requires TimersOk(t, clock) && clock <= now
    ensures TimersOk(t.(timers := ClearTimers(t.timers, now)), now)
    ensures TimersOk(ClearAll(t, now), now)
  {
  }

  lemma TickKeepsTimers(t: Tunnel, name: TimerName, clock: nat)
    requires TimersOk(t, clock)
    ensures TimersOk(Tick(t, name), clock)
  {
  }

  lemma InitiationKeepsTimers(t: Tunnel, force: bool, clock: nat, i: Input)
    requires TimersOk(t, clock) && ClockOk(clock, i)
    ensures TimersOk(FormatInitiation(t, force, i).0, i.sent)
  {
    ClearKeepsTimers(t, clock, i.now);
    hide H.FormatInitiation;
    var t1 := if t.handshake.state.Expired? then t.(timers := ClearTimers(t.timers, i.now)) else t;
    assert TimersOk(t1, i.sent);
    var h := H.FormatInitiation(t1.handshake, i.dstLen, i.ephemeral, i.sent).0;
    var t2 := t1.(handshake := h);
    TickKeepsTimers(t2, TimeLastHandshakeStarted, i.sent);
    TickKeepsTimers(t2, TimeLastPacketSent, i.sent);
    TickKeepsTimers(Tick(t2, TimeLastHandshakeStarted), TimeLastPacketSent, i.sent);
  }

  lemma EncapsulateKeepsTimers(t: Tunnel, src: Bytes, clock: nat, i: Input)
    requires TimersOk(t, clock) && ClockOk(clock, i)
    ensures TimersOk(Encapsulate(t, src, i).0, i.sent)
  {
    hide FormatInitiation;
    InitiationKeepsTimers(QueuePacket(t, src), false, clock, i);
  }

  lemma EstablishedKeepsTimers(t: Tunnel, isInitiator: bool, index: nat, clock: nat)
    requires TimersOk(t, clock)
    ensures TimersOk(TickSessionEstablished(t, isInitiator, index), clock)
  {
  }

  lemma ReceiveKeepsTimers(t: Tunnel, p: Packet, clock: nat, i: Input)
    requires TimersOk(t, clock) && ClockOk(clock, i)
    ensures TimersOk(HandleVerifiedPacket(t, p, i).0, i.sent)
  {
    hide TimersOk, HandleHandshakeInit, HandleHandshakeResponse, HandleCookieReply, HandleData;
    SameTimers(t, t, clock, i.sent);
    match p
    case HandshakeInit(_, _, _, _) => HandshakeInitKeepsTimers(t, p, i);
    case HandshakeResponse(_, _, _, _) => HandshakeResponseKeepsTimers(t, p, i);
    case PacketCookieReply(_, _, _) => CookieReplyKeepsTimers(t, p, i.sent);
    case PacketData(_, _, _) => DataKeepsTimers(t, p, i.sent);
  }

  lemma HandshakeInitKeepsTimers(t: Tunnel, p: Packet, i: Input)
    requires TimersOk(t, i.sent) && p.HandshakeInit?
    ensures TimersOk(HandleHandshakeInit(t, p, i).0, i.sent)
  {
    hide TimersOk, Tick, TickSessionEstablished, H.ReceiveInitiation;
    var (h, r) := H.ReceiveInitiation(t.handshake, p, i.dstLen, i.ephemeral);
    SameTimers(t, t.(handshake := h), i.sent, i.sent);
    if r.Ok? {
      var (_, session) := r.value;
      var t1 := t.(handshake := h, sessions := t.sessions[session.localIndex % N_SESSIONS := Some(session)]);
      SameTimers(t, t1, i.sent, i.sent);
      TickKeepsTimers(t1, TimeLastPacketReceived, i.sent);
      TickKeepsTimers(Tick(t1, TimeLastPacketReceived), TimeLastPacketSent, i.sent);
      EstablishedKeepsTimers(Tick(Tick(t1, TimeLastPacketReceived), TimeLastPacketSent), false, session.localIndex,
                             i.sent);
    }
  }

  lemma HandshakeResponseKeepsTimers(t: Tunnel, p: Packet, i: Input)
    requires TimersOk(t, i.sent) && p.HandshakeResponse?
    ensures TimersOk(HandleHandshakeResponse(t, p, i).0, i.sent)
  {
    hide TimersOk, Tick, TickSessionEstablished, H.ReceiveResponse, S.FormatPacketData;
    var (h, r) := H.ReceiveResponse(t.handshake, p, i.later);
    SameTimers(t, t.(handshake := h), i.sent, i.sent);
    if r.Ok? {
      var index := r.value.localIndex;
      var s := S.FormatPacketData(r.value, []).0;
      var t1 := t.(handshake := h, sessions := t.sessions[index % N_SESSIONS := Some(s)]);
      SameTimers(t, t1, i.sent, i.sent);
      TickKeepsTimers(t1, TimeLastPacketReceived, i.sent);
      var t2 := TickSessionEstablished(Tick(t1, TimeLastPacketReceived), true, index);
      EstablishedKeepsTimers(Tick(t1, TimeLastPacketReceived), true, index, i.sent);
      SameTimers(t2, SetCurrent(t2, index), i.sent, i.sent);
    }
  }

  lemma CookieReplyKeepsTimers(t: Tunnel, p: Packet, clock: nat)
    requires TimersOk(t, clock) && p.PacketCookieReply?
    ensures TimersOk(HandleCookieReply(t, p).0, clock)
  {
    hide TimersOk, Tick, H.ReceiveCookieReply;
    var t1 := t.(handshake := H.ReceiveCookieReply(t.handshake, p).0);
    SameTimers(t, t1, clock, clock);
    TickKeepsTimers(t1, TimeLastPacketReceived, clock);
    TickKeepsTimers(Tick(t1, TimeLastPacketReceived), TimeCookieReceived, clock);
  }

  lemma DataKeepsTimers(t: Tunnel, p: Packet, clock: nat)
    requires TimersOk(t, clock) && p.PacketData?
    ensures TimersOk(HandleData(t, p).0, clock)
  {
    hide TimersOk, Tick, S.ReceivePacketData, SetCurrent, ValidatePacket;
    var slot := p.receiverIdx % N_SESSIONS;
    if t.sessions[slot].Some? {
      var (s, r) := S.ReceivePacketData(t.sessions[slot].value, p);
      var t1 := t.(sessions := t.sessions[slot := Some(s)]);
      SameTimers(t, t1, clock, clock);
      CurrentKeepsTimers(t1, p.receiverIdx, clock);
      TickKeepsTimers(SetCurrent(t1, p.receiverIdx), TimeLastPacketReceived, clock);
      if r.Ok? {
        ValidateKeepsTimers(Tick(SetCurrent(t1, p.receiverIdx), TimeLastPacketReceived), r.value, clock);
      }
    }
  }

  lemma CurrentKeepsTimers(t: Tunnel, index: nat, clock: nat)
    requires TimersOk(t, clock)
    ensures TimersOk(SetCurrent(t, index), clock)
  {
  }

  lemma ValidateKeepsTimers(t: Tunnel, packet: Bytes, clock: nat)
    requires TimersOk(t, clock)
    ensures TimersOk(ValidatePacket(t, packet).0, clock)
  {
    hide IpHeader;
  }

  lemma BeginUpdateKeepsTimers(t: Tunnel, clock: nat, i: Input)
    requires TimersOk(t, clock) && ClockOk(clock, i)
    ensures TimersOk(BeginUpdate(t, i), i.now)
  {
  }

  lemma UpdateEstablishedKeepsTimers(t: Tunnel, i: Input)
    requires TimersOk(t, i.now) && ClockOk(i.now, i)
    ensures TimersOk(UpdateEstablished(t, i).0, i.sent)
  {
    hide FormatInitiation, Encapsulate, RekeyDue, SilenceDue, KeepaliveDue, PersistentKeepaliveDue;
    var t1 := if SilenceDue(t.timers) then t.(timers := t.timers.(wantHandshake := false)) else t;
    InitiationKeepsTimers(t1, true, i.now, i);
    var t2 := if KeepaliveDue(t.timers) then t1.(timers := t1.timers.(wantKeepalive := false)) else t1;
    TickKeepsTimers(t2, TimePersistentKeepalive, i.now);
    var t3 := if PersistentKeepaliveDue(t.timers) then Tick(t2, TimePersistentKeepalive) else t2;
    assert TimersOk(t3, i.now);
    EncapsulateKeepsTimers(t3, [], i.now, i);
  }

  lemma SameTimers(t: Tunnel, u: Tunnel, clock: nat, later: nat)
    requires TimersOk(t, clock) && u.timers == t.timers && clock <= later
    ensures TimersOk(u, later)
  {
  }

  lemma DropOldCookieOnly(t: Tunnel)
    ensures var u := DropOldCookie(t);
            && u == t.(handshake := t.handshake.(cookies := u.handshake.cookies))
            && u.handshake.cookies == t.handshake.cookies.(writeCookie := u.handshake.cookies.writeCookie)
  {
  }

  lemma UpdateKeepsTimers(t: Tunnel, clock: nat, i: Input)
    requires TimersOk(t, clock) && ClockOk(clock, i)
    ensures TimersOk(UpdateTimers(t, i).0, i.sent)
  {
    BeginUpdateKeepsTimers(t, clock, i);
    hide BeginUpdate, DropOldCookie, FormatInitiation, UpdateEstablished, ClearAll, TimersOk;
    var t1 := BeginUpdate(t, i);
    var t2 := DropOldCookie(t1);
    SameTimers(t1, t1, i.now, i.sent);
    SameTimers(t1, t2, i.now, i.now) by { DropOldCookieOnly(t1); }
    SameTimers(t2, t2, i.now, i.sent);
    SameTimers(t2, t2.(handshake := H.SetExpired(t2.handshake)), i.now, i.now);
    ClearKeepsTimers(t2.(handshake := H.SetExpired(t2.handshake)), i.now, i.later);
    SameTimers(ExpireConnection(t2, i.later).0, ExpireConnection(t2, i.later).0, i.later, i.sent);
    InitiationKeepsTimers(t2, true, i.now, i);
    UpdateEstablishedKeepsTimers(t2, i);
  }

  lemma StepKeepsTimers(t: Tunnel, e: Event, clock: nat)
    requires TimersOk(t, clock) && ClockOk(clock, InputOf(e))
    ensures TimersOk(Step(t, e).0, InputOf(e).sent)
  {
    hide Encapsulate, HandleVerifiedPacket, UpdateTimers;
    match e
    case Send(src, i) => EncapsulateKeepsTimers(t, src, clock, i);
    case Receive(p, i) => ReceiveKeepsTimers(t, p, clock, i);
    case Flush(i) =>
      if t.queue != [] {
        EncapsulateKeepsTimers(t.(queue := t.queue[1..]), t.queue[0], clock, i);
      }
    case TimerEvent(i) => UpdateKeepsTimers(t, clock, i);
    case Rekey(_, _) =>
  }

  // Structure: indexes, expiry and the queue

  ghost predicate StructureOk(t: Tunnel, peer: nat) {
    IndexesOk(t, peer) && ExpiredIsQuiet(t) && QueueOk(t)
  }

  /** The buffer holds at least a handshake initiation, as callers are told to provide. */
  predicate InputOk(i: Input) {
    i.dstLen >= HANDSHAKE_INIT_SZ
  }

  lemma FormatInitiationIndexes(h: H.State, peer: nat, i: Input)
    requires HandshakeIndexesOk(h, peer)
    ensures var h' := H.FormatInitiation(h, i.dstLen, i.ephemeral, i.sent).0;
            HandshakeIndexesOk(h', peer)
    ensures InputOk(i) ==> H.FormatInitiation(h, i.dstLen, i.ephemeral, i.sent).1.Ok?
    ensures InputOk(i) ==> H.FormatInitiation(h, i.dstLen, i.ephemeral, i.sent).0.state.InitSent?
  {
    HP.IncIndexKeepsPeer(h.nextIndex);
    hide Mac16, Encode, H.InitiationFields, H.IncIndex;
  }

  lemma ReceiveInitiationIndexes(h: H.State, p: Packet, peer: nat, i: Input)
    requires HandshakeIndexesOk(h, peer) && p.HandshakeInit?
    ensures var (h', r) := H.ReceiveInitiation(h, p, i.dstLen, i.ephemeral);
            && HandshakeIndexesOk(h', peer)
            && (r.Ok? ==> r.value.1.localIndex / 256 == peer)
            && (h'.state.Expired? ==> h' == h && r.Err?)
  {
    HP.IncIndexKeepsPeer(h.nextIndex);
    hide H.ReadInitiation, H.After, Mac16, Encode, H.ResponderKey, H.IncIndex;
  }

  lemma ReceiveResponseIndexes(h: H.State, p: Packet, peer: nat, i: Input)
    requires HandshakeIndexesOk(h, peer) && p.HandshakeResponse?
    requires h.state.Expired? ==> h.previous.Expired?
    ensures var (h', r) := H.ReceiveResponse(h, p, i.later);
            && HandshakeIndexesOk(h', peer)
            && (r.Ok? ==> r.value.localIndex / 256 == peer)
            && (h'.state.Expired? ==> h' == h && r.Err?)
  {
    hide H.ResponseKey;
  }

  lemma InitiationKeepsStructure(t: Tunnel, force: bool, peer: nat, i: Input)
    requires IndexesOk(t, peer) && QueueOk(t) && InputOk(i)
    ensures StructureOk(FormatInitiation(t, force, i).0, peer) || FormatInitiation(t, force, i) == (t, Done)
    ensures FormatInitiation(t, force, i) == (t, Done) ==> H.InProgress(t.handshake)
    ensures var u := FormatInitiation(t, force, i).0;
            u.sessions == t.sessions && u.queue == t.queue && u.current == t.current
  {
    FormatInitiationIndexes(t.handshake, peer, i);
    hide H.FormatInitiation;
  }

  lemma EncapsulateKeepsStructure(t: Tunnel, src: Bytes, peer: nat, i: Input)
    requires StructureOk(t, peer) && InputOk(i)
    ensures StructureOk(Encapsulate(t, src, i).0, peer) && !Encapsulate(t, src, i).1.Fault?
  {
    if CurrentSession(t).Some? {
      SendingKeepsStructure(t, src, peer, i);
    } else {
      InitiationKeepsStructure(QueuePacket(t, src), false, peer, i);
      NotFault(QueuePacket(t, src), false, i);
      hide FormatInitiation, S.FormatPacketData;
    }
  }

  lemma SendingKeepsStructure(t: Tunnel, src: Bytes, peer: nat, i: Input)
    requires StructureOk(t, peer) && CurrentSession(t).Some?
    ensures StructureOk(Encapsulate(t, src, i).0, peer) && !Encapsulate(t, src, i).1.Fault?
  {
    hide S.FormatPacketData, FormatInitiation, HandshakeIndexesOk;
    SendKeepsIndexes(CurrentSession(t).value, src);
  }

  lemma NotFault(t: Tunnel, force: bool, i: Input)
    requires InputOk(i)
    ensures !FormatInitiation(t, force, i).1.Fault?
  {
    hide Mac16, Encode, H.InitiationFields, H.IncIndex;
  }

  lemma SendKeepsIndexes(s: S.Session, src: Bytes)
    ensures S.FormatPacketData(s, src).0.localIndex == s.localIndex
  {
  }

  lemma ReceiveKeepsStructure(t: Tunnel, p: Packet, peer: nat, i: Input)
    requires StructureOk(t, peer)
    ensures StructureOk(HandleVerifiedPacket(t, p, i).0, peer)
  {
    hide StructureOk, HandleHandshakeInit, HandleHandshakeResponse, HandleCookieReply, HandleData;
    match p
    case HandshakeInit(_, _, _, _) => HandshakeInitKeepsStructure(t, p, peer, i);
    case HandshakeResponse(_, _, _, _) => HandshakeResponseKeepsStructure(t, p, peer, i);
    case PacketCookieReply(_, _, _) => CookieReplyKeepsStructure(t, p, peer);
    case PacketData(_, _, _) => DataKeepsStructure(t, p, peer);
  }

  lemma HandshakeInitKeepsStructure(t: Tunnel, p: Packet, peer: nat, i: Input)
    requires StructureOk(t, peer) && p.HandshakeInit?
    ensures StructureOk(HandleHandshakeInit(t, p, i).0, peer)
  {
    hide H.ReceiveInitiation, HandshakeIndexesOk;
    ReceiveInitiationIndexes(t.handshake, p, peer, i);
  }

  lemma HandshakeResponseKeepsStructure(t: Tunnel, p: Packet, peer: nat, i: Input)
    requires StructureOk(t, peer) && p.HandshakeResponse?
    ensures StructureOk(HandleHandshakeResponse(t, p, i).0, peer)
  {
    hide H.ReceiveResponse, S.FormatPacketData, HandshakeIndexesOk;
    ReceiveResponseIndexes(t.handshake, p, peer, i);
    var r := H.ReceiveResponse(t.handshake, p, i.later).1;
    if r.Ok? {
      SendKeepsIndexes(r.value, []);
    }
  }

  lemma CookieReplyKeepsStructure(t: Tunnel, p: Packet, peer: nat)
    requires StructureOk(t, peer) && p.PacketCookieReply?
    ensures StructureOk(HandleCookieReply(t, p).0, peer)
  {
    hide XOpen;
  }

  lemma DataKeepsStructure(t: Tunnel, p: Packet, peer: nat)
    requires StructureOk(t, peer) && p.PacketData?
    ensures StructureOk(HandleData(t, p).0, peer)
  {
    hide S.ReceivePacketData, IpHeader, HandshakeIndexesOk;
    var session := t.sessions[p.receiverIdx % 8];
    if session.Some? {
      ReceiveDataKeepsIndexes(session.value, p);
    }
  }

  lemma ReceiveDataKeepsIndexes(s: S.Session, p: Packet)
    requires p.PacketData?
    ensures S.ReceivePacketData(s, p).0.localIndex == s.localIndex
  {
  }

  lemma BeginUpdateKeepsStructure(t: Tunnel, peer: nat, i: Input)
    requires StructureOk(t, peer)
    ensures StructureOk(BeginUpdate(t, i), peer)
  {
  }

  lemma UpdateKeepsStructure(t: Tunnel, peer: nat, i: Input)
    requires StructureOk(t, peer) && InputOk(i)
    ensures StructureOk(UpdateTimers(t, i).0, peer)
  {
    hide BeginUpdate, DropOldCookie, FormatInitiation, UpdateEstablished;
    var t1 := BeginUpdate(t, i);
    BeginUpdateKeepsStructure(t, peer, i);
    var t2 := DropOldCookie(t1);
    DropOldCookieOnly(t1);
    InitiationKeepsStructure(t2, true, peer, i);
    UpdateEstablishedKeepsStructure(t2, peer, i);
  }

  lemma UpdateEstablishedKeepsStructure(t: Tunnel, peer: nat, i: Input)
    requires StructureOk(t, peer) && InputOk(i)
    ensures StructureOk(UpdateEstablished(t, i).0, peer)
  {
    hide FormatInitiation, Encapsulate, RekeyDue, SilenceDue, KeepaliveDue, PersistentKeepaliveDue;
    var t1 := if SilenceDue(t.timers) then t.(timers := t.timers.(wantHandshake := false)) else t;
    var t2 := if KeepaliveDue(t.timers) then t1.(timers := t1.timers.(wantKeepalive := false)) else t1;
    var t3 := if PersistentKeepaliveDue(t.timers) then Tick(t2, TimePersistentKeepalive) else t2;
    assert StructureOk(t1, peer) && StructureOk(t3, peer);
    InitiationKeepsStructure(t1, true, peer, i);
    EncapsulateKeepsStructure(t3, [], peer, i);
  }

  lemma StepKeepsStructure(t: Tunnel, e: Event, peer: nat)
    requires StructureOk(t, peer) && InputOk(InputOf(e))
    ensures StructureOk(Step(t, e).0, peer)
  {
    hide Encapsulate, HandleVerifiedPacket, UpdateTimers;
    match e
    case Send(src, i) => EncapsulateKeepsStructure(t, src, peer, i);
    case Receive(p, i) => ReceiveKeepsStructure(t, p, peer, i);
    case Flush(i) =>
      if t.queue != [] {
        EncapsulateKeepsStructure(t.(queue := t.queue[1..]), t.queue[0], peer, i);
      }
    case TimerEvent(i) => UpdateKeepsStructure(t, peer, i);
    case Rekey(_, _) =>
  }

  // Packet counts

  /** Every session's receive counter counts the counters it accepted. */
  ghost predicate CountsOk(t: Tunnel) {
    forall k | 0 <= k < 8 && t.sessions[k].Some? :: S.Counted(t.sessions[k].value)
  }

  /** A data packet with the last counter of all, whose acceptance wraps the window. */
  predicate CarriesLastCounter(e: Event) {
    e.Receive? && e.packet.PacketData? && e.packet.counter == R.LAST_COUNTER
  }

  lemma EncapsulateKeepsCounts(t: Tunnel, src: Bytes, i: Input)
    requires CountsOk(t)
    ensures CountsOk(Encapsulate(t, src, i).0)
  {
    hide S.Counted, H.FormatInitiation;
    if CurrentSession(t).Some? {
      SendKeepsCount(CurrentSession(t).value, src);
      hide S.FormatPacketData;
    }
  }

  lemma SendKeepsCount(s: S.Session, src: Bytes)
    requires S.Counted(s)
    ensures S.Counted(S.FormatPacketData(s, src).0)
  {
    hide Seal, CounterNonce, Encode;
  }

  lemma NewSessionCounts(h: H.State, p: Packet, i: Input)
    ensures p.HandshakeInit? ==>
              var r := H.ReceiveInitiation(h, p, i.dstLen, i.ephemeral).1;
              r.Ok? ==> S.Counted(r.value.1)
    ensures p.HandshakeResponse? ==>
              var r := H.ReceiveResponse(h, p, i.later).1;
              r.Ok? ==> S.Counted(r.value)
  {
    hide H.ReadInitiation, H.After, H.AppendMacs, H.ResponderKey, H.ResponseKey, Encode;
  }

  lemma ReceiveKeepsCounts(t: Tunnel, p: Packet, i: Input)
    requires CountsOk(t) && !CarriesLastCounter(Receive(p, i))
    ensures CountsOk(HandleVerifiedPacket(t, p, i).0)
  {
    hide S.Counted, H.ReceiveInitiation, H.ReceiveResponse, H.ReceiveCookieReply, S.ReceivePacketData,
         S.FormatPacketData, IpHeader;
    NewSessionCounts(t.handshake, p, i);
    if p.HandshakeResponse? && H.ReceiveResponse(t.handshake, p, i.later).1.Ok? {
      SendKeepsCount(H.ReceiveResponse(t.handshake, p, i.later).1.value, []);
    } else if p.PacketData? && t.sessions[p.receiverIdx % N_SESSIONS].Some? {
      S.ReceiveIsSound(t.sessions[p.receiverIdx % N_SESSIONS].value, p);
    }
  }

  lemma SameSessionsKeepCounts(t: Tunnel, u: Tunnel)
    requires CountsOk(t) && forall k | 0 <= k < 8 && u.sessions[k].Some? :: u.sessions[k] == t.sessions[k]
    ensures CountsOk(u)
  {
    hide S.Counted;
  }

  lemma InitiationKeepsSessions(t: Tunnel, force: bool, i: Input)
    ensures FormatInitiation(t, force, i).0.sessions == t.sessions
  {
    hide H.FormatInitiation;
  }

  lemma UpdateEstablishedKeepsCounts(t: Tunnel, i: Input)
    requires CountsOk(t)
    ensures CountsOk(UpdateEstablished(t, i).0)
  {
    hide CountsOk, FormatInitiation, Encapsulate, RekeyDue, SilenceDue, KeepaliveDue, PersistentKeepaliveDue;
    var t1 := if SilenceDue(t.timers) then t.(timers := t.timers.(wantHandshake := false)) else t;
    var t2 := if KeepaliveDue(t.timers) then t1.(timers := t1.timers.(wantKeepalive := false)) else t1;
    var t3 := if PersistentKeepaliveDue(t.timers) then Tick(t2, TimePersistentKeepalive) else t2;
    InitiationKeepsSessions(t1, true, i);
    SameSessionsKeepCounts(t, FormatInitiation(t1, true, i).0);
    SameSessionsKeepCounts(t, t3);
    EncapsulateKeepsCounts(t3, [], i);
  }

  lemma BeginUpdateSessions(t: Tunnel, i: Input)
    ensures forall k | 0 <= k < 8 && BeginUpdate(t, i).sessions[k].Some? ::
            BeginUpdate(t, i).sessions[k] == t.sessions[k]
  {
  }

  lemma UpdateKeepsCounts(t: Tunnel, i: Input)
    requires CountsOk(t)
    ensures CountsOk(UpdateTimers(t, i).0)
  {
    hide CountsOk, BeginUpdate, DropOldCookie, FormatInitiation, UpdateEstablished;
    var t1 := BeginUpdate(t, i);
    BeginUpdateSessions(t, i);
    SameSessionsKeepCounts(t, t1);
    DropOldCookieOnly(t1);
    var t2 := DropOldCookie(t1);
    SameSessionsKeepCounts(t, t2);
    InitiationKeepsSessions(t2, true, i);
    SameSessionsKeepCounts(t, FormatInitiation(t2, true, i).0);
    SameSessionsKeepCounts(t, ExpireConnection(t2, i.later).0);
    UpdateEstablishedKeepsCounts(t2, i);
  }

  lemma StepKeepsCounts(t: Tunnel, e: Event)
    requires CountsOk(t) && !CarriesLastCounter(e)
    ensures CountsOk(Step(t, e).0)
  {
    hide Encapsulate, HandleVerifiedPacket, UpdateTimers, S.Counted;
    match e
    case Send(src, i) => EncapsulateKeepsCounts(t, src, i);
    case Receive(p, i) => ReceiveKeepsCounts(t, p, i);
    case Flush(i) =>
      if t.queue != [] {
        EncapsulateKeepsCounts(t.(queue := t.queue[1..]), t.queue[0], i);
      }
    case TimerEvent(i) => UpdateKeepsCounts(t, i);
    case Rekey(_, _) =>
  }
}
