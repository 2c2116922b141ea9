/** Keepalives: when an update sends an empty packet over a live session, what the peer makes of it, and
    that silence does not go unnoticed. */
module TunnelKeepalive {
  import opened Wrappers
  import opened Crypto
  import opened Wire
  import S = Session
  import R = ReplayWindow
  import H = HandshakeSpec
  import opened TunnelSpec
  import opened TunnelInvariants
  import opened TunnelRuns
  import opened TunnelFlush

  /** Data came in, nothing went out since for 10 seconds, and this was not yet made up for. */
  predicate PassiveDue(tm: Timers, now: nat) {
    tm.values.dataReceived > tm.values.packetSent && now - tm.values.packetSent >= 10 * SECOND && tm.wantKeepalive
  }

  /** The configured interval, if there is one, has passed since the last time. */
  predicate PersistentDue(tm: Timers, now: nat) {
    tm.persistentKeepalive > 0 && now - tm.values.keepalive >= tm.persistentKeepalive * SECOND
  }

  function Age(t: Tunnel, i: Input): int {
    H.Since(i.now, t.timers.timeStarted) - t.timers.values.sessionEstablished
  }

  /** An established tunnel after an update that starts no handshake: an empty packet goes out over the
      session exactly if one is due, which then starts the waiting anew; otherwise nothing happens. */
  ghost predicate Kept(t: Tunnel, session: S.Session, now: nat, u: Tunnel, r: TunnResult) {
    var (tm, v) := (t.timers, u.timers.values);
    if PassiveDue(tm, now) || PersistentDue(tm, now) then
      && r == WriteToNetwork(S.FormatPacketData(session, []).1)
      && CurrentSession(u) == Some(S.FormatPacketData(session, []).0)
      && v == tm.values.(current := now, packetSent := now,
                         keepalive := if PersistentDue(tm, now) then now else tm.values.keepalive)
      && !u.timers.wantKeepalive && u.timers.wantHandshake
    else
      && r == Done
      && CurrentSession(u) == Some(session)
      && v == tm.values.(current := now)
      && u.timers.wantKeepalive == tm.wantKeepalive && u.timers.wantHandshake == tm.wantHandshake
  }

  lemma EstablishedKeepsAlive(t: Tunnel, i: Input)
    requires CurrentSession(t).Some? && !RekeyDue(t.timers)
    ensures var (u, r) := UpdateEstablished(t, i);
            Kept(t, CurrentSession(t).value, t.timers.values.current, u, r) && u.handshake == t.handshake
  {
    hide FormatInitiation, S.FormatPacketData;
  }

  lemma BeginUpdateTimers(t: Tunnel, i: Input)
    ensures var u := BeginUpdate(t, i);
            && u.handshake == t.handshake && u.queue == t.queue && u.current == t.current
            && u.timers == t.timers.(values := t.timers.values.(current := H.Since(i.now, t.timers.timeStarted)),
                                     sessionTimers := u.timers.sessionTimers)
  {
  }

  /** With a live session, no response to wait for, and keys younger than 540 seconds, an update that
      does not start a handshake sends an empty packet exactly if data was received and nothing sent
      for 10 seconds, or the persistent interval has passed. */
  lemma UpdateKeepsAlive(t: Tunnel, i: Input)
    requires InputOk(i) && !t.handshake.state.Expired? && !t.handshake.state.InitSent?
    requires Age(t, i) < 540 * SECOND && CurrentSession(BeginUpdate(t, i)).Some?
    requires !Sends(t, TimerEvent(i))
    ensures var (u, r) := Step(t, TimerEvent(i));
            && Kept(t, CurrentSession(BeginUpdate(t, i)).value, H.Since(i.now, t.timers.timeStarted), u, r)
            && u.handshake == t.handshake.(cookies := u.handshake.cookies)
  {
    hide BeginUpdate, UpdateEstablished, IsInitiation, Sends, S.FormatPacketData;
    UpdateSendsIff(t, i);
    BeginUpdateTimers(t, i);
    var t1 := BeginUpdate(t, i);
    DropOldCookieOnly(t1);
    EstablishedKeepsAlive(DropOldCookie(t1), i);
  }

  /** The other side takes it for a sign of life and nothing else. */
  lemma KeepaliveArrives(s: S.Session, b: Tunnel, j: Input)
    requires Reaches(s, b) && s.sendCounter + R.N_BITS < U64_SIZE
    ensures var (b1, r) := ReceiveDatagram(b, S.FormatPacketData(s, []).1, j);
            && r == Done && Reaches(S.FormatPacketData(s, []).0, b1)
            && b1.queue == b.queue && b1.rxBytes == b.rxBytes
            && b1.timers.values == b.timers.values.(packetReceived := b.timers.values.current)
            && b1.timers.wantKeepalive && !b1.timers.wantHandshake
  {
    PacketArrives(s, b, [], j);
    SessionRoundTrip(s, b.sessions[s.peerIndex % N_SESSIONS].value, []);
    hide S.FormatPacketData, S.ReceivePacketData, ParseIncomingPacket, InStep;
  }

  /** Both sides: what an update sends over a session is taken for a keepalive by the tunnel that holds
      the mirror image of that session. */
  lemma KeepaliveIsTaken(t: Tunnel, i: Input, b: Tunnel, j: Input)
    requires InputOk(i) && !t.handshake.state.Expired? && !t.handshake.state.InitSent?
    requires Age(t, i) < 540 * SECOND && CurrentSession(BeginUpdate(t, i)).Some?
    requires !Sends(t, TimerEvent(i)) && Step(t, TimerEvent(i)).1.WriteToNetwork?
    requires var s := CurrentSession(BeginUpdate(t, i)).value; Reaches(s, b) && s.sendCounter + R.N_BITS < U64_SIZE
    ensures var (b1, r) := ReceiveDatagram(b, Step(t, TimerEvent(i)).1.wire, j);
            && r == Done && b1.timers.values.packetReceived == b.timers.values.current
            && CurrentSession(Step(t, TimerEvent(i)).0).Some? && Reaches(Current(Step(t, TimerEvent(i)).0), b1)
  {
    hide Step, BeginUpdate, Sends, ReceiveDatagram, S.FormatPacketData, Reaches;
    UpdateKeepsAlive(t, i);
    KeepaliveArrives(CurrentSession(BeginUpdate(t, i)).value, b, j);
  }

  // Silence

  /** No handshake under way, no connection given up. */
  predicate Settled(t: Tunnel) {
    !t.handshake.state.Expired? && !H.InProgress(t.handshake)
  }

  /** Updates that have nothing to do. */
  ghost predicate Idles(t: Tunnel, events: seq<Event>)
    decreases |events|
  {
    events != [] ==>
      && events[0].TimerEvent? && InputOk(events[0].input) && Step(t, events[0]).1 == Done
      && Idles(Step(t, events[0]).0, events[1..])
  }

  function RunOn(t: Tunnel, events: seq<Event>): Tunnel
    decreases |events|
  {
    if events == [] then t else RunOn(Step(t, events[0]).0, events[1..])
  }

  /** The same but for the time, dropped sessions and the cookie. */
  ghost predicate Waits(t: Tunnel, u: Tunnel) {
    && u.handshake == t.handshake.(cookies := u.handshake.cookies)
    && u.timers.values == t.timers.values.(current := u.timers.values.current)
    && u.timers.timeStarted == t.timers.timeStarted && u.timers.isInitiator == t.timers.isInitiator
    && u.timers.persistentKeepalive == t.timers.persistentKeepalive
    && u.timers.wantHandshake == t.timers.wantHandshake && u.timers.wantKeepalive == t.timers.wantKeepalive
  }

  lemma EstablishedWaits(t: Tunnel, i: Input)
    requires InputOk(i) && !H.InProgress(t.handshake) && UpdateEstablished(t, i).1 == Done
    ensures Waits(t, UpdateEstablished(t, i).0)
  {
    hide FormatInitiation, Encapsulate, IsInitiation, RekeyDue, SilenceDue, KeepaliveDue, PersistentKeepaliveDue;
    var t1 := if SilenceDue(t.timers) then t.(timers := t.timers.(wantHandshake := false)) else t;
    var t2 := if KeepaliveDue(t.timers) then t1.(timers := t1.timers.(wantKeepalive := false)) else t1;
    var t3 := if PersistentKeepaliveDue(t.timers) then Tick(t2, TimePersistentKeepalive) else t2;
    InitiationIsSent(t1, true, i);
    SendsSomething(t3, i);
    SilenceStartsRekey(t.timers);
  }

  lemma SilenceStartsRekey(tm: Timers)
    ensures SilenceDue(tm) && tm.wantHandshake ==> RekeyDue(tm)
  {
  }

  /** Without a handshake under way an empty packet goes out at once, or an initiation for it. */
  lemma SendsSomething(t: Tunnel, i: Input)
    requires InputOk(i) && !H.InProgress(t.handshake)
    ensures Encapsulate(t, [], i).1.WriteToNetwork?
  {
    InitiationIsSent(QueuePacket(t, []), false, i);
    hide FormatInitiation, S.FormatPacketData, IsInitiation;
  }

  lemma IdleUpdateWaits(t: Tunnel, i: Input)
    requires InputOk(i) && Settled(t) && Step(t, TimerEvent(i)).1 == Done
    ensures Settled(Step(t, TimerEvent(i)).0) && Waits(t, Step(t, TimerEvent(i)).0)
  {
    BeginUpdateTimers(t, i);
    hide BeginUpdate, UpdateEstablished;
    var t1 := BeginUpdate(t, i);
    DropOldCookieOnly(t1);
    EstablishedWaits(DropOldCookie(t1), i);
  }

  lemma {:induction false} IdlesWait(t: Tunnel, events: seq<Event>)
    requires Settled(t) && Idles(t, events)
    ensures Settled(RunOn(t, events)) && Waits(t, RunOn(t, events))
    decreases |events|
  {
    if events != [] {
      hide Step, Settled;
      IdleUpdateWaits(t, events[0].input);
      IdlesWait(Step(t, events[0]).0, events[1..]);
    }
  }

  /** An update of a settled tunnel that owes an empty packet sends something. */
  lemma OwedIsSent(t: Tunnel, i: Input)
    requires InputOk(i) && Settled(t) && Age(t, i) < 540 * SECOND
    requires PassiveDue(t.timers, H.Since(i.now, t.timers.timeStarted))
             || PersistentDue(t.timers, H.Since(i.now, t.timers.timeStarted))
    ensures Step(t, TimerEvent(i)).1.WriteToNetwork?
  {
    BeginUpdateTimers(t, i);
    hide BeginUpdate, FormatInitiation, Encapsulate;
    var t1 := BeginUpdate(t, i);
    DropOldCookieOnly(t1);
    var t2 := DropOldCookie(t1);
    EstablishedSends(t2, i);
    hide UpdateEstablished;
  }

  lemma EstablishedSends(t: Tunnel, i: Input)
    requires InputOk(i) && !H.InProgress(t.handshake)
    requires PassiveDue(t.timers, t.timers.values.current) || PersistentDue(t.timers, t.timers.values.current)
    ensures UpdateEstablished(t, i).1.WriteToNetwork?
  {
    hide FormatInitiation, Encapsulate, IsInitiation, RekeyDue, SilenceDue;
    var t1 := if SilenceDue(t.timers) then t.(timers := t.timers.(wantHandshake := false)) else t;
    var t2 := if KeepaliveDue(t.timers) then t1.(timers := t1.timers.(wantKeepalive := false)) else t1;
    var t3 := if PersistentKeepaliveDue(t.timers) then Tick(t2, TimePersistentKeepalive) else t2;
    InitiationIsSent(t1, true, i);
    SendsSomething(t3, i);
  }

  predicate IsDelivery(r: TunnResult) {
    r.WriteToTunnelV4? || r.WriteToTunnelV6?
  }

  lemma DeliveryTicks(t: Tunnel, p: Packet, i: Input)
    requires IsDelivery(Step(t, Receive(p, i)).1)
    ensures var u := Step(t, Receive(p, i)).0;
            && u.timers == t.timers.(wantKeepalive := true, wantHandshake := false,
                                     values := t.timers.values.(packetReceived := t.timers.values.current,
                                                                dataReceived := t.timers.values.current))
            && u.handshake == t.handshake
  {
    assert p.PacketData? by {
      hide H.ReceiveInitiation, H.ReceiveResponse, H.ReceiveCookieReply, S.FormatPacketData, HandleData;
    }
    hide S.ReceivePacketData, IpHeader;
  }

  /** Received data does not stay without an answer: if nothing was sent since, and no update found
      anything to do, the first one 10 seconds after the last packet sent sends something. */
  lemma DataIsAnswered(t: Tunnel, p: Packet, i: Input, idle: seq<Event>, last: Input)
    requires Settled(t) && IsDelivery(Step(t, Receive(p, i)).1) && Idles(Step(t, Receive(p, i)).0, idle)
    requires t.timers.values.current > t.timers.values.packetSent && InputOk(last) && Age(t, last) < 540 * SECOND
    requires H.Since(last.now, t.timers.timeStarted) - t.timers.values.packetSent >= 10 * SECOND
    ensures Step(RunOn(Step(t, Receive(p, i)).0, idle), TimerEvent(last)).1.WriteToNetwork?
  {
    DeliveryTicks(t, p, i);
    hide Step;
    IdlesWait(Step(t, Receive(p, i)).0, idle);
    OwedIsSent(RunOn(Step(t, Receive(p, i)).0, idle), last);
  }

  lemma SendTicks(t: Tunnel, src: Bytes, i: Input)
    requires CurrentSession(t).Some? && src != []
    ensures var u := Step(t, Send(src, i)).0;
            && u.timers == t.timers.(wantHandshake := true, wantKeepalive := false,
                                     values := t.timers.values.(packetSent := t.timers.values.current,
                                                                dataSent := t.timers.values.current))
            && u.handshake == t.handshake
  {
    hide S.FormatPacketData, FormatInitiation;
  }

  /** Sent data does not stay unanswered unnoticed: if nothing was received since, and no update found
      anything to do, the first one 15 seconds after the last packet received starts a handshake. */
  lemma SilenceIsNoticed(t: Tunnel, src: Bytes, i: Input, idle: seq<Event>, last: Input)
    requires Settled(t) && CurrentSession(t).Some? && src != [] && Idles(Step(t, Send(src, i)).0, idle)
    requires t.timers.values.current > t.timers.values.packetReceived && InputOk(last) && Age(t, last) < 540 * SECOND
    requires H.Since(last.now, t.timers.timeStarted) - t.timers.values.packetReceived >= 15 * SECOND
    ensures Sends(RunOn(Step(t, Send(src, i)).0, idle), TimerEvent(last))
  {
    SendTicks(t, src, i);
    hide Step, Sends, BeginUpdate;
    IdlesWait(Step(t, Send(src, i)).0, idle);
    UpdateSendsIff(RunOn(Step(t, Send(src, i)).0, idle), last);
  }
}
