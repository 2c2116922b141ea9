/** Timing properties of whole runs: session lifetime, handshake attempts, expiry. */
module TunnelRuns {
  import opened Wrappers
  import opened Crypto
  import opened Wire
  import S = Session
  import H = HandshakeSpec
  import HP = HandshakeProofs
  import opened TunnelSpec
  import opened TunnelInvariants

  /** A handshake initiation goes out on the network. */
  predicate IsInitiation(r: TunnResult) {
    r.WriteToNetwork? && ParseIncomingPacket(r.wire).Ok? && ParseIncomingPacket(r.wire).value.HandshakeInit?
  }

  predicate Sends(t: Tunnel, e: Event) {
    IsInitiation(Step(t, e).1)
  }

  /** The slot into which an event puts a new session. */
  function Installs(t: Tunnel, e: Event): Option<nat> {
    if e.Receive? && e.packet.HandshakeInit? then
      match H.ReceiveInitiation(t.handshake, e.packet, e.input.dstLen, e.input.ephemeral).1
      case Ok((_, session)) => Some(session.localIndex % N_SESSIONS)
      case Err(_) => None
    else if e.Receive? && e.packet.HandshakeResponse? then
      match H.ReceiveResponse(t.handshake, e.packet, e.input.later).1
      case Ok(session) => Some(session.localIndex % N_SESSIONS)
      case Err(_) => None
    else None
  }

  /** A tunnel with what an observer with a clock has seen: the last reading, when the session in
      each slot was installed, and, of the current handshake attempt, how many initiations were
      sent, and when the first and the last. */
  datatype Trace = Trace(
    t: Tunnel,
    clock: nat,
    installed: RingTimes,
    sends: nat,
    firstSent: nat,
    lastSent: nat)

  function Advance(tr: Trace, e: Event): Trace {
    var i := InputOf(e);
    var (slot, sent, started) := (Installs(tr.t, e), Sends(tr.t, e), tr.t.handshake.state.InitSent?);
    Trace(Step(tr.t, e).0, i.sent,
          if slot.Some? && slot.value < 8 then tr.installed[slot.value := i.now] else tr.installed,
          if !sent then tr.sends else if started then tr.sends + 1 else 1,
          if sent && !started then i.sent else tr.firstSent,
          if sent then i.sent else tr.lastSent)
  }

  function Exec(tr: Trace, events: seq<Event>): Trace {
    if events == [] then tr else Advance(Exec(tr, events[..|events| - 1]), events[|events| - 1])
  }

  function LastReading(clock: nat, events: seq<Event>): nat {
    if events == [] then clock else InputOf(events[|events| - 1]).sent
  }

  /** The readings of the clock never go back, and the buffers are as large as documented. */
  ghost predicate Legal(clock: nat, events: seq<Event>) {
    events == [] ||
    var (before, i) := (events[..|events| - 1], InputOf(events[|events| - 1]));
    Legal(clock, before) && InputOk(i) && ClockOk(LastReading(clock, before), i)
  }

  // Session lifetime

  ghost predicate InstalledOk(tr: Trace) {
    forall k | 0 <= k < 8 && tr.t.sessions[k].Some? ::
      tr.t.timers.sessionTimers[k] + tr.t.timers.timeStarted <= tr.installed[k]
  }

  /** No session appears, and the session timers stay. */
  ghost predicate NoInstall(t: Tunnel, u: Tunnel) {
    && u.timers.sessionTimers == t.timers.sessionTimers
    && u.timers.timeStarted == t.timers.timeStarted
    && forall k | 0 <= k < 8 && u.sessions[k].Some? :: t.sessions[k].Some?
  }

  lemma InitiationInstallsNothing(t: Tunnel, force: bool, i: Input)
    ensures NoInstall(t, FormatInitiation(t, force, i).0)
  {
    hide H.FormatInitiation;
  }

  lemma EncapsulateInstallsNothing(t: Tunnel, src: Bytes, i: Input)
    ensures NoInstall(t, Encapsulate(t, src, i).0)
  {
    hide FormatInitiation, S.FormatPacketData;
    InitiationInstallsNothing(QueuePacket(t, src), false, i);
  }

  lemma UpdateEstablishedInstallsNothing(t: Tunnel, i: Input)
    ensures NoInstall(t, UpdateEstablished(t, i).0)
  {
    hide FormatInitiation, Encapsulate, RekeyDue, SilenceDue, KeepaliveDue, PersistentKeepaliveDue;
    var t1 := if SilenceDue(t.timers) then t.(timers := t.timers.(wantHandshake := false)) else t;
    var t2 := if KeepaliveDue(t.timers) then t1.(timers := t1.timers.(wantKeepalive := false)) else t1;
    var t3 := if PersistentKeepaliveDue(t.timers) then Tick(t2, TimePersistentKeepalive) else t2;
    InitiationInstallsNothing(t1, true, i);
    EncapsulateInstallsNothing(t3, [], i);
  }

  lemma UpdateInstallsNothing(t: Tunnel, i: Input)
    ensures NoInstall(BeginUpdate(t, i), UpdateTimers(t, i).0)
  {
    hide BeginUpdate, DropOldCookie, FormatInitiation, UpdateEstablished;
    var t2 := DropOldCookie(BeginUpdate(t, i));
    DropOldCookieOnly(BeginUpdate(t, i));
    InitiationInstallsNothing(t2, true, i);
    UpdateEstablishedInstallsNothing(t2, i);
  }

  /** What survives the start of an update is young, and has the timer it had before. */
  lemma BeginUpdateDropsOld(t: Tunnel, i: Input)
    ensures var u := BeginUpdate(t, i);
            && u.timers.timeStarted == t.timers.timeStarted
            && forall k | 0 <= k < 8 && u.sessions[k].Some? ::
                 && t.sessions[k].Some?
                 && u.timers.sessionTimers[k] == t.timers.sessionTimers[k]
                 && H.Since(i.now, t.timers.timeStarted) - u.timers.sessionTimers[k] <= REJECT_AFTER_TIME
  {
  }

  lemma ReceiveInstalls(tr: Trace, p: Packet, i: Input)
    requires TimersOk(tr.t, tr.clock) && ClockOk(tr.clock, i) && InstalledOk(tr)
    ensures InstalledOk(Advance(tr, Receive(p, i)))
  {
    hide H.ReceiveInitiation, H.ReceiveResponse, H.ReceiveCookieReply, S.ReceivePacketData, S.FormatPacketData, Sends,
         ValidatePacket;
    if p.PacketData? && tr.t.sessions[p.receiverIdx % N_SESSIONS].Some? {
      DataInstallsNothing(tr.t, p);
    }
  }

  lemma DataInstallsNothing(t: Tunnel, p: Packet)
    requires p.PacketData? && t.sessions[p.receiverIdx % N_SESSIONS].Some?
    ensures NoInstall(t, HandleData(t, p).0)
  {
    hide S.ReceivePacketData, IpHeader;
  }

  lemma AdvanceKeepsInstalled(tr: Trace, e: Event)
    requires TimersOk(tr.t, tr.clock) && ClockOk(tr.clock, InputOf(e)) && InstalledOk(tr)
    ensures InstalledOk(Advance(tr, e))
  {
    hide Encapsulate, HandleVerifiedPacket, UpdateTimers, BeginUpdate, Sends;
    match e
    case Send(src, i) => EncapsulateInstallsNothing(tr.t, src, i);
    case Receive(p, i) => ReceiveInstalls(tr, p, i);
    case Flush(i) =>
      if tr.t.queue != [] {
        EncapsulateInstallsNothing(tr.t.(queue := tr.t.queue[1..]), tr.t.queue[0], i);
      }
    case TimerEvent(i) =>
      UpdateInstallsNothing(tr.t, i);
      BeginUpdateDropsOld(tr.t, i);
    case Rekey(_, _) =>
  }

  // Handshake attempts

  /** Which datagrams are initiations. */
  lemma InitiationIsSent(t: Tunnel, force: bool, i: Input)
    requires InputOk(i)
    ensures var (u, r) := FormatInitiation(t, force, i);
            && (IsInitiation(r) <==> r.WriteToNetwork?)
            && (IsInitiation(r) <==> !H.InProgress(t.handshake) || force)
            && (IsInitiation(r) ==> u.handshake.state.InitSent? && u.handshake.state.timeSent == i.sent)
            && (H.InProgress(t.handshake) ==> u.timers.values.handshakeStarted == t.timers.values.handshakeStarted)
            && (!IsInitiation(r) ==> u == t)
  {
    if !H.InProgress(t.handshake) || force {
      HP.InitiationParses(t.handshake, i.dstLen, i.ephemeral, i.sent);
    }
    hide H.FormatInitiation, ParseIncomingPacket;
  }

  lemma DataIsNoInitiation(s: S.Session, src: Bytes)
    ensures !IsInitiation(WriteToNetwork(S.FormatPacketData(s, src).1))
  {
    hide Seal, CounterNonce, ParseIncomingPacket, Encode;
    var p := PacketData(s.peerIndex, s.sendCounter, Seal(s.sendingKey, CounterNonce(s.sendCounter), src, []));
    assert Encode(p) + [] == Encode(p);
    ParseEncoded(p, []);
  }

  lemma ResponseIsNoInitiation(h: H.State, p: Packet, i: Input)
    requires p.HandshakeInit?
    ensures var r := H.ReceiveInitiation(h, p, i.dstLen, i.ephemeral).1;
            r.Ok? ==> !IsInitiation(WriteToNetwork(r.value.0))
  {
    hide ParseIncomingPacket, H.ReadInitiation, H.After, H.FormatResponse;
    if H.ReceiveInitiation(h, p, i.dstLen, i.ephemeral).1.Ok? {
      var (time, t) := H.ReadInitiation(h.params, p).value;
      var s := h.(lastTimestamp := time, previous := h.state,
                  state := H.InitReceived(t.h, t.ck, p.ephemeral, p.senderIdx));
      if i.dstLen < HANDSHAKE_RESP_SZ {
        TooSmall(s, i);
      }
      HP.ResponseParses(s, i.dstLen, i.ephemeral);
    }
  }

  lemma TooSmall(s: H.State, i: Input)
    requires s.state.InitReceived? && i.dstLen < HANDSHAKE_RESP_SZ
    ensures H.FormatResponse(s, i.dstLen, i.ephemeral).1.Err?
  {
  }

  lemma EncapsulateSends(t: Tunnel, src: Bytes, i: Input)
    requires InputOk(i)
    ensures var (u, r) := Encapsulate(t, src, i);
            && (IsInitiation(r) ==>
                  && !H.InProgress(t.handshake) && u.handshake.state.InitSent?
                  && u.handshake.state.timeSent == i.sent)
            && (!IsInitiation(r) ==>
                  && u.handshake == t.handshake
                  && u.timers.values.handshakeStarted == t.timers.values.handshakeStarted)
            && !r.Fault?
  {
    InitiationIsSent(QueuePacket(t, src), false, i);
    NotFault(QueuePacket(t, src), false, i);
    hide FormatInitiation, S.FormatPacketData, IsInitiation;
    if CurrentSession(t).Some? {
      DataIsNoInitiation(CurrentSession(t).value, src);
    }
  }

  /** Receiving never sends an initiation, and never starts or moves an attempt. */
  lemma ReceiveSends(t: Tunnel, p: Packet, i: Input)
    ensures var (u, r) := HandleVerifiedPacket(t, p, i);
            && !IsInitiation(r)
            && u.timers.values.handshakeStarted == t.timers.values.handshakeStarted
            && (u.handshake.state.InitSent? ==> u.handshake.state == t.handshake.state)
  {
    hide H.ReceiveInitiation, H.ReceiveResponse, S.ReceivePacketData, S.FormatPacketData, IpHeader, XOpen,
         ParseIncomingPacket;
    match p
    case HandshakeInit(_, _, _, _) =>
      ResponseIsNoInitiation(t.handshake, p, i);
      ReceiveInitiationEnds(t.handshake, p, i);
    case HandshakeResponse(_, _, _, _) =>
      ReceiveResponseEnds(t.handshake, p, i);
      var r := H.ReceiveResponse(t.handshake, p, i.later).1;
      if r.Ok? {
        DataIsNoInitiation(r.value, []);
      }
    case PacketCookieReply(_, _, _) =>
    case PacketData(_, _, _) =>
  }

  lemma ReceiveInitiationEnds(h: H.State, p: Packet, i: Input)
    requires p.HandshakeInit?
    ensures var h' := H.ReceiveInitiation(h, p, i.dstLen, i.ephemeral).0;
            h'.state.InitSent? ==> h'.state == h.state
  {
    hide H.ReadInitiation, H.After, H.ResponderKey, Mac16, Encode, H.IncIndex;
  }

  lemma ReceiveResponseEnds(h: H.State, p: Packet, i: Input)
    requires p.HandshakeResponse?
    ensures var h' := H.ReceiveResponse(h, p, i.later).0;
            h'.state.InitSent? ==> h'.state == h.state
  {
    hide H.ResponseKey;
  }

  lemma UpdateEstablishedSends(t: Tunnel, i: Input)
    requires InputOk(i) && !t.handshake.state.InitSent?
    ensures var (u, r) := UpdateEstablished(t, i);
            && (IsInitiation(r) ==> u.handshake.state.InitSent? && u.handshake.state.timeSent == i.sent)
            && (!IsInitiation(r) ==> !u.handshake.state.InitSent?)
  {
    hide FormatInitiation, Encapsulate, RekeyDue, SilenceDue, KeepaliveDue, PersistentKeepaliveDue, IsInitiation;
    var t1 := if SilenceDue(t.timers) then t.(timers := t.timers.(wantHandshake := false)) else t;
    var t2 := if KeepaliveDue(t.timers) then t1.(timers := t1.timers.(wantKeepalive := false)) else t1;
    var t3 := if PersistentKeepaliveDue(t.timers) then Tick(t2, TimePersistentKeepalive) else t2;
    InitiationIsSent(t1, true, i);
    EncapsulateSends(t3, [], i);
    NothingIsNoInitiation();
  }

  lemma NothingIsNoInitiation()
    ensures !IsInitiation(Done) && forall e :: !IsInitiation(Fault(e))
  {
  }

  /** While a response is awaited, the only initiations are retransmissions by the timer: at least
      REKEY_TIMEOUT after the last one, before REKEY_ATTEMPT_TIME has passed since the attempt began,
      and without moving its beginning. */
  lemma UpdateSends(t: Tunnel, i: Input)
    requires InputOk(i)
    ensures var (u, r) := UpdateTimers(t, i);
            var now := H.Since(i.now, t.timers.timeStarted);
            && (IsInitiation(r) ==> u.handshake.state.InitSent? && u.handshake.state.timeSent == i.sent)
            && (!IsInitiation(r) && u.handshake.state.InitSent? ==>
                  u.handshake.state == t.handshake.state
                      && u.timers.values.handshakeStarted == t.timers.values.handshakeStarted)
            && (IsInitiation(r) && t.handshake.state.InitSent? ==>
                  && now - t.timers.values.handshakeStarted < REKEY_ATTEMPT_TIME
                  && H.Since(i.later, t.handshake.state.timeSent) >= REKEY_TIMEOUT
                  && u.timers.values.handshakeStarted == t.timers.values.handshakeStarted)
  {
    BeginUpdateOnly(t, i);
    hide BeginUpdate, DropOldCookie, FormatInitiation, UpdateEstablished, IsInitiation;
    var t1 := BeginUpdate(t, i);
    var t2 := DropOldCookie(t1);
    DropOldCookieOnly(t1);
    NothingIsNoInitiation();
    InitiationIsSent(t2, true, i);
    if !t2.handshake.state.InitSent? {
      UpdateEstablishedSends(t2, i);
    }
  }

  lemma BeginUpdateOnly(t: Tunnel, i: Input)
    ensures var u := BeginUpdate(t, i);
            && u.handshake == t.handshake && u.queue == t.queue && u.timers.timeStarted == t.timers.timeStarted
            && u.timers.values == t.timers.values.(current := H.Since(i.now, t.timers.timeStarted))
  {
  }

  lemma StepSends(t: Tunnel, e: Event)
    requires InputOk(InputOf(e))
    ensures var (u, i) := (Step(t, e).0, InputOf(e));
            && (Sends(t, e) ==> u.handshake.state.InitSent? && u.handshake.state.timeSent == i.sent)
            && (!Sends(t, e) && u.handshake.state.InitSent? ==>
                  u.handshake.state == t.handshake.state
                      && u.timers.values.handshakeStarted == t.timers.values.handshakeStarted)
            && (Sends(t, e) && t.handshake.state.InitSent? ==>
                  && e.TimerEvent?
                  && H.Since(i.now, t.timers.timeStarted) - t.timers.values.handshakeStarted < REKEY_ATTEMPT_TIME
                  && H.Since(i.later, t.handshake.state.timeSent) >= REKEY_TIMEOUT
                  && u.timers.values.handshakeStarted == t.timers.values.handshakeStarted)
  {
    hide Encapsulate, HandleVerifiedPacket, UpdateTimers, IsInitiation;
    NothingIsNoInitiation();
    match e
    case Send(src, i) => EncapsulateSends(t, src, i);
    case Receive(p, i) => ReceiveSends(t, p, i);
    case Flush(i) =>
      if t.queue != [] {
        EncapsulateSends(t.(queue := t.queue[1..]), t.queue[0], i);
      }
    case TimerEvent(i) => UpdateSends(t, i);
    case Rekey(_, _) =>
  }

  lemma InitiationBegins(t: Tunnel, force: bool, i: Input)
    ensures var (u, r) := FormatInitiation(t, force, i);
            r.WriteToNetwork? && !H.InProgress(t.handshake) ==>
                u.timers.values.handshakeStarted == u.timers.values.current
  {
    hide H.FormatInitiation;
  }

  lemma EncapsulateBegins(t: Tunnel, src: Bytes, i: Input)
    ensures var (u, r) := Encapsulate(t, src, i);
            IsInitiation(r) && !H.InProgress(t.handshake) ==>
                u.timers.values.handshakeStarted == u.timers.values.current
  {
    hide FormatInitiation, S.FormatPacketData, IsInitiation;
    InitiationBegins(QueuePacket(t, src), false, i);
    if CurrentSession(t).Some? {
      DataIsNoInitiation(CurrentSession(t).value, src);
    }
    assert IsInitiation(Encapsulate(t, src, i).1) ==> Encapsulate(t, src, i).1.WriteToNetwork? by {
      OnlyWires(Encapsulate(t, src, i).1);
    }
  }

  lemma OnlyWires(r: TunnResult)
    ensures IsInitiation(r) ==> r.WriteToNetwork?
  {
  }

  lemma EstablishedBegins(t: Tunnel, i: Input)
    ensures var (u, r) := UpdateEstablished(t, i);
            IsInitiation(r) && !H.InProgress(t.handshake) ==>
                u.timers.values.handshakeStarted == u.timers.values.current
  {
    hide FormatInitiation, Encapsulate, RekeyDue, SilenceDue, KeepaliveDue, PersistentKeepaliveDue, IsInitiation;
    var t1 := if SilenceDue(t.timers) then t.(timers := t.timers.(wantHandshake := false)) else t;
    var t2 := if KeepaliveDue(t.timers) then t1.(timers := t1.timers.(wantKeepalive := false)) else t1;
    var t3 := if PersistentKeepaliveDue(t.timers) then Tick(t2, TimePersistentKeepalive) else t2;
    InitiationBegins(t1, true, i);
    OnlyWires(FormatInitiation(t1, true, i).1);
    EncapsulateBegins(t3, [], i);
    NothingIsNoInitiation();
  }

  /** The first initiation of an attempt starts its 90 seconds anew. */
  lemma AttemptBegins(t: Tunnel, e: Event)
    requires Sends(t, e) && !H.InProgress(t.handshake)
    ensures var v := Step(t, e).0.timers.values; v.handshakeStarted == v.current
  {
    hide Encapsulate, HandleVerifiedPacket, UpdateTimers, IsInitiation;
    NothingIsNoInitiation();
    match e
    case Send(src, i) => EncapsulateBegins(t, src, i);
    case Receive(p, i) => ReceiveSends(t, p, i);
    case Flush(i) =>
      if t.queue != [] {
        EncapsulateBegins(t.(queue := t.queue[1..]), t.queue[0], i);
      }
    case TimerEvent(i) => UpdateBegins(t, i);
    case Rekey(_, _) =>
  }

  lemma UpdateBegins(t: Tunnel, i: Input)
    requires IsInitiation(UpdateTimers(t, i).1) && !H.InProgress(t.handshake)
    ensures var v := UpdateTimers(t, i).0.timers.values; v.handshakeStarted == v.current
  {
    BeginUpdateOnly(t, i);
    hide BeginUpdate, DropOldCookie, FormatInitiation, UpdateEstablished, IsInitiation;
    DropOldCookieOnly(BeginUpdate(t, i));
    NothingIsNoInitiation();
    EstablishedBegins(DropOldCookie(BeginUpdate(t, i)), i);
  }

  /** A call that reads the clock before the deadline of the attempt and again at or after it. */
  predicate Straddles(t: Tunnel, e: Event) {
    var deadline := t.timers.values.handshakeStarted + t.timers.timeStarted + REKEY_ATTEMPT_TIME;
    e.TimerEvent? && t.handshake.state.InitSent? && e.input.now < deadline <= e.input.later
  }

  /** n initiations: each came at least REKEY_TIMEOUT after the one before, and was triggered before
      the attempt was REKEY_ATTEMPT_TIME old; `within` if no call straddled that deadline. */
  ghost predicate AttemptTimes(n: nat, begun: nat, firstSent: nat, lastSent: nat, within: bool) {
    && n >= 1
    && begun <= firstSent
    && firstSent + REKEY_TIMEOUT * (n - 1) <= lastSent
    && (n >= 2 ==> firstSent + REKEY_TIMEOUT * (n - 2) < begun + REKEY_ATTEMPT_TIME)
    && (n >= 2 && within ==> firstSent + REKEY_TIMEOUT * (n - 1) < begun + REKEY_ATTEMPT_TIME)
  }

  ghost predicate AttemptOk(tr: Trace, within: bool) {
    && tr.sends <= MaxSends(within)
    && (tr.t.handshake.state.InitSent? ==>
          && tr.t.handshake.state.timeSent == tr.lastSent <= tr.clock
          && AttemptTimes(tr.sends, tr.t.timers.values.handshakeStarted + tr.t.timers.timeStarted,
                          tr.firstSent, tr.lastSent, within))
  }

  /** As long as no call straddles the deadline, an attempt sends at most 18 initiations. */
  function MaxSends(within: bool): nat {
    if within then 18 else 19
  }

  lemma OneMoreSend(n: nat, begun: nat, firstSent: nat, lastSent: nat, i: Input, within: bool)
    requires AttemptTimes(n, begun, firstSent, lastSent, within)
    requires lastSent <= i.now <= i.later <= i.sent
    requires within ==> i.later < begun + REKEY_ATTEMPT_TIME
    requires i.now < begun + REKEY_ATTEMPT_TIME && i.later >= lastSent + REKEY_TIMEOUT
    ensures AttemptTimes(n + 1, begun, firstSent, i.sent, within) && n + 1 <= MaxSends(within)
  {
  }

  lemma StartsAreBounded(t: Tunnel, clock: nat)
    requires TimersOk(t, clock)
    ensures t.timers.values.handshakeStarted + t.timers.timeStarted <= clock
    ensures t.timers.timeStarted <= clock
  {
  }

  lemma AdvanceKeepsAttempt(tr: Trace, e: Event, within: bool)
    requires AttemptOk(tr, within) && TimersOk(tr.t, tr.clock)
    requires InputOk(InputOf(e)) && ClockOk(tr.clock, InputOf(e))
    requires within ==> !Straddles(tr.t, e)
    ensures AttemptOk(Advance(tr, e), within)
  {
    hide Step, Sends, Installs, TimersOk, AttemptTimes, InputOk;
    var (u, i) := (Step(tr.t, e).0, InputOf(e));
    StepSends(tr.t, e);
    StepKeepsTimers(tr.t, e, tr.clock);
    TimeStartedStays(tr.t, e);
    StartsAreBounded(tr.t, tr.clock);
    StartsAreBounded(u, i.sent);
    var (before, begun) := (tr.t.timers.values.handshakeStarted + tr.t.timers.timeStarted,
                            u.timers.values.handshakeStarted + u.timers.timeStarted);
    if Sends(tr.t, e) {
      if tr.t.handshake.state.InitSent? {
        OneMoreSend(tr.sends, before, tr.firstSent, tr.lastSent, i, within);
      } else {
        FirstSend(begun, i.sent, within);
      }
    }
  }

  lemma FirstSend(begun: nat, sent: nat, within: bool)
    requires begun <= sent
    ensures AttemptTimes(1, begun, sent, sent, within)
  {
  }

  lemma TimeStartedStays(t: Tunnel, e: Event)
    ensures Step(t, e).0.timers.timeStarted == t.timers.timeStarted
  {
    hide Encapsulate, HandleVerifiedPacket, UpdateTimers, BeginUpdate;
    match e
    case Send(src, i) => EncapsulateInstallsNothing(t, src, i);
    case Receive(p, i) => ReceiveKeepsStart(t, p, i);
    case Flush(i) =>
      if t.queue != [] {
        EncapsulateInstallsNothing(t.(queue := t.queue[1..]), t.queue[0], i);
      }
    case TimerEvent(i) =>
      UpdateInstallsNothing(t, i);
      BeginUpdateOnly(t, i);
    case Rekey(_, _) =>
  }

  lemma ReceiveKeepsStart(t: Tunnel, p: Packet, i: Input)
    ensures HandleVerifiedPacket(t, p, i).0.timers.timeStarted == t.timers.timeStarted
  {
    hide H.ReceiveInitiation, H.ReceiveResponse, H.ReceiveCookieReply, S.ReceivePacketData, S.FormatPacketData,
         IpHeader;
  }

  // Whole runs

  ghost predicate Inv(tr: Trace, peer: nat, within: bool) {
    && TimersOk(tr.t, tr.clock)
    && StructureOk(tr.t, peer)
    && InstalledOk(tr)
    && AttemptOk(tr, within)
  }

  function Start(params: H.Params, index: nat, stamper: H.TimeStamper, keepalive: Option<nat>, now: nat): Trace
    requires index < 0x100_0000
  {
    Trace(New(params, index, stamper, keepalive, now), now, [0, 0, 0, 0, 0, 0, 0, 0], 0, 0, 0)
  }

  lemma StartIsOk(params: H.Params, index: nat, stamper: H.TimeStamper, keepalive: Option<nat>, now: nat, within: bool)
    requires index < 0x100_0000
    ensures Inv(Start(params, index, stamper, keepalive, now), index, within)
  {
  }

  lemma AdvanceKeepsInv(tr: Trace, e: Event, peer: nat, within: bool)
    requires Inv(tr, peer, within)
    requires InputOk(InputOf(e)) && ClockOk(tr.clock, InputOf(e))
    requires within ==> !Straddles(tr.t, e)
    ensures Inv(Advance(tr, e), peer, within)
  {
    StepKeepsTimers(tr.t, e, tr.clock);
    StepKeepsStructure(tr.t, e, peer);
    AdvanceKeepsInstalled(tr, e);
    AdvanceKeepsAttempt(tr, e, within);
    hide Step, Sends, Installs, TimersOk, StructureOk, InstalledOk, AttemptOk;
  }

  /** No call of a run straddles the deadline of the attempt under way. */
  ghost predicate NoneStraddles(tr: Trace, events: seq<Event>) {
    forall k | 0 <= k < |events| :: !Straddles(Exec(tr, events[..k]).t, events[k])
  }

  lemma NoneStraddlesPrefix(tr: Trace, events: seq<Event>)
    requires NoneStraddles(tr, events) && events != []
    ensures NoneStraddles(tr, events[..|events| - 1])
    ensures !Straddles(Exec(tr, events[..|events| - 1]).t, events[|events| - 1])
  {
    hide Straddles, Exec;
    var before := events[..|events| - 1];
    assert forall k | 0 <= k < |before| :: before[..k] == events[..k];
  }

  lemma {:induction false} RunKeepsInv(tr: Trace, events: seq<Event>, peer: nat, within: bool)
    requires Inv(tr, peer, within) && Legal(tr.clock, events)
    requires within ==> NoneStraddles(tr, events)
    ensures Inv(Exec(tr, events), peer, within)
    ensures Exec(tr, events).clock == LastReading(tr.clock, events)
  {
    if events != [] {
      hide Inv, Step, Sends, Installs, Straddles, NoneStraddles;
      var last := |events| - 1;
      if within {
        NoneStraddlesPrefix(tr, events);
      }
      RunKeepsInv(tr, events[..last], peer, within);
      AdvanceKeepsInv(Exec(tr, events[..last]), events[last], peer, within);
    }
  }

  /** In every run of a tunnel, a handshake attempt sends at most 18 initiations as long as no call
      straddles its deadline, and at most 19 in any case. */
  lemma AttemptsAreBounded(params: H.Params, index: nat, stamper: H.TimeStamper, keepalive: Option<nat>, start: nat,
                           events: seq<Event>, within: bool)
    requires index < 0x100_0000 && Legal(start, events)
    requires within ==> NoneStraddles(Start(params, index, stamper, keepalive, start), events)
    ensures Exec(Start(params, index, stamper, keepalive, start), events).sends <= MaxSends(within)
  {
    hide NoneStraddles, Legal, Exec;
    StartIsOk(params, index, stamper, keepalive, start, within);
    RunKeepsInv(Start(params, index, stamper, keepalive, start), events, index, within);
  }

  /** A call that sends a nineteenth initiation: 18 are sent, it straddles the deadline, its second
      reading is REKEY_TIMEOUT after the last initiation, and the last key exchange is not yet three
      times REJECT_AFTER_TIME ago. */
  predicate SendsNineteenth(tr: Trace, e: Event) {
    && tr.sends == 18 && Straddles(tr.t, e)
    && e.input.later >= tr.lastSent + REKEY_TIMEOUT
    && H.Since(e.input.now, tr.t.timers.timeStarted) - tr.t.timers.values.sessionEstablished < REJECT_AFTER_TIME * 3
  }

  /** With 18 initiations of the attempt sent, another one is sent exactly by such a call. */
  lemma NineteenthIff(tr: Trace, e: Event)
    requires AttemptOk(tr, false) && TimersOk(tr.t, tr.clock) && tr.sends == 18 && tr.t.handshake.state.InitSent?
    requires InputOk(InputOf(e)) && ClockOk(tr.clock, InputOf(e))
    ensures Sends(tr.t, e) <==> SendsNineteenth(tr, e)
  {
    hide Sends, Step, UpdateTimers, InputOk, TimersOk;
    StartsAreBounded(tr.t, tr.clock);
    StepSends(tr.t, e);
    if e.TimerEvent? {
      var age := H.Since(e.input.now, tr.t.timers.timeStarted) - tr.t.timers.values.sessionEstablished;
      if age >= REJECT_AFTER_TIME * 3 {
        OldKeysSendNothing(tr.t, e.input);
      } else if SendsNineteenth(tr, e) {
        Retransmits(tr.t, e.input);
      }
    }
  }

  lemma OldKeysSendNothing(t: Tunnel, i: Input)
    requires H.Since(i.now, t.timers.timeStarted) - t.timers.values.sessionEstablished >= REJECT_AFTER_TIME * 3
    ensures !Sends(t, TimerEvent(i))
  {
    BeginUpdateOnly(t, i);
    NothingIsNoInitiation();
    hide BeginUpdate, DropOldCookie, UpdateEstablished, FormatInitiation, IsInitiation;
    DropOldCookieOnly(BeginUpdate(t, i));
  }

  /** A due retransmission is sent. */
  lemma Retransmits(t: Tunnel, i: Input)
    requires InputOk(i) && t.handshake.state.InitSent?
    requires var (now, v) := (H.Since(i.now, t.timers.timeStarted), t.timers.values);
             && now - v.sessionEstablished < REJECT_AFTER_TIME * 3
             && now - v.handshakeStarted < REKEY_ATTEMPT_TIME
             && H.Since(i.later, t.handshake.state.timeSent) >= REKEY_TIMEOUT
    ensures Sends(t, TimerEvent(i))
    ensures UpdateTimers(t, i).0.timers.values.sessionEstablished == t.timers.values.sessionEstablished
  {
    BeginUpdateOnly(t, i);
    hide BeginUpdate, DropOldCookie, IsInitiation, UpdateEstablished, H.FormatInitiation;
    var t1 := BeginUpdate(t, i);
    DropOldCookieOnly(t1);
    InitiationIsSent(DropOldCookie(t1), true, i);
  }

  /** Every run: some attempt sends more than 18 initiations exactly if some call of the run is one
      that sends a nineteenth. */
  lemma AttemptExceedsIff(params: H.Params, index: nat, stamper: H.TimeStamper, keepalive: Option<nat>, start: nat,
                          events: seq<Event>)
    requires index < 0x100_0000 && Legal(start, events)
    ensures var begin := Start(params, index, stamper, keepalive, start);
            (exists k :: 0 <= k <= |events| && Exec(begin, events[..k]).sends > 18)
            <==> (exists k :: 0 <= k < |events| && SendsNineteenth(Exec(begin, events[..k]), events[k]))
  {
    hide Exec, Advance, Legal, SendsNineteenth;
    var begin := Start(params, index, stamper, keepalive, start);
    StartIsOk(params, index, stamper, keepalive, start, false);
    assert begin.sends == 0;
    forall k | 0 <= k < |events|
      ensures var (before, after) := (Exec(begin, events[..k]), Exec(begin, events[..k + 1]));
              && (after.sends > 18 && before.sends <= 18 ==> SendsNineteenth(before, events[k]))
              && (SendsNineteenth(before, events[k]) ==> after.sends > 18)
    {
      OneCallExceedsIff(begin, events, index, k);
    }
    if k :| 0 <= k <= |events| && Exec(begin, events[..k]).sends > 18 {
      var j := FirstExcess(begin, events, k);
      assert SendsNineteenth(Exec(begin, events[..j]), events[j]);
    }
    if k :| 0 <= k < |events| && SendsNineteenth(Exec(begin, events[..k]), events[k]) {
      assert Exec(begin, events[..k + 1]).sends > 18;
    }
  }

  lemma NothingYet(tr: Trace, events: seq<Event>)
    ensures Exec(tr, events[..0]) == tr
  {
    assert events[..0] == [];
  }

  /** The call at which the count first exceeds 18. */
  lemma {:induction false} FirstExcess(begin: Trace, events: seq<Event>, k: nat) returns (j: nat)
    requires begin.sends == 0 && k <= |events| && Exec(begin, events[..k]).sends > 18
    ensures j < k && Exec(begin, events[..j]).sends <= 18 && Exec(begin, events[..j + 1]).sends > 18
  {
    hide Advance;
    NothingYet(begin, events);
    if Exec(begin, events[..k - 1]).sends > 18 {
      j := FirstExcess(begin, events, k - 1);
    } else {
      j := k - 1;
    }
  }

  lemma OneCallExceedsIff(begin: Trace, events: seq<Event>, peer: nat, k: nat)
    requires Inv(begin, peer, false) && Legal(begin.clock, events) && k < |events|
    ensures var (before, after) := (Exec(begin, events[..k]), Exec(begin, events[..k + 1]));
            && (after.sends > 18 && before.sends <= 18 ==> SendsNineteenth(before, events[k]))
            && (SendsNineteenth(before, events[k]) ==> after.sends > 18)
  {
    hide Step, Sends, Installs, InputOk, TimersOk, StructureOk, InstalledOk, AttemptOk;
    LegalPrefix(begin.clock, events, k);
    RunKeepsInv(begin, events[..k], peer, false);
    assert events[..k + 1][..k] == events[..k] && events[..k + 1][k] == events[k];
    var before := Exec(begin, events[..k]);
    assert Exec(begin, events[..k + 1]) == Advance(before, events[k]);
    if before.sends == 18 && before.t.handshake.state.InitSent? {
      NineteenthIff(before, events[k]);
    }
  }

  lemma {:induction false} LegalPrefix(clock: nat, events: seq<Event>, k: nat)
    requires Legal(clock, events) && k < |events|
    ensures Legal(clock, events[..k]) && InputOk(InputOf(events[k]))
            && ClockOk(LastReading(clock, events[..k]), InputOf(events[k]))
    decreases |events|
  {
    var before := events[..|events| - 1];
    if k < |before| {
      LegalPrefix(clock, before, k);
      assert before[..k] == events[..k];
    }
  }

  /** In every run, no session is left after an update that was installed more than
      REJECT_AFTER_TIME before. */
  lemma UpdatedSessionsAreYoung(params: H.Params, index: nat, stamper: H.TimeStamper, keepalive: Option<nat>,
                                start: nat,
                                events: seq<Event>, i: Input)
    requires index < 0x100_0000 && Legal(start, events)
    requires ClockOk(LastReading(start, events), i)
    ensures var tr := Advance(Exec(Start(params, index, stamper, keepalive, start), events), TimerEvent(i));
            forall k | 0 <= k < 8 && tr.t.sessions[k].Some? :: i.now <= tr.installed[k] + REJECT_AFTER_TIME
  {
    var begin := Start(params, index, stamper, keepalive, start);
    StartIsOk(params, index, stamper, keepalive, start, false);
    RunKeepsInv(begin, events, index, false);
    var tr := Exec(begin, events);
    UpdateInstallsNothing(tr.t, i);
    BeginUpdateDropsOld(tr.t, i);
    hide BeginUpdate, UpdateTimers, Sends, Exec;
  }

  /** In every run no subtraction of times underflows: the clock is not before the tunnel's start, the
      session timers are at or below the current time when they are compared with it, and all timers
      are once an update has set it; between updates they are at or below the clock. */
  lemma NoTimerUnderflows(params: H.Params, index: nat, stamper: H.TimeStamper, keepalive: Option<nat>, start: nat,
                          events: seq<Event>, i: Input)
    requires index < 0x100_0000 && Legal(start, events)
    requires ClockOk(LastReading(start, events), i)
    ensures var t := Exec(Start(params, index, stamper, keepalive, start), events).t;
            var now := H.Since(i.now, t.timers.timeStarted);
            && t.timers.timeStarted <= i.now
            && t.timers.values.sessionEstablished <= now
            && (forall k | 0 <= k < 8 :: t.timers.sessionTimers[k] <= now)
            && TimersOk(BeginUpdate(t, i), i.now)
  {
    hide Exec;
    var begin := Start(params, index, stamper, keepalive, start);
    StartIsOk(params, index, stamper, keepalive, start, false);
    RunKeepsInv(begin, events, index, false);
    BeginUpdateKeepsTimers(Exec(begin, events).t, LastReading(start, events), i);
  }

  /** In every run that receives no packet with the last counter, every session of the ring counts its
      packets right, so the loss estimate is one. */
  lemma {:induction false} CountsStayRight(tr: Trace, events: seq<Event>)
    requires CountsOk(tr.t) && forall k | 0 <= k < |events| :: !CarriesLastCounter(events[k])
    ensures CountsOk(Exec(tr, events).t)
  {
    if events != [] {
      hide Step, Sends, Installs, CountsOk, CarriesLastCounter;
      CountsStayRight(tr, events[..|events| - 1]);
      StepKeepsCounts(Exec(tr, events[..|events| - 1]).t, events[|events| - 1]);
    }
  }

  // When an update starts a handshake

  /** An empty packet is owed: data came in and nothing went out for KEEPALIVE_TIMEOUT, or the
      configured interval has passed. */
  predicate KeepaliveOwed(tm: Timers, now: nat) {
    var v := tm.values;
    || (v.dataReceived > v.packetSent && now - v.packetSent >= KEEPALIVE_TIMEOUT && tm.wantKeepalive)
    || (tm.persistentKeepalive > 0 && now - v.keepalive >= tm.persistentKeepalive * SECOND)
  }

  lemma EncapsulateSendsIff(t: Tunnel, src: Bytes, i: Input)
    requires InputOk(i)
    ensures IsInitiation(Encapsulate(t, src, i).1) <==> CurrentSession(t).None? && !H.InProgress(t.handshake)
  {
    InitiationIsSent(QueuePacket(t, src), false, i);
    hide FormatInitiation, S.FormatPacketData, IsInitiation;
    if CurrentSession(t).Some? {
      DataIsNoInitiation(CurrentSession(t).value, src);
    }
  }

  /** Without a response to wait for, an update sends an initiation exactly if this side made the
      session and sent data over it REKEY_AFTER_TIME after its start, or received data over it 15
      seconds before its end; if it sent data and heard nothing for 15 seconds; or if it owes an empty
      packet and has no session to send it over. */
  lemma UpdateSendsIff(t: Tunnel, i: Input)
    requires InputOk(i) && !t.handshake.state.Expired? && !t.handshake.state.InitSent?
    requires H.Since(i.now, t.timers.timeStarted) - t.timers.values.sessionEstablished < REJECT_AFTER_TIME * 3
    ensures var (tm, v, now) := (t.timers, t.timers.values, H.Since(i.now, t.timers.timeStarted));
            (Sends(t, TimerEvent(i))
             <==> (|| (tm.isInitiator && v.sessionEstablished < v.dataSent
                       && now - v.sessionEstablished >= REKEY_AFTER_TIME)
                   || (tm.isInitiator && v.sessionEstablished < v.dataReceived
                       && now - v.sessionEstablished >= 165 * SECOND)
                   || (v.dataSent > v.packetReceived && now - v.packetReceived >= 15 * SECOND && tm.wantHandshake)
                   || (KeepaliveOwed(tm, now) && CurrentSession(BeginUpdate(t, i)).None?
                       && !H.InProgress(t.handshake))))
  {
    BeginUpdateOnly(t, i);
    BeginUpdateFlags(t, i);
    hide BeginUpdate, DropOldCookie, UpdateEstablished, IsInitiation;
    var t1 := BeginUpdate(t, i);
    DropOldCookieOnly(t1);
    EstablishedSendsIff(DropOldCookie(t1), i);
  }

  lemma BeginUpdateFlags(t: Tunnel, i: Input)
    ensures var u := BeginUpdate(t, i);
            && u.timers.isInitiator == t.timers.isInitiator
               && u.timers.persistentKeepalive == t.timers.persistentKeepalive
            && u.timers.wantHandshake == t.timers.wantHandshake && u.timers.wantKeepalive == t.timers.wantKeepalive
  {
  }

  lemma EstablishedSendsIff(t: Tunnel, i: Input)
    requires InputOk(i)
    ensures IsInitiation(UpdateEstablished(t, i).1)
       <==> || RekeyDue(t.timers)
            || (KeepaliveOwed(t.timers, t.timers.values.current) && CurrentSession(t).None?
                && !H.InProgress(t.handshake))
  {
    hide FormatInitiation, Encapsulate, RekeyDue, SilenceDue, IsInitiation;
    var t1 := if SilenceDue(t.timers) then t.(timers := t.timers.(wantHandshake := false)) else t;
    var t2 := if KeepaliveDue(t.timers) then t1.(timers := t1.timers.(wantKeepalive := false)) else t1;
    var t3 := if PersistentKeepaliveDue(t.timers) then Tick(t2, TimePersistentKeepalive) else t2;
    InitiationIsSent(t1, true, i);
    EncapsulateSendsIff(t3, [], i);
    NothingIsNoInitiation();
  }

  // Expiry

  /** An update reports an expired connection exactly if it was expired already, if the last key
      exchange was three times REJECT_AFTER_TIME ago, or if an attempt reached REKEY_ATTEMPT_TIME;
      the connection is then expired and holds nothing. */
  lemma ExpiresIff(t: Tunnel, peer: nat, i: Input)
    requires StructureOk(t, peer) && InputOk(i)
    ensures var (u, r) := UpdateTimers(t, i);
            var (now, v) := (H.Since(i.now, t.timers.timeStarted), t.timers.values);
            && (r == Fault(ConnectionExpired)
                <==> || t.handshake.state.Expired?
                     || now - v.sessionEstablished >= REJECT_AFTER_TIME * 3
                     || (t.handshake.state.InitSent? && now - v.handshakeStarted >= REKEY_ATTEMPT_TIME))
            && (r == Fault(ConnectionExpired) <==> u.handshake.state.Expired?)
            && (r == Fault(ConnectionExpired) ==> u.sessions == NO_SESSIONS && u.queue == [])
  {
    hide BeginUpdate, DropOldCookie, FormatInitiation, UpdateEstablished, StructureOk, H.InProgress;
    BeginUpdateOnly(t, i);
    UpdateKeepsStructure(t, peer, i);
    if UpdateTimers(t, i).0.handshake.state.Expired? {
      QuietWhenExpired(UpdateTimers(t, i).0, peer);
    }
    var t1 := BeginUpdate(t, i);
    DropOldCookieOnly(t1);
    var t2 := DropOldCookie(t1);
    if t2.handshake.state.InitSent? {
      InitiationIsSent(t2, true, i);
      NotFault(t2, true, i);
    } else if !t2.handshake.state.Expired? {
      UpdateEstablishedNeverExpires(t2, i);
    }
  }

  lemma QuietWhenExpired(t: Tunnel, peer: nat)
    requires StructureOk(t, peer) && t.handshake.state.Expired?
    ensures t.sessions == NO_SESSIONS && t.queue == []
  {
  }

  lemma UpdateEstablishedNeverExpires(t: Tunnel, i: Input)
    requires InputOk(i) && !t.handshake.state.Expired?
    ensures !UpdateEstablished(t, i).1.Fault? && !UpdateEstablished(t, i).0.handshake.state.Expired?
  {
    hide FormatInitiation, Encapsulate, RekeyDue, SilenceDue, KeepaliveDue, PersistentKeepaliveDue, IsInitiation;
    var t1 := if SilenceDue(t.timers) then t.(timers := t.timers.(wantHandshake := false)) else t;
    var t2 := if KeepaliveDue(t.timers) then t1.(timers := t1.timers.(wantKeepalive := false)) else t1;
    var t3 := if PersistentKeepaliveDue(t.timers) then Tick(t2, TimePersistentKeepalive) else t2;
    InitiationIsSent(t1, true, i);
    NotFault(t1, true, i);
    EncapsulateSends(t3, [], i);
  }

  /** An expired connection stays expired until an initiation is sent or accepted. */
  lemma ExpiredStays(t: Tunnel, e: Event, peer: nat)
    requires t.handshake.state.Expired? && StructureOk(t, peer) && InputOk(InputOf(e))
    requires !Sends(t, e) && Installs(t, e).None?
    ensures Step(t, e).0.handshake.state.Expired?
  {
    hide UpdateTimers, HandleVerifiedPacket, FormatInitiation, IsInitiation, S.FormatPacketData;
    match e
    case Send(src, i) =>
      InitiationIsSent(QueuePacket(t, src), false, i);
    case Receive(p, i) => ReceiveLeavesExpired(t, p, i);
    case Flush(i) =>
    case TimerEvent(i) => ExpiresIff(t, peer, i);
    case Rekey(_, _) =>
  }

  lemma ReceiveLeavesExpired(t: Tunnel, p: Packet, i: Input)
    requires t.handshake.state.Expired? && ExpiredIsQuiet(t) && InputOk(i)
    requires Installs(t, Receive(p, i)).None?
    ensures HandleVerifiedPacket(t, p, i).0.handshake.state.Expired?
  {
    hide H.ReadInitiation, H.After, H.FormatResponse, H.ResponseKey, S.ReceivePacketData, S.FormatPacketData, IpHeader,
         XOpen;
    if p.HandshakeInit? && H.ReadInitiation(t.handshake.params, p).Ok? {
      var (time, tr) := H.ReadInitiation(t.handshake.params, p).value;
      var s := t.handshake.(lastTimestamp := time, previous := t.handshake.state,
                            state := H.InitReceived(tr.h, tr.ck, p.ephemeral, p.senderIdx));
      LargeEnough(s, i);
    }
  }

  lemma LargeEnough(s: H.State, i: Input)
    requires s.state.InitReceived? && InputOk(i)
    ensures H.FormatResponse(s, i.dstLen, i.ephemeral).1.Ok?
  {
    hide H.ResponderKey, H.AppendMacs;
  }

  /** No call of a run sends or accepts an initiation. */
  ghost predicate NoneInitiates(tr: Trace, events: seq<Event>) {
    forall k | 0 <= k < |events| ::
      var t := Exec(tr, events[..k]).t; !Sends(t, events[k]) && Installs(t, events[k]).None?
  }

  lemma NoneInitiatesPrefix(tr: Trace, events: seq<Event>)
    requires NoneInitiates(tr, events) && events != []
    ensures var t := Exec(tr, events[..|events| - 1]).t;
            && NoneInitiates(tr, events[..|events| - 1])
            && !Sends(t, events[|events| - 1]) && Installs(t, events[|events| - 1]).None?
  {
    hide Exec, Sends, Installs;
    var before := events[..|events| - 1];
    assert forall k | 0 <= k < |before| :: before[..k] == events[..k];
  }

  lemma ExpiredStep(t: Tunnel, e: Event, peer: nat)
    requires t.handshake.state.Expired? && StructureOk(t, peer) && InputOk(InputOf(e))
    requires !Sends(t, e) && Installs(t, e).None?
    ensures var u := Step(t, e).0;
            u.handshake.state.Expired? && u.sessions == NO_SESSIONS && u.queue == []
  {
    hide Step, Sends, Installs, StructureOk, InputOk;
    ExpiredStays(t, e, peer);
    StepKeepsStructure(t, e, peer);
    QuietWhenExpired(Step(t, e).0, peer);
  }

  /** Over whole runs: from an expired connection, as long as no initiation is sent or accepted, the
      connection stays expired, without sessions and without queued packets. */
  lemma {:induction false} ExpiredUntilNewInitiation(tr: Trace, events: seq<Event>, peer: nat)
    requires Inv(tr, peer, false) && tr.t.handshake.state.Expired? && Legal(tr.clock, events)
    requires NoneInitiates(tr, events)
    ensures var t := Exec(tr, events).t;
            t.handshake.state.Expired? && t.sessions == NO_SESSIONS && t.queue == []
  {
    hide NoneInitiates, Step, Sends, Installs, TimersOk, StructureOk, InstalledOk, AttemptOk, InputOk;
    if events == [] {
      QuietWhenExpired(tr.t, peer);
    } else {
      var last := |events| - 1;
      NoneInitiatesPrefix(tr, events);
      ExpiredUntilNewInitiation(tr, events[..last], peer);
      RunKeepsInv(tr, events[..last], peer, false);
      ExpiredStep(Exec(tr, events[..last]).t, events[last], peer);
    }
  }

  // The bound of an attempt is reached

  function At(now: nat, later: nat): Input {
    Input(now, later, later, 0, HANDSHAKE_INIT_SZ)
  }

  /** An attempt of n initiations, five seconds apart; the nineteenth needs a clock that moves on
      between the two readings of its call. */
  function LongestAttempt(n: nat): seq<Event>
    requires 1 <= n <= 19
  {
    if n == 1 then [Send([], At(0, 0))]
    else if n == 19 then LongestAttempt(18) + [TimerEvent(At(90 * SECOND - 1, 90 * SECOND))]
    else LongestAttempt(n - 1) + [TimerEvent(At(5 * SECOND * (n - 1), 5 * SECOND * (n - 1)))]
  }

  /** An attempt that began at time 0, n initiations of it sent, the last at the given time. */
  predicate AttemptStands(tr: Trace, n: nat, last: nat) {
    && tr.sends == n
    && tr.t.handshake.state.InitSent? && tr.t.handshake.state.timeSent == last
    && tr.t.timers.values.handshakeStarted == tr.t.timers.values.sessionEstablished == tr.t.timers.timeStarted == 0
  }

  lemma OneMoreRetransmission(tr: Trace, n: nat, last: nat, i: Input)
    requires AttemptStands(tr, n, last) && InputOk(i)
    requires i.now < REKEY_ATTEMPT_TIME && i.later == i.sent >= last + REKEY_TIMEOUT
    ensures AttemptStands(Advance(tr, TimerEvent(i)), n + 1, i.sent)
  {
    hide UpdateTimers, Sends, Installs, InputOk;
    Retransmits(tr.t, i);
    StepSends(tr.t, TimerEvent(i));
    TimeStartedStays(tr.t, TimerEvent(i));
  }

  lemma {:induction false} LongestAttemptIsLegal(n: nat)
    requires 1 <= n <= 19
    ensures Legal(0, LongestAttempt(n))
    ensures LastReading(0, LongestAttempt(n)) == 5 * SECOND * (n - 1)
  {
    hide Legal, LastReading;
    if n == 1 {
      OneMoreEvent(0, [], Send([], At(0, 0)));
      assert [] + [Send([], At(0, 0))] == [Send([], At(0, 0))];
    } else {
      LongestAttemptIsLegal(n - 1);
      var now := if n == 19 then 90 * SECOND - 1 else 5 * SECOND * (n - 1);
      OneMoreEvent(0, LongestAttempt(n - 1), TimerEvent(At(now, 5 * SECOND * (n - 1))));
    }
  }

  lemma OneMoreEvent(clock: nat, events: seq<Event>, e: Event)
    requires events != [] ==> Legal(clock, events)
    requires InputOk(InputOf(e)) && ClockOk(if events == [] then clock else LastReading(clock, events), InputOf(e))
    ensures Legal(clock, events + [e]) && LastReading(clock, events + [e]) == InputOf(e).sent
  {
    var all := events + [e];
    assert all[..|all| - 1] == events && all[|all| - 1] == e;
    assert Legal(clock, events);
  }

  lemma {:induction false} LongestAttemptIsSingle(n: nat)
    requires 1 <= n <= 18
    ensures forall k | 0 <= k < |LongestAttempt(n)| ::
            InputOf(LongestAttempt(n)[k]).now == InputOf(LongestAttempt(n)[k]).later
  {
    if n > 1 {
      LongestAttemptIsSingle(n - 1);
    }
  }

  lemma {:induction false} LongestAttemptSends(params: H.Params, n: nat)
    requires 1 <= n <= 19
    ensures AttemptStands(Exec(Start(params, 0, H.TimeStamper(0, 0), None, 0), LongestAttempt(n)), n,
                          5 * SECOND * (n - 1))
  {
    hide Advance, AttemptStands, LongestAttempt, Exec;
    var begin := Start(params, 0, H.TimeStamper(0, 0), None, 0);
    var events := LongestAttempt(n);
    LastOfLongest(n);
    OneMoreAdvance(begin, events);
    if n == 1 {
      NothingAdvances(begin);
      FirstAttempt(params, At(0, 0));
    } else {
      LongestAttemptSends(params, n - 1);
      var last := InputOf(events[|events| - 1]);
      OneMoreRetransmission(Exec(begin, LongestAttempt(n - 1)), n - 1, 5 * SECOND * (n - 2), last);
    }
  }

  lemma LastOfLongest(n: nat)
    requires 1 <= n <= 19
    ensures var events := LongestAttempt(n);
            && events != []
            && events[..|events| - 1] == (if n == 1 then [] else LongestAttempt(n - 1))
            && events[|events| - 1]
               == if n == 1 then Send([], At(0, 0))
                  else if n == 19 then TimerEvent(At(90 * SECOND - 1, 90 * SECOND))
                  else TimerEvent(At(5 * SECOND * (n - 1), 5 * SECOND * (n - 1)))
  {
  }

  lemma OneMoreAdvance(tr: Trace, events: seq<Event>)
    requires events != []
    ensures Exec(tr, events) == Advance(Exec(tr, events[..|events| - 1]), events[|events| - 1])
  {
    hide Advance;
  }

  lemma NothingAdvances(tr: Trace)
    ensures Exec(tr, []) == tr
  {
  }

  lemma FirstAttempt(params: H.Params, i: Input)
    requires i == At(0, 0)
    ensures AttemptStands(Advance(Start(params, 0, H.TimeStamper(0, 0), None, 0), Send([], i)), 1, 0)
  {
    hide H.FormatInitiation, Sends, Installs;
    var t := Start(params, 0, H.TimeStamper(0, 0), None, 0).t;
    assert Sends(t, Send([], i)) && Step(t, Send([], i)).0.timers.values == AllAt(0) by {
      FirstSends(t, i);
    }
    StepSends(t, Send([], i));
    TimeStartedStays(t, Send([], i));
  }

  lemma FirstSends(t: Tunnel, i: Input)
    requires InputOk(i) && CurrentSession(t).None? && t.handshake.state.NoHandshake?
    requires t.timers.values == AllAt(0)
    ensures Sends(t, Send([], i)) && Step(t, Send([], i)).0.timers.values == AllAt(0)
  {
    InitiationIsSent(QueuePacket(t, []), false, i);
    hide H.FormatInitiation, IsInitiation;
  }

  /** Both bounds of AttemptsAreBounded are reached: 18 by a run in which no call straddles the
      deadline, 19 by one in which its last call does. */
  lemma AttemptBoundIsReached(params: H.Params, within: bool)
    ensures var begin := Start(params, 0, H.TimeStamper(0, 0), None, 0);
            exists events :: && Legal(0, events)
                             && (within ==> NoneStraddles(begin, events))
                             && Exec(begin, events).sends == MaxSends(within)
  {
    hide Exec, Legal, LongestAttempt;
    var n := MaxSends(within);
    LongestAttemptSends(params, n);
    LongestAttemptIsLegal(n);
    if within {
      LongestAttemptIsSingle(n);
    }
    assert Legal(0, LongestAttempt(n));
  }
}
