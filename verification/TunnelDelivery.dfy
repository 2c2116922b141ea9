/** What reaches the interface: padding, lengths and counters of bytes, and which session is current. */
module TunnelDelivery {
  import opened Wrappers
  import opened ByteStrings
  import opened Crypto
  import opened Wire
  import R = ReplayWindow
  import S = Session
  import H = HandshakeSpec
  import opened TunnelSpec
  import opened TunnelInvariants
  import opened TunnelFlush

  // Headers

  predicate HasVersion(src: Bytes, version: nat) {
    |src| > 0 && src[0].Lit? && src[0].v / 16 == version
  }

  /** Two bytes, the high one first. */
  function Word(src: Bytes, off: nat): nat
    requires off + 2 <= |src|
  {
    if src[off].Lit? && src[off + 1].Lit? then 256 * src[off].v + src[off + 1].v else 0
  }

  predicate HasWord(src: Bytes, off: nat)
    requires off + 2 <= |src|
  {
    src[off].Lit? && src[off + 1].Lit?
  }

  predicate IsV4(src: Bytes) {
    HasVersion(src, 4) && |src| >= 20 && HasWord(src, 2) && Word(src, 2) <= |src|
  }

  predicate IsV6(src: Bytes) {
    HasVersion(src, 6) && |src| >= 40 && HasWord(src, 4) && 40 + Word(src, 4) <= |src|
  }

  lemma WordIsBe(src: Bytes, off: nat)
    requires off + 2 <= |src|
    ensures Be16At(src, off) == if HasWord(src, off) then Some(Word(src, off)) else None
  {
    var part := src[off..off + 2];
    assert part[0] == src[off] && part[1] == src[off + 1];
    if HasWord(src, off) {
      var v := Values(part).value;
      assert v[0] == src[off].v && v[1] == src[off + 1].v;
      FromTwo(v);
    }
  }

  lemma FromTwo(v: seq<u8>)
    requires |v| == 2
    ensures FromBe(v) == 256 * (v[0] as int) + v[1]
  {
    assert v[..1][..0] == [] && v[..1][0] == v[0];
    assert FromBe(v[..1]) == v[0];
  }

  /** Every decrypted packet: it is delivered exactly if its header is complete and announces no more than
      there is; then as much as the header announces, with the source address of the header, and that
      much is counted. Everything else but a keepalive is an error. */
  lemma DeliversIff(t: Tunnel, src: Bytes)
    ensures var (u, r) := ValidatePacket(t, src);
            && (r.WriteToTunnelV4? <==> IsV4(src)) && (r.WriteToTunnelV6? <==> IsV6(src))
            && (IsV4(src) ==>
                  && r == WriteToTunnelV4(src[..Word(src, 2)], src[12..16])
                  && u == Tick(t, TimeLastDataPacketReceived).(rxBytes := t.rxBytes + Word(src, 2)))
            && (IsV6(src) ==>
                  && r == WriteToTunnelV6(src[..40 + Word(src, 4)], src[8..24])
                  && u == Tick(t, TimeLastDataPacketReceived).(rxBytes := t.rxBytes + 40 + Word(src, 4)))
            && (src == [] ==> r == Done && u == t)
            && (src != [] && !IsV4(src) && !IsV6(src) ==> r == Fault(InvalidPacket) && u == t)
  {
    if |src| >= 20 {
      WordIsBe(src, 2);
    }
    if |src| >= 40 {
      WordIsBe(src, 4);
    }
    hide Be16At, Word, HasWord, Tick;
  }

  // Padding

  lemma WellFormedIff(src: Bytes)
    ensures WellFormedPacket(src)
       <==> (IsV4(src) && Word(src, 2) == |src|) || (IsV6(src) && 40 + Word(src, 4) == |src|)
  {
    if |src| >= 20 {
      WordIsBe(src, 2);
    }
    if |src| >= 40 {
      WordIsBe(src, 4);
    }
    hide Be16At, Word, HasWord;
  }

  /** Whatever follows a packet to pad it is removed. */
  lemma PaddingIsRemoved(t: Tunnel, src: Bytes, pad: Bytes)
    requires WellFormedPacket(src)
    ensures ValidatePacket(t, src + pad) == ValidatePacket(t, src)
    ensures ValidatePacket(t, src).1 == Delivery(src)
  {
    var all := src + pad;
    WellFormedIff(src);
    DeliversIff(t, src);
    DeliversIff(t, all);
    ValidateIff(t, src);
    assert all[0] == src[0];
    assert IsV4(src) ==>
             && all[2] == src[2] && all[3] == src[3] && all[12..16] == src[12..16]
             && all[..|src|] == src[..|src|];
    assert IsV6(src) ==>
             && all[4] == src[4] && all[5] == src[5] && all[8..24] == src[8..24]
             && all[..|src|] == src[..|src|];
    hide ValidatePacket, WellFormedPacket;
  }

  /** A packet padded by its sender arrives without the padding, and both sides count its bytes: the
      sender all it encrypted, the receiver what it delivered. */
  lemma PaddedArrives(a: Tunnel, b: Tunnel, src: Bytes, pad: Bytes, i: Input, j: Input)
    requires CurrentSession(a).Some? && Reaches(Current(a), b) && WellFormedPacket(src)
    requires Current(a).sendCounter + R.N_BITS < U64_SIZE
    ensures var (a1, out) := Encapsulate(a, src + pad, i);
            && out.WriteToNetwork?
            && var (b1, r) := ReceiveDatagram(b, out.wire, j);
            && r == Delivery(src)
            && a1.txBytes == a.txBytes + |src + pad| && a1.rxBytes == a.rxBytes
            && b1.rxBytes == b.rxBytes + |src| && b1.txBytes == b.txBytes
            && CurrentSession(a1).Some? && Reaches(Current(a1), b1)
  {
    var all := src + pad;
    TunnelRoundTrip(a, b, all, i, j);
    SendCounts(a, all, i);
    var s := Current(a);
    SessionRoundTrip(s, b.sessions[s.peerIndex % N_SESSIONS].value, all);
    hide S.FormatPacketData, S.ReceivePacketData, ParseIncomingPacket, InStep, WellFormedPacket, Encapsulate,
         ValidatePacket,
         Reaches, Delivery;
    var wire := S.FormatPacketData(s, all).1;
    var p := ParseIncomingPacket(wire).value;
    DataIsValidated(b, p, all, j);
    var t := Tick(SetCurrent(b.(sessions := b.sessions[p.receiverIdx % N_SESSIONS := Some(
      S.ReceivePacketData(b.sessions[p.receiverIdx % N_SESSIONS].value, p).0)]), p.receiverIdx),
          TimeLastPacketReceived);
    PaddingIsRemoved(t, src, pad);
    CountsDelivered(t, src);
  }

  lemma SendCounts(a: Tunnel, src: Bytes, i: Input)
    requires CurrentSession(a).Some?
    ensures var (a1, out) := Encapsulate(a, src, i);
            && out == WriteToNetwork(S.FormatPacketData(Current(a), src).1)
            && a1.txBytes == a.txBytes + |src| && a1.rxBytes == a.rxBytes
  {
    hide S.FormatPacketData;
  }

  lemma DataIsValidated(b: Tunnel, p: Packet, plain: Bytes, j: Input)
    requires p.PacketData? && b.sessions[p.receiverIdx % N_SESSIONS].Some?
    requires S.ReceivePacketData(b.sessions[p.receiverIdx % N_SESSIONS].value, p).1 == Ok(plain)
    ensures var slot := p.receiverIdx % N_SESSIONS;
            var b0 := b.(sessions := b.sessions[slot := Some(S.ReceivePacketData(b.sessions[slot].value, p).0)]);
            var t := Tick(SetCurrent(b0, p.receiverIdx), TimeLastPacketReceived);
            && HandleVerifiedPacket(b, p, j) == ValidatePacket(t, plain)
            && t.rxBytes == b.rxBytes && t.txBytes == b.txBytes
  {
    hide S.ReceivePacketData, ValidatePacket;
  }

  lemma CountsDelivered(t: Tunnel, src: Bytes)
    requires WellFormedPacket(src)
    ensures var u := ValidatePacket(t, src).0;
            u.rxBytes == t.rxBytes + |src| && u.txBytes == t.txBytes
  {
    WellFormedIff(src);
    DeliversIff(t, src);
    hide ValidatePacket, WellFormedPacket;
  }

  // The current session

  /** Which session is current after an accepted packet: that of the packet exactly if it was current
      before, or none was alive, or it is at least as new as the one that was. So a late packet of an
      older session does not bring that session back. */
  lemma CurrentAfterData(t: Tunnel, p: Packet, i: Input)
    requires p.PacketData? && t.sessions[p.receiverIdx % N_SESSIONS].Some?
    requires S.ReceivePacketData(t.sessions[p.receiverIdx % N_SESSIONS].value, p).1.Ok?
    ensures var times := t.timers.sessionTimers;
            var newer := times[p.receiverIdx % N_SESSIONS] >= times[t.current % N_SESSIONS];
            HandleVerifiedPacket(t, p, i).0.current == if CurrentSession(t).None? || newer then p.receiverIdx
                else t.current
  {
    hide S.ReceivePacketData, IpHeader;
  }

  /** A packet that is not accepted leaves the current session. */
  lemma CurrentAfterRefusal(t: Tunnel, p: Packet, i: Input)
    requires p.PacketData? && (t.sessions[p.receiverIdx % N_SESSIONS].Some? ==>
                                 S.ReceivePacketData(t.sessions[p.receiverIdx % N_SESSIONS].value, p).1.Err?)
    ensures HandleVerifiedPacket(t, p, i).0 == t && HandleVerifiedPacket(t, p, i).1.Fault?
  {
    hide S.ReceivePacketData, IpHeader;
  }

  /** An update keeps exactly the sessions that are at most 180 seconds old by their slot's timer. */
  lemma SessionSurvivesIff(t: Tunnel, i: Input, k: nat)
    requires k < 8 && !t.handshake.state.Expired?
    requires UpdateTimers(t, i).1 != Fault(ConnectionExpired)
    ensures var now := H.Since(i.now, t.timers.timeStarted);
            UpdateTimers(t, i).0.sessions[k].Some?
            <==> t.sessions[k].Some? && now - t.timers.sessionTimers[k] <= 180 * SECOND
  {
    BeginUpdateKeepsIff(t, i, k);
    hide BeginUpdate, FormatInitiation, UpdateEstablished, ClearAll;
    var t2 := DropOldCookie(BeginUpdate(t, i));
    DropOldCookieOnly(BeginUpdate(t, i));
    InitiationKeepsSlots(t2, true, i, k);
    EstablishedKeepsSlots(t2, i, k);
  }

  lemma BeginUpdateKeepsIff(t: Tunnel, i: Input, k: nat)
    requires k < 8
    ensures var now := H.Since(i.now, t.timers.timeStarted);
            && BeginUpdate(t, i).handshake == t.handshake
            && (BeginUpdate(t, i).sessions[k].Some?
                <==> t.sessions[k].Some? && now - t.timers.sessionTimers[k] <= 180 * SECOND)
  {
  }

  lemma InitiationKeepsSlots(t: Tunnel, force: bool, i: Input, k: nat)
    requires k < 8
    ensures FormatInitiation(t, force, i).0.sessions == t.sessions
  {
    hide H.FormatInitiation;
  }

  lemma EncapsulateKeepsSlots(t: Tunnel, src: Bytes, i: Input, k: nat)
    requires k < 8
    ensures Encapsulate(t, src, i).0.sessions[k].Some? <==> t.sessions[k].Some?
  {
    hide FormatInitiation, S.FormatPacketData;
    InitiationKeepsSlots(QueuePacket(t, src), false, i, k);
  }

  lemma EstablishedKeepsSlots(t: Tunnel, i: Input, k: nat)
    requires k < 8
    ensures UpdateEstablished(t, i).0.sessions[k].Some? <==> t.sessions[k].Some?
  {
    hide FormatInitiation, Encapsulate, RekeyDue, SilenceDue, KeepaliveDue, PersistentKeepaliveDue;
    var t1 := if SilenceDue(t.timers) then t.(timers := t.timers.(wantHandshake := false)) else t;
    var t2 := if KeepaliveDue(t.timers) then t1.(timers := t1.timers.(wantKeepalive := false)) else t1;
    var t3 := if PersistentKeepaliveDue(t.timers) then Tick(t2, TimePersistentKeepalive) else t2;
    InitiationKeepsSlots(t1, true, i, k);
    EncapsulateKeepsSlots(t3, [], i, k);
  }

  /** A responder goes on sending over the session it had, until data arrives over the new one. The
      exception is a new session that falls into the slot of the current one, which happens at every
      eighth answer without data in between: it is used at once, unconfirmed. */
  lemma AnswerKeepsCurrentIff(t: Tunnel, p: Packet, i: Input)
    requires p.HandshakeInit? && H.ReceiveInitiation(t.handshake, p, i.dstLen, i.ephemeral).1.Ok?
    ensures var s := H.ReceiveInitiation(t.handshake, p, i.dstLen, i.ephemeral).1.value.1;
            var u := HandleVerifiedPacket(t, p, i).0;
            && u.sessions[s.localIndex % N_SESSIONS] == Some(s)
            && CurrentSession(u) == if s.localIndex % N_SESSIONS == t.current % N_SESSIONS then Some(s)
               else CurrentSession(t)
  {
    hide H.ReceiveInitiation;
  }

  /** The roles after a handshake: who answered is the responder, and who accepted the answer the
      initiator; both take the present for the session's beginning. */
  lemma RolesAfterHandshake(t: Tunnel, p: Packet, i: Input)
    ensures p.HandshakeInit? && H.ReceiveInitiation(t.handshake, p, i.dstLen, i.ephemeral).1.Ok? ==>
              var s := H.ReceiveInitiation(t.handshake, p, i.dstLen, i.ephemeral).1.value.1;
              Begins(HandleVerifiedPacket(t, p, i).0, false, s.localIndex, t.timers.values.current)
    ensures p.HandshakeResponse? && H.ReceiveResponse(t.handshake, p, i.later).1.Ok? ==>
              var s := H.ReceiveResponse(t.handshake, p, i.later).1.value;
              Begins(HandleVerifiedPacket(t, p, i).0, true, s.localIndex, t.timers.values.current)
  {
    hide H.ReceiveInitiation, H.ReceiveResponse, S.FormatPacketData;
    if p.HandshakeResponse? && H.ReceiveResponse(t.handshake, p, i.later).1.Ok? {
      SendKeepsIndexes(H.ReceiveResponse(t.handshake, p, i.later).1.value, []);
    }
  }

  predicate Begins(u: Tunnel, isInitiator: bool, index: nat, now: nat) {
    && u.timers.isInitiator == isInitiator && u.timers.values.sessionEstablished == now
    && u.timers.sessionTimers[index % N_SESSIONS] == now && u.timers.values.packetReceived == now
    && u.sessions[index % N_SESSIONS].Some? && u.sessions[index % N_SESSIONS].value.localIndex == index
  }

  /** A change of the private key ends every session: what arrives afterwards for one is refused. */
  lemma RekeyEndsSessions(t: Tunnel, staticPrivate: nat, p: Packet, i: Input, j: Input)
    requires p.PacketData?
    ensures var u := Step(t, Rekey(staticPrivate, i)).0;
            && CurrentSession(u).None? && u.handshake.params.staticPrivate == staticPrivate
            && Step(u, Receive(p, j)) == (u, Fault(NoCurrentSession))
  {
  }

  // The queue

  function RunSends(t: Tunnel, srcs: seq<Bytes>, i: Input): Tunnel {
    if srcs == [] then t else Step(RunSends(t, srcs[..|srcs| - 1], i), Send(srcs[|srcs| - 1], i)).0
  }

  function FirstOf(srcs: seq<Bytes>, n: nat): seq<Bytes> {
    if |srcs| <= n then srcs else srcs[..n]
  }

  /** While there is no session the first 256 packets wait in their order, and later ones are dropped. */
  lemma {:induction false} FirstPacketsWait(t: Tunnel, srcs: seq<Bytes>, i: Input)
    requires CurrentSession(t).None? && QueueOk(t)
    ensures var u := RunSends(t, srcs, i);
            CurrentSession(u).None? && u.queue == FirstOf(t.queue + srcs, MAX_QUEUE_DEPTH)
  {
    assert |t.queue| <= MAX_QUEUE_DEPTH;
    hide Step, FirstOf, QueueOk;
    if srcs != [] {
      var last := |srcs| - 1;
      FirstPacketsWait(t, srcs[..last], i);
      SendWaits(RunSends(t, srcs[..last], i), srcs[last], i);
      OneMoreOf(t.queue, srcs, MAX_QUEUE_DEPTH);
    } else {
      AllFit(t.queue);
    }
  }

  lemma AllFit(queue: seq<Bytes>)
    ensures |queue| <= MAX_QUEUE_DEPTH ==> FirstOf(queue + [], MAX_QUEUE_DEPTH) == queue
  {
    assert queue + [] == queue;
  }

  lemma OneMoreOf(queue: seq<Bytes>, srcs: seq<Bytes>, n: nat)
    requires srcs != []
    ensures var last := |srcs| - 1;
            var before := FirstOf(queue + srcs[..last], n);
            FirstOf(queue + srcs, n) == if |before| < n then before + [srcs[last]] else before
  {
    var last := |srcs| - 1;
    assert queue + srcs == (queue + srcs[..last]) + [srcs[last]];
  }

  lemma SendWaits(t: Tunnel, src: Bytes, i: Input)
    requires CurrentSession(t).None?
    ensures var u := Step(t, Send(src, i)).0;
            CurrentSession(u).None? && u.queue == if |t.queue| < MAX_QUEUE_DEPTH then t.queue + [src] else t.queue
  {
    hide H.FormatInitiation;
  }
}
