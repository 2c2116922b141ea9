/** Draining the packet queue, and the way of a packet through two tunnels. */
module TunnelFlush {
  import opened Wrappers
  import opened Crypto
  import opened Wire
  import R = ReplayWindow
  import S = Session
  import H = HandshakeSpec
  import HP = HandshakeProofs
  import opened TunnelSpec
  import opened TunnelInvariants

  /** The flush loop: repeated calls with an empty datagram until one has nothing for the network.
      Each call takes one input; the last component says whether the loop has ended. */
  function FlushAll(t: Tunnel, inputs: seq<Input>): (Tunnel, seq<Bytes>, bool)
    decreases |inputs|
  {
    if inputs == [] then (t, [], false)
    else
      match SendQueuedPacket(t, inputs[0])
      case (t1, WriteToNetwork(wire)) =>
        var (t2, wires, ended) := FlushAll(t1, inputs[1..]);
        (t2, [wire] + wires, ended)
      case (t1, _) => (t1, [], true)
  }

  lemma FlushOnce(t: Tunnel, inputs: seq<Input>)
    requires inputs != []
    ensures var (u, r) := SendQueuedPacket(t, inputs[0]);
            var (v, wires, ended) := FlushAll(u, inputs[1..]);
            FlushAll(t, inputs) == if r.WriteToNetwork? then (v, [r.wire] + wires, ended) else (u, [], true)
  {
    hide SendQueuedPacket;
  }

  function Current(t: Tunnel): S.Session
    requires CurrentSession(t).Some?
  {
    CurrentSession(t).value
  }

  lemma {:induction false} SendAllFromFront(s: S.Session, srcs: seq<Bytes>)
    requires srcs != []
    ensures var (s1, wire) := S.FormatPacketData(s, srcs[0]);
            S.SendAll(s, srcs) == (S.SendAll(s1, srcs[1..]).0, [wire] + S.SendAll(s1, srcs[1..]).1)
  {
    hide S.FormatPacketData;
    var last := |srcs| - 1;
    var (s1, wire) := S.FormatPacketData(s, srcs[0]);
    if last == 0 {
      assert S.SendAll(s, srcs[..0]) == (s, []);
      assert S.SendAll(s1, srcs[1..]) == (s1, []);
      assert [] + [wire] == [wire] + [];
    } else {
      SendAllFromFront(s, srcs[..last]);
      var rest := srcs[1..];
      assert srcs[..last][1..] == rest[..last - 1] && srcs[..last][0] == srcs[0] && rest[last - 1] == srcs[last];
      var (s2, before) := S.SendAll(s1, rest[..last - 1]);
      var w := S.FormatPacketData(s2, srcs[last]).1;
      assert ([wire] + before) + [w] == [wire] + (before + [w]);
    }
  }

  /** One call with a current session sends the front of the queue and takes it off. */
  lemma FlushSendsFront(t: Tunnel, i: Input)
    requires CurrentSession(t).Some? && t.queue != []
    ensures var (s, wire) := S.FormatPacketData(Current(t), t.queue[0]);
            var (u, r) := SendQueuedPacket(t, i);
            && r == WriteToNetwork(wire)
            && u.queue == t.queue[1..] && u.current == t.current
            && u.sessions == t.sessions[t.current % N_SESSIONS := Some(s)]
            && u.handshake == t.handshake
  {
    hide S.FormatPacketData;
  }

  /** With a live current session, the loop ends within one call more than there are packets. It
      sends the whole queue in its order over that session and leaves it empty. */
  lemma {:induction false} FlushDrainsQueue(t: Tunnel, inputs: seq<Input>)
    requires CurrentSession(t).Some? && |inputs| > |t.queue|
    ensures var (u, wires, ended) := FlushAll(t, inputs);
            && ended && u.queue == []
            && wires == S.SendAll(Current(t), t.queue).1
            && u.current == t.current
            && u.sessions == t.sessions[t.current % N_SESSIONS := Some(S.SendAll(Current(t), t.queue).0)]
            && u.handshake == t.handshake
    decreases |inputs|
  {
    hide S.FormatPacketData;
    if t.queue != [] {
      hide SendQueuedPacket, S.SendAll;
      FlushSendsFront(t, inputs[0]);
      var u := SendQueuedPacket(t, inputs[0]).0;
      FlushDrainsQueue(u, inputs[1..]);
      SendAllFromFront(Current(t), t.queue);
    }
  }

  /** One call without a session rotates the queue; it sends an initiation unless a handshake is in
      progress. */
  lemma FlushRotates(t: Tunnel, i: Input)
    requires CurrentSession(t).None? && t.queue != [] && QueueOk(t) && InputOk(i)
    ensures var (u, r) := SendQueuedPacket(t, i);
            && u.queue == t.queue[1..] + [t.queue[0]]
            && u.sessions == t.sessions && u.current == t.current
            && H.InProgress(u.handshake)
            && (r.WriteToNetwork? <==> !H.InProgress(t.handshake))
  {
    var t1 := QueuePacket(t.(queue := t.queue[1..]), t.queue[0]);
    InitiationWithoutForce(t1, i);
    hide FormatInitiation;
  }

  lemma InitiationWithoutForce(t: Tunnel, i: Input)
    requires InputOk(i)
    ensures var (u, r) := FormatInitiation(t, false, i);
            && u.queue == t.queue && u.sessions == t.sessions && u.current == t.current
            && H.InProgress(u.handshake) && !r.Fault?
            && (r.WriteToNetwork? <==> !H.InProgress(t.handshake))
  {
    NotFault(t, false, i);
    if !H.InProgress(t.handshake) {
      HP.InitiationParses(t.handshake, i.dstLen, i.ephemeral, i.sent);
    }
    hide H.FormatInitiation;
  }

  lemma RotationPreserves(q: seq<Bytes>)
    requires q != []
    ensures multiset(q[1..] + [q[0]]) == multiset(q)
  {
    assert q == [q[0]] + q[1..];
  }

  /** Without a session the loop ends within two calls, sends at most one initiation, and keeps the
      queued packets, though it may rotate them. */
  lemma FlushKeepsQueue(t: Tunnel, inputs: seq<Input>)
    requires CurrentSession(t).None? && QueueOk(t)
    requires |inputs| > 1 && forall k | 0 <= k < |inputs| :: InputOk(inputs[k])
    ensures var (u, wires, ended) := FlushAll(t, inputs);
            && ended && |wires| <= 1
            && multiset(u.queue) == multiset(t.queue)
            && (wires != [] <==> t.queue != [] && !H.InProgress(t.handshake))
  {
    if t.queue != [] {
      hide SendQueuedPacket, InputOk;
      FlushRotates(t, inputs[0]);
      RotationPreserves(t.queue);
      var (u, r) := SendQueuedPacket(t, inputs[0]);
      if r.WriteToNetwork? {
        assert InputOk(inputs[1]);
        FlushRotates(u, inputs[1..][0]);
        RotationPreserves(u.queue);
      }
    }
  }

  /** How many more calls send something. */
  function CallsLeft(t: Tunnel): nat {
    if CurrentSession(t).Some? then |t.queue| else if t.queue != [] && !H.InProgress(t.handshake) then 1 else 0
  }

  /** Every call of the loop counts down, and the loop ends at zero. */
  lemma CallCountsDown(t: Tunnel, i: Input)
    requires QueueOk(t) && InputOk(i)
    ensures var (u, r) := SendQueuedPacket(t, i);
            && QueueOk(u)
            && (r.WriteToNetwork? <==> CallsLeft(t) > 0)
            && (r.WriteToNetwork? ==> CallsLeft(u) == CallsLeft(t) - 1)
  {
    hide SendQueuedPacket;
    if t.queue == [] {
      NothingQueued(t, i);
    } else if CurrentSession(t).Some? {
      FlushSendsFront(t, i);
    } else {
      FlushRotates(t, i);
    }
  }

  lemma NothingQueued(t: Tunnel, i: Input)
    requires t.queue == []
    ensures SendQueuedPacket(t, i) == (t, Done)
  {
  }

  /** Without room for an initiation the packet that was to start the handshake is put back in
      front after it was already put at the end: it is then queued twice, unless the queue is full. */
  lemma SmallBufferDuplicates(t: Tunnel, i: Input)
    requires CurrentSession(t).None? && t.queue != [] && QueueOk(t)
    requires !InputOk(i) && !H.InProgress(t.handshake)
    ensures var (u, r) := SendQueuedPacket(t, i);
            && r == Done
            && (multiset(u.queue) == multiset(t.queue) <==> |t.queue| == MAX_QUEUE_DEPTH)
            && (|t.queue| < MAX_QUEUE_DEPTH ==> u.queue == t.queue + [t.queue[0]])
  {
    hide SendQueuedPacket;
    RotatesAndPutsBack(t, i);
    RotationPreserves(t.queue);
    if |t.queue| < MAX_QUEUE_DEPTH {
      var u := SendQueuedPacket(t, i).0;
      assert t.queue == [t.queue[0]] + t.queue[1..];
      assert u.queue == t.queue + [t.queue[0]];
      assert |multiset(u.queue)| == |multiset(t.queue)| + 1;
    }
  }

  lemma RotatesAndPutsBack(t: Tunnel, i: Input)
    requires CurrentSession(t).None? && t.queue != [] && QueueOk(t)
    requires !InputOk(i) && !H.InProgress(t.handshake)
    ensures var (u, r) := SendQueuedPacket(t, i);
            var rotated := t.queue[1..] + [t.queue[0]];
            && r == Done
            && u.queue == if |t.queue| < MAX_QUEUE_DEPTH then [t.queue[0]] + rotated else rotated
  {
    hide Mac16, Encode, H.InitiationFields, H.IncIndex;
  }

  /** With a handshake in progress the size of the buffer does not matter. */
  lemma InProgressRotates(t: Tunnel, i: Input)
    requires CurrentSession(t).None? && t.queue != [] && QueueOk(t) && H.InProgress(t.handshake)
    ensures var (u, r) := SendQueuedPacket(t, i);
            r == Done && u.queue == t.queue[1..] + [t.queue[0]]
  {
  }

  /** When a flush without a session keeps the queued packets, for every buffer: exactly if the queue is
      empty or full, the buffer holds an initiation, or a handshake is in progress. */
  lemma FlushKeepsPacketsIff(t: Tunnel, i: Input)
    requires CurrentSession(t).None? && QueueOk(t)
    ensures var u := SendQueuedPacket(t, i).0;
            multiset(u.queue) == multiset(t.queue)
            <==> t.queue == [] || InputOk(i) || H.InProgress(t.handshake) || |t.queue| == MAX_QUEUE_DEPTH
  {
    hide SendQueuedPacket;
    if t.queue == [] {
      NothingQueued(t, i);
    } else if InputOk(i) {
      FlushRotates(t, i);
      RotationPreserves(t.queue);
    } else if H.InProgress(t.handshake) {
      InProgressRotates(t, i);
      RotationPreserves(t.queue);
    } else {
      SmallBufferDuplicates(t, i);
    }
  }

  /** A handshake response that is accepted makes its session the current one. */
  lemma ResponseBecomesCurrent(t: Tunnel, p: Packet, i: Input, clock: nat)
    requires TimersOk(t, clock) && p.HandshakeResponse?
    requires H.ReceiveResponse(t.handshake, p, i.later).1.Ok?
    ensures var session := H.ReceiveResponse(t.handshake, p, i.later).1.value;
            var (u, r) := HandleHandshakeResponse(t, p, i);
            && u.current == session.localIndex
            && CurrentSession(u) == Some(S.FormatPacketData(session, []).0)
            && r == WriteToNetwork(S.FormatPacketData(session, []).1)
            && u.queue == t.queue
            && u.handshake == H.ReceiveResponse(t.handshake, p, i.later).0
  {
    hide H.ReceiveResponse, S.FormatPacketData;
  }

  /** After an accepted response, the flush that follows sends everything that was queued. */
  lemma ResponseDrainsQueue(t: Tunnel, p: Packet, i: Input, clock: nat, inputs: seq<Input>)
    requires TimersOk(t, clock) && p.HandshakeResponse? && |inputs| > |t.queue|
    requires H.ReceiveResponse(t.handshake, p, i.later).1.Ok?
    ensures var session := S.FormatPacketData(H.ReceiveResponse(t.handshake, p, i.later).1.value, []).0;
            var (u, wires, ended) := FlushAll(HandleHandshakeResponse(t, p, i).0, inputs);
            ended && u.queue == [] && wires == S.SendAll(session, t.queue).1
  {
    ResponseBecomesCurrent(t, p, i, clock);
    hide HandleHandshakeResponse, S.SendAll, S.FormatPacketData, H.ReceiveResponse, FlushAll;
    FlushDrainsQueue(HandleHandshakeResponse(t, p, i).0, inputs);
  }

  // The way of a packet through two tunnels

  /** The header of its version is complete and announces the packet's own length. */
  predicate WellFormedPacket(src: Bytes) {
    IpHeader(src).Some? && IpHeader(src).value.0 == |src|
  }

  function Delivery(src: Bytes): TunnResult
    requires WellFormedPacket(src)
  {
    if Version(src) == 4 then WriteToTunnelV4(src, src[12..16]) else WriteToTunnelV6(src, src[8..24])
  }

  /** A decrypted packet is passed on unchanged exactly if its header announces its length. */
  lemma ValidateIff(t: Tunnel, src: Bytes)
    ensures var r := ValidatePacket(t, src).1;
            && (r.WriteToTunnelV4? || r.WriteToTunnelV6? ==> r.packet <= src)
            && ((r.WriteToTunnelV4? || r.WriteToTunnelV6?) && r.packet == src <==> WellFormedPacket(src))
            && (WellFormedPacket(src) ==> r == Delivery(src))
            && (r == Done <==> src == [])
            && ValidatePacket(t, src).0 == t.(timers := ValidatePacket(t, src).0.timers,
                                              rxBytes := ValidatePacket(t, src).0.rxBytes)
  {
    hide Be16At;
    if IpHeader(src).Some? && IpHeader(src).value.0 <= |src| {
      var len := IpHeader(src).value.0;
      if len == |src| {
        assert src[..len] == src;
      }
    }
  }

  /** The receiver has seen nothing the sender has not sent. */
  ghost predicate InStep(sa: S.Session, sb: S.Session) {
    S.Mirrored(sa, sb) && R.WellFormed(sb.window) && sb.window.next <= sa.sendCounter
  }

  /** Tunnel b holds, in the slot that a's packets name, the mirror image of session s. */
  ghost predicate Reaches(s: S.Session, b: Tunnel) {
    var slot := b.sessions[s.peerIndex % N_SESSIONS];
    slot.Some? && InStep(s, slot.value)
  }

  lemma MarkMovesTo(w: R.Window, c: nat)
    requires R.WellFormed(w) && w.next <= c && c + R.N_BITS < U64_SIZE
    ensures var (r, w1) := R.Mark(w, c);
            r.Ok? && R.WellFormed(w1) && w1.next == c + 1
    ensures R.Passes(w, c)
  {
  }

  lemma SessionRoundTrip(s: S.Session, b: S.Session, src: Bytes)
    requires InStep(s, b) && s.sendCounter + R.N_BITS < U64_SIZE
    ensures var (s1, wire) := S.FormatPacketData(s, src);
            && s1 == s.(sendCounter := s.sendCounter + 1)
            && ParseIncomingPacket(wire).Ok? && ParseIncomingPacket(wire).value.PacketData?
            && ParseIncomingPacket(wire).value.receiverIdx == s.peerIndex
            && var (b1, r) := S.ReceivePacketData(b, ParseIncomingPacket(wire).value);
            && r == Ok(src) && InStep(s1, b1)
  {
    hide Seal, Open, CounterNonce, Encode, ParseIncomingPacket, R.WellFormed, R.Mark, R.Passes, R.WillAccept;
    MarkMovesTo(b.window, s.sendCounter);
    S.RoundTrip(s, b, src);
    var p := PacketData(s.peerIndex, s.sendCounter, Seal(s.sendingKey, CounterNonce(s.sendCounter), src, []));
    ParseEncoded(p, []);
    assert Encode(p) + [] == Encode(p);
  }

  /** What a tunnel does with a datagram once the rate limiter has let it pass; data packets always
      pass. */
  function ReceiveDatagram(t: Tunnel, datagram: Bytes, i: Input): (Tunnel, TunnResult) {
    match ParseIncomingPacket(datagram)
    case Err(e) => (t, Fault(e))
    case Ok(p) => HandleVerifiedPacket(t, p, i)
  }

  function ReceiveAll(t: Tunnel, datagrams: seq<Bytes>, i: Input): (r: (Tunnel, seq<TunnResult>))
    ensures |r.1| == |datagrams|
  {
    if datagrams == [] then (t, [])
    else
      var (t1, before) := ReceiveAll(t, datagrams[..|datagrams| - 1], i);
      var (t2, r) := ReceiveDatagram(t1, datagrams[|datagrams| - 1], i);
      (t2, before + [r])
  }

  /** The receiving tunnel's answer depends only on what was sent. */
  predicate Arrives(src: Bytes, r: TunnResult) {
    && (src == [] <==> r == Done)
    && (WellFormedPacket(src) ==> r == Delivery(src))
    && ((r.WriteToTunnelV4? || r.WriteToTunnelV6?) && r.packet == src ==> WellFormedPacket(src))
  }

  /** One packet, sent over a session whose mirror image the other tunnel holds. */
  lemma PacketArrives(s: S.Session, b: Tunnel, src: Bytes, i: Input)
    requires Reaches(s, b) && s.sendCounter + R.N_BITS < U64_SIZE
    ensures var (s1, wire) := S.FormatPacketData(s, src);
            var (b1, r) := ReceiveDatagram(b, wire, i);
            && s1 == s.(sendCounter := s.sendCounter + 1)
            && Arrives(src, r) && Reaches(s1, b1) && b1.handshake == b.handshake && b1.queue == b.queue
  {
    var slot := s.peerIndex % N_SESSIONS;
    SessionRoundTrip(s, b.sessions[slot].value, src);
    hide S.FormatPacketData, S.ReceivePacketData, ParseIncomingPacket, ValidatePacket, WellFormedPacket, Delivery,
         InStep;
    var p := ParseIncomingPacket(S.FormatPacketData(s, src).1).value;
    var b0 := b.(sessions := b.sessions[slot := Some(S.ReceivePacketData(b.sessions[slot].value, p).0)]);
    ValidateIff(Tick(SetCurrent(b0, p.receiverIdx), TimeLastPacketReceived), src);
  }

  lemma ReceiveAllThenOne(t: Tunnel, datagrams: seq<Bytes>, last: Bytes, i: Input)
    ensures var (t1, before) := ReceiveAll(t, datagrams, i);
            var (t2, r) := ReceiveDatagram(t1, last, i);
            ReceiveAll(t, datagrams + [last], i) == (t2, before + [r])
  {
    hide ReceiveDatagram;
    assert (datagrams + [last])[..|datagrams|] == datagrams;
  }

  lemma SendAllThenOne(s: S.Session, srcs: seq<Bytes>)
    requires srcs != []
    ensures var last := |srcs| - 1;
            var (s1, before) := S.SendAll(s, srcs[..last]);
            var (s2, wire) := S.FormatPacketData(s1, srcs[last]);
            S.SendAll(s, srcs) == (s2, before + [wire])
  {
    hide S.FormatPacketData;
  }

  ghost predicate AllArrive(srcs: seq<Bytes>, rs: seq<TunnResult>) {
    |rs| == |srcs| && forall k | 0 <= k < |srcs| :: Arrives(srcs[k], rs[k])
  }

  lemma OneMoreArrives(srcs: seq<Bytes>, rs: seq<TunnResult>, src: Bytes, r: TunnResult)
    requires AllArrive(srcs, rs) && Arrives(src, r)
    ensures AllArrive(srcs + [src], rs + [r])
  {
    hide Arrives;
  }

  lemma NothingArrives(s: S.Session, b: Tunnel, i: Input)
    ensures S.SendAll(s, []) == (s, []) && ReceiveAll(b, [], i) == (b, []) && AllArrive([], [])
  {
  }

  /** A stream of packets arrives complete and in order. */
  lemma {:induction false} StreamArrives(s: S.Session, b: Tunnel, srcs: seq<Bytes>, i: Input)
    requires Reaches(s, b) && s.sendCounter + |srcs| + R.N_BITS < U64_SIZE
    ensures var (s1, wires) := S.SendAll(s, srcs);
            var (b1, rs) := ReceiveAll(b, wires, i);
            && AllArrive(srcs, rs)
            && s1 == s.(sendCounter := s.sendCounter + |srcs|)
            && Reaches(s1, b1) && b1.handshake == b.handshake && b1.queue == b.queue
  {
    hide *;
    if srcs == [] {
      NothingArrives(s, b, i);
    } else {
      var last := |srcs| - 1;
      StreamArrives(s, b, srcs[..last], i);
      var (s1, before) := S.SendAll(s, srcs[..last]);
      var (b1, rs) := ReceiveAll(b, before, i);
      PacketArrives(s1, b1, srcs[last], i);
      SendAllThenOne(s, srcs);
      var wire := S.FormatPacketData(s1, srcs[last]).1;
      ReceiveAllThenOne(b, before, wire, i);
      OneMoreArrives(srcs[..last], rs, srcs[last], ReceiveDatagram(b1, wire, i).1);
      assert srcs[..last] + [srcs[last]] == srcs;
    }
  }

  /** Tunnel round trip: encapsulating a packet, then parsing, decrypting and validating it on the
      other side, gives back the same bytes and the header's source address. */
  lemma TunnelRoundTrip(a: Tunnel, b: Tunnel, src: Bytes, i: Input, j: Input)
    requires CurrentSession(a).Some? && Reaches(Current(a), b)
    requires Current(a).sendCounter + R.N_BITS < U64_SIZE
    ensures var (a1, out) := Encapsulate(a, src, i);
            && out.WriteToNetwork?
            && var (b1, r) := ReceiveDatagram(b, out.wire, j);
            && (src == [] <==> r == Done)
            && (WellFormedPacket(src) <==> (r.WriteToTunnelV4? || r.WriteToTunnelV6?) && r.packet == src)
            && (WellFormedPacket(src) ==> r == Delivery(src))
            && CurrentSession(a1).Some? && Reaches(Current(a1), b1)
  {
    PacketArrives(Current(a), b, src, j);
    hide S.FormatPacketData, ReceiveDatagram, WellFormedPacket, Reaches;
  }

  // Opening a connection

  /** The first packet for a peer starts a handshake and waits in the queue. */
  lemma FirstPacketInitiates(a: Tunnel, src: Bytes, i: Input)
    requires CurrentSession(a).None? && !H.InProgress(a.handshake) && InputOk(i)
    ensures var (a1, r) := Encapsulate(a, src, i);
            && (a1.handshake, Ok(r.wire)) == H.FormatInitiation(a.handshake, i.dstLen, i.ephemeral, i.sent)
            && r.WriteToNetwork? && a1.queue == QueuePacket(a, src).queue
  {
    HP.InitiationParses(a.handshake, i.dstLen, i.ephemeral, i.sent);
    hide H.FormatInitiation, ParseIncomingPacket, H.InitiationFields;
  }

  lemma NewSessions(h: H.State, p: Packet, dstLen: nat, ephemeral: nat, now: nat)
    ensures p.HandshakeInit? ==>
              var r := H.ReceiveInitiation(h, p, dstLen, ephemeral).1;
              r.Ok? ==> r.value.1.window == R.EMPTY
    ensures p.HandshakeResponse? ==>
              var r := H.ReceiveResponse(h, p, now).1;
              r.Ok? ==> r.value.sendCounter == 0
  {
    hide H.ReadInitiation, H.After, H.AppendMacs, H.ResponderKey, H.ResponseKey, Encode;
  }

  lemma AnswerInstalls(b: Tunnel, p: Packet, j: Input)
    requires p.HandshakeInit? && H.ReceiveInitiation(b.handshake, p, j.dstLen, j.ephemeral).1.Ok?
    ensures var (wire, sb) := H.ReceiveInitiation(b.handshake, p, j.dstLen, j.ephemeral).1.value;
            var (b1, r) := HandleVerifiedPacket(b, p, j);
            r == WriteToNetwork(wire) && b1.sessions[sb.localIndex % N_SESSIONS] == Some(sb)
  {
    hide H.ReceiveInitiation;
  }

  lemma FreshMirrorsReach(s: S.Session, sb: S.Session, b1: Tunnel)
    requires S.Mirrored(s, sb) && sb.window == R.EMPTY
    requires b1.sessions[sb.localIndex % N_SESSIONS] == Some(sb)
    ensures Reaches(s, b1)
  {
  }

  lemma FirstMessageCounts(s: S.Session)
    requires s.sendCounter == 0
    ensures S.FormatPacketData(s, []).0 == s.(sendCounter := 1)
  {
  }

  /** The two handshake messages, passed from tunnel to tunnel: the initiator, in any later state with
      the same handshake, gets a current session that reaches the responder. */
  lemma HandshakeOpens(a: Tunnel, a1: Tunnel, b: Tunnel, i: Input, j: Input, k: Input, clock: nat)
    requires HP.Peers(a.handshake.params, b.handshake.params)
    requires H.Psk(a.handshake.params) == H.Psk(b.handshake.params)
    requires H.After(H.TimeOf(a.handshake.stamper, i.sent), b.handshake.lastTimestamp)
    requires InputOk(i) && InputOk(j)
    requires a1.handshake == H.FormatInitiation(a.handshake, i.dstLen, i.ephemeral, i.sent).0 && TimersOk(a1, clock)
    ensures var init := H.FormatInitiation(a.handshake, i.dstLen, i.ephemeral, i.sent).1;
            && init.Ok?
            && var (b1, answer) := ReceiveDatagram(b, init.value, j);
            && answer.WriteToNetwork?
            && var (a2, keepalive) := ReceiveDatagram(a1, answer.wire, k);
            && keepalive.WriteToNetwork? && a2.queue == a1.queue
            && CurrentSession(a2).Some?
            && var s := Current(a2).(sendCounter := 0);
            && Reaches(s, b1)
            && S.FormatPacketData(s, []) == (Current(a2), keepalive.wire)
  {
    HP.HandshakeAgreement(a.handshake, b.handshake, i.ephemeral, j.ephemeral, i.dstLen, j.dstLen, i.sent, k.later);
    hide H.FormatInitiation, H.ReceiveInitiation, H.ReceiveResponse, ParseIncomingPacket, H.After, H.TimeOf,
         HandleVerifiedPacket, TimersOk, S.FormatPacketData, Reaches;
    var (h, init) := H.FormatInitiation(a.handshake, i.dstLen, i.ephemeral, i.sent);
    var p := ParseIncomingPacket(init.value).value;
    var (wire, sb) := H.ReceiveInitiation(b.handshake, p, j.dstLen, j.ephemeral).1.value;
    var q := ParseIncomingPacket(wire).value;
    var s := H.ReceiveResponse(h, q, k.later).1.value;
    AnswerInstalls(b, p, j);
    NewSessions(b.handshake, p, j.dstLen, j.ephemeral, k.later);
    NewSessions(h, q, 0, 0, k.later);
    FreshMirrorsReach(s, sb, HandleVerifiedPacket(b, p, j).0);
    ResponseBecomesCurrent(a1, q, k, clock);
    FirstMessageCounts(s);
    assert HandleVerifiedPacket(a1, q, k) == HandleHandshakeResponse(a1, q, k) by {
      IsResponse(a1, q, k);
    }
  }

  lemma IsResponse(t: Tunnel, p: Packet, i: Input)
    requires p.HandshakeResponse?
    ensures HandleVerifiedPacket(t, p, i) == HandleHandshakeResponse(t, p, i)
  {
    hide HandleHandshakeResponse;
  }

  /** A whole conversation. Between two tunnels configured for each other, from any states in which
      the first has no session and no handshake under way: its first packet triggers the handshake,
      and everything that waited in its queue arrives at the other, complete and in order. */
  lemma ConnectionOpens(a: Tunnel, b: Tunnel, src: Bytes, i: Input, j: Input, k: Input, l: Input,
                        inputs: seq<Input>, clock: nat)
    requires CurrentSession(a).None? && !H.InProgress(a.handshake) && TimersOk(a, clock) && ClockOk(clock, i)
    requires HP.Peers(a.handshake.params, b.handshake.params)
    requires H.Psk(a.handshake.params) == H.Psk(b.handshake.params)
    requires H.After(H.TimeOf(a.handshake.stamper, i.sent), b.handshake.lastTimestamp)
    requires InputOk(i) && InputOk(j) && QueueOk(a) && |inputs| > MAX_QUEUE_DEPTH
    ensures var (a1, init) := Encapsulate(a, src, i);
            && init.WriteToNetwork?
            && var (b1, answer) := ReceiveDatagram(b, init.wire, j);
            && answer.WriteToNetwork?
            && var (a2, keepalive) := ReceiveDatagram(a1, answer.wire, k);
            && keepalive.WriteToNetwork?
            && var (a3, wires, ended) := FlushAll(a2, inputs);
            && ended && a3.queue == []
            && var queued := QueuePacket(a, src).queue;
            && |wires| == |queued|
            && var rs := ReceiveAll(b1, [keepalive.wire] + wires, l).1;
            && rs[0] == Done && forall n | 0 <= n < |queued| :: Arrives(queued[n], rs[n + 1])
  {
    hide H.FormatInitiation, H.After, H.TimeOf, ReceiveDatagram, FlushAll, ReceiveAll, Encapsulate, S.FormatPacketData,
         S.SendAll,
         TimersOk, Reaches, Arrives;
    FirstPacketInitiates(a, src, i);
    EncapsulateKeepsTimers(a, src, clock, i);
    var (a1, init) := Encapsulate(a, src, i);
    HandshakeOpens(a, a1, b, i, j, k, i.sent);
    var (b1, answer) := ReceiveDatagram(b, init.wire, j);
    var (a2, keepalive) := ReceiveDatagram(a1, answer.wire, k);
    FlushDrainsQueue(a2, inputs);
    var s := Current(a2).(sendCounter := 0);
    var srcs := [[]] + a2.queue;
    assert srcs[1..] == a2.queue;
    SendAllFromFront(s, srcs);
    StreamArrives(s, b1, srcs, l);
    var rs := ReceiveAll(b1, S.SendAll(s, srcs).1, l).1;
    assert rs[0] == Done by {
      assert srcs[0] == [];
      assert Arrives(srcs[0], rs[0]);
      EmptyArrives(rs[0]);
    }
    forall n | 0 <= n < |a2.queue|
      ensures Arrives(a2.queue[n], rs[n + 1])
    {
      assert srcs[n + 1] == a2.queue[n];
    }
  }

  lemma EmptyArrives(r: TunnResult)
    requires Arrives([], r)
    ensures r == Done
  {
  }
}
