/** Two devices that add each other as peers. */
module DevicePairs {
  import opened Wrappers
  import opened Crypto
  import opened Wire
  import H = HandshakeSpec
  import HP = HandshakeProofs
  import opened TunnelSpec
  import opened TunnelInvariants
  import opened TunnelFlush
  import opened Device

  /** None stands for 32 zeros. */
  predicate SamePresharedKey(p: Option<Bytes>, q: Option<Bytes>) {
    || p == q
    || (p.None? && q == Some(H.Zeros(32)))
    || (q.None? && p == Some(H.Zeros(32)))
  }

  lemma SamePskIff(p: H.Params, q: H.Params)
    ensures H.Psk(p) == H.Psk(q) <==> SamePresharedKey(p.presharedKey, q.presharedKey)
  {
  }

  lemma ConfiguredStarts(t: Tunnel, params: H.Params, keepalive: Option<nat>, stamper: H.TimeStamper, now: nat)
    requires Configured(t, params, keepalive, stamper, now)
    ensures t.handshake.params == params && t.handshake.stamper == stamper && t.handshake.lastTimestamp == H.ZERO_TIME
    ensures CurrentSession(t).None? && !H.InProgress(t.handshake) && TimersOk(t, now) && QueueOk(t) && t.queue == []
  {
  }

  /** With different preshared keys the response fails its tag and changes nothing. */
  lemma ResponseFails(a: Tunnel, b: Tunnel, src: Bytes, i: Input, j: Input, k: Input)
    requires CurrentSession(a).None? && !H.InProgress(a.handshake) && InputOk(i) && InputOk(j)
    requires HP.Peers(a.handshake.params, b.handshake.params)
    requires H.Psk(a.handshake.params) != H.Psk(b.handshake.params)
    requires H.After(H.TimeOf(a.handshake.stamper, i.sent), b.handshake.lastTimestamp)
    ensures var (a1, init) := Encapsulate(a, src, i);
            && init.WriteToNetwork?
            && var (b1, answer) := ReceiveDatagram(b, init.wire, j);
            && answer.WriteToNetwork?
            && ReceiveDatagram(a1, answer.wire, k) == (a1, Fault(InvalidAeadTag))
  {
    FirstPacketInitiates(a, src, i);
    HP.HandshakeAgreement(a.handshake, b.handshake, i.ephemeral, j.ephemeral, i.dstLen, j.dstLen, i.sent, k.later);
    hide H.FormatInitiation, H.ReceiveInitiation, H.ReceiveResponse, ParseIncomingPacket, H.After, H.TimeOf,
         Encapsulate,
         HP.Peers, H.Psk;
    var (a1, init) := Encapsulate(a, src, i);
    AnswerInstalls(b, ParseIncomingPacket(init.wire).value, j);
    hide HandleVerifiedPacket;
    var (b1, answer) := ReceiveDatagram(b, init.wire, j);
    var q := ParseIncomingPacket(answer.wire).value;
    IsResponse(a1, q, k);
    assert a1.(handshake := a1.handshake) == a1;
  }

  lemma NoSessionYet(a: Tunnel, src: Bytes, i: Input)
    requires CurrentSession(a).None?
    ensures CurrentSession(Encapsulate(a, src, i).0).None?
    ensures |a.queue| < MAX_QUEUE_DEPTH ==> QueuePacket(a, src).queue == a.queue + [src]
  {
    hide H.FormatInitiation;
  }

  /** The peers that two devices added for each other open a connection at the first packet, and the
      packet arrives, exactly if both were given the same preshared key. Otherwise the response fails
      its tag, and the first device has no session. */
  lemma AddedPeersConnectIff(sa: nat, sb: nat, pskA: Option<Bytes>, pskB: Option<Bytes>, keepA: Option<nat>,
                             keepB: Option<nat>, stamperA: H.TimeStamper, stamperB: H.TimeStamper, nowA: nat, nowB: nat,
                             a: Tunnel, b: Tunnel, src: Bytes, i: Input, j: Input, k: Input, l: Input,
                             inputs: seq<Input>)
    requires Configured(a, H.Params(sa, PublicKey(sb), pskA), keepA, stamperA, nowA)
    requires Configured(b, H.Params(sb, PublicKey(sa), pskB), keepB, stamperB, nowB)
    requires InputOk(i) && InputOk(j) && ClockOk(nowA, i) && |inputs| > MAX_QUEUE_DEPTH
    requires H.After(H.TimeOf(stamperA, i.sent), H.ZERO_TIME)
    ensures var (a1, init) := Encapsulate(a, src, i);
            && init.WriteToNetwork?
            && var (b1, answer) := ReceiveDatagram(b, init.wire, j);
            && answer.WriteToNetwork?
            && var (a2, r) := ReceiveDatagram(a1, answer.wire, k);
            if SamePresharedKey(pskA, pskB) then
              && r.WriteToNetwork?
              && var wires := FlushAll(a2, inputs).1;
              |wires| == 1 && Arrives(src, ReceiveAll(b1, [r.wire] + wires, l).1[1])
            else
              r == Fault(InvalidAeadTag) && a2 == a1 && CurrentSession(a2).None?
  {
    hide Configured, Encapsulate, ReceiveDatagram, FlushAll, ReceiveAll, TimersOk, ClockOk, InputOk, Arrives, H.After,
         H.TimeOf, PublicKey, H.Psk, SamePresharedKey;
    ConfiguredStarts(a, H.Params(sa, PublicKey(sb), pskA), keepA, stamperA, nowA);
    ConfiguredStarts(b, H.Params(sb, PublicKey(sa), pskB), keepB, stamperB, nowB);
    SamePskIff(a.handshake.params, b.handshake.params);
    NoSessionYet(a, src, i);
    if SamePresharedKey(pskA, pskB) {
      ConnectionOpens(a, b, src, i, j, k, l, inputs, nowA);
      assert QueuePacket(a, src).queue[0] == src;
    } else {
      ResponseFails(a, b, src, i, j, k);
    }
  }
}
