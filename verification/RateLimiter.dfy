/** Mac checks, load detection and cookie replies as functions on values (whitepaper sections 5.4.4
    and 5.4.7). */
module RateLimiterSpec {
  import opened Wrappers
  import opened Crypto
  import opened Wire
  import opened Noise
  import H = HandshakeSpec

  const COOKIE_REFRESH: nat := 128
  const RESET_PERIOD: nat := 1

  datatype IpAddr =
    | V4(octets: seq<u8>)
    | V6(octets: seq<u8>)

  predicate IsAddr(a: IpAddr) {
    |a.octets| == if a.V4? then 4 else 16
  }

  /** An IPv4 address is padded with zeros. */
  function AddrBytes(a: IpAddr): (b: seq<u8>)
    requires IsAddr(a)
    ensures |b| == 16
  {
    if a.V4? then a.octets + [0, 0, 0, 0, 0, 0, 0, 0, 0, 0, 0, 0] else a.octets
  }

  datatype State = State(
    nonceKey: Bytes,
    secretKey: Bytes,
    startTime: nat,
    nonceCtr: u64,
    mac1Key: Bytes,
    cookieKey: Bytes,
    limit: u64,
    count: u64,
    lastReset: nat)

  /** A limiter for a public key, with fresh random nonce and secret keys. */
  function New(publicKey: Bytes, limit: u64, nonceKey: Bytes, secretKey: Bytes, now: nat): State {
    State(nonceKey, secretKey, now, 0, Hash(LABEL_MAC1, publicKey), H.CookieKey(publicKey), limit, 0, now)
  }

  function Seconds(now: nat, earlier: nat): nat {
    H.Since(now, earlier) / H.NANOS
  }

  function ResetCount(s: State, now: nat): State {
    if Seconds(now, s.lastReset) >= RESET_PERIOD then s.(count := 0, lastReset := now) else s
  }

  function Epoch(s: State, now: nat): u64 {
    Seconds(now, s.startTime) / COOKIE_REFRESH % U64_SIZE
  }

  function CookieFor(s: State, epoch: u64, addr: IpAddr): Bytes
    requires IsAddr(addr)
  {
    Mac16(s.secretKey, Le64(epoch) + Lits(AddrBytes(addr)))
  }

  function CurrentCookie(s: State, addr: IpAddr, now: nat): Bytes
    requires IsAddr(addr)
  {
    CookieFor(s, Epoch(s, now), addr)
  }

  function FormatCookieReply(s: State, idx: u32, cookie: Bytes, mac1: Bytes, dstLen: nat): (State, Result<Bytes>) {
    if dstLen < COOKIE_REPLY_SZ then (s, Err(DestinationBufferTooSmall))
    else
      var nonce := Mac24(s.nonceKey, Le64(s.nonceCtr));
      (s.(nonceCtr := (s.nonceCtr + 1) % U64_SIZE),
       Ok(Encode(PacketCookieReply(idx, nonce, XSeal(s.cookieKey, nonce, cookie, mac1)))))
  }

  datatype Verdict =
    | Accepted(packet: Packet)
    | Reply(wire: Bytes)
    | Refused(error: Error)

  function VerifyPacket(s: State, srcAddr: Option<IpAddr>, src: Bytes, dstLen: nat, now: nat): (State, Verdict)
    requires srcAddr.Some? ==> IsAddr(srcAddr.value)
  {
    match ParseIncomingPacket(src)
    case Err(e) => (s, Refused(e))
    case Ok(packet) =>
      if !HasMacs(packet) then (s, Accepted(packet))
      else
        var (msg, mac1, mac2) := SplitMacs(src);
        if Mac16(s.mac1Key, msg) != mac1 then (s, Refused(InvalidMac))
        else
          var s1 := s.(count := (s.count + 1) % U64_SIZE);
          if s.count < s.limit then (s1, Accepted(packet))
          else if srcAddr.None? then (s1, Refused(UnderLoad))
          else
            var cookie := CurrentCookie(s, srcAddr.value, now);
            if Mac16(cookie, msg + mac1) == mac2 then (s1, Accepted(packet))
            else
              match FormatCookieReply(s1, packet.senderIdx, cookie, mac1, dstLen)
              case (s2, Ok(wire)) => (s2, Reply(wire))
              case (s2, Err(e)) => (s2, Refused(e))
  }

  /** A handshake message is its body, mac1 and mac2. */
  function SplitMacs(src: Bytes): (r: (Bytes, Bytes, Bytes))
    ensures |src| >= 32 ==> src == r.0 + r.1 + r.2
  {
    if |src| < 32 then (src, [], [])
    else (src[..|src| - 32], src[|src| - 32..|src| - 16], src[|src| - 16..])
  }
}

/** Completeness and soundness of the cookie mechanism. */
module CookieProofs {
  import opened Wrappers
  import opened Crypto
  import opened Wire
  import opened Noise
  import H = HandshakeSpec
  import P = HandshakeProofs
  import opened RateLimiterSpec

  /** The limiter guards the responder that the sender is configured for. */
  predicate Guards(rl: State, p: H.Params) {
    rl.mac1Key == H.SendingMac1Key(p) && rl.cookieKey == H.CookieKey(p.peerStaticPublic)
  }

  /** A limiter guards exactly the peers that are configured for its public key. */
  lemma GuardsIff(p: H.Params, publicKey: Bytes, limit: u64, nonceKey: Bytes, secretKey: Bytes, now: nat)
    ensures Guards(New(publicKey, limit, nonceKey, secretKey, now), p) <==> publicKey == p.peerStaticPublic
  {
    if Hash(LABEL_MAC1, publicKey) == Hash(LABEL_MAC1, p.peerStaticPublic) {
      SameLabel(publicKey, p.peerStaticPublic);
    }
  }

  /** A formatted message is refused for its mac1 exactly by the limiters of other public keys, at any
      load and with any cookie. */
  lemma Mac1BindsResponderIff(s: H.State, packet: Packet, publicKey: Bytes, rl: State, addr: Option<IpAddr>, dst: nat,
                              now: nat)
    requires WellSized(packet) && HasMacs(packet) && (addr.Some? ==> IsAddr(addr.value))
    requires rl.mac1Key == Hash(LABEL_MAC1, publicKey)
    ensures VerifyPacket(rl, addr, H.AppendMacs(s, packet.senderIdx, Encode(packet)).1, dst, now)
            == (rl, Refused(InvalidMac))
       <==> publicKey != s.params.peerStaticPublic
  {
    hide ParseIncomingPacket, Encode, Mac16, Hash, CurrentCookie, SplitMacs, Mac24, XSeal, Le64, H.Zeros;
    P.MessageParses(s, packet.senderIdx, packet);
    MessageSplits(s, packet.senderIdx, packet);
    var (msg, mac1, mac2) := SplitMacs(H.AppendMacs(s, packet.senderIdx, Encode(packet)).1);
    if Mac16(rl.mac1Key, msg) == mac1 {
      MacInjective(rl.mac1Key, msg, H.SendingMac1Key(s.params), msg);
      SameLabel(publicKey, s.params.peerStaticPublic);
    }
  }

  lemma SameLabel(a: Bytes, b: Bytes)
    requires Hash(LABEL_MAC1, a) == Hash(LABEL_MAC1, b)
    ensures a == b
  {
    OutputInjective(HashOf(LABEL_MAC1 + a), HashOf(LABEL_MAC1 + b), 32);
    assert a == (LABEL_MAC1 + a)[8..] && b == (LABEL_MAC1 + b)[8..];
  }

  /** The macs of a message a sender formats. */
  lemma MessageSplits(s: H.State, localIndex: u32, packet: Packet)
    requires WellSized(packet) && HasMacs(packet)
    ensures var (s', wire) := H.AppendMacs(s, localIndex, Encode(packet));
            var (msg, mac1, mac2) := SplitMacs(wire);
            && msg == Encode(packet)
            && s'.cookies.lastMac1 == Some(mac1) && s'.cookies.index == localIndex
            && mac1 == Mac16(H.SendingMac1Key(s.params), msg)
            && mac2 == if s.cookies.writeCookie.Some? then Mac16(s.cookies.writeCookie.value, msg + mac1)
               else H.Zeros(16)
  {
    hide Encode;
  }

  /** A loaded responder answers. The sender accepts the answer exactly if the message it answers is still
      the last one it formatted, and then stores the cookie of its address. */
  lemma ReplyIsAcceptedIff(s: H.State, packet: Packet, rl: State, addr: Option<IpAddr>, dst: nat, now: nat,
                           later: H.State)
    requires WellSized(packet) && HasMacs(packet) && Guards(rl, s.params)
    requires addr.Some? ==> IsAddr(addr.value)
    requires VerifyPacket(rl, addr, H.AppendMacs(s, packet.senderIdx, Encode(packet)).1, dst, now).1.Reply?
    requires later.params.peerStaticPublic == s.params.peerStaticPublic
    ensures var (s1, wire) := H.AppendMacs(s, packet.senderIdx, Encode(packet));
            var reply := VerifyPacket(rl, addr, wire, dst, now).1.wire;
            && addr.Some?
            && ParseIncomingPacket(reply).Ok? && ParseIncomingPacket(reply).value.PacketCookieReply?
            && var (u, r) := H.ReceiveCookieReply(later, ParseIncomingPacket(reply).value);
            && (r.Ok? <==> later.cookies.lastMac1 == s1.cookies.lastMac1 && later.cookies.index == packet.senderIdx)
            && u == (if r.Ok?
                     then later.(cookies := later.cookies.(writeCookie := Some(CurrentCookie(rl, addr.value, now))))
                     else later)
  {
    hide ParseIncomingPacket, Encode, Mac16, Mac24, Hash, XSeal, XOpen, Le64, SplitMacs;
    var (s1, wire) := H.AppendMacs(s, packet.senderIdx, Encode(packet));
    P.MessageParses(s, packet.senderIdx, packet);
    MessageSplits(s, packet.senderIdx, packet);
    var mac1 := SplitMacs(wire).1;
    var cookie := CurrentCookie(rl, addr.value, now);
    var nonce := Mac24(rl.nonceKey, Le64(rl.nonceCtr));
    var reply := PacketCookieReply(packet.senderIdx, nonce, XSeal(rl.cookieKey, nonce, cookie, mac1));
    MacSizes(cookie, rl, addr.value, Epoch(rl, now));
    assert |nonce| == 24 by { NonceSize(rl.nonceKey, Le64(rl.nonceCtr)); }
    assert Encode(reply) + [] == Encode(reply);
    ParseEncoded(reply, []);
    if later.cookies.lastMac1.Some? {
      OpensOnlyWith(rl.cookieKey, nonce, cookie, mac1, later.cookies.lastMac1.value);
    }
  }

  /** A cookie sealed by the limiter of one public key opens for the peers of that key only. */
  lemma CookieKeyBindsResponder(publicKey: Bytes, p: H.Params, nonce: Bytes, cookie: Bytes, mac: Bytes)
    ensures XOpen(H.CookieKey(p.peerStaticPublic), nonce, XSeal(H.CookieKey(publicKey), nonce, cookie, mac), mac).Some?
       <==> publicKey == p.peerStaticPublic
  {
    var (key, key') := (H.CookieKey(p.peerStaticPublic), H.CookieKey(publicKey));
    var o := XOpen(key, nonce, XSeal(key', nonce, cookie, mac), mac);
    if o.Some? {
      XOpenIffSealed(key, nonce, XSeal(key', nonce, cookie, mac), mac, o.value);
      OutputInjective(XSealed(key', nonce, cookie, mac), XSealed(key, nonce, o.value, mac), |cookie| + AEAD_SIZE);
      OutputInjective(HashOf(LABEL_COOKIE + publicKey), HashOf(LABEL_COOKIE + p.peerStaticPublic), 32);
      assert publicKey == (LABEL_COOKIE + publicKey)[8..];
      assert p.peerStaticPublic == (LABEL_COOKIE + p.peerStaticPublic)[8..];
    }
    if publicKey == p.peerStaticPublic {
      XOpenIffSealed(key, nonce, XSeal(key', nonce, cookie, mac), mac, cookie);
    }
  }

  /** A sealed cookie opens only with the mac of the message it answers. */
  lemma OpensOnlyWith(key: Bytes, nonce: Bytes, cookie: Bytes, mac: Bytes, mac': Bytes)
    ensures XOpen(key, nonce, XSeal(key, nonce, cookie, mac), mac') == if mac == mac' then Some(cookie) else None
  {
    XOpenIffSealed(key, nonce, XSeal(key, nonce, cookie, mac), mac, cookie);
    var o := XOpen(key, nonce, XSeal(key, nonce, cookie, mac), mac');
    if o.Some? {
      XOpenIffSealed(key, nonce, XSeal(key, nonce, cookie, mac), mac', o.value);
      OutputInjective(XSealed(key, nonce, cookie, mac), XSealed(key, nonce, o.value, mac'), |cookie| + AEAD_SIZE);
    }
  }

  lemma MacSizes(cookie: Bytes, rl: State, addr: IpAddr, epoch: u64)
    requires IsAddr(addr) && cookie == CookieFor(rl, epoch, addr)
    ensures |cookie| == 16
  {
  }

  lemma NonceSize(key: Bytes, data: Bytes)
    ensures |Mac24(key, data)| == 24
  {
  }

  /** A handshake message formatted by a configured sender is accepted exactly if the responder is not
      under load or the sender's cookie is the current one of its address; otherwise it is answered
      with a cookie, if the buffer holds one. */
  lemma CookiePassesIff(s: H.State, localIndex: u32, packet: Packet, rl: State, addr: IpAddr, dst: nat, now: nat)
    requires WellSized(packet) && HasMacs(packet) && Guards(rl, s.params) && IsAddr(addr)
    ensures var verdict := VerifyPacket(rl, Some(addr), H.AppendMacs(s, localIndex, Encode(packet)).1, dst, now).1;
            && (verdict == Accepted(packet)
                <==> rl.count < rl.limit || s.cookies.writeCookie == Some(CurrentCookie(rl, addr, now)))
            && (verdict.Accepted? ==> verdict == Accepted(packet))
            && (verdict.Reply? <==> !verdict.Accepted? && dst >= COOKIE_REPLY_SZ)
  {
    hide ParseIncomingPacket, Encode, Mac16, Hash, CurrentCookie, SplitMacs, Mac24, XSeal, Le64, H.Zeros;
    P.MessageParses(s, localIndex, packet);
    MessageSplits(s, localIndex, packet);
    var (msg, mac1, mac2) := SplitMacs(H.AppendMacs(s, localIndex, Encode(packet)).1);
    var cookie := CurrentCookie(rl, addr, now);
    MacIsNotZero(cookie, msg + mac1);
    if s.cookies.writeCookie.Some? && mac2 == Mac16(cookie, msg + mac1) {
      MacInjective(s.cookies.writeCookie.value, msg + mac1, cookie, msg + mac1);
    }
  }

  lemma MacIsNotZero(key: Bytes, data: Bytes)
    ensures Mac16(key, data) != H.Zeros(16)
  {
    assert Mac16(key, data)[0].Out? && H.Zeros(16)[0].Lit?;
  }

  /** For every datagram: it is accepted exactly if it parses and, for handshake messages, mac1 is right
      and, under load, mac2 is the mac of the rest under the current cookie of the source address. */
  lemma AcceptsIff(rl: State, addr: Option<IpAddr>, src: Bytes, dst: nat, now: nat)
    requires addr.Some? ==> IsAddr(addr.value)
    ensures var (msg, mac1, mac2) := SplitMacs(src);
            VerifyPacket(rl, addr, src, dst, now).1.Accepted?
            <==> && ParseIncomingPacket(src).Ok?
                 && (HasMacs(ParseIncomingPacket(src).value) ==>
                       && mac1 == Mac16(rl.mac1Key, msg)
                       && (rl.count < rl.limit
                           || (addr.Some? && mac2 == Mac16(CurrentCookie(rl, addr.value, now), msg + mac1))))
  {
    hide ParseIncomingPacket, Mac16, CurrentCookie, SplitMacs, FormatCookieReply;
  }

  /** The same address, or an IPv4 address and the IPv6 address that its padding makes of it. */
  predicate SameSource(a: IpAddr, b: IpAddr) {
    || a == b
    || (a.V4? && b.V6? && b.octets == a.octets + [0, 0, 0, 0, 0, 0, 0, 0, 0, 0, 0, 0])
    || (a.V6? && b.V4? && a.octets == b.octets + [0, 0, 0, 0, 0, 0, 0, 0, 0, 0, 0, 0])
  }

  lemma AddrBytesIff(a: IpAddr, b: IpAddr)
    requires IsAddr(a) && IsAddr(b)
    ensures AddrBytes(a) == AddrBytes(b) <==> SameSource(a, b)
  {
    assert a.V4? ==> AddrBytes(a)[..4] == a.octets;
    assert b.V4? ==> AddrBytes(b)[..4] == b.octets;
  }

  /** The number of the current period of 128 seconds since the limiter's start. */
  function Period(rl: State, now: nat): nat {
    (if now < rl.startTime then 0 else now - rl.startTime) / 128_000_000_000
  }

  lemma EpochIsPeriod(rl: State, now: nat)
    ensures Epoch(rl, now) == Period(rl, now) % U64_SIZE
  {
    var d := H.Since(now, rl.startTime);
    assert d / 1_000_000_000 / 128 == d / 128_000_000_000;
  }

  lemma CookieForIff(rl: State, addr: IpAddr, epoch: u64, rl': State, addr': IpAddr, epoch': u64)
    requires IsAddr(addr) && IsAddr(addr')
    ensures CookieFor(rl, epoch, addr) == CookieFor(rl', epoch', addr')
       <==> rl.secretKey == rl'.secretKey && SameSource(addr, addr') && epoch == epoch'
  {
    hide AddrBytes;
    AddrBytesIff(addr, addr');
    if CookieFor(rl, epoch, addr) == CookieFor(rl', epoch', addr') {
      var (x, x') := (Le64(epoch) + Lits(AddrBytes(addr)), Le64(epoch') + Lits(AddrBytes(addr')));
      MacInjective(rl.secretKey, x, rl'.secretKey, x');
      assert Le64(epoch) == x[..8] && Le64(epoch') == x'[..8];
      assert Lits(AddrBytes(addr)) == x[8..] && Lits(AddrBytes(addr')) == x'[8..];
      U64AtLe64(x, 0, epoch);
      U64AtLe64(x', 0, epoch');
      ValuesOfLits(AddrBytes(addr));
      ValuesOfLits(AddrBytes(addr'));
    }
  }

  /** The cookie that one limiter gives an address at one time is the one that another, or the same, asks
      of an address at another exactly if both have the same secret, the addresses have the same padded
      bytes, and both times are in one period of 128 seconds, counted modulo 2^64. */
  lemma CookieIsBound(rl: State, addr: IpAddr, now: nat, rl': State, addr': IpAddr, now': nat)
    requires IsAddr(addr) && IsAddr(addr')
    ensures CurrentCookie(rl, addr, now) == CurrentCookie(rl', addr', now')
       <==> && rl.secretKey == rl'.secretKey && SameSource(addr, addr')
            && Period(rl, now) % U64_SIZE == Period(rl', now') % U64_SIZE
  {
    EpochIsPeriod(rl, now);
    EpochIsPeriod(rl', now');
    CookieForIff(rl, addr, Epoch(rl, now), rl', addr', Epoch(rl', now'));
    hide CookieFor, Epoch, Period, SameSource;
  }

  lemma MacInjective(key: Bytes, data: Bytes, key': Bytes, data': Bytes)
    requires Mac16(key, data) == Mac16(key', data')
    ensures key == key' && data == data'
  {
    OutputInjective(MacOf(key, data, 16), MacOf(key', data', 16), 16);
  }

  /** One call of the limiter. */
  datatype Call = Verify(addr: Option<IpAddr>, src: Bytes, dstLen: nat, now: nat) | Reset(now: nat)

  predicate LegalCall(c: Call) {
    c.Verify? && c.addr.Some? ==> IsAddr(c.addr.value)
  }

  function Apply(s: State, c: Call): State
    requires LegalCall(c)
  {
    match c
    case Verify(addr, src, dstLen, now) => VerifyPacket(s, addr, src, dstLen, now).0
    case Reset(now) => ResetCount(s, now)
  }

  function Exec(s: State, calls: seq<Call>): State
    requires forall i | 0 <= i < |calls| :: LegalCall(calls[i])
  {
    if calls == [] then s else Apply(Exec(s, calls[..|calls| - 1]), calls[|calls| - 1])
  }

  predicate Replies(s: State, c: Call)
    requires LegalCall(c)
  {
    c.Verify? && VerifyPacket(s, c.addr, c.src, c.dstLen, c.now).1.Reply?
  }

  // When a limiter is loaded

  /** A handshake message with a right mac1, which is what the limiter counts. */
  predicate IsCounted(mac1Key: Bytes, c: Call) {
    && c.Verify? && ParseIncomingPacket(c.src).Ok? && HasMacs(ParseIncomingPacket(c.src).value)
    && SplitMacs(c.src).1 == Mac16(mac1Key, SplitMacs(c.src).0)
  }

  /** Since when the limiter has been counting, and how many messages came since: a reset counts if it
      comes a second or more after the last one that did. */
  function Counting(mac1Key: Bytes, begin: nat, n: nat, calls: seq<Call>): (nat, nat) {
    if calls == [] then (begin, n)
    else
      var (since, m) := Counting(mac1Key, begin, n, calls[..|calls| - 1]);
      var c := calls[|calls| - 1];
      if c.Reset? then (if c.now >= since + 1_000_000_000 then (c.now, 0) else (since, m))
      else (since, if IsCounted(mac1Key, c) then m + 1 else m)
  }

  lemma CallCounts(s: State, c: Call)
    requires LegalCall(c)
    ensures var u := Apply(s, c);
            && u.mac1Key == s.mac1Key && u.cookieKey == s.cookieKey && u.limit == s.limit
            && (c.Verify? ==>
                  && u.lastReset == s.lastReset
                  && u.count == if IsCounted(s.mac1Key, c) then (s.count + 1) % U64_SIZE else s.count)
            && (c.Reset? ==>
                  if c.now >= s.lastReset + 1_000_000_000 then u.lastReset == c.now && u.count == 0
                  else u.lastReset == s.lastReset && u.count == s.count)
  {
    hide ParseIncomingPacket, Mac16, Encode, Mac24, XSeal, CookieFor, SplitMacs;
  }

  /** In every run the count is the number of messages since the last reset that counted. */
  lemma {:induction false} CountIsSinceReset(s: State, calls: seq<Call>)
    requires forall i | 0 <= i < |calls| :: LegalCall(calls[i])
    ensures var u := Exec(s, calls);
            && u.lastReset == Counting(s.mac1Key, s.lastReset, s.count, calls).0
            && u.count == Counting(s.mac1Key, s.lastReset, s.count, calls).1 % U64_SIZE
            && u.mac1Key == s.mac1Key && u.cookieKey == s.cookieKey && u.limit == s.limit
  {
    if calls != [] {
      hide Apply, IsCounted, LegalCall, Counting;
      var (before, c) := (calls[..|calls| - 1], calls[|calls| - 1]);
      CountIsSinceReset(s, before);
      CallCounts(Exec(s, before), c);
      OneMoreCounts(s.mac1Key, s.lastReset, s.count, calls);
      OneMoreCall(s, calls);
      hide Exec;
      WrapsOnce(Counting(s.mac1Key, s.lastReset, s.count, before).1);
    } else {
      NothingCounted(s);
    }
  }

  lemma NothingCounted(s: State)
    ensures Exec(s, []) == s && Counting(s.mac1Key, s.lastReset, s.count, []) == (s.lastReset, s.count)
    ensures s.count % U64_SIZE == s.count
  {
  }

  lemma OneMoreCounts(mac1Key: Bytes, begin: nat, n: nat, calls: seq<Call>)
    requires calls != []
    ensures var (since, m) := Counting(mac1Key, begin, n, calls[..|calls| - 1]);
            var c := calls[|calls| - 1];
            Counting(mac1Key, begin, n, calls)
            == if c.Verify? then (since, if IsCounted(mac1Key, c) then m + 1 else m)
               else if c.now >= since + 1_000_000_000 then (c.now, 0) else (since, m)
  {
    hide ParseIncomingPacket, Mac16, SplitMacs;
  }

  lemma OneMoreCall(s: State, calls: seq<Call>)
    requires calls != [] && forall i | 0 <= i < |calls| :: LegalCall(calls[i])
    ensures Exec(s, calls) == Apply(Exec(s, calls[..|calls| - 1]), calls[|calls| - 1])
  {
    hide Apply, LegalCall;
  }

  lemma WrapsOnce(m: nat)
    ensures (m % U64_SIZE + 1) % U64_SIZE == (m + 1) % U64_SIZE && 0 % U64_SIZE == 0
  {
  }

  /** In every run a message of a configured sender without a cookie passes exactly if fewer messages
      than the limit came since the last reset. */
  lemma PassesWithoutCookieIff(rl: State, calls: seq<Call>, s: H.State, packet: Packet, addr: IpAddr, dst: nat,
                               now: nat)
    requires forall i | 0 <= i < |calls| :: LegalCall(calls[i])
    requires WellSized(packet) && HasMacs(packet) && Guards(rl, s.params) && IsAddr(addr)
    requires s.cookies.writeCookie.None? && Counting(rl.mac1Key, rl.lastReset, rl.count, calls).1 < U64_SIZE
    ensures var u := Exec(rl, calls);
            VerifyPacket(u, Some(addr), H.AppendMacs(s, packet.senderIdx, Encode(packet)).1, dst, now).1
                == Accepted(packet)
            <==> Counting(rl.mac1Key, rl.lastReset, rl.count, calls).1 < rl.limit
  {
    hide ParseIncomingPacket, Encode, H.AppendMacs, VerifyPacket, CurrentCookie, Exec, Counting;
    CountIsSinceReset(rl, calls);
    CookiePassesIff(s, packet.senderIdx, packet, Exec(rl, calls), addr, dst, now);
  }

  /** The nonce of the next cookie reply. */
  function NextNonce(s: State): Bytes {
    Mac24(s.nonceKey, Le64(s.nonceCtr))
  }

  lemma CallCountsNonces(s: State, c: Call)
    requires LegalCall(c)
    ensures var s' := Apply(s, c);
            && s'.nonceKey == s.nonceKey
            && s'.nonceCtr == if Replies(s, c) then (s.nonceCtr + 1) % U64_SIZE else s.nonceCtr
  {
    hide ParseIncomingPacket, Mac16, Encode, Mac24, XSeal, CookieFor, SplitMacs;
  }

  lemma {:induction false} NonceCounterGrows(s: State, calls: seq<Call>, i: nat, j: nat)
    requires forall i | 0 <= i < |calls| :: LegalCall(calls[i])
    requires i <= j <= |calls| && s.nonceCtr + |calls| < U64_SIZE
    ensures var (a, b) := (Exec(s, calls[..i]), Exec(s, calls[..j]));
            && a.nonceCtr <= b.nonceCtr <= s.nonceCtr + j && b.nonceKey == a.nonceKey == s.nonceKey
            && (i < j && Replies(a, calls[i]) ==> a.nonceCtr < b.nonceCtr)
  {
    hide Apply, Replies;
    if j > 0 {
      NonceCounterGrows(s, calls, if i == j then i - 1 else i, j - 1);
      assert calls[..j][..j - 1] == calls[..j - 1];
      CallCountsNonces(Exec(s, calls[..j - 1]), calls[j - 1]);
    }
  }

  lemma NonceInjective(a: State, b: State)
    requires NextNonce(a) == NextNonce(b)
    ensures a.nonceCtr == b.nonceCtr
  {
    MacTermInjective(a.nonceKey, Le64(a.nonceCtr), b.nonceKey, Le64(b.nonceCtr));
    hide NextNonce, Le64;
    U64AtLe64(Le64(a.nonceCtr), 0, a.nonceCtr);
    U64AtLe64(Le64(b.nonceCtr), 0, b.nonceCtr);
  }

  lemma MacTermInjective(key: Bytes, data: Bytes, key': Bytes, data': Bytes)
    requires Mac24(key, data) == Mac24(key', data')
    ensures key == key' && data == data'
  {
    OutputInjective(MacOf(key, data, 24), MacOf(key', data', 24), 24);
  }

  /** No two cookie replies of a run share a nonce, and each reply carries its own. */
  lemma RepliesUseFreshNonces(s: State, calls: seq<Call>, i: nat, j: nat)
    requires forall i | 0 <= i < |calls| :: LegalCall(calls[i])
    requires i < j < |calls| && s.nonceCtr + |calls| < U64_SIZE
    requires Replies(Exec(s, calls[..i]), calls[i])
    ensures NextNonce(Exec(s, calls[..i])) != NextNonce(Exec(s, calls[..j]))
  {
    var (a, b) := (Exec(s, calls[..i]), Exec(s, calls[..j]));
    NonceCounterGrows(s, calls, i, j);
    hide Exec, Replies, NextNonce;
    if NextNonce(a) == NextNonce(b) {
      NonceInjective(a, b);
    }
  }
}

/** The rate limiter object of protocol/boringtun/src/noise/rate_limiter.rs. */
module RateLimiter {
  import opened Wrappers
  import opened Crypto
  import opened Wire
  import Noise
  import Spec = RateLimiterSpec

  class RateLimiter {
    const nonceKey: Bytes
    const secretKey: Bytes
    const startTime: nat
    var nonceCtr: u64
    const mac1Key: Bytes
    const cookieKey: Bytes
    const limit: u64
    var count: u64
    var lastReset: nat

    ghost function View(): Spec.State
      reads this
    {
      Spec.State(nonceKey, secretKey, startTime, nonceCtr, mac1Key, cookieKey, limit, count, lastReset)
    }

    constructor (publicKey: Bytes, limit: u64, nonceKey: Bytes, secretKey: Bytes, now: nat)
      ensures View() == Spec.New(publicKey, limit, nonceKey, secretKey, now)
    {
      this.nonceKey, this.secretKey := nonceKey, secretKey;
      this.startTime, this.nonceCtr := now, 0;
      this.mac1Key := Hash(Noise.LABEL_MAC1, publicKey);
      this.cookieKey := Hash(Noise.LABEL_COOKIE, publicKey);
      this.limit, this.count, this.lastReset := limit, 0, now;
    }

    method ResetCount(now: nat)
      modifies this
      ensures View() == Spec.ResetCount(old(View()), now)
    {
      if Spec.Seconds(now, lastReset) >= Spec.RESET_PERIOD {
        count := 0;
        lastReset := now;
      }
    }

    method IsUnderLoad() returns (b: bool)
      modifies this`count
      ensures b == (old(count) >= limit) && count == (old(count) + 1) % U64_SIZE
    {
      b := count >= limit;
      count := (count + 1) % U64_SIZE;
    }

    /** The cookie of an address: a mac under a secret of the time elapsed in units of
        COOKIE_REFRESH seconds and the padded address. */
    method CurrentCookie(addr: Spec.IpAddr, now: nat) returns (cookie: Bytes)
      requires Spec.IsAddr(addr)
      ensures cookie == Spec.CurrentCookie(View(), addr, now)
    {
      var addrBytes := Spec.AddrBytes(addr);
      var curCounter := Spec.Seconds(now, startTime) / Spec.COOKIE_REFRESH % U64_SIZE;
      cookie := Mac16(secretKey, Le64(curCounter) + Lits(addrBytes));
    }

    method Nonce() returns (nonce: Bytes)
      modifies this`nonceCtr
      ensures nonce == Mac24(nonceKey, Le64(old(nonceCtr))) && nonceCtr == (old(nonceCtr) + 1) % U64_SIZE
    {
      var ctr := nonceCtr;
      nonceCtr := (nonceCtr + 1) % U64_SIZE;
      nonce := Mac24(nonceKey, Le64(ctr));
    }

    method FormatCookieReply(idx: u32, cookie: Bytes, mac1: Bytes, dstLen: nat) returns (r: Result<Bytes>)
      modifies this
      ensures (View(), r) == Spec.FormatCookieReply(old(View()), idx, cookie, mac1, dstLen)
    {
      if dstLen < COOKIE_REPLY_SZ {
        return Err(DestinationBufferTooSmall);
      }
      var nonce := Nonce();
      var encryptedCookie := XSeal(cookieKey, nonce, cookie, mac1);
      r := Ok(Encode(PacketCookieReply(idx, nonce, encryptedCookie)));
    }

    /** Checks mac1, and under load also mac2, which only a known source address makes possible. */
    method VerifyPacket(srcAddr: Option<Spec.IpAddr>, src: Bytes, dstLen: nat, now: nat) returns (v: Spec.Verdict)
      requires srcAddr.Some? ==> Spec.IsAddr(srcAddr.value)
      modifies this
      ensures (View(), v) == Spec.VerifyPacket(old(View()), srcAddr, src, dstLen, now)
    {
      hide ParseIncomingPacket, Encode, Mac16, Mac24, XSeal, Spec.AddrBytes;
      var packet := ParseIncomingPacket(src);
      if packet.Err? {
        return Spec.Refused(packet.error);
      }
      if packet.value.HandshakeInit? || packet.value.HandshakeResponse? {
        var (msg, mac1, mac2) := Spec.SplitMacs(src);
        if Mac16(mac1Key, msg) != mac1 {
          return Spec.Refused(InvalidMac);
        }
        var loaded := IsUnderLoad();
        if loaded {
          if srcAddr.None? {
            return Spec.Refused(UnderLoad);
          }
          var cookie := CurrentCookie(srcAddr.value, now);
          if Mac16(cookie, msg + mac1) != mac2 {
            var reply := FormatCookieReply(packet.value.senderIdx, cookie, mac1, dstLen);
            return if reply.Ok? then Spec.Reply(reply.value) else Spec.Refused(reply.error);
          }
        }
      }
      return Spec.Accepted(packet.value);
    }
  }
}
