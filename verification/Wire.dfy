/** The four WireGuard message formats (whitepaper sections 5.4.2 to 5.4.7). */
module Wire {
  import opened Wrappers
  import opened ByteStrings
  import opened Crypto

  const HANDSHAKE_INIT: u32 := 1
  const HANDSHAKE_RESP: u32 := 2
  const COOKIE_REPLY: u32 := 3
  const DATA: u32 := 4

  const HANDSHAKE_INIT_SZ: nat := 148
  const HANDSHAKE_RESP_SZ: nat := 92
  const COOKIE_REPLY_SZ: nat := 64
  const DATA_OVERHEAD_SZ: nat := 32

  datatype Packet =
    | HandshakeInit(senderIdx: u32, ephemeral: Bytes, encryptedStatic: Bytes, encryptedTimestamp: Bytes)
    | HandshakeResponse(senderIdx: u32, receiverIdx: u32, ephemeral: Bytes, encryptedNothing: Bytes)
    | PacketCookieReply(receiverIdx: u32, nonce: Bytes, encryptedCookie: Bytes)
    | PacketData(receiverIdx: u32, counter: u64, encryptedPacket: Bytes)

  function Le32(n: u32): (b: Bytes)
    ensures |b| == 4
  {
    Lits(ToLe(n, 4))
  }

  function Le64(n: u64): (b: Bytes)
    ensures |b| == 8
  {
    Lits(ToLe(n, 8))
  }

  /** A numeric field. Bytes produced by a cipher have no numeric value in the model. */
  function U32At(src: Bytes, off: nat): (r: Result<u32>)
    requires off + 4 <= |src|
  {
    match Values(src[off..off + 4])
    case None => Err(InvalidPacket)
    case Some(s) =>
      LeBound(s);
      Sizes();
      Ok(FromLe(s))
  }

  function U64At(src: Bytes, off: nat): (r: Result<u64>)
    requires off + 8 <= |src|
  {
    match Values(src[off..off + 8])
    case None => Err(InvalidPacket)
    case Some(s) =>
      LeBound(s);
      Sizes();
      Ok(FromLe(s))
  }

  lemma U32AtLe32(src: Bytes, off: nat, n: u32)
    requires off + 4 <= |src| && src[off..off + 4] == Le32(n)
    ensures U32At(src, off) == Ok(n)
  {
    ValuesOfLits(ToLe(n, 4));
    Sizes();
    LeRoundTrip(n, 4);
  }

  lemma U64AtLe64(src: Bytes, off: nat, n: u64)
    requires off + 8 <= |src| && src[off..off + 8] == Le64(n)
    ensures U64At(src, off) == Ok(n)
  {
    ValuesOfLits(ToLe(n, 8));
    Sizes();
    LeRoundTrip(n, 8);
  }

  function ParseIncomingPacket(src: Bytes): Result<Packet> {
    if |src| < 4 then Err(InvalidPacket)
    else
      var kind := U32At(src, 0);
      if kind == Ok(HANDSHAKE_INIT) && |src| == HANDSHAKE_INIT_SZ then
        match U32At(src, 4)
        case Err(e) => Err(e)
        case Ok(sender) => Ok(HandshakeInit(sender, src[8..40], src[40..88], src[88..116]))
      else if kind == Ok(HANDSHAKE_RESP) && |src| == HANDSHAKE_RESP_SZ then
        match (U32At(src, 4), U32At(src, 8))
        case (Ok(sender), Ok(receiver)) => Ok(HandshakeResponse(sender, receiver, src[12..44], src[44..60]))
        case _ => Err(InvalidPacket)
      else if kind == Ok(COOKIE_REPLY) && |src| == COOKIE_REPLY_SZ then
        match U32At(src, 4)
        case Err(e) => Err(e)
        case Ok(receiver) => Ok(PacketCookieReply(receiver, src[8..32], src[32..64]))
      else if kind == Ok(DATA) && |src| >= DATA_OVERHEAD_SZ then
        match (U32At(src, 4), U64At(src, 8))
        case (Ok(receiver), Ok(counter)) => Ok(PacketData(receiver, counter, src[16..]))
        case _ => Err(InvalidPacket)
      else Err(InvalidPacket)
  }

  /** The bytes of a message before its macs, in field order. */
  function Encode(p: Packet): Bytes {
    match p
    case HandshakeInit(s, e, es, et) => Le32(HANDSHAKE_INIT) + Le32(s) + e + es + et
    case HandshakeResponse(s, r, e, en) => Le32(HANDSHAKE_RESP) + Le32(s) + Le32(r) + e + en
    case PacketCookieReply(r, n, c) => Le32(COOKIE_REPLY) + Le32(r) + n + c
    case PacketData(r, c, d) => Le32(DATA) + Le32(r) + Le64(c) + d
  }

  predicate WellSized(p: Packet) {
    match p
    case HandshakeInit(_, e, es, et) => |e| == 32 && |es| == 48 && |et| == 28
    case HandshakeResponse(_, _, e, en) => |e| == 32 && |en| == 16
    case PacketCookieReply(_, n, c) => |n| == 24 && |c| == 32
    case PacketData(_, _, d) => |d| >= AEAD_SIZE
  }

  predicate HasMacs(p: Packet) {
    p.HandshakeInit? || p.HandshakeResponse?
  }

  /** Parsing inverts encoding; the two macs of a handshake message may be anything. */
  lemma ParseEncoded(p: Packet, macs: Bytes)
    requires WellSized(p)
    requires |macs| == if HasMacs(p) then 32 else 0
    ensures ParseIncomingPacket(Encode(p) + macs) == Ok(p)
  {
    hide Le32, Le64, U32At, U64At;
    var src := Encode(p) + macs;
    match p
    case HandshakeInit(s, e, es, et) =>
      U32AtLe32(src, 0, HANDSHAKE_INIT);
      U32AtLe32(src, 4, s);
      assert src[8..40] == e && src[40..88] == es && src[88..116] == et;
    case HandshakeResponse(s, r, e, en) =>
      U32AtLe32(src, 0, HANDSHAKE_RESP);
      U32AtLe32(src, 4, s);
      U32AtLe32(src, 8, r);
      assert src[12..44] == e && src[44..60] == en;
    case PacketCookieReply(r, n, c) =>
      U32AtLe32(src, 0, COOKIE_REPLY);
      U32AtLe32(src, 4, r);
      assert src[8..32] == n && src[32..64] == c;
    case PacketData(r, c, d) =>
      U32AtLe32(src, 0, DATA);
      U32AtLe32(src, 4, r);
      U64AtLe64(src, 8, c);
      assert src[16..] == d;
  }

  /** Every accepted datagram is the encoding of what was parsed, followed by its macs. */
  lemma ParsedIsEncoded(src: Bytes)
    requires ParseIncomingPacket(src).Ok?
    ensures var p := ParseIncomingPacket(src).value;
            WellSized(p) && |src| == |Encode(p)| + (if HasMacs(p) then 32 else 0) && Encode(p) == src[..|Encode(p)|]
  {
    hide Le32, Le64, U32At, U64At;
    var p := ParseIncomingPacket(src).value;
    Le32OfU32At(src, 0);
    Le32OfU32At(src, 4);
    match p
    case HandshakeInit(s, e, es, et) =>
      assert src[..116] == src[0..4] + src[4..8] + src[8..40] + src[40..88] + src[88..116];
      assert Encode(p) == src[..116];
    case HandshakeResponse(s, r, e, en) =>
      Le32OfU32At(src, 8);
      assert src[..60] == src[0..4] + src[4..8] + src[8..12] + src[12..44] + src[44..60];
      assert Encode(p) == src[..60];
    case PacketCookieReply(r, n, c) =>
      assert src == src[0..4] + src[4..8] + src[8..32] + src[32..64];
      assert Encode(p) == src;
    case PacketData(r, c, d) =>
      Le64OfU64At(src, 8);
      assert src == src[0..4] + src[4..8] + src[8..16] + src[16..];
      assert Encode(p) == src;
  }

  lemma {:induction false} LeInverse(s: seq<u8>)
    ensures ToLe(FromLe(s), |s|) == s
  {
    if s != [] {
      hide ToLe, FromLe;
      LeInverse(s[1..]);
      var n := FromLe(s[1..]);
      assert FromLe(s) == s[0] + 256 * n by {
        FromLeHead(s);
      }
      assert FromLe(s) / 256 == n && FromLe(s) % 256 == s[0];
      ToLeHead(FromLe(s), |s|);
      assert s == [s[0]] + s[1..];
    } else {
      NoBytes();
    }
  }

  lemma FromLeHead(s: seq<u8>)
    requires s != []
    ensures FromLe(s) == s[0] + 256 * FromLe(s[1..])
  {
  }

  lemma ToLeHead(n: nat, len: nat)
    requires len > 0
    ensures ToLe(n, len) == [n % 256] + ToLe(n / 256, len - 1)
  {
  }

  lemma NoBytes()
    ensures ToLe(FromLe([]), 0) == []
  {
  }

  lemma LitsOfValues(b: Bytes)
    requires Values(b).Some?
    ensures Lits(Values(b).value) == b
  {
  }

  lemma Le32OfU32At(src: Bytes, off: nat)
    requires off + 4 <= |src| && U32At(src, off).Ok?
    ensures Le32(U32At(src, off).value) == src[off..off + 4]
  {
    LeInverse(Values(src[off..off + 4]).value);
    LitsOfValues(src[off..off + 4]);
  }

  lemma Le64OfU64At(src: Bytes, off: nat)
    requires off + 8 <= |src| && U64At(src, off).Ok?
    ensures Le64(U64At(src, off).value) == src[off..off + 8]
  {
    LeInverse(Values(src[off..off + 8]).value);
    LitsOfValues(src[off..off + 8]);
  }
}
