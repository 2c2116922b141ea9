/** Payment messages and the IPv4 packets that carry them through the tunnel. */
module PaymentMessages {
  import opened Wrappers
  import opened ByteStrings

  const MSG_PAYMENT_REQUIRED: u8 := 0x01
  const MSG_PAYMENT_ACCEPTED: u8 := 0x02
  const MSG_PAYMENT_SUBMIT: u8 := 0x81

  type Address = s: seq<u8> | |s| == 20 witness [0, 0, 0, 0, 0, 0, 0, 0, 0, 0, 0, 0, 0, 0, 0, 0, 0, 0, 0, 0]
  type Word = s: seq<u8> | |s| == 32
    witness [0, 0, 0, 0, 0, 0, 0, 0, 0, 0, 0, 0, 0, 0, 0, 0, 0, 0, 0, 0, 0, 0, 0, 0, 0, 0, 0, 0, 0, 0, 0, 0]

  datatype Message =
    | Required(amountUsdc: u64, nonce: Word, recipient: Address, deadline: u64, chainId: u64, usdcContract: Address)
    | Submit(from: Address, to: Address, value: u64, validAfter: u64, validBefore: u64, nonce: Word, v: u8, r: Word,
             s: Word)
    | Accepted(newQuotaBytes: u64)

  function TypeOf(m: Message): u8 {
    match m
    case Required(_, _, _, _, _, _) => MSG_PAYMENT_REQUIRED
    case Submit(_, _, _, _, _, _, _, _, _) => MSG_PAYMENT_SUBMIT
    case Accepted(_) => MSG_PAYMENT_ACCEPTED
  }

  function Body(m: Message): (b: seq<u8>)
    ensures |b| == BodySize(TypeOf(m))
  {
    match m
    case Required(amount, nonce, recipient, deadline, chainId, contract) =>
      ToBe(amount, 8) + nonce + recipient + ToBe(deadline, 8) + ToBe(chainId, 8) + contract
    case Submit(from, to, value, validAfter, validBefore, nonce, v, r, s) =>
      from + to + ToBe(value, 8) + ToBe(validAfter, 8) + ToBe(validBefore, 8) + nonce + [v] + r + s
    case Accepted(quota) => ToBe(quota, 8)
  }

  function BodySize(messageType: u8): nat {
    if messageType == MSG_PAYMENT_REQUIRED then 96 else if messageType == MSG_PAYMENT_SUBMIT then 161 else 8
  }

  function Encode(m: Message): seq<u8> {
    [TypeOf(m)] + ToBe(|Body(m)|, 2) + Body(m)
  }

  function U64(s: seq<u8>): u64
    requires |s| == 8
  {
    BeBound(s);
    Sizes();
    FromBe(s)
  }

  /** Each decoder takes only its own type, and ignores what follows the fields it knows. */
  predicate Announced(data: seq<u8>, messageType: u8) {
    && |data| >= 3 && data[0] == messageType
    && |data| >= 3 + FromBe(data[1..3]) && FromBe(data[1..3]) >= BodySize(messageType)
  }

  function DecodeRequired(data: seq<u8>): Option<Message> {
    if !Announced(data, MSG_PAYMENT_REQUIRED) then None
    else
      var p := data[3..];
      Some(Required(U64(p[0..8]), p[8..40], p[40..60], U64(p[60..68]), U64(p[68..76]), p[76..96]))
  }

  function DecodeSubmit(data: seq<u8>): Option<Message> {
    if !Announced(data, MSG_PAYMENT_SUBMIT) then None
    else
      var p := data[3..];
      Some(Submit(p[0..20], p[20..40], U64(p[40..48]), U64(p[48..56]), U64(p[56..64]), p[64..96], p[96], p[97..129],
                  p[129..161]))
  }

  function DecodeAccepted(data: seq<u8>): Option<Message> {
    if !Announced(data, MSG_PAYMENT_ACCEPTED) then None else Some(Accepted(U64(data[3..11])))
  }

  /** The decoder for a type of message. */
  function Decode(messageType: u8, data: seq<u8>): Option<Message> {
    if messageType == MSG_PAYMENT_REQUIRED then DecodeRequired(data)
    else if messageType == MSG_PAYMENT_SUBMIT then DecodeSubmit(data)
    else if messageType == MSG_PAYMENT_ACCEPTED then DecodeAccepted(data)
    else None
  }

  // The encoders as the code builds them

  method EncodeRequired(m: Message) returns (buf: seq<u8>)
    requires m.Required?
    ensures buf == Encode(m)
  {
    var payloadLen := 8 + 32 + 20 + 8 + 8 + 20;
    buf := [MSG_PAYMENT_REQUIRED];
    buf := buf + ToBe(payloadLen, 2);
    buf := buf + ToBe(m.amountUsdc, 8);
    buf := buf + m.nonce;
    buf := buf + m.recipient;
    buf := buf + ToBe(m.deadline, 8);
    buf := buf + ToBe(m.chainId, 8);
    buf := buf + m.usdcContract;
  }

  method EncodeSubmit(m: Message) returns (buf: seq<u8>)
    requires m.Submit?
    ensures buf == Encode(m)
  {
    hide ToBe;
    var payloadLen := 20 + 20 + 8 + 8 + 8 + 32 + 1 + 32 + 32;
    buf := [MSG_PAYMENT_SUBMIT];
    buf := buf + ToBe(payloadLen, 2);
    ghost var head := buf;
    buf := buf + m.from;
    buf := buf + m.to;
    buf := buf + ToBe(m.value, 8);
    buf := buf + ToBe(m.validAfter, 8);
    buf := buf + ToBe(m.validBefore, 8);
    ghost var (front, body) := (buf, m.from + m.to + ToBe(m.value, 8) + ToBe(m.validAfter, 8) + ToBe(m.validBefore, 8));
    assert front == head + body;
    buf := buf + m.nonce;
    buf := buf + [m.v];
    buf := buf + m.r;
    buf := buf + m.s;
    JoinsFour(head, body, m.nonce, [m.v], m.r, m.s);
  }

  lemma JoinsFour(head: seq<u8>, body: seq<u8>, a: seq<u8>, b: seq<u8>, c: seq<u8>, d: seq<u8>)
    ensures head + body + a + b + c + d == head + (body + a + b + c + d)
  {
  }

  method EncodeAccepted(m: Message) returns (buf: seq<u8>)
    requires m.Accepted?
    ensures buf == Encode(m)
  {
    buf := [MSG_PAYMENT_ACCEPTED];
    buf := buf + ToBe(8, 2);
    buf := buf + ToBe(m.newQuotaBytes, 8);
  }

  // Round trips

  lemma U64RoundTrip(n: u64)
    ensures U64(ToBe(n, 8)) == n
  {
    Sizes();
    BeRoundTrip(n, 8);
  }

  lemma U64Inverse(s: seq<u8>)
    requires |s| == 8
    ensures ToBe(U64(s), 8) == s
  {
    BeInverse(s);
  }

  /** A body's fields stand where the decoder looks for them. */
  lemma FieldsOfBody(m: Message, data: seq<u8>)
    requires Announced(data, TypeOf(m)) && data[3..3 + |Body(m)|] == Body(m)
    ensures Decode(TypeOf(m), data) == Some(m)
  {
    hide ToBe, FromBe, U64, DecodeRequired, DecodeSubmit;
    if m.Required? {
      FieldsOfRequired(m, data);
    } else if m.Submit? {
      FieldsOfSubmit(m, data);
    } else {
      U64RoundTrip(m.newQuotaBytes);
    }
  }

  lemma FieldsOfRequired(m: Message, data: seq<u8>)
    requires m.Required? && Announced(data, MSG_PAYMENT_REQUIRED) && data[3..99] == Body(m)
    ensures DecodeRequired(data) == Some(m)
  {
    hide ToBe, FromBe, U64;
    U64RoundTrip(m.amountUsdc);
    U64RoundTrip(m.deadline);
    U64RoundTrip(m.chainId);
    var (p, b) := (data[3..], Body(m));
    assert p[..96] == b;
    assert b[0..8] == ToBe(m.amountUsdc, 8) && b[8..40] == m.nonce && b[40..60] == m.recipient;
    assert b[60..68] == ToBe(m.deadline, 8) && b[68..76] == ToBe(m.chainId, 8) && b[76..96] == m.usdcContract;
    assert p[0..8] == b[0..8] && p[8..40] == b[8..40] && p[40..60] == b[40..60];
    assert p[60..68] == b[60..68] && p[68..76] == b[68..76] && p[76..96] == b[76..96];
  }

  lemma FieldsOfSubmit(m: Message, data: seq<u8>)
    requires m.Submit? && Announced(data, MSG_PAYMENT_SUBMIT) && data[3..164] == Body(m)
    ensures DecodeSubmit(data) == Some(m)
  {
    hide ToBe, FromBe, U64;
    U64RoundTrip(m.value);
    U64RoundTrip(m.validAfter);
    U64RoundTrip(m.validBefore);
    var (p, b) := (data[3..], Body(m));
    assert p[..161] == b;
    assert b[0..20] == m.from && b[20..40] == m.to && b[40..48] == ToBe(m.value, 8);
    assert b[48..56] == ToBe(m.validAfter, 8) && b[56..64] == ToBe(m.validBefore, 8) && b[64..96] == m.nonce;
    assert b[96] == m.v && b[97..129] == m.r && b[129..161] == m.s;
    assert p[0..20] == b[0..20] && p[20..40] == b[20..40] && p[40..48] == b[40..48];
    assert p[48..56] == b[48..56] && p[56..64] == b[56..64] && p[64..96] == b[64..96];
    assert p[96] == b[96] && p[97..129] == b[97..129] && p[129..161] == b[129..161];
  }

  lemma BodyOfFields(messageType: u8, data: seq<u8>)
    requires Decode(messageType, data).Some?
    ensures var m := Decode(messageType, data).value;
            && TypeOf(m) == messageType && Announced(data, messageType)
            && data[3..3 + |Body(m)|] == Body(m)
  {
    hide ToBe, FromBe, U64, DecodeSubmit, DecodeAccepted;
    if messageType == MSG_PAYMENT_REQUIRED {
      var p := data[3..];
      U64Inverse(p[0..8]);
      U64Inverse(p[60..68]);
      U64Inverse(p[68..76]);
      assert data[3..99] == p[0..8] + p[8..40] + p[40..60] + p[60..68] + p[68..76] + p[76..96];
    } else if messageType == MSG_PAYMENT_SUBMIT {
      SubmitOfFields(data);
    } else {
      AcceptedOfFields(data);
    }
  }

  lemma AcceptedOfFields(data: seq<u8>)
    requires DecodeAccepted(data).Some?
    ensures var m := DecodeAccepted(data).value;
            && m.Accepted? && Announced(data, MSG_PAYMENT_ACCEPTED) && data[3..11] == Body(m)
  {
    U64Inverse(data[3..11]);
  }

  lemma SubmitOfFields(data: seq<u8>)
    requires DecodeSubmit(data).Some?
    ensures var m := DecodeSubmit(data).value;
            && m.Submit? && Announced(data, MSG_PAYMENT_SUBMIT) && data[3..164] == Body(m)
  {
    hide ToBe, FromBe, U64;
    var (p, m) := (data[3..], DecodeSubmit(data).value);
    U64Inverse(p[40..48]);
    U64Inverse(p[48..56]);
    U64Inverse(p[56..64]);
    assert Body(m)
           == p[0..20] + p[20..40] + p[40..48] + p[48..56] + p[56..64] + p[64..96] + [p[96]] + p[97..129] + p[129..161];
    assert data[3..164] == p[..161];
    assert p[..161]
           == p[0..20] + p[20..40] + p[40..48] + p[48..56] + p[56..64] + p[64..96] + [p[96]] + p[97..129] + p[129..161];
  }

  /** What exactly decodes to a message: its type, a length that covers the fields and is not more
      than what is there, and the message's fields in their places. */
  lemma DecodesIff(messageType: u8, data: seq<u8>, m: Message)
    ensures Decode(messageType, data) == Some(m)
       <==> && messageType == TypeOf(m) && Announced(data, messageType)
            && data[3..3 + |Body(m)|] == Body(m)
  {
    hide Decode;
    if Decode(messageType, data) == Some(m) {
      BodyOfFields(messageType, data);
    }
    if messageType == TypeOf(m) && Announced(data, messageType) && data[3..3 + |Body(m)|] == Body(m) {
      FieldsOfBody(m, data);
    }
  }

  /** Each message decodes to what was encoded, also with bytes after it, and under no other type. */
  lemma RoundTrip(m: Message, messageType: u8, trailing: seq<u8>)
    ensures Decode(messageType, Encode(m) + trailing) == if messageType == TypeOf(m) then Some(m) else None
  {
    hide ToBe, FromBe, Body, DecodeRequired, DecodeSubmit, DecodeAccepted;
    var data := Encode(m) + trailing;
    if messageType == TypeOf(m) {
      Sizes();
      BeRoundTrip(|Body(m)|, 2);
      assert data[1..3] == ToBe(|Body(m)|, 2);
      assert data[3..3 + |Body(m)|] == Body(m);
      FieldsOfBody(m, data);
    } else {
      OtherType(messageType, data);
    }
  }

  lemma OtherType(messageType: u8, data: seq<u8>)
    requires data != [] && data[0] != messageType
    ensures Decode(messageType, data) == None
  {
  }
}

/** IPv4 packets with a UDP payload, and their header checksum (RFC 791, section 3.1; RFC 1071). */
module SignalPackets {
  import opened Wrappers
  import opened ByteStrings

  const PAYMENT_PORT: nat := 7078
  const GATEWAY: Ipv4 := [169, 254, 254, 1]

  type Ipv4 = s: seq<u8> | |s| == 4 witness [0, 0, 0, 0]

  // The checksum

  /** The sum of the big-endian 16-bit words, the last one padded with zero. */
  function WordSum(header: seq<u8>): nat {
    if header == [] then 0
    else if |header| == 1 then Word(header, 0)
    else Word(header, 0) + WordSum(header[2..])
  }

  function Word(header: seq<u8>, i: nat): (w: nat)
    requires i < |header|
    ensures w < 0x1_0000
  {
    var (high: int, low: int) := (header[i], if i + 1 < |header| then header[i + 1] else 0);
    high * 256 + low
  }

  /** The one's-complement reduction of a sum to 16 bits: the remainder modulo 65535, where a positive
      multiple is written as 65535. */
  function Reduced(sum: nat): (r: nat)
    ensures r <= 65535 && (r == 0 <==> sum == 0)
  {
    if sum == 0 then 0 else (sum - 1) % 65535 + 1
  }

  function Checksum(header: seq<u8>): nat {
    0xFFFF - Reduced(WordSum(header) % U32_SIZE)
  }

  lemma FoldKeepsReduced(sum: nat)
    requires sum >= 0x1_0000
    ensures 0 < sum % 0x1_0000 + sum / 0x1_0000 < sum
    ensures Reduced(sum % 0x1_0000 + sum / 0x1_0000) == Reduced(sum)
  {
    var (low, high) := (sum % 0x1_0000, sum / 0x1_0000);
    assert sum - 1 == low + high - 1 + 65535 * high;
    ModPlusMultiple(low + high - 1, high);
  }

  lemma {:induction false} ModPlusMultiple(a: nat, k: nat)
    ensures (a + 65535 * k) % 65535 == a % 65535
  {
    if k > 0 {
      ModPlusMultiple(a, k - 1);
    }
  }

  lemma AddWrapping(exact: nat, word: nat)
    ensures (exact % U32_SIZE + word) % U32_SIZE == (exact + word) % U32_SIZE
  {
  }

  method IpChecksum(header: seq<u8>) returns (checksum: u16)
    ensures checksum == Checksum(header)
  {
    var sum: u32 := 0;
    var i := 0;
    ghost var exact: nat := 0;
    while i < |header|
      invariant sum == exact % U32_SIZE
      invariant if i < |header| then exact + WordSum(header[i..]) == WordSum(header) else exact == WordSum(header)
    {
      var rest := header[i..];
      var word := Word(header, i);
      assert word == Word(rest, 0);
      assert |rest| > 2 ==> rest[2..] == header[i + 2..];
      assert |rest| == 2 ==> WordSum(rest[2..]) == 0;
      AddWrapping(exact, word);
      exact := exact + word;
      sum := (sum + word) % U32_SIZE;
      i := i + 2;
    }
    ghost var total := sum;
    while sum / 0x1_0000 != 0
      invariant Reduced(sum) == Reduced(total)
      decreases sum
    {
      FoldKeepsReduced(sum);
      sum := sum % 0x1_0000 + sum / 0x1_0000;
    }
    ReducedIsItself(sum);
    checksum := 0xFFFF - sum;
  }

  type u16 = x: int | 0 <= x < 0x1_0000

  lemma ReducedIsItself(sum: nat)
    requires sum < 0x1_0000
    ensures Reduced(sum) == sum
  {
  }

  lemma {:induction false} WordSumBound(header: seq<u8>)
    ensures WordSum(header) <= 0xFFFF * ((|header| + 1) / 2)
  {
    if |header| > 1 {
      WordSumBound(header[2..]);
    }
  }

  lemma NoWrap(header: seq<u8>)
    requires |header| <= 60
    ensures Checksum(header) == 0xFFFF - Reduced(WordSum(header)) && 0 <= Checksum(header) < 0x1_0000
  {
    hide WordSum, Reduced;
    WordSumBound(header);
    assert (|header| + 1) / 2 <= 30;
  }

  /** A header verifies exactly if its one's-complement sum is 65535: the sum is positive and zero
      modulo 65535. */
  lemma VerifiesIff(header: seq<u8>)
    requires |header| <= 60
    ensures Checksum(header) == 0 <==> WordSum(header) > 0 && WordSum(header) % 65535 == 0
  {
    NoWrap(header);
    hide Checksum, WordSum;
    var sum := WordSum(header);
    if sum > 0 {
      RemainderShift(sum);
    }
  }

  lemma RemainderShift(sum: nat)
    requires sum > 0
    ensures (sum - 1) % 65535 == 65534 <==> sum % 65535 == 0
  {
  }

  /** The sum of a header from the sums of its words. */
  lemma SplitWordSum(a: seq<u8>, b: seq<u8>)
    requires |a| % 2 == 0
    ensures WordSum(a + b) == WordSum(a) + WordSum(b)
    decreases |a|
  {
    if a == [] {
      assert a + b == b;
    } else {
      SplitWordSum(a[2..], b);
      assert (a + b)[2..] == a[2..] + b;
    }
  }

  /** Filling in the checksum of a header that has zeros in its place makes the header verify. */
  lemma FinishedHeaderVerifies(a: seq<u8>, b: seq<u8>)
    requires |a| % 2 == 0 && |a| + 2 + |b| <= 60
    ensures Checksum(a + ToBe(Checksum(a + [0, 0] + b), 2) + b) == 0
  {
    hide Checksum, WordSum, Reduced, ToBe;
    var zeros := a + [0, 0] + b;
    NoWrap(zeros);
    var c := Checksum(zeros);
    FieldSum(c);
    SplitThree(a, [0, 0], b);
    SplitThree(a, ToBe(c, 2), b);
    var (sum, finished) := (WordSum(zeros), WordSum(a + ToBe(c, 2) + b));
    assert finished == sum + 65535 - Reduced(sum);
    assert finished > 0 && finished % 65535 == 0 by {
      ReducedRemainder(sum);
    }
    VerifiesIff(a + ToBe(c, 2) + b);
  }

  lemma SplitThree(a: seq<u8>, m: seq<u8>, b: seq<u8>)
    requires |a| % 2 == 0 && |m| == 2
    ensures WordSum(a + m + b) == WordSum(a) + WordSum(m) + WordSum(b)
  {
    SplitWordSum(a + m, b);
    SplitWordSum(a, m);
  }

  lemma FieldSum(c: nat)
    requires c < 0x1_0000
    ensures WordSum(ToBe(c, 2)) == c && WordSum([0, 0]) == 0
  {
    assert ToBe(c, 2) == [c / 256 % 256, c % 256] by {
      assert ToBe(c / 256, 1) == [c / 256 % 256];
    }
    var f := ToBe(c, 2);
    assert f[2..] == [] && [0, 0][2..] == [];
  }

  lemma ReducedRemainder(sum: nat)
    ensures sum + 65535 - Reduced(sum) > 0 && (sum + 65535 - Reduced(sum)) % 65535 == 0
  {
    if sum == 0 {
      return;
    }
    var q := (sum - 1) / 65535;
    assert sum - Reduced(sum) == 65535 * q;
    ModPlusMultiple(0, q + 1);
  }

  /** A finished header that verifies stops verifying when one word changes, except between all zeros
      and all ones beside other words that are not all zero. */
  lemma ChangedWordIsNoticed(a: seq<u8>, word: nat, changed: nat, b: seq<u8>)
    requires |a| % 2 == 0 && |a| + 2 + |b| <= 60 && word < 0x1_0000 && changed < 0x1_0000
    requires Checksum(a + ToBe(word, 2) + b) == 0
    ensures Checksum(a + ToBe(changed, 2) + b) == 0
       <==> || changed == word
            || (WordSum(a) + WordSum(b) > 0 && ((changed == 0 && word == 0xFFFF) || (changed == 0xFFFF && word == 0)))
  {
    hide Checksum, WordSum, ToBe;
    WordVerifiesIff(a, word, b);
    WordVerifiesIff(a, changed, b);
    SameRemainder(WordSum(a) + WordSum(b), word, changed);
  }

  lemma WordVerifiesIff(a: seq<u8>, word: nat, b: seq<u8>)
    requires |a| % 2 == 0 && |a| + 2 + |b| <= 60 && word < 0x1_0000
    ensures Checksum(a + ToBe(word, 2) + b) == 0
       <==> WordSum(a) + WordSum(b) + word > 0 && (WordSum(a) + WordSum(b) + word) % 65535 == 0
  {
    hide Checksum, WordSum, ToBe;
    SplitThree(a, ToBe(word, 2), b);
    FieldSum(word);
    VerifiesIff(a + ToBe(word, 2) + b);
  }

  lemma SameRemainder(rest: nat, x: nat, y: nat)
    requires x <= 65535 && y <= 65535 && rest + x > 0 && (rest + x) % 65535 == 0
    ensures rest + y > 0 && (rest + y) % 65535 == 0
       <==> x == y || (rest > 0 && ((x == 0 && y == 65535) || (x == 65535 && y == 0)))
  {
    var q := (rest + x) / 65535;
    assert rest + x == 65535 * q;
    NextMultiple(q, rest + y);
  }

  lemma NextMultiple(q: nat, n: nat)
    requires 65535 * q - 65535 <= n <= 65535 * q + 65535
    ensures n % 65535 == 0 <==> n == 65535 * q - 65535 || n == 65535 * q || n == 65535 * q + 65535
  {
  }

  // Packets

  const MAX_PAYLOAD: nat := 65535 - 28

  function FrontOfHeader(totalLen: nat): (h: seq<u8>)
    ensures |h| == 10
  {
    [0x45, 0] + ToBe(totalLen, 2) + [0, 0, 0x40, 0, 64, 17]
  }

  function Header(src: Ipv4, dst: Ipv4, totalLen: nat): (h: seq<u8>)
    ensures |h| == 20
  {
    var (front, back) := (FrontOfHeader(totalLen), src + dst);
    NoWrap(front + [0, 0] + back);
    front + ToBe(Checksum(front + [0, 0] + back), 2) + back
  }

  function UdpHeader(udpLen: nat): (h: seq<u8>)
    ensures |h| == 8
  {
    ToBe(PAYMENT_PORT, 2) + ToBe(PAYMENT_PORT, 2) + ToBe(udpLen, 2) + [0, 0]
  }

  function SignalPacket(src: Ipv4, dst: Ipv4, payload: seq<u8>): (p: seq<u8>)
    ensures |p| == 28 + |payload|
  {
    Header(src, dst, 28 + |payload|) + UdpHeader(8 + |payload|) + payload
  }

  method CopyInto(packet: array<u8>, off: nat, src: seq<u8>)
    requires off + |src| <= packet.Length
    modifies packet
    ensures forall k | 0 <= k < packet.Length ::
              packet[k] == if off <= k < off + |src| then src[k - off] else old(packet[k])
  {
    var i := 0;
    while i < |src|
      invariant i <= |src|
      invariant forall k | 0 <= k < packet.Length ::
                  packet[k] == if off <= k < off + i then src[k - off] else old(packet[k])
    {
      packet[off + i] := src[i];
      i := i + 1;
    }
  }

  /** The fields of the IPv4 header but for its checksum. */
  method WriteIpFields(packet: array<u8>, src: Ipv4, dst: Ipv4)
    requires 20 <= packet.Length < 0x1_0000 && forall k | 0 <= k < packet.Length :: packet[k] == 0
    modifies packet
    ensures packet[..10] == FrontOfHeader(packet.Length) && packet[10..12] == [0, 0] && packet[12..20] == src + dst
    ensures forall k | 20 <= k < packet.Length :: packet[k] == 0
  {
    hide ToBe;
    packet[0] := 0x45;
    CopyInto(packet, 2, ToBe(packet.Length, 2));
    packet[6] := 0x40;
    packet[8] := 64;
    packet[9] := 17;
    CopyInto(packet, 12, src);
    CopyInto(packet, 16, dst);
    assert packet[2..4] == ToBe(packet.Length, 2);
    assert packet[..10] == packet[..2] + packet[2..4] + packet[4..10];
  }

  /** The IPv4 header at the front of a packet of zeros. */
  method WriteIpHeader(packet: array<u8>, src: Ipv4, dst: Ipv4)
    requires 20 <= packet.Length < 0x1_0000 && forall k | 0 <= k < packet.Length :: packet[k] == 0
    modifies packet
    ensures packet[..20] == Header(src, dst, packet.Length)
    ensures forall k | 20 <= k < packet.Length :: packet[k] == 0
  {
    hide ToBe, Checksum, FrontOfHeader;
    WriteIpFields(packet, src, dst);
    ghost var (front, back) := (packet[..10], packet[12..20]);
    assert packet[..20] == front + [0, 0] + back;
    var cksum := IpChecksum(packet[..20]);
    CopyInto(packet, 10, ToBe(cksum, 2));
    assert packet[..10] == front && packet[10..12] == ToBe(cksum, 2) && packet[12..20] == back;
    assert packet[..20] == packet[..10] + packet[10..12] + packet[12..20];
  }

  /** The UDP header and the payload behind the IPv4 header. */
  method WriteUdp(packet: array<u8>, payload: seq<u8>)
    requires packet.Length == 28 + |payload| && forall k | 20 <= k < packet.Length :: packet[k] == 0
    modifies packet
    ensures forall k | 0 <= k < 20 :: packet[k] == old(packet[k])
    ensures packet[20..28] == UdpHeader(8 + |payload|) && packet[28..] == payload
  {
    hide ToBe;
    CopyInto(packet, 20, ToBe(PAYMENT_PORT, 2));
    CopyInto(packet, 22, ToBe(PAYMENT_PORT, 2));
    CopyInto(packet, 24, ToBe(8 + |payload|, 2));
    CopyInto(packet, 28, payload);
    assert packet[20..22] == ToBe(PAYMENT_PORT, 2) && packet[22..24] == ToBe(PAYMENT_PORT, 2);
    assert packet[24..26] == ToBe(8 + |payload|, 2) && packet[26..28] == [0, 0];
    assert packet[20..28] == packet[20..22] + packet[22..24] + packet[24..26] + packet[26..28];
  }

  /** Payloads that do not fit an IPv4 packet are refused by an assertion of the code. */
  method BuildSignalPacket(src: Ipv4, dst: Ipv4, payload: seq<u8>) returns (packet: array<u8>)
    requires |payload| <= MAX_PAYLOAD
    ensures fresh(packet) && packet[..] == SignalPacket(src, dst, payload)
  {
    hide Header, UdpHeader;
    packet := new u8[28 + |payload|](_ => 0);
    WriteIpHeader(packet, src, dst);
    ghost var header := packet[..20];
    WriteUdp(packet, payload);
    assert packet[..20] == header;
    assert packet[..] == packet[..20] + packet[20..28] + packet[28..];
  }

  function SrcIpv4(packet: seq<u8>): Option<Ipv4> {
    if |packet| < 20 then None else Some(packet[12..16])
  }

  function DstIpv4(packet: seq<u8>): Option<Ipv4> {
    if |packet| < 20 then None else Some(packet[16..20])
  }

  predicate IsPaymentSignal(packet: seq<u8>) {
    && |packet| >= 20 && packet[0] / 16 == 4
    && (packet[12..16] == GATEWAY || packet[16..20] == GATEWAY)
  }

  function ExtractSignalPayload(packet: seq<u8>): Option<seq<u8>> {
    if |packet| < 20 then None
    else
      var ihl := packet[0] % 16 * 4;
      if packet[9] != 17 then None
      else if |packet| < ihl + 8 then None
      else
        var udpLen := FromBe(packet[ihl + 4..ihl + 6]);
        if udpLen < 8 || |packet| < ihl + udpLen then None else Some(packet[ihl + 8..ihl + udpLen])
  }

  lemma HeaderFields(src: Ipv4, dst: Ipv4, totalLen: nat)
    requires totalLen < 0x1_0000
    ensures var h := Header(src, dst, totalLen);
            && h[0] == 0x45 && h[9] == 17 && h[12..16] == src && h[16..20] == dst
            && FromBe(h[2..4]) == totalLen
  {
    hide Checksum;
    Sizes();
    BeRoundTrip(totalLen, 2);
    hide ToBe;
    var h := Header(src, dst, totalLen);
    assert h[2..4] == ToBe(totalLen, 2);
    assert h[12..16] == src && h[16..20] == dst;
  }

  /** The header of a built packet verifies. */
  lemma BuiltHeaderVerifies(src: Ipv4, dst: Ipv4, totalLen: nat)
    ensures Checksum(Header(src, dst, totalLen)) == 0
  {
    var (front, back) := (FrontOfHeader(totalLen), src + dst);
    FinishedHeaderVerifies(front, back);
  }

  /** Whatever is put into a signal packet is found in it: the payload, both addresses, its own
      length and a checksum that verifies; and it counts as a signal exactly if one end is the
      payment gateway. */
  lemma SignalRoundTrip(src: Ipv4, dst: Ipv4, payload: seq<u8>)
    requires |payload| <= MAX_PAYLOAD
    ensures var p := SignalPacket(src, dst, payload);
            && ExtractSignalPayload(p) == Some(payload)
            && SrcIpv4(p) == Some(src) && DstIpv4(p) == Some(dst)
            && FromBe(p[2..4]) == |p|
            && Checksum(p[..20]) == 0
            && (IsPaymentSignal(p) <==> src == GATEWAY || dst == GATEWAY)
  {
    var (totalLen, udpLen) := (28 + |payload|, 8 + |payload|);
    hide Header, ToBe, FromBe, Checksum;
    HeaderFields(src, dst, totalLen);
    BuiltHeaderVerifies(src, dst, totalLen);
    UdpFields(udpLen);
    var (h, p) := (Header(src, dst, totalLen), SignalPacket(src, dst, payload));
    assert p[..20] == h;
    assert p[2..4] == h[2..4] && p[12..16] == h[12..16] && p[16..20] == h[16..20];
    assert p[0] == h[0] && p[9] == h[9];
    assert p[24..26] == UdpHeader(udpLen)[4..6];
    assert p[28..28 + |payload|] == payload;
  }

  lemma UdpFields(udpLen: nat)
    requires udpLen < 0x1_0000
    ensures FromBe(UdpHeader(udpLen)[4..6]) == udpLen
  {
    Sizes();
    BeRoundTrip(udpLen, 2);
    hide ToBe;
    assert UdpHeader(udpLen)[4..6] == ToBe(udpLen, 2);
  }
}

/** Payment messages on their way through the tunnel. */
module PaymentDelivery {
  import opened Wrappers
  import opened ByteStrings
  import opened Crypto
  import opened PaymentMessages
  import opened SignalPackets
  import opened TunnelSpec
  import opened TunnelFlush

  /** A signal packet is a well-formed IPv4 packet for the tunnel, which passes it on unchanged with
      its source address. */
  lemma SignalIsWellFormed(src: Ipv4, dst: Ipv4, payload: seq<u8>)
    requires |payload| <= MAX_PAYLOAD
    ensures var p := Lits(SignalPacket(src, dst, payload));
            WellFormedPacket(p) && Delivery(p) == WriteToTunnelV4(p, Lits(src))
  {
    SignalRoundTrip(src, dst, payload);
    HeaderFields(src, dst, 28 + |payload|);
    hide Header, FromBe, UdpHeader, ExtractSignalPayload;
    var bytes := SignalPacket(src, dst, payload);
    var p := Lits(bytes);
    assert p[0] == Lit(0x45);
    assert p[2..4] == Lits(bytes[2..4]);
    ValuesOfLits(bytes[2..4]);
    assert p[12..16] == Lits(bytes[12..16]);
    assert bytes[12..16] == src;
  }

  /** A payment message that one side wraps, encapsulates and sends reaches the other side's decoder. */
  lemma MessageArrives(m: Message, src: Ipv4, dst: Ipv4, a: Tunnel, b: Tunnel, i: Input, j: Input)
    requires CurrentSession(a).Some? && Reaches(Current(a), b)
    requires Current(a).sendCounter + 1024 < U64_SIZE
    ensures |Encode(m)| <= MAX_PAYLOAD
    ensures var packet := SignalPacket(src, dst, Encode(m));
            var r := ReceiveDatagram(b, Encapsulate(a, Lits(packet), i).1.wire, j).1;
            && Encapsulate(a, Lits(packet), i).1.WriteToNetwork?
            && r == WriteToTunnelV4(Lits(packet), Lits(src))
            && ExtractSignalPayload(packet).Some?
            && Decode(TypeOf(m), ExtractSignalPayload(packet).value) == Some(m)
  {
    hide Encapsulate, ReceiveDatagram, SignalPacket, Reaches, PaymentMessages.Decode, WellFormedPacket, Delivery,
         CurrentSession;
    SignalRoundTrip(src, dst, Encode(m));
    SignalIsWellFormed(src, dst, Encode(m));
    TunnelRoundTrip(a, b, Lits(SignalPacket(src, dst, Encode(m))), i, j);
    RoundTrip(m, TypeOf(m), []);
    assert Encode(m) + [] == Encode(m);
  }
}
