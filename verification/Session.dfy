/** Transport sessions (whitepaper section 5.4.6) as values. */
module Session {
  import opened Wrappers
  import opened Crypto
  import opened Wire
  import opened ReplayWindow

  datatype Session = Session(
    localIndex: u32,
    peerIndex: u32,
    receivingKey: Bytes,
    sendingKey: Bytes,
    sendCounter: u64,
    window: Window,
    receiveCnt: nat)

  function New(localIndex: u32, peerIndex: u32, receivingKey: Bytes, sendingKey: Bytes): Session {
    Session(localIndex, peerIndex, receivingKey, sendingKey, 0, EMPTY, 0)
  }

  function FormatPacketData(s: Session, src: Bytes): (Session, Bytes) {
    var sealed := Seal(s.sendingKey, CounterNonce(s.sendCounter), src, []);
    (s.(sendCounter := (s.sendCounter + 1) % U64_SIZE), Encode(PacketData(s.peerIndex, s.sendCounter, sealed)))
  }

  function ReceivePacketData(s: Session, p: Packet): (Session, Result<Bytes>)
    requires p.PacketData?
  {
    if p.receiverIdx != s.localIndex then (s, Err(WrongIndex))
    else match WillAccept(s.window, p.counter)
      case Err(e) => (s, Err(e))
      case Ok(_) =>
        match Open(s.receivingKey, CounterNonce(p.counter), p.encryptedPacket, [])
        case None => (s, Err(InvalidAeadTag))
        case Some(plain) =>
          match Mark(s.window, p.counter)
          case (Err(e), _) => (s, Err(e))
          case (Ok(_), w) => (s.(window := w, receiveCnt := s.receiveCnt + 1), Ok(plain))
  }

  /** The receive counter counts the accepted counters. */
  ghost predicate Counted(s: Session) {
    WellFormed(s.window) && s.receiveCnt == |s.window.marked|
  }

  /** Each side sends with the key the other receives with, to the other's index. */
  predicate Mirrored(a: Session, b: Session) {
    && a.sendingKey == b.receivingKey && a.receivingKey == b.sendingKey
    && a.localIndex == b.peerIndex && a.peerIndex == b.localIndex
  }

  /** A packet formatted by one side parses on the other, which gets the same bytes exactly if the
      counter passes its window. A second delivery of the same datagram is then refused, unless it
      carries the last counter of all. */
  lemma RoundTrip(a: Session, b: Session, src: Bytes)
    requires Mirrored(a, b) && WellFormed(b.window)
    ensures var wire := FormatPacketData(a, src).1;
            && ParseIncomingPacket(wire).Ok? && ParseIncomingPacket(wire).value.PacketData?
            && var p := ParseIncomingPacket(wire).value;
            var (b', r) := ReceivePacketData(b, p);
            && p.receiverIdx == a.peerIndex && p.counter == a.sendCounter
            && (r == Ok(src) <==> Passes(b.window, a.sendCounter))
            && (r.Err? ==> b' == b)
            && (r.Ok? ==>
                  && r == Ok(src) && b'.window == Mark(b.window, a.sendCounter).1
                  && b'.receiveCnt == b.receiveCnt + 1)
            && (r.Ok? ==> (ReceivePacketData(b', p).1.Err? <==> a.sendCounter != LAST_COUNTER))
  {
    hide Seal, Open, CounterNonce, Encode, ParseIncomingPacket, WillAccept, Mark, Passes, WellFormed;
    var sealed := Seal(a.sendingKey, CounterNonce(a.sendCounter), src, []);
    var p := PacketData(a.peerIndex, a.sendCounter, sealed);
    ParseEncoded(p, []);
    assert Encode(p) + [] == Encode(p);
    OpenIffSealed(b.receivingKey, CounterNonce(a.sendCounter), sealed, [], src);
    PassesIff(b.window, a.sendCounter);
    if Mark(b.window, a.sendCounter).0.Ok? {
      MarkedIsDuplicate(b.window, a.sendCounter);
    }
  }

  /** Receiving accepts exactly what the peer's key sealed under a counter that passes; whatever is
      refused leaves the session unchanged; the count stays right unless the last counter is accepted. */
  lemma ReceiveIsSound(s: Session, p: Packet)
    requires p.PacketData? && Counted(s)
    ensures var (s', r) := ReceivePacketData(s, p);
            && (r.Err? ==> s' == s)
            && (Counted(s') <==> r.Err? || p.counter != LAST_COUNTER)
            && (r.Ok? <==>
                 && p.receiverIdx == s.localIndex
                 && Passes(s.window, p.counter)
                 && exists plain :: p.encryptedPacket == Seal(s.receivingKey, CounterNonce(p.counter), plain, []))
            && (r.Ok? ==> p.encryptedPacket == Seal(s.receivingKey, CounterNonce(p.counter), r.value, []))
  {
    hide Seal, Open, CounterNonce, WillAccept, Mark, Passes, WellFormed;
    PassesIff(s.window, p.counter);
    OpensIff(s, p);
    if Mark(s.window, p.counter).0.Ok? {
      MarkGrows(s.window, p.counter);
    }
  }

  /** Exactly what the peer's key sealed under the packet's counter opens. */
  lemma OpensIff(s: Session, p: Packet)
    requires p.PacketData?
    ensures var o := Open(s.receivingKey, CounterNonce(p.counter), p.encryptedPacket, []);
            && (o.Some? <==> exists plain ::
                p.encryptedPacket == Seal(s.receivingKey, CounterNonce(p.counter), plain, []))
            && (o.Some? ==> p.encryptedPacket == Seal(s.receivingKey, CounterNonce(p.counter), o.value, []))
  {
    hide Seal, Open, CounterNonce;
    forall plain {
      OpenIffSealed(s.receivingKey, CounterNonce(p.counter), p.encryptedPacket, [], plain);
    }
  }

  function Below(n: nat): (s: set<nat>)
    ensures |s| == n && forall c: nat :: c in s <==> c < n
  {
    if n == 0 then {} else Below(n - 1) + {n - 1}
  }

  /** A session never counts more packets than it expects, so the loss estimate
      1 - received / expected lies between 0 and 1. */
  lemma LossInRange(s: Session)
    requires Counted(s)
    ensures s.receiveCnt <= s.window.next
    ensures s.window.next > 0 ==> 0.0 <= 1.0 - s.receiveCnt as real / s.window.next as real <= 1.0
  {
    assert s.window.marked <= Below(s.window.next);
    SubsetSize(s.window.marked, Below(s.window.next));
    if s.window.next > 0 {
      RatioInRange(s.receiveCnt as real, s.window.next as real);
    }
  }

  lemma RatioInRange(x: real, y: real)
    requires 0.0 <= x <= y && 0.0 < y
    ensures 0.0 <= x / y <= 1.0
  {
    Scale(x / y, y);
    assert x / y * y == x;
  }

  lemma Scale(q: real, y: real)
    requires 0.0 < y
    ensures q > 1.0 ==> q * y > y
    ensures q < 0.0 ==> q * y < 0.0
  {
  }

  lemma SubsetSize(a: set<nat>, b: set<nat>)
    requires a <= b
    ensures |a| <= |b|
  {
    assert b == a + (b - a);
  }

  /** The session after sending a sequence of packets, and the datagrams it sent. */
  function SendAll(s: Session, srcs: seq<Bytes>): (r: (Session, seq<Bytes>))
    ensures |r.1| == |srcs|
  {
    if srcs == [] then (s, [])
    else
      var (s1, before) := SendAll(s, srcs[..|srcs| - 1]);
      var (s2, wire) := FormatPacketData(s1, srcs[|srcs| - 1]);
      (s2, before + [wire])
  }

  lemma {:induction false} SendAllAt(s: Session, srcs: seq<Bytes>, i: nat)
    requires i < |srcs| && s.sendCounter + |srcs| < U64_SIZE
    ensures SendAll(s, srcs).0 == s.(sendCounter := s.sendCounter + |srcs|)
    ensures SendAll(s, srcs).1[i] == FormatPacketData(s.(sendCounter := s.sendCounter + i), srcs[i]).1
  {
    hide Seal, CounterNonce, Encode;
    var last := |srcs| - 1;
    if last > 0 {
      SendAllAt(s, srcs[..last], if i < last then i else 0);
    }
  }

  /** Successive packets of one session carry distinct counters: no nonce is used twice. */
  lemma CountersAreDistinct(s: Session, srcs: seq<Bytes>, i: nat, j: nat)
    requires i < j < |srcs| && s.sendCounter + |srcs| < U64_SIZE
    ensures var wires := SendAll(s, srcs).1;
            && ParseIncomingPacket(wires[i]).Ok? && ParseIncomingPacket(wires[j]).Ok?
            && var (p, q) := (ParseIncomingPacket(wires[i]).value, ParseIncomingPacket(wires[j]).value);
            p.PacketData? && q.PacketData? && p.counter == s.sendCounter + i && q.counter == s.sendCounter + j
  {
    hide Seal, CounterNonce, Encode, ParseIncomingPacket, SendAll;
    forall k: nat | k == i || k == j
      ensures ParseIncomingPacket(SendAll(s, srcs).1[k]).Ok?
      ensures ParseIncomingPacket(SendAll(s, srcs).1[k]).value.PacketData?
      ensures ParseIncomingPacket(SendAll(s, srcs).1[k]).value.counter == s.sendCounter + k
    {
      SendAllAt(s, srcs, k);
      var c := s.sendCounter + k;
      var p := PacketData(s.peerIndex, c, Seal(s.sendingKey, CounterNonce(c), srcs[k], []));
      ParseEncoded(p, []);
      assert Encode(p) + [] == Encode(p);
    }
  }
}

/** The session object: an atomic send counter, and a receive validator behind a mutex. */
module SessionObject {
  import opened Wrappers
  import opened Crypto
  import opened Wire
  import opened CounterValidator
  import ReplayWindow
  import S = Session

  const DATA_OFFSET: nat := 16

  function Splice(d: Bytes, off: nat, data: Bytes): (r: Bytes)
    requires off + |data| <= |d|
    ensures |r| == |d|
  {
    d[..off] + data + d[off + |data|..]
  }

  /** A header, and a payload that is overwritten in place by its longer sealed form. */
  lemma PacketLayout(d: Bytes, header: Bytes, src: Bytes, sealed: Bytes)
    requires |src| <= |sealed| && |header| + |sealed| <= |d|
    ensures var h, n := |header|, |header| + |sealed|;
            var d2 := Splice(Splice(d, 0, header), h, src);
            var d3 := Splice(d2, h, sealed);
            d2[h..h + |src|] == src && d3[..n] == header + sealed && d3[n..] == d[n..]
  {
    var h, n := |header|, |header| + |sealed|;
    var d2 := Splice(Splice(d, 0, header), h, src);
    assert d2 == header + src + d[h + |src|..];
    assert Splice(d2, h, sealed) == header + sealed + d[n..];
  }

  lemma SpliceAtStart(d: Bytes, data: Bytes)
    requires |data| <= |d|
    ensures Splice(d, 0, data)[..|data|] == data
  {
  }

  lemma SpliceKeepsBehind(d: Bytes, data: Bytes, n: nat)
    requires |data| <= n <= |d|
    ensures Splice(d, 0, data)[n..] == d[n..]
  {
  }

  method CopyFromSlice(dst: array<Byte>, off: nat, data: Bytes)
    requires off + |data| <= dst.Length
    modifies dst
    ensures dst[..] == Splice(old(dst[..]), off, data)
  {
    forall i | 0 <= i < |data| { dst[off + i] := data[i]; }
  }

  class Session {
    const receivingIndex: u32
    const sendingIndex: u32
    const receiver: Bytes
    const sender: Bytes
    var sendingKeyCounter: u64
    const receivingKeyCounter: ReceivingKeyCounterValidator

    ghost predicate Valid()
      reads this, receivingKeyCounter, receivingKeyCounter.bitmap
    {
      receivingKeyCounter.Valid()
    }

    ghost function View(): S.Session
      reads this, receivingKeyCounter
    {
      S.Session(receivingIndex, sendingIndex, receiver, sender, sendingKeyCounter,
                receivingKeyCounter.View(), receivingKeyCounter.receiveCnt)
    }

    constructor (localIndex: u32, peerIndex: u32, receivingKey: Bytes, sendingKey: Bytes)
      ensures Valid() && View() == S.New(localIndex, peerIndex, receivingKey, sendingKey)
      ensures fresh(receivingKeyCounter) && fresh(receivingKeyCounter.bitmap)
    {
      receivingIndex, sendingIndex, receiver, sender := localIndex, peerIndex, receivingKey, sendingKey;
      sendingKeyCounter := 0;
      receivingKeyCounter := new ReceivingKeyCounterValidator();
    }

    method ReceivingCounterQuickCheck(counter: u64) returns (r: Result<Unit>)
      requires Valid()
      ensures r == ReplayWindow.WillAccept(View().window, counter)
    {
      r := receivingKeyCounter.WillAccept(counter);
    }

    method ReceivingCounterMark(counter: u64) returns (r: Result<Unit>)
      requires Valid()
      modifies receivingKeyCounter, receivingKeyCounter.bitmap
      ensures (r, View().window) == ReplayWindow.Mark(old(View().window), counter)
      ensures View() == old(View()).(window := View().window,
                                     receiveCnt := old(View().receiveCnt) + if r.Ok? then 1 else 0)
      ensures counter + 1 < U64_SIZE || r.Err? ==> Valid()
    {
      r := receivingKeyCounter.MarkDidReceive(counter);
      if r.Ok? {
        receivingKeyCounter.receiveCnt := receivingKeyCounter.receiveCnt + 1;
      }
    }

    /** The source panics when dst is too small. That the buffer is not the bitmap follows from
        their element types. */
    method FormatPacketData(src: Bytes, dst: array<Byte>) returns (n: nat)
      requires Valid() && dst.Length >= |src| + DATA_OVERHEAD_SZ
      requires dst as object != receivingKeyCounter.bitmap
      modifies this`sendingKeyCounter, dst
      ensures Valid() && n == |src| + DATA_OVERHEAD_SZ
      ensures (View(), dst[..n]) == S.FormatPacketData(old(View()), src)
      ensures dst[n..] == old(dst[n..])
    {
      hide Bits, Represents, Seal, CounterNonce, Le32, Le64, Splice;
      var counter := sendingKeyCounter;
      sendingKeyCounter := (sendingKeyCounter + 1) % U64_SIZE;
      var header := Le32(DATA) + Le32(sendingIndex) + Le64(counter);
      CopyFromSlice(dst, 0, header);
      CopyFromSlice(dst, DATA_OFFSET, src);
      // seal in place, the tag goes behind the payload
      PacketLayout(old(dst[..]), header, src, Seal(sender, CounterNonce(counter), src, []));
      assert dst[DATA_OFFSET..DATA_OFFSET + |src|] == dst[..][DATA_OFFSET..DATA_OFFSET + |src|];
      var sealed := Seal(sender, CounterNonce(counter), dst[DATA_OFFSET..DATA_OFFSET + |src|], []);
      CopyFromSlice(dst, DATA_OFFSET, sealed);
      n := DATA_OFFSET + |sealed|;
      assert dst[..n] == dst[..][..n] && dst[n..] == dst[..][n..] && old(dst[n..]) == old(dst[..])[n..];
      assert receivingKeyCounter.bitmap[..] == old(receivingKeyCounter.bitmap[..]);
    }

    /** The source panics when dst is too small. */
    method ReceivePacketData(packet: Packet, dst: array<Byte>) returns (r: Result<nat>)
      requires Valid() && packet.PacketData? && dst.Length >= |packet.encryptedPacket|
      requires dst as object != receivingKeyCounter.bitmap
      modifies receivingKeyCounter, receivingKeyCounter.bitmap, dst
      ensures var (view, plain) := S.ReceivePacketData(old(View()), packet);
              && View() == view
              && (r.Err? ==> plain == Err(r.error))
              && (r.Ok? ==> r.value <= dst.Length && plain == Ok(dst[..r.value]))
      ensures packet.counter + 1 < U64_SIZE || r.Err? ==> Valid()
      ensures dst[|packet.encryptedPacket|..] == old(dst[|packet.encryptedPacket|..])
      ensures packet.receiverIdx != receivingIndex
              || ReplayWindow.WillAccept(old(View()).window, packet.counter).Err? ==>
                dst[..] == old(dst[..])
    {
      hide Bits, Represents, Seal, CounterNonce, Splice;
      ghost var behind := dst[|packet.encryptedPacket|..];
      if packet.receiverIdx != receivingIndex {
        return Err(WrongIndex);
      }
      var quick := ReceivingCounterQuickCheck(packet.counter);
      if quick.Err? {
        return Err(quick.error);
      }
      var len := |packet.encryptedPacket|;
      SpliceAtStart(dst[..], packet.encryptedPacket);
      SpliceKeepsBehind(dst[..], packet.encryptedPacket, len);
      CopyFromSlice(dst, 0, packet.encryptedPacket);
      assert dst[..len] == dst[..][..len] && dst[len..] == dst[..][len..] == behind;
      assert receivingKeyCounter.bitmap[..] == old(receivingKeyCounter.bitmap[..]);
      var decrypted := Open(receiver, CounterNonce(packet.counter), dst[..len], []);
      if decrypted.None? {
        return Err(InvalidAeadTag);
      }
      var plain := decrypted.value;
      assert |plain| <= len;
      SpliceAtStart(dst[..], plain);
      SpliceKeepsBehind(dst[..], plain, len);
      CopyFromSlice(dst, 0, plain);
      assert dst[..|plain|] == dst[..][..|plain|] && dst[len..] == dst[..][len..] == behind;
      assert receivingKeyCounter.bitmap[..] == old(receivingKeyCounter.bitmap[..]);
      var mark := ReceivingCounterMark(packet.counter);
      if mark.Err? {
        return Err(mark.error);
      }
      return Ok(|plain|);
    }
  }
}
