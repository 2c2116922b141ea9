/** Recursive length prefix encoding (Yellow Paper, appendix B) and the signing preimage of EIP-1559
    transactions. */
module Rlp {
  import opened Wrappers
  import opened ByteStrings

  /** What RLP encodes: byte strings and lists of items. */
  datatype Item = Text(bytes: seq<u8>) | List(items: seq<Item>)

  // Encoding, as the code does it

  /** Drop the leading zeros, but keep the last byte. */
  function Trim(be: seq<u8>): (s: seq<u8>)
    requires be != []
    ensures s != [] && |s| <= |be|
  {
    if be[0] != 0 || |be| == 1 then be else Trim(be[1..])
  }

  function EncodeLength(len: nat): (s: seq<u8>)
    ensures 1 <= |s| <= 8
  {
    Trim(ToBe(len, 8))
  }

  /** A payload behind its length, counted from `base`. */
  function Prefixed(base: u8, payload: seq<u8>): (s: seq<u8>)
    requires base == 0x80 || base == 0xc0
    ensures |s| > |payload|
  {
    if |payload| <= 55 then [base + |payload|] + payload
    else [base + 55 + |EncodeLength(|payload|)|] + EncodeLength(|payload|) + payload
  }

  function EncodeBytes(data: seq<u8>): seq<u8> {
    if |data| == 1 && data[0] < 0x80 then [data[0]] else Prefixed(0x80, data)
  }

  function Flatten(items: seq<seq<u8>>): seq<u8> {
    if items == [] then [] else items[0] + Flatten(items[1..])
  }

  function EncodeList(items: seq<seq<u8>>): seq<u8> {
    Prefixed(0xc0, Flatten(items))
  }

  /** Integers of the given width in bytes: minimal big-endian, zero as the empty string. */
  function EncodeUint(value: nat, width: nat): seq<u8>
    requires width > 0
  {
    if value == 0 then [0x80] else EncodeBytes(Trim(ToBe(value, width)))
  }

  // The meaning of the encoding

  function Encode(x: Item): (s: seq<u8>)
    ensures s != []
    decreases x
  {
    match x
    case Text(bytes) => EncodeBytes(bytes)
    case List(items) => EncodeList(EncodeAll(items))
  }

  function EncodeAll(items: seq<Item>): (s: seq<seq<u8>>)
    ensures |s| == |items|
    decreases items
  {
    seq(|items|, i requires 0 <= i < |items| => Encode(items[i]))
  }

  /** The encoder writes lengths in eight bytes. */
  ghost predicate Small(x: Item) {
    match x
    case Text(bytes) => |bytes| < U64_SIZE
    case List(items) => |Flatten(EncodeAll(items))| < U64_SIZE
  }

  // A strict decoder

  /** The payload behind a length counted from `base`, and what follows it. */
  function Split(base: u8, s: seq<u8>): (r: Option<(seq<u8>, seq<u8>)>)
    requires base == 0x80 || base == 0xc0
    requires s != [] && base <= s[0] < base + 64
    ensures r.Some? ==> |r.value.0| < |s| && |r.value.1| < |s|
  {
    var n := s[0] - base;
    if n <= 55 then
      if |s| < 1 + n then None else Some((s[1..1 + n], s[1 + n..]))
    else
      var k := n - 55;
      if |s| < 1 + k then None
      else
        var len := FromBe(s[1..1 + k]);
        if s[1] == 0 || len <= 55 || |s| < 1 + k + len then None
        else Some((s[1 + k..1 + k + len], s[1 + k + len..]))
  }

  /** The item at the front of a string, and what follows it. Encodings that are not the shortest are
      refused. */
  function Decode(s: seq<u8>): (r: Option<(Item, seq<u8>)>)
    ensures r.Some? ==> |r.value.1| < |s|
    decreases |s|, 0
  {
    if s == [] then None
    else if s[0] < 0x80 then Some((Text([s[0]]), s[1..]))
    else if s[0] < 0xc0 then
      match Split(0x80, s)
      case None => None
      case Some((payload, rest)) =>
        if |payload| == 1 && payload[0] < 0x80 then None else Some((Text(payload), rest))
    else
      match Split(0xc0, s)
      case None => None
      case Some((payload, rest)) =>
        match DecodeAll(payload)
        case None => None
        case Some(items) => Some((List(items), rest))
  }

  function DecodeAll(s: seq<u8>): Option<seq<Item>>
    decreases |s|, 1
  {
    if s == [] then Some([])
    else
      match Decode(s)
      case None => None
      case Some((x, rest)) =>
        match DecodeAll(rest)
        case None => None
        case Some(items) => Some([x] + items)
  }

  // Lengths

  lemma {:induction false} TrimKeepsValue(be: seq<u8>)
    requires be != []
    ensures FromBe(Trim(be)) == FromBe(be)
    ensures FromBe(be) > 0 ==> Trim(be)[0] != 0
  {
    if be[0] == 0 && |be| > 1 {
      LeadingZero(be);
      TrimKeepsValue(be[1..]);
    } else if |be| == 1 {
      assert be[..0] == [];
    }
  }

  lemma {:induction false} LeadingZero(be: seq<u8>)
    requires be != [] && be[0] == 0
    ensures FromBe(be) == FromBe(be[1..])
  {
    if |be| > 1 {
      LeadingZero(be[..|be| - 1]);
      assert be[..|be| - 1][1..] == be[1..][..|be| - 2];
    } else {
      assert be[..0] == [];
    }
  }

  /** A number's trimmed form does not depend on the width it is trimmed from. */
  lemma {:induction false} TrimUndoesPadding(s: seq<u8>, width: nat)
    requires 0 < |s| <= width && s[0] != 0
    ensures Trim(ToBe(FromBe(s), width)) == s
  {
    if width == |s| {
      BeInverse(s);
    } else {
      TrimUndoesPadding(s, width - 1);
      BeBound(s);
      PadOne(FromBe(s), |s|, width - 1);
    }
  }

  lemma {:induction false} PadOne(n: nat, k: nat, width: nat)
    requires n < Pow256(k) && k <= width
    ensures ToBe(n, width + 1) == [0] + ToBe(n, width)
    decreases width
  {
    if width == 0 {
      assert ToBe(n, 1) == ToBe(0, 0) + [0];
    } else {
      Pow256Grows(k, width);
      PadOne(n / 256, width - 1, width - 1);
    }
  }

  lemma {:induction false} Pow256Grows(k: nat, m: nat)
    requires k <= m
    ensures Pow256(k) <= Pow256(m)
  {
    if k < m {
      Pow256Grows(k, m - 1);
    }
  }

  /** The bytes of a length, and the only ones the decoder takes for it. */
  lemma LengthRoundTrip(len: nat)
    requires 0 < len < U64_SIZE
    ensures FromBe(EncodeLength(len)) == len && EncodeLength(len)[0] != 0
  {
    Sizes();
    BeRoundTrip(len, 8);
    TrimKeepsValue(ToBe(len, 8));
  }

  lemma LengthIsUnique(s: seq<u8>)
    requires 0 < |s| <= 8 && s[0] != 0
    ensures EncodeLength(FromBe(s)) == s && FromBe(s) < U64_SIZE
  {
    TrimUndoesPadding(s, 8);
    BeBound(s);
    Pow256Grows(|s|, 8);
    Sizes();
  }

  // Unique decodability

  lemma SplitPrefixed(base: u8, payload: seq<u8>, rest: seq<u8>)
    requires (base == 0x80 || base == 0xc0) && |payload| < U64_SIZE
    ensures var s := Prefixed(base, payload) + rest;
            && base <= s[0] < base + 64
            && Split(base, s) == Some((payload, rest))
  {
    hide EncodeLength, FromBe;
    var s := Prefixed(base, payload) + rest;
    if |payload| <= 55 {
      assert s[1..1 + |payload|] == payload;
    } else {
      LengthRoundTrip(|payload|);
      var k := |EncodeLength(|payload|)|;
      assert s[1..1 + k] == EncodeLength(|payload|);
      assert s[1 + k..1 + k + |payload|] == payload;
      assert s[1 + k + |payload|..] == rest;
    }
  }

  lemma SplitIsPrefixed(base: u8, s: seq<u8>)
    requires (base == 0x80 || base == 0xc0) && s != [] && base <= s[0] < base + 64
    requires Split(base, s).Some?
    ensures var (payload, rest) := Split(base, s).value;
            s == Prefixed(base, payload) + rest && |payload| < U64_SIZE
  {
    hide EncodeLength, FromBe;
    var (payload, rest) := Split(base, s).value;
    var n := s[0] - base;
    if n > 55 {
      var k := n - 55;
      assert s[1..1 + k][0] == s[1];
      LengthIsUnique(s[1..1 + k]);
      assert s == [s[0]] + s[1..1 + k] + s[1 + k..1 + k + |payload|] + rest;
    } else {
      assert s == [s[0]] + s[1..1 + n] + rest;
    }
  }

  lemma EncodeAllFromFront(items: seq<Item>)
    requires items != []
    ensures EncodeAll(items) == [Encode(items[0])] + EncodeAll(items[1..])
    ensures Flatten(EncodeAll(items)) == Encode(items[0]) + Flatten(EncodeAll(items[1..]))
  {
    assert EncodeAll(items) == [Encode(items[0])] + EncodeAll(items[1..]);
    assert EncodeAll(items)[1..] == EncodeAll(items[1..]);
  }

  lemma EncodingIsLonger(x: Item)
    requires |Encode(x)| < U64_SIZE
    ensures Small(x)
  {
  }

  /** Encoding followed by anything decodes to the item and leaves the rest. */
  lemma {:induction false} DecodeEncode(x: Item, rest: seq<u8>)
    requires Small(x)
    ensures Decode(Encode(x) + rest) == Some((x, rest))
    decreases x
  {
    hide Prefixed, Split, Flatten, EncodeAll;
    match x
    case Text(bytes) =>
      if !(|bytes| == 1 && bytes[0] < 0x80) {
        SplitPrefixed(0x80, bytes, rest);
      } else {
        assert (Encode(x) + rest)[1..] == rest;
        assert [bytes[0]] == bytes;
      }
    case List(items) =>
      SplitPrefixed(0xc0, Flatten(EncodeAll(items)), rest);
      DecodeEncodeAll(items);
  }

  lemma {:induction false} DecodeEncodeAll(items: seq<Item>)
    requires |Flatten(EncodeAll(items))| < U64_SIZE
    ensures DecodeAll(Flatten(EncodeAll(items))) == Some(items)
    decreases items
  {
    if items != [] {
      hide Encode, Decode, EncodeAll;
      EncodeAllFromFront(items);
      hide Flatten;
      EncodingIsLonger(items[0]) by {
        assert |Encode(items[0])| < U64_SIZE;
      }
      DecodeEncode(items[0], Flatten(EncodeAll(items[1..])));
      DecodeEncodeAll(items[1..]);
      assert [items[0]] + items[1..] == items;
    } else {
      assert EncodeAll(items) == [];
    }
  }

  /** What decodes was encoded: the decoder takes nothing but encodings. */
  lemma {:induction false} DecodedWasEncoded(s: seq<u8>)
    requires Decode(s).Some?
    ensures var (x, rest) := Decode(s).value;
            s == Encode(x) + rest && Small(x)
    decreases |s|, 0
  {
    hide Prefixed, Split, Flatten, EncodeAll;
    if s[0] < 0x80 {
      assert s == [s[0]] + s[1..];
    } else if s[0] < 0xc0 {
      SplitIsPrefixed(0x80, s);
    } else {
      SplitIsPrefixed(0xc0, s);
      DecodedAllWasEncoded(Split(0xc0, s).value.0);
    }
  }

  lemma {:induction false} DecodedAllWasEncoded(s: seq<u8>)
    requires DecodeAll(s).Some?
    ensures s == Flatten(EncodeAll(DecodeAll(s).value))
    decreases |s|, 1
  {
    if s != [] {
      DecodedWasEncoded(s);
      var (x, rest) := Decode(s).value;
      DecodedAllWasEncoded(rest);
      var items := DecodeAll(s).value;
      assert items[1..] == DecodeAll(rest).value;
      EncodeAllFromFront(items);
    }
  }

  /** Unique decodability, for nested lists and lengths of several bytes too: a string starts with the
      encoding of at most one item, namely the one the decoder finds. */
  lemma DecodeIff(s: seq<u8>, x: Item, rest: seq<u8>)
    ensures Decode(s) == Some((x, rest)) <==> s == Encode(x) + rest && Small(x)
  {
    if Decode(s) == Some((x, rest)) {
      DecodedWasEncoded(s);
    }
    if s == Encode(x) + rest && Small(x) {
      DecodeEncode(x, rest);
    }
  }
}

/** The signing preimage of EIP-1559 transactions. */
module Transactions {
  import opened Wrappers
  import opened ByteStrings
  import opened Rlp

  const U128_SIZE: nat := U64_SIZE * U64_SIZE

  type u128 = x: int | 0 <= x < 0x1_0000_0000_0000_0000_0000_0000_0000_0000
  type Address = s: seq<u8> | |s| == 20 witness [0, 0, 0, 0, 0, 0, 0, 0, 0, 0, 0, 0, 0, 0, 0, 0, 0, 0, 0, 0]

  datatype Eip1559Tx = Eip1559Tx(
    chainId: u64,
    nonce: u64,
    maxPriorityFeePerGas: u128,
    maxFeePerGas: u128,
    gasLimit: u64,
    to: Address,
    value: u128,
    data: seq<u8>)

  function RlpFields(tx: Eip1559Tx): seq<seq<u8>> {
    [EncodeUint(tx.chainId, 8), EncodeUint(tx.nonce, 8), EncodeUint(tx.maxPriorityFeePerGas, 16),
     EncodeUint(tx.maxFeePerGas, 16), EncodeUint(tx.gasLimit, 8), EncodeBytes(tx.to),
     EncodeUint(tx.value, 16), EncodeBytes(tx.data), EncodeList([])]
  }

  /** What is hashed and signed: the transaction type, then the list of fields. */
  function Preimage(tx: Eip1559Tx): seq<u8> {
    [0x02] + EncodeList(RlpFields(tx))
  }

  /** No memory holds more data than this, and then every length fits the encoder's eight bytes. */
  predicate DataFits(tx: Eip1559Tx) {
    |tx.data| < 0x8000_0000_0000_0000
  }

  // Decoding, field by field

  function DecodeUint(x: Item, width: nat): Option<nat> {
    if x.Text? && |x.bytes| <= width && (x.bytes == [] || x.bytes[0] != 0) then Some(FromBe(x.bytes)) else None
  }

  function DecodePreimage(s: seq<u8>): Option<Eip1559Tx> {
    if s == [] || s[0] != 0x02 then None
    else
      match Decode(s[1..])
      case None => None
      case Some((x, rest)) => if rest == [] && x.List? then DecodeFields(x.items) else None
  }

  function DecodeFields(f: seq<Item>): Option<Eip1559Tx> {
    if |f| != 9 || f[8] != List([]) then None
    else
      var (chainId, nonce, gasLimit) := (DecodeUint(f[0], 8), DecodeUint(f[1], 8), DecodeUint(f[4], 8));
      var (tip, fee, value) := (DecodeUint(f[2], 16), DecodeUint(f[3], 16), DecodeUint(f[6], 16));
      if chainId.None? || nonce.None? || gasLimit.None? || tip.None? || fee.None? || value.None?
         || !f[5].Text? || |f[5].bytes| != 20 || !f[7].Text? then None
      else
        UintsFit(f);
        Some(Eip1559Tx(chainId.value, nonce.value, tip.value, fee.value, gasLimit.value, f[5].bytes, value.value,
                       f[7].bytes))
  }

  lemma UintFits(x: Item, width: nat)
    requires DecodeUint(x, width).Some?
    ensures DecodeUint(x, width).value < Pow256(width)
  {
    BeBound(x.bytes);
    Pow256Grows(|x.bytes|, width);
  }

  lemma UintsFit(f: seq<Item>)
    requires |f| == 9
    ensures forall k | k in [0, 1, 4] :: DecodeUint(f[k], 8).Some? ==> DecodeUint(f[k], 8).value < U64_SIZE
    ensures forall k | k in [2, 3, 6] :: DecodeUint(f[k], 16).Some? ==> DecodeUint(f[k], 16).value < U128_SIZE
  {
    Sizes();
    forall k | 0 <= k < 9
      ensures DecodeUint(f[k], 8).Some? ==> DecodeUint(f[k], 8).value < U64_SIZE
      ensures DecodeUint(f[k], 16).Some? ==> DecodeUint(f[k], 16).value < U128_SIZE
    {
      if DecodeUint(f[k], 8).Some? {
        UintFits(f[k], 8);
      }
      if DecodeUint(f[k], 16).Some? {
        UintFits(f[k], 16);
      }
    }
  }

  // Round trips

  /** The item an integer is encoded as. */
  function UintItem(value: nat, width: nat): Item
    requires width > 0
  {
    Text(if value == 0 then [] else Trim(ToBe(value, width)))
  }

  lemma UintRoundTrip(value: nat, width: nat)
    requires width > 0 && value < Pow256(width)
    ensures EncodeUint(value, width) == Encode(UintItem(value, width))
    ensures DecodeUint(UintItem(value, width), width) == Some(value)
  {
    BeRoundTrip(value, width);
    TrimKeepsValue(ToBe(value, width));
  }

  /** Only the shortest form of an integer decodes. */
  lemma UintIsUnique(x: Item, width: nat)
    requires width > 0 && DecodeUint(x, width).Some?
    ensures x == UintItem(DecodeUint(x, width).value, width)
  {
    if x.bytes != [] {
      TrimUndoesPadding(x.bytes, width);
      if FromBe(x.bytes) == 0 {
        BeInverse(x.bytes);
        ZeroBytes(|x.bytes|);
      }
    }
  }

  lemma {:induction false} ZeroBytes(k: nat)
    ensures forall i | 0 <= i < k :: ToBe(0, k)[i] == 0
  {
    if k > 0 {
      ZeroBytes(k - 1);
    }
  }

  function FieldItems(tx: Eip1559Tx): seq<Item> {
    [UintItem(tx.chainId, 8), UintItem(tx.nonce, 8), UintItem(tx.maxPriorityFeePerGas, 16),
     UintItem(tx.maxFeePerGas, 16), UintItem(tx.gasLimit, 8), Text(tx.to),
     UintItem(tx.value, 16), Text(tx.data), List([])]
  }

  lemma FieldsAreItems(tx: Eip1559Tx)
    ensures RlpFields(tx) == EncodeAll(FieldItems(tx))
  {
    Sizes();
    hide EncodeUint, UintItem, Encode;
    UintRoundTrip(tx.chainId, 8);
    UintRoundTrip(tx.nonce, 8);
    UintRoundTrip(tx.maxPriorityFeePerGas, 16);
    UintRoundTrip(tx.maxFeePerGas, 16);
    UintRoundTrip(tx.gasLimit, 8);
    UintRoundTrip(tx.value, 16);
    BytesItems(tx);
  }

  lemma BytesItems(tx: Eip1559Tx)
    ensures EncodeBytes(tx.to) == Encode(Text(tx.to)) && EncodeBytes(tx.data) == Encode(Text(tx.data))
    ensures EncodeList([]) == Encode(List([]))
  {
    assert EncodeAll([]) == [];
  }

  lemma FieldsRoundTrip(tx: Eip1559Tx)
    ensures DecodeFields(FieldItems(tx)) == Some(tx)
  {
    Sizes();
    hide UintItem, DecodeUint;
    UintRoundTrip(tx.chainId, 8);
    UintRoundTrip(tx.nonce, 8);
    UintRoundTrip(tx.maxPriorityFeePerGas, 16);
    UintRoundTrip(tx.maxFeePerGas, 16);
    UintRoundTrip(tx.gasLimit, 8);
    UintRoundTrip(tx.value, 16);
  }

  lemma FieldsAreUnique(f: seq<Item>)
    requires DecodeFields(f).Some?
    ensures f == FieldItems(DecodeFields(f).value)
  {
    hide UintItem, DecodeUint;
    UintIsUnique(f[0], 8);
    UintIsUnique(f[1], 8);
    UintIsUnique(f[2], 16);
    UintIsUnique(f[3], 16);
    UintIsUnique(f[4], 8);
    UintIsUnique(f[6], 16);
  }

  /** A fixed bound for everything but the data. */
  lemma FieldsAreShort(tx: Eip1559Tx)
    ensures |Flatten(RlpFields(tx))| <= |tx.data| + 200
  {
    hide Trim, ToBe, EncodeLength;
    var f := RlpFields(tx);
    FlattenNine(f);
    BytesAreShort(tx.to);
    BytesAreShort(tx.data);
    UintsAreShort(tx);
    assert EncodeList([]) == [0xc0];
  }

  lemma UintsAreShort(tx: Eip1559Tx)
    ensures |EncodeUint(tx.chainId, 8)| <= 17 && |EncodeUint(tx.nonce, 8)| <= 17 && |EncodeUint(tx.gasLimit, 8)| <= 17
    ensures |EncodeUint(tx.maxPriorityFeePerGas, 16)| <= 25 && |EncodeUint(tx.maxFeePerGas, 16)| <= 25
            && |EncodeUint(tx.value, 16)| <= 25
  {
    hide Trim, ToBe, EncodeBytes;
    UintIsShort(tx.chainId, 8);
    UintIsShort(tx.nonce, 8);
    UintIsShort(tx.gasLimit, 8);
    UintIsShort(tx.maxPriorityFeePerGas, 16);
    UintIsShort(tx.maxFeePerGas, 16);
    UintIsShort(tx.value, 16);
  }

  lemma UintIsShort(value: nat, width: nat)
    requires width > 0
    ensures |EncodeUint(value, width)| <= width + 9
  {
    if value > 0 {
      BytesAreShort(Trim(ToBe(value, width)));
    }
  }

  lemma BytesAreShort(data: seq<u8>)
    ensures |EncodeBytes(data)| <= |data| + 9
  {
  }

  lemma FlattenNine(f: seq<seq<u8>>)
    requires |f| == 9
    ensures |Flatten(f)| == |f[0]| + |f[1]| + |f[2]| + |f[3]| + |f[4]| + |f[5]| + |f[6]| + |f[7]| + |f[8]|
  {
    assert |Flatten(f[8..])| == |f[8]| by { assert f[8..][1..] == []; }
    assert f[7..][1..] == f[8..] && f[6..][1..] == f[7..] && f[5..][1..] == f[6..] && f[4..][1..] == f[5..];
    assert f[3..][1..] == f[4..] && f[2..][1..] == f[3..] && f[1..][1..] == f[2..];
    assert |Flatten(f[6..])| == |f[6]| + |f[7]| + |f[8]|;
    assert |Flatten(f[4..])| == |f[4]| + |f[5]| + |Flatten(f[6..])|;
    assert |Flatten(f[2..])| == |f[2]| + |f[3]| + |Flatten(f[4..])|;
  }

  /** The preimage of every transaction decodes to it, with all fields in order. */
  lemma PreimageRoundTrip(tx: Eip1559Tx)
    requires DataFits(tx)
    ensures DecodePreimage(Preimage(tx)) == Some(tx)
  {
    hide RlpFields, FieldItems, DecodeFields, Encode, Decode, Flatten, EncodeAll;
    FieldsAreItems(tx);
    FieldsAreShort(tx);
    FieldsRoundTrip(tx);
    var x := List(FieldItems(tx));
    ListMeaning(FieldItems(tx));
    DecodeEncode(x, []);
    assert Encode(x) + [] == Encode(x);
    assert Preimage(tx)[1..] == Encode(x);
  }

  lemma ListMeaning(items: seq<Item>)
    ensures Encode(List(items)) == EncodeList(EncodeAll(items))
    ensures Small(List(items)) <==> |Flatten(EncodeAll(items))| < U64_SIZE
  {
  }

  /** Nothing else decodes to it: a string is the preimage of a transaction exactly if the strict
      decoder finds that transaction in it. */
  lemma PreimageIff(s: seq<u8>, tx: Eip1559Tx)
    requires DataFits(tx)
    ensures DecodePreimage(s) == Some(tx) <==> s == Preimage(tx)
  {
    hide RlpFields, FieldItems, DecodeFields, Encode, Decode, Flatten, EncodeAll;
    PreimageRoundTrip(tx);
    if DecodePreimage(s) == Some(tx) {
      DecodedWasEncoded(s[1..]);
      var x := Decode(s[1..]).value.0;
      FieldsAreUnique(x.items);
      FieldsAreItems(tx);
      ListMeaning(x.items);
      assert s == [0x02] + s[1..];
      assert Encode(x) + [] == Encode(x);
    }
  }

  /** Distinct transactions have distinct preimages. */
  lemma PreimageIsInjective(tx: Eip1559Tx, other: Eip1559Tx)
    requires DataFits(tx) && DataFits(other) && tx != other
    ensures Preimage(tx) != Preimage(other)
  {
    PreimageRoundTrip(tx);
    PreimageRoundTrip(other);
    hide Preimage, DecodePreimage;
  }
}

/** The encoders as the code builds them, growing a local vector. */
module RlpBuilder {
  import opened Wrappers
  import Rlp

  method RlpEncodeBytes(data: seq<u8>) returns (out: seq<u8>)
    ensures out == Rlp.EncodeBytes(data)
  {
    if |data| == 1 && data[0] < 0x80 {
      return [data[0]];
    }
    if |data| <= 55 {
      out := [0x80 + |data|];
      out := out + data;
    } else {
      var lenBytes := Rlp.EncodeLength(|data|);
      out := [0xb7 + |lenBytes|];
      out := out + lenBytes;
      out := out + data;
    }
  }

  method RlpEncodeList(items: seq<seq<u8>>) returns (out: seq<u8>)
    ensures out == Rlp.EncodeList(items)
  {
    var payload := [];
    var i := 0;
    while i < |items|
      invariant i <= |items|
      invariant payload + Rlp.Flatten(items[i..]) == Rlp.Flatten(items)
    {
      assert items[i..][1..] == items[i + 1..];
      payload := payload + items[i];
      i := i + 1;
    }
    if |payload| <= 55 {
      out := [0xc0 + |payload|];
      out := out + payload;
    } else {
      var lenBytes := Rlp.EncodeLength(|payload|);
      out := [0xf7 + |lenBytes|];
      out := out + lenBytes;
      out := out + payload;
    }
  }
}
