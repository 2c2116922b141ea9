/** Symbolic cryptography on byte strings. A byte is a known value or one byte of a primitive's
    output; two outputs are equal exactly if the primitive and all its inputs are. */
module Crypto {
  import opened Wrappers
  import opened ByteStrings

  datatype Byte =
    | Lit(v: u8)
    | Out(term: Term, i: nat)

  type Bytes = seq<Byte>

  datatype Term =
    | Public(secret: nat)
    | Shared(lo: nat, hi: nat)
    | SharedWith(secret: nat, point: seq<Byte>)
    | HashOf(data: seq<Byte>)
    | HmacOf(key: seq<Byte>, data: seq<Byte>)
    | MacOf(key: seq<Byte>, data: seq<Byte>, len: nat)
    | Sealed(key: seq<Byte>, nonce: seq<Byte>, plain: seq<Byte>, aad: seq<Byte>)
    | XSealed(key: seq<Byte>, nonce: seq<Byte>, plain: seq<Byte>, aad: seq<Byte>)

  const KEY_LEN: nat := 32
  const AEAD_SIZE: nat := 16

  function Lits(s: seq<u8>): (b: Bytes)
    ensures |b| == |s|
  {
    seq(|s|, i requires 0 <= i < |s| => Lit(s[i]))
  }

  function Values(b: Bytes): (s: Option<seq<u8>>)
    ensures s.Some? ==> |s.value| == |b|
  {
    if forall i | 0 <= i < |b| :: b[i].Lit? then Some(seq(|b|, i requires 0 <= i < |b| && b[i].Lit? => b[i].v))
       else None
  }

  lemma ValuesOfLits(s: seq<u8>)
    ensures Values(Lits(s)) == Some(s)
  {
    assert Values(Lits(s)).value == s;
  }

  /** n bytes of a primitive's output. */
  function Output(t: Term, n: nat): (b: Bytes)
    ensures |b| == n
    ensures forall i | 0 <= i < n :: b[i] == Out(t, i)
  {
    seq(n, i requires 0 <= i < n => Out(t, i))
  }

  lemma OutputInjective(t: Term, u: Term, n: nat)
    requires n > 0 && Output(t, n) == Output(u, n)
    ensures t == u
  {
    assert Output(t, n)[0] == Output(u, n)[0];
  }

  function PublicKey(secret: nat): Bytes {
    Output(Public(secret), KEY_LEN)
  }

  predicate IsPublicKey(point: Bytes) {
    |point| == KEY_LEN && point[0].Out? && point[0].term.Public? && point == Output(point[0].term, KEY_LEN)
  }

  /** X25519: the shared secret does not depend on who computes it. */
  function DiffieHellman(secret: nat, point: Bytes): Bytes {
    if IsPublicKey(point) then
      var other := point[0].term.secret;
      Output(if secret <= other then Shared(secret, other) else Shared(other, secret), KEY_LEN)
    else
      Output(SharedWith(secret, point), KEY_LEN)
  }

  lemma DiffieHellmanCommutes(a: nat, b: nat)
    ensures DiffieHellman(a, PublicKey(b)) == DiffieHellman(b, PublicKey(a))
  {
    assert PublicKey(a)[0] == Out(Public(a), 0) && PublicKey(b)[0] == Out(Public(b), 0);
  }

  function Hash(data1: Bytes, data2: Bytes): Bytes {
    Output(HashOf(data1 + data2), 32)
  }

  function Hmac(key: Bytes, data: Bytes): Bytes {
    Output(HmacOf(key, data), 32)
  }

  function Mac16(key: Bytes, data: Bytes): Bytes {
    Output(MacOf(key, data, 16), 16)
  }

  function Mac24(key: Bytes, data: Bytes): Bytes {
    Output(MacOf(key, data, 24), 24)
  }

  /** The 12-byte nonce of a 64-bit counter. */
  function CounterNonce(counter: nat): Bytes {
    Lits([0, 0, 0, 0]) + Lits(ToLe(counter, 8))
  }

  lemma CounterNonceInjective(c: u64, d: u64)
    requires CounterNonce(c) == CounterNonce(d)
    ensures c == d
  {
    assert Lits(ToLe(c, 8)) == CounterNonce(c)[4..] == CounterNonce(d)[4..] == Lits(ToLe(d, 8));
    ValuesOfLits(ToLe(c, 8));
    ValuesOfLits(ToLe(d, 8));
    Sizes();
    LeRoundTrip(c, 8);
    LeRoundTrip(d, 8);
  }

  function Seal(key: Bytes, nonce: Bytes, plain: Bytes, aad: Bytes): (c: Bytes)
    ensures |c| == |plain| + AEAD_SIZE
  {
    Output(Sealed(key, nonce, plain, aad), |plain| + AEAD_SIZE)
  }

  function Open(key: Bytes, nonce: Bytes, cipher: Bytes, aad: Bytes): Option<Bytes> {
    if |cipher| > 0 && cipher[0].Out? && cipher[0].term.Sealed?
       && cipher == Seal(key, nonce, cipher[0].term.plain, aad)
    then Some(cipher[0].term.plain) else None
  }

  /** Opening succeeds on exactly the ciphertexts that were sealed under the same key, nonce and
      associated data. */
  lemma OpenIffSealed(key: Bytes, nonce: Bytes, cipher: Bytes, aad: Bytes, plain: Bytes)
    ensures Open(key, nonce, cipher, aad) == Some(plain) <==> cipher == Seal(key, nonce, plain, aad)
  {
    if cipher == Seal(key, nonce, plain, aad) {
      assert cipher[0] == Out(Sealed(key, nonce, plain, aad), 0);
    }
  }

  function XSeal(key: Bytes, nonce: Bytes, plain: Bytes, aad: Bytes): (c: Bytes)
    ensures |c| == |plain| + AEAD_SIZE
  {
    Output(XSealed(key, nonce, plain, aad), |plain| + AEAD_SIZE)
  }

  function XOpen(key: Bytes, nonce: Bytes, cipher: Bytes, aad: Bytes): Option<Bytes> {
    if |cipher| > 0 && cipher[0].Out? && cipher[0].term.XSealed?
       && cipher == XSeal(key, nonce, cipher[0].term.plain, aad)
    then Some(cipher[0].term.plain) else None
  }

  lemma XOpenIffSealed(key: Bytes, nonce: Bytes, cipher: Bytes, aad: Bytes, plain: Bytes)
    ensures XOpen(key, nonce, cipher, aad) == Some(plain) <==> cipher == XSeal(key, nonce, plain, aad)
  {
    if cipher == XSeal(key, nonce, plain, aad) {
      assert cipher[0] == Out(XSealed(key, nonce, plain, aad), 0);
    }
  }
}
