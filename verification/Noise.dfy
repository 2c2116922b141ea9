/** The Noise IKpsk2 key schedule in the terms of the WireGuard whitepaper, section 5.4. */
module Noise {
  import opened Wrappers
  import opened Crypto

  /** HASH(CONSTRUCTION) */
  const INITIAL_CHAIN_KEY: Bytes := Lits([
    96, 226, 109, 174, 243, 39, 239, 192, 46, 195, 53, 226, 160, 37, 210, 208, 22, 235, 66, 6, 248,
    114, 119, 245, 45, 56, 209, 152, 139, 120, 205, 54])

  /** HASH(HASH(CONSTRUCTION) || IDENTIFIER) */
  const INITIAL_CHAIN_HASH: Bytes := Lits([
    34, 17, 179, 97, 8, 26, 197, 102, 105, 18, 67, 219, 69, 138, 213, 50, 45, 156, 108, 102, 34,
    147, 232, 183, 14, 225, 156, 101, 186, 7, 158, 243])

  /** "mac1----" and "cookie--" */
  const LABEL_MAC1: Bytes := Lits([109, 97, 99, 49, 45, 45, 45, 45])
  const LABEL_COOKIE: Bytes := Lits([99, 111, 111, 107, 105, 101, 45, 45])

  const ZERO_NONCE: Bytes := CounterNonce(0)

  function Kdf1(key: Bytes, input: Bytes): Bytes {
    Hmac(Hmac(key, input), [Lit(1)])
  }

  function Kdf2(key: Bytes, input: Bytes): (Bytes, Bytes) {
    var t0 := Hmac(key, input);
    var t1 := Hmac(t0, [Lit(1)]);
    (t1, Hmac(t0, t1 + [Lit(2)]))
  }

  function Kdf3(key: Bytes, input: Bytes): (Bytes, Bytes, Bytes) {
    var t0 := Hmac(key, input);
    var (t1, t2) := Kdf2(key, input);
    (t1, t2, Hmac(t0, t2 + [Lit(3)]))
  }

  /** Chaining key and hash. */
  datatype Transcript = Transcript(ck: Bytes, h: Bytes)

  /** A transcript with the key of the next sealed field. */
  datatype Keyed = Keyed(transcript: Transcript, key: Bytes)

  function Begin(responderStatic: Bytes): Transcript {
    Transcript(INITIAL_CHAIN_KEY, Hash(INITIAL_CHAIN_HASH, responderStatic))
  }

  function TokenE(t: Transcript, ephemeral: Bytes): Transcript {
    Transcript(Kdf1(t.ck, ephemeral), Hash(t.h, ephemeral))
  }

  function TokenDh(t: Transcript, shared: Bytes): Keyed {
    var (ck, key) := Kdf2(t.ck, shared);
    Keyed(Transcript(ck, t.h), key)
  }

  function Absorb(t: Transcript, field: Bytes): Transcript {
    Transcript(t.ck, Hash(t.h, field))
  }

  function SealField(k: Keyed, plain: Bytes): Bytes {
    Seal(k.key, ZERO_NONCE, plain, k.transcript.h)
  }

  function OpenField(k: Keyed, field: Bytes): Option<Bytes> {
    Open(k.key, ZERO_NONCE, field, k.transcript.h)
  }

  lemma OpenSealedField(k: Keyed, plain: Bytes)
    ensures OpenField(k, SealField(k, plain)) == Some(plain)
  {
    OpenIffSealed(k.key, ZERO_NONCE, SealField(k, plain), k.transcript.h, plain);
  }

  /** Initiation: the key of the static field, after tokens e and es. */
  function StaticKey(responderStatic: Bytes, ephemeral: Bytes, es: Bytes): Keyed {
    TokenDh(TokenE(Begin(responderStatic), ephemeral), es)
  }

  /** Initiation: the key of the timestamp field, after tokens s and ss. */
  function TimestampKey(k: Keyed, staticField: Bytes, ss: Bytes): Keyed {
    TokenDh(Absorb(k.transcript, staticField), ss)
  }

  /** Response: the key of the empty field, after tokens e, ee, se and psk. */
  function EmptyKey(t: Transcript, ephemeral: Bytes, ee: Bytes, se: Bytes, psk: Bytes): Keyed {
    var t1 := TokenE(t, ephemeral);
    var (ck, tau, key) := Kdf3(Kdf1(Kdf1(t1.ck, ee), se), psk);
    Keyed(Transcript(ck, Hash(t1.h, tau)), key)
  }

  /** The initiator's sending and receiving key. */
  function TransportKeys(ck: Bytes): (Bytes, Bytes) {
    Kdf2(ck, [])
  }
}
