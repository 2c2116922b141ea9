/** An attacker who owns the network: it sees every datagram, delivers what it likes to whom it likes, and
    computes with every private key but some. What it may come to know. */
module AttackerKnowledge {
  import opened Wrappers
  import opened Crypto
  import opened Wire
  import opened Noise
  import H = HandshakeSpec
  import HP = HandshakeProofs

  /** The configurations of the two peers, and the private keys that the attacker does not hold. */
  datatype Ends = Ends(a: H.Params, b: H.Params, secrets: set<nat>)

  /** The static keys are among them; ephemeral keys may be. */
  predicate EndsOk(c: Ends) {
    && HP.Peers(c.a, c.b) && c.a.staticPrivate != c.b.staticPrivate
    && c.a.staticPrivate in c.secrets && c.b.staticPrivate in c.secrets
  }

  predicate Private(c: Ends, n: nat) {
    n in c.secrets
  }

  // Secrecy

  /** A byte that could be computed without the attacker's missing keys. The outputs of macs and ciphers
      all count as such, since they go over the network. */
  predicate Computable(c: Ends, b: Byte)
    decreases b
  {
    match b
    case Lit(_) => true
    case Out(Public(_), _) => true
    case Out(Shared(lo, hi), _) => !(Private(c, lo) && Private(c, hi))
    case Out(SharedWith(n, _), _) => !Private(c, n)
    case Out(HashOf(data), _) => forall k | 0 <= k < |data| :: Computable(c, data[k])
    case Out(HmacOf(key, data), _) =>
      && (forall k | 0 <= k < |key| :: Computable(c, key[k]))
      && (forall k | 0 <= k < |data| :: Computable(c, data[k]))
    case Out(MacOf(_, _, _), _) => true
    case Out(Sealed(_, _, _, _), _) => true
    case Out(XSealed(_, _, _, _), _) => true
  }

  predicate AllComputable(c: Ends, s: Bytes) {
    forall k | 0 <= k < |s| :: Computable(c, s[k])
  }

  lemma HmacComputable(c: Ends, key: Bytes, data: Bytes)
    ensures AllComputable(c, Hmac(key, data)) <==> AllComputable(c, key) && AllComputable(c, data)
  {
    assert Hmac(key, data)[0] == Out(HmacOf(key, data), 0);
  }

  /** An output of a secret is secret in every byte. */
  lemma HmacSecret(c: Ends, key: Bytes, data: Bytes, k: nat)
    requires k < 32 && !(AllComputable(c, key) && AllComputable(c, data))
    ensures !Computable(c, Hmac(key, data)[k])
  {
    assert Hmac(key, data)[k] == Out(HmacOf(key, data), k);
  }

  // What the peers do

  /** What a peer was given to send, and what it sealed. */
  datatype Made =
    | Given(p: H.Params, src: Bytes)
    | MadeInitiation(p: H.Params, index: u32, ephemeral: nat, stamp: H.Tai64N)
    | MadeResponse(p: H.Params, init: Packet, ephemeral: nat)
    | MadeData(p: H.Params, key: Bytes, counter: u64, plain: Bytes)

  /** The three sealed fields of the handshake, and data packets. */
  ghost predicate Seals(m: Made, key: Bytes, nonce: Bytes, plain: Bytes, aad: Bytes) {
    match m
    case Given(_, _) => false
    case MadeInitiation(p, _, ephemeral, stamp) =>
      var es := StaticKey(p.peerStaticPublic, PublicKey(ephemeral), DiffieHellman(ephemeral, p.peerStaticPublic));
      var ss := TimestampKey(es, SealField(es, H.StaticPublic(p)), DiffieHellman(p.staticPrivate, p.peerStaticPublic));
      || (key, nonce, plain, aad) == (es.key, ZERO_NONCE, H.StaticPublic(p), es.transcript.h)
      || (key, nonce, plain, aad) == (ss.key, ZERO_NONCE, H.EncodeTimestamp(stamp), ss.transcript.h)
    case MadeResponse(p, init, ephemeral) =>
      && init.HandshakeInit? && H.ReadInitiation(p, init).Ok?
      && var k := LinkKey(p, Answered(init, ephemeral));
      (key, nonce, plain, aad) == (k.key, ZERO_NONCE, [], k.transcript.h)
    case MadeData(_, k, counter, data) =>
      (key, nonce, plain, aad) == (k, CounterNonce(counter), data, [])
  }

  ghost predicate Logged(log: set<Made>, key: Bytes, nonce: Bytes, plain: Bytes, aad: Bytes) {
    exists m :: m in log && Seals(m, key, nonce, plain, aad)
  }

  /** How a peer came to a session: by its initiation and the ephemeral key of the response, or by the
      initiation it answered. */
  datatype Link =
    | Initiated(index: u32, ephemeral: nat, stamp: H.Tai64N, point: Bytes)
    | Answered(init: Packet, ephemeral: nat)

  predicate LinkOk(p: H.Params, l: Link) {
    l.Answered? ==> l.init.HandshakeInit? && H.ReadInitiation(p, l.init).Ok?
  }

  /** The key of the empty field, and what the transport keys come from. */
  function LinkKey(p: H.Params, l: Link): Keyed
    requires LinkOk(p, l)
  {
    match l
    case Initiated(index, ephemeral, stamp, point) =>
      EmptyKey(H.InitiationFields(p, index, ephemeral, stamp).1, point, DiffieHellman(ephemeral, point),
               DiffieHellman(p.staticPrivate, point), H.Psk(p))
    case Answered(init, ephemeral) =>
      EmptyKey(H.ReadInitiation(p, init).value.1, PublicKey(ephemeral), DiffieHellman(ephemeral, init.ephemeral),
               DiffieHellman(ephemeral, p.peerStaticPublic), H.Psk(p))
  }

  function SendKey(p: H.Params, l: Link): Bytes
    requires LinkOk(p, l)
  {
    var (first, second) := TransportKeys(LinkKey(p, l).transcript.ck);
    if l.Initiated? then first else second
  }

  function ReceiveKey(p: H.Params, l: Link): Bytes
    requires LinkOk(p, l)
  {
    var (first, second) := TransportKeys(LinkKey(p, l).transcript.ck);
    if l.Initiated? then second else first
  }

  // What the attacker may see

  /** A byte the attacker may hold: computable; if it is of a sealed message, either the attacker has the
      key and may hold the plaintext, or a peer sealed the message. */
  ghost predicate Fine(c: Ends, log: set<Made>, b: Byte)
    decreases b
  {
    && Computable(c, b)
    && match b
       case Out(Sealed(key, nonce, plain, aad), _) =>
         if AllComputable(c, key) then forall k | 0 <= k < |plain| :: Fine(c, log, plain[k])
         else Logged(log, key, nonce, plain, aad)
       case Out(XSealed(_, _, plain, _), _) => forall k | 0 <= k < |plain| :: Fine(c, log, plain[k])
       case _ => true
  }

  ghost predicate AllFine(c: Ends, log: set<Made>, s: Bytes) {
    forall k | 0 <= k < |s| :: Fine(c, log, s[k])
  }

  lemma FineStays(c: Ends, log: set<Made>, log': set<Made>, b: Byte)
    requires Fine(c, log, b) && log <= log'
    ensures Fine(c, log', b)
    decreases b
  {
    match b
    case Out(Sealed(key, nonce, plain, aad), _) =>
      if AllComputable(c, key) {
        forall k | 0 <= k < |plain| ensures Fine(c, log', plain[k]) {
          FineStays(c, log, log', plain[k]);
        }
      } else {
        var m :| m in log && Seals(m, key, nonce, plain, aad);
        assert m in log';
      }
    case Out(XSealed(_, _, plain, _), _) =>
      forall k | 0 <= k < |plain| ensures Fine(c, log', plain[k]) {
        FineStays(c, log, log', plain[k]);
      }
    case _ =>
  }

  /** What the attacker can do with bytes it holds. Slicing and joining are for free. */
  datatype Recipe =
    | PublicOf(secret: nat)
    | DhOf(secret: nat, point: Bytes)
    | HashWith(data1: Bytes, data2: Bytes)
    | HmacWith(key: Bytes, data: Bytes)
    | Mac16With(key: Bytes, data: Bytes)
    | Mac24With(key: Bytes, data: Bytes)
    | SealWith(key: Bytes, nonce: Bytes, plain: Bytes, aad: Bytes)
    | XSealWith(key: Bytes, nonce: Bytes, plain: Bytes, aad: Bytes)
    | OpenWith(key: Bytes, nonce: Bytes, cipher: Bytes, aad: Bytes)
    | XOpenWith(key: Bytes, nonce: Bytes, cipher: Bytes, aad: Bytes)

  predicate Knows(known: set<Byte>, s: Bytes) {
    forall k | 0 <= k < |s| :: s[k].Lit? || s[k] in known
  }

  /** The attacker holds the ingredients: any private key but the secret ones. */
  predicate CanMake(c: Ends, known: set<Byte>, r: Recipe) {
    match r
    case PublicOf(_) => true
    case DhOf(n, point) => !Private(c, n) && Knows(known, point)
    case HashWith(x, y) => Knows(known, x) && Knows(known, y)
    case HmacWith(k, d) => Knows(known, k) && Knows(known, d)
    case Mac16With(k, d) => Knows(known, k) && Knows(known, d)
    case Mac24With(k, d) => Knows(known, k) && Knows(known, d)
    case SealWith(k, n, p, a) => Knows(known, k) && Knows(known, n) && Knows(known, p) && Knows(known, a)
    case XSealWith(k, n, p, a) => Knows(known, k) && Knows(known, n) && Knows(known, p) && Knows(known, a)
    case OpenWith(k, n, p, a) => Knows(known, k) && Knows(known, n) && Knows(known, p) && Knows(known, a)
    case XOpenWith(k, n, p, a) => Knows(known, k) && Knows(known, n) && Knows(known, p) && Knows(known, a)
  }

  function Product(r: Recipe): Bytes {
    match r
    case PublicOf(n) => PublicKey(n)
    case DhOf(n, point) => DiffieHellman(n, point)
    case HashWith(x, y) => Hash(x, y)
    case HmacWith(k, d) => Hmac(k, d)
    case Mac16With(k, d) => Mac16(k, d)
    case Mac24With(k, d) => Mac24(k, d)
    case SealWith(k, n, p, a) => Seal(k, n, p, a)
    case XSealWith(k, n, p, a) => XSeal(k, n, p, a)
    case OpenWith(k, n, p, a) => if Open(k, n, p, a).Some? then Open(k, n, p, a).value else []
    case XOpenWith(k, n, p, a) => if XOpen(k, n, p, a).Some? then XOpen(k, n, p, a).value else []
  }

  ghost predicate KnownOk(c: Ends, log: set<Made>, known: set<Byte>) {
    forall b | b in known :: Fine(c, log, b)
  }

  lemma KnownIsFine(c: Ends, log: set<Made>, known: set<Byte>, s: Bytes)
    requires KnownOk(c, log, known) && Knows(known, s)
    ensures AllFine(c, log, s) && AllComputable(c, s)
  {
    forall k | 0 <= k < |s| ensures Fine(c, log, s[k]) && Computable(c, s[k]) {
      if !s[k].Lit? {
        assert s[k] in known;
      }
    }
  }

  /** The attacker's computations keep to the bytes it may hold. */
  lemma ProductIsFine(c: Ends, log: set<Made>, known: set<Byte>, r: Recipe)
    requires KnownOk(c, log, known) && CanMake(c, known, r)
    ensures AllFine(c, log, Product(r))
  {
    forall s | Knows(known, s) ensures AllFine(c, log, s) && AllComputable(c, s) {
      KnownIsFine(c, log, known, s);
    }
    hide KnownOk, Knows, Logged;
    match r
    case PublicOf(_) =>
    case DhOf(n, point) => DhIsFine(c, log, n, point);
    case HashWith(x, y) =>
    case HmacWith(k, d) =>
    case Mac16With(k, d) =>
    case Mac24With(k, d) =>
    case SealWith(k, n, p, a) =>
    case XSealWith(k, n, p, a) =>
    case OpenWith(k, n, p, a) =>
      if Open(k, n, p, a).Some? {
        assert Fine(c, log, p[0]);
      }
    case XOpenWith(k, n, p, a) =>
      if XOpen(k, n, p, a).Some? {
        assert Fine(c, log, p[0]);
      }
  }

  lemma DhIsFine(c: Ends, log: set<Made>, n: nat, point: Bytes)
    requires !Private(c, n)
    ensures AllFine(c, log, DiffieHellman(n, point))
  {
  }

  // The secret that both static keys are needed for

  /** Whatever absorbed the static-static secret is secret. */
  lemma StaticSecret(c: Ends, p: H.Params)
    requires EndsOk(c) && (p == c.a || p == c.b)
    ensures !AllComputable(c, DiffieHellman(p.staticPrivate, p.peerStaticPublic))
  {
    var d := DiffieHellman(p.staticPrivate, p.peerStaticPublic);
    var peer := if p == c.a then c.b.staticPrivate else c.a.staticPrivate;
    assert PublicKey(peer)[0] == Out(Public(peer), 0);
    assert d[0].Out? && d[0].term.Shared? && !Computable(c, d[0]);
  }

  // What each key depends on

  lemma KdfComputableIff(c: Ends, key: Bytes, input: Bytes)
    ensures var known := AllComputable(c, key) && AllComputable(c, input);
            && (AllComputable(c, Kdf1(key, input)) <==> known)
            && (AllComputable(c, Kdf2(key, input).0) <==> known) && (AllComputable(c, Kdf2(key, input).1) <==> known)
            && (AllComputable(c, Kdf3(key, input).0) <==> known) && (AllComputable(c, Kdf3(key, input).2) <==> known)
  {
    var t0 := Hmac(key, input);
    HmacComputable(c, key, input);
    HmacComputable(c, t0, [Lit(1)]);
    HmacComputable(c, t0, Hmac(t0, [Lit(1)]) + [Lit(2)]);
    HmacComputable(c, t0, Kdf2(key, input).1 + [Lit(3)]);
    LitIsComputable(c, 1);
    LitIsComputable(c, 2);
    LitIsComputable(c, 3);
    Joined(c, Hmac(t0, [Lit(1)]), [Lit(2)]);
    Joined(c, Kdf2(key, input).1, [Lit(3)]);
    hide Hmac, AllComputable;
  }

  lemma LitIsComputable(c: Ends, n: u8)
    ensures AllComputable(c, [Lit(n)])
  {
  }

  lemma Joined(c: Ends, s: Bytes, t: Bytes)
    ensures AllComputable(c, s + t) <==> AllComputable(c, s) && AllComputable(c, t)
  {
    if AllComputable(c, s + t) {
      assert forall k | 0 <= k < |s| :: (s + t)[k] == s[k];
      assert forall k | 0 <= k < |t| :: (s + t)[|s| + k] == t[k];
    }
  }

  lemma PublicIsComputable(c: Ends, n: nat)
    ensures AllComputable(c, PublicKey(n))
  {
  }

  lemma ChainStartIsComputable(c: Ends)
    ensures AllComputable(c, INITIAL_CHAIN_KEY)
  {
  }

  /** The key of the static field, and the chaining key after it, can be computed exactly by whoever can
      compute the Diffie-Hellman secret of the ephemeral key and the responder's. */
  lemma StaticKeyIff(c: Ends, responder: Bytes, e: Bytes, es: Bytes)
    ensures var k := StaticKey(responder, e, es);
            && (AllComputable(c, k.key) <==> AllComputable(c, e) && AllComputable(c, es))
            && (AllComputable(c, k.transcript.ck) <==> AllComputable(c, e) && AllComputable(c, es))
  {
    hide Kdf1, Kdf2, AllComputable;
    ChainStartIsComputable(c);
    KdfComputableIff(c, INITIAL_CHAIN_KEY, e);
    KdfComputableIff(c, Kdf1(INITIAL_CHAIN_KEY, e), es);
  }

  /** The key of the timestamp, and the chaining key after it, need the static-static secret too. */
  lemma TimestampKeyIff(c: Ends, k: Keyed, field: Bytes, ss: Bytes)
    ensures var k' := TimestampKey(k, field, ss);
            && (AllComputable(c, k'.key) <==> AllComputable(c, k.transcript.ck) && AllComputable(c, ss))
            && (AllComputable(c, k'.transcript.ck) <==> AllComputable(c, k.transcript.ck) && AllComputable(c, ss))
  {
    hide Kdf2, AllComputable, Hash;
    KdfComputableIff(c, k.transcript.ck, ss);
  }

  /** The key of the empty field and both transport keys need the chaining key, both secrets of the new
      ephemeral key and the preshared key. */
  lemma EmptyKeyIff(c: Ends, t: Transcript, e: Bytes, ee: Bytes, se: Bytes, psk: Bytes)
    ensures var k := EmptyKey(t, e, ee, se, psk);
            var known := AllComputable(c, t.ck) && AllComputable(c, e) && AllComputable(c, ee) && AllComputable(c, se)
                         && AllComputable(c, psk);
            && (AllComputable(c, k.key) <==> known)
            && (AllComputable(c, TransportKeys(k.transcript.ck).0) <==> known)
            && (AllComputable(c, TransportKeys(k.transcript.ck).1) <==> known)
  {
    hide Kdf1, Kdf2, Kdf3, Hash, AllComputable;
    var c1 := Kdf1(t.ck, e);
    var c3 := Kdf1(Kdf1(c1, ee), se);
    KdfComputableIff(c, t.ck, e);
    KdfComputableIff(c, c1, ee);
    KdfComputableIff(c, Kdf1(c1, ee), se);
    KdfComputableIff(c, c3, psk);
    KdfComputableIff(c, Kdf3(c3, psk).0, []);
    EmptyIsComputable(c);
  }

  lemma EmptyIsComputable(c: Ends)
    ensures AllComputable(c, [])
  {
  }

  /** The initiator's five inputs to a session. */
  lemma InitiatorKeysIff(c: Ends, p: H.Params, index: u32, ephemeral: nat, stamp: H.Tai64N, point: Bytes)
    ensures var l := Initiated(index, ephemeral, stamp, point);
            var known := && AllComputable(c, DiffieHellman(ephemeral, p.peerStaticPublic))
                         && AllComputable(c, DiffieHellman(p.staticPrivate, p.peerStaticPublic))
                         && AllComputable(c, DiffieHellman(ephemeral, point))
                         && AllComputable(c, DiffieHellman(p.staticPrivate, point))
                         && AllComputable(c, point) && AllComputable(c, H.Psk(p));
            && (AllComputable(c, SendKey(p, l)) <==> known) && (AllComputable(c, ReceiveKey(p, l)) <==> known)
            && (AllComputable(c, LinkKey(p, l).key) <==> known)
  {
    hide DiffieHellman, AllComputable, StaticKey, TimestampKey, EmptyKey, TransportKeys, SealField, PublicKey, H.Psk;
    var es := StaticKey(p.peerStaticPublic, PublicKey(ephemeral), DiffieHellman(ephemeral, p.peerStaticPublic));
    PublicIsComputable(c, ephemeral);
    StaticKeyIff(c, p.peerStaticPublic, PublicKey(ephemeral), DiffieHellman(ephemeral, p.peerStaticPublic));
    TimestampKeyIff(c, es, SealField(es, H.StaticPublic(p)), DiffieHellman(p.staticPrivate, p.peerStaticPublic));
    EmptyKeyIff(c, H.InitiationFields(p, index, ephemeral, stamp).1, point, DiffieHellman(ephemeral, point),
                DiffieHellman(p.staticPrivate, point), H.Psk(p));
  }

  /** The responder's. */
  lemma ResponderKeysIff(c: Ends, p: H.Params, init: Packet, ephemeral: nat)
    requires LinkOk(p, Answered(init, ephemeral))
    ensures var l := Answered(init, ephemeral);
            var known := && AllComputable(c, DiffieHellman(p.staticPrivate, init.ephemeral))
                         && AllComputable(c, DiffieHellman(p.staticPrivate, p.peerStaticPublic))
                         && AllComputable(c, DiffieHellman(ephemeral, init.ephemeral))
                         && AllComputable(c, DiffieHellman(ephemeral, p.peerStaticPublic))
                         && AllComputable(c, init.ephemeral) && AllComputable(c, H.Psk(p));
            && (AllComputable(c, SendKey(p, l)) <==> known) && (AllComputable(c, ReceiveKey(p, l)) <==> known)
            && (AllComputable(c, LinkKey(p, l).key) <==> known)
  {
    hide DiffieHellman, AllComputable, StaticKey, TimestampKey, EmptyKey, TransportKeys, OpenField, PublicKey, H.Psk,
         H.ParseTimestamp;
    var es := StaticKey(H.StaticPublic(p), init.ephemeral, DiffieHellman(p.staticPrivate, init.ephemeral));
    PublicIsComputable(c, ephemeral);
    StaticKeyIff(c, H.StaticPublic(p), init.ephemeral, DiffieHellman(p.staticPrivate, init.ephemeral));
    TimestampKeyIff(c, es, init.encryptedStatic, DiffieHellman(p.staticPrivate, p.peerStaticPublic));
    EmptyKeyIff(c, H.ReadInitiation(p, init).value.1, PublicKey(ephemeral), DiffieHellman(ephemeral, init.ephemeral),
                DiffieHellman(ephemeral, p.peerStaticPublic), H.Psk(p));
  }

  /** Two private keys, both secret, make a secret. */
  lemma SharedSecretIff(c: Ends, n: nat, m: nat)
    ensures AllComputable(c, DiffieHellman(n, PublicKey(m))) <==> !(Private(c, n) && Private(c, m))
  {
    assert PublicKey(m)[0] == Out(Public(m), 0);
    assert AllComputable(c, DiffieHellman(n, PublicKey(m))) ==> Computable(c, DiffieHellman(n, PublicKey(m))[0]);
  }

  /** Any one of the four pairs of private keys, or the preshared key, keeps the session secret. With two
      secret ephemeral keys it is so even if both static keys are known: forward secrecy. */
  lemma SessionSecretIff(c: Ends, p: H.Params, responder: nat, index: u32, ephemeral: nat, stamp: H.Tai64N, other: nat)
    requires p.peerStaticPublic == PublicKey(responder)
    ensures var l := Initiated(index, ephemeral, stamp, PublicKey(other));
            AllComputable(c, SendKey(p, l)) && AllComputable(c, ReceiveKey(p, l))
            <==> && !(Private(c, ephemeral) && Private(c, responder))
                 && !(Private(c, p.staticPrivate) && Private(c, responder))
                 && !(Private(c, ephemeral) && Private(c, other))
                 && !(Private(c, p.staticPrivate) && Private(c, other))
                 && AllComputable(c, H.Psk(p))
  {
    hide DiffieHellman, AllComputable, PublicKey, H.Psk, SendKey, ReceiveKey, LinkKey;
    InitiatorKeysIff(c, p, index, ephemeral, stamp, PublicKey(other));
    SharedSecretIff(c, ephemeral, responder);
    SharedSecretIff(c, p.staticPrivate, responder);
    SharedSecretIff(c, ephemeral, other);
    SharedSecretIff(c, p.staticPrivate, other);
    PublicIsComputable(c, other);
  }

  /** The caller's identity: the key of the static field is secret exactly if the private keys of the
      ephemeral key and of the responder both are. */
  lemma StaticFieldSecretIff(c: Ends, responder: nat, ephemeral: nat)
    ensures AllComputable(c, StaticKey(PublicKey(responder), PublicKey(ephemeral),
                                       DiffieHellman(ephemeral, PublicKey(responder))).key)
       <==> !(Private(c, responder) && Private(c, ephemeral))
  {
    hide DiffieHellman, AllComputable, PublicKey, StaticKey;
    StaticKeyIff(c, PublicKey(responder), PublicKey(ephemeral), DiffieHellman(ephemeral, PublicKey(responder)));
    SharedSecretIff(c, ephemeral, responder);
    PublicIsComputable(c, ephemeral);
  }

  /** The key of the timestamp and the chaining key after it. */
  lemma TimestampSecret(c: Ends, p: H.Params, es: Keyed, field: Bytes)
    requires EndsOk(c) && (p == c.a || p == c.b)
    ensures var k := TimestampKey(es, field, DiffieHellman(p.staticPrivate, p.peerStaticPublic));
            !AllComputable(c, k.key) && !AllComputable(c, k.transcript.ck)
  {
    hide DiffieHellman, AllComputable, TimestampKey;
    StaticSecret(c, p);
    TimestampKeyIff(c, es, field, DiffieHellman(p.staticPrivate, p.peerStaticPublic));
  }

  lemma LinkSecret(c: Ends, p: H.Params, l: Link)
    requires EndsOk(c) && (p == c.a || p == c.b) && LinkOk(p, l)
    ensures !AllComputable(c, LinkKey(p, l).key) && !AllComputable(c, SendKey(p, l))
            && !AllComputable(c, ReceiveKey(p, l))
  {
    hide DiffieHellman, AllComputable, LinkKey, SendKey, ReceiveKey, EndsOk, LinkOk;
    StaticSecret(c, p);
    match l
    case Initiated(index, ephemeral, stamp, point) => InitiatorKeysIff(c, p, index, ephemeral, stamp, point);
    case Answered(init, ephemeral) => ResponderKeysIff(c, p, init, ephemeral);
  }
}
