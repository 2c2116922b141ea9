/** The handshake object of protocol/boringtun/src/noise/handshake.rs: the key schedule as the
    code runs it, one hash and one hmac at a time, with cached keys. */
module Handshake {
  import opened Wrappers
  import opened Crypto
  import opened Wire
  import Noise
  import Spec = HandshakeSpec
  import Session

  function B2sHmac2(key: Bytes, data1: Bytes, data2: Bytes): Bytes {
    Hmac(key, data1 + data2)
  }

  class Handshake {
    // NoiseParams
    var staticPublic: Bytes
    var staticPrivate: nat
    const peerStaticPublic: Bytes
    var staticShared: Bytes
    const sendingMac1Key: Bytes
    const presharedKey: Option<Bytes>

    var nextIndex: u32
    var previous: Spec.Slot
    var state: Spec.Slot
    var lastMac1: Option<Bytes>
    var cookieIndex: u32
    var writeCookie: Option<Bytes>
    var lastHandshakeTimestamp: Spec.Tai64N
    const stamper: Spec.TimeStamper
    var lastRtt: Option<nat>

    ghost function View(): Spec.State
      reads this
    {
      Spec.State(Spec.Params(staticPrivate, peerStaticPublic, presharedKey), nextIndex, previous, state,
                 Spec.Cookies(lastMac1, cookieIndex, writeCookie), lastHandshakeTimestamp, stamper, lastRtt)
    }

    /** The precomputed keys are what the parameters say. */
    ghost predicate Valid()
      reads this
    {
      && staticPublic == Spec.StaticPublic(View().params)
      && staticShared == DiffieHellman(staticPrivate, peerStaticPublic)
      && sendingMac1Key == Spec.SendingMac1Key(View().params)
    }

    constructor (staticPrivate: nat, peerStaticPublic: Bytes, globalIdx: u32, presharedKey: Option<Bytes>,
                 stamper: Spec.TimeStamper)
      ensures Valid()
      ensures View() == Spec.New(Spec.Params(staticPrivate, peerStaticPublic, presharedKey), globalIdx, stamper)
    {
      this.staticPublic := PublicKey(staticPrivate);
      this.staticPrivate := staticPrivate;
      this.peerStaticPublic := peerStaticPublic;
      this.staticShared := DiffieHellman(staticPrivate, peerStaticPublic);
      this.sendingMac1Key := Hash(Noise.LABEL_MAC1, peerStaticPublic);
      this.presharedKey := presharedKey;
      this.nextIndex := globalIdx;
      this.previous, this.state := Spec.NoHandshake, Spec.NoHandshake;
      this.lastMac1, this.cookieIndex, this.writeCookie := None, 0, None;
      this.lastHandshakeTimestamp := Spec.ZERO_TIME;
      this.stamper := stamper;
      this.lastRtt := None;
    }

    method SetStaticPrivate(privateKey: nat, publicKey: Bytes)
      requires Valid() && publicKey == PublicKey(privateKey)
      modifies this
      ensures Valid() && View() == Spec.SetStaticPrivate(old(View()), privateKey)
    {
      staticPrivate := privateKey;
      staticPublic := publicKey;
      staticShared := DiffieHellman(privateKey, peerStaticPublic);
    }

    method SetExpired()
      requires Valid()
      modifies this
      ensures Valid() && View() == Spec.SetExpired(old(View()))
    {
      previous := Spec.Expired;
      state := Spec.Expired;
    }

    method ClearCookie()
      requires Valid()
      modifies this
      ensures Valid() && View() == Spec.ClearCookie(old(View()))
    {
      writeCookie := None;
    }

    method IncIndex() returns (index: u32)
      requires Valid()
      modifies this`nextIndex
      ensures Valid() && index == nextIndex == Spec.IncIndex(old(nextIndex))
    {
      var idx8 := nextIndex % 256;
      nextIndex := (nextIndex - idx8) + (idx8 + 1) % 256;
      index := nextIndex;
    }

    method AppendMac1AndMac2(localIndex: u32, msg: Bytes) returns (wire: Bytes)
      requires Valid()
      modifies this
      ensures Valid() && (View(), wire) == Spec.AppendMacs(old(View()), localIndex, msg)
    {
      hide Hash, Mac16;
      var msgMac1 := Mac16(sendingMac1Key, msg);
      wire := msg + msgMac1;
      var msgMac2 := Spec.Zeros(16);
      if writeCookie.Some? {
        msgMac2 := Mac16(writeCookie.value, wire);
      }
      wire := wire + msgMac2;
      cookieIndex := localIndex;
      lastMac1 := Some(msgMac1);
    }

    method FormatHandshakeInitiation(dstLen: nat, ephemeral: nat, now: nat) returns (r: Result<Bytes>)
      requires Valid()
      modifies this
      ensures Valid() && (View(), r) == Spec.FormatInitiation(old(View()), dstLen, ephemeral, now)
    {
      hide Hash, Hmac, Mac16, Seal, DiffieHellman, Spec.EncodeTimestamp, Spec.TimeOf, PublicKey, Encode,
           Spec.AppendMacs;
      if dstLen < HANDSHAKE_INIT_SZ {
        return Err(DestinationBufferTooSmall);
      }
      var localIndex := IncIndex();
      var chainingKey := Noise.INITIAL_CHAIN_KEY;
      var hash := Noise.INITIAL_CHAIN_HASH;
      hash := Hash(hash, peerStaticPublic);
      var unencryptedEphemeral := PublicKey(ephemeral);
      hash := Hash(hash, unencryptedEphemeral);
      chainingKey := Hmac(Hmac(chainingKey, unencryptedEphemeral), [Lit(1)]);
      var ephemeralShared := DiffieHellman(ephemeral, peerStaticPublic);
      var temp := Hmac(chainingKey, ephemeralShared);
      chainingKey := Hmac(temp, [Lit(1)]);
      var key := B2sHmac2(temp, chainingKey, [Lit(2)]);
      var encryptedStatic := Seal(key, CounterNonce(0), staticPublic, hash);
      hash := Hash(hash, encryptedStatic);
      temp := Hmac(chainingKey, staticShared);
      chainingKey := Hmac(temp, [Lit(1)]);
      key := B2sHmac2(temp, chainingKey, [Lit(2)]);
      var timestamp := Spec.EncodeTimestamp(Spec.TimeOf(stamper, now));
      var encryptedTimestamp := Seal(key, CounterNonce(0), timestamp, hash);
      hash := Hash(hash, encryptedTimestamp);
      previous := state;
      state := Spec.InitSent(localIndex, hash, chainingKey, ephemeral, now);
      var wire := AppendMac1AndMac2(localIndex,
        Encode(HandshakeInit(localIndex, unencryptedEphemeral, encryptedStatic, encryptedTimestamp)));
      return Ok(wire);
    }

    method FormatHandshakeResponse(dstLen: nat, ephemeral: nat) returns (r: Result<(Bytes, Session.Session)>)
      requires Valid() && state.InitReceived?
      modifies this
      ensures Valid() && (View(), r) == Spec.FormatResponse(old(View()), dstLen, ephemeral)
    {
      hide Hash, Hmac, Mac16, Seal, DiffieHellman, PublicKey, Encode, Spec.AppendMacs;
      if dstLen < HANDSHAKE_RESP_SZ {
        return Err(DestinationBufferTooSmall);
      }
      var received := state;
      state := Spec.NoHandshake;
      var chainingKey, hash := received.chainingKey, received.hash;
      var localIndex := IncIndex();
      var unencryptedEphemeral := PublicKey(ephemeral);
      hash := Hash(hash, unencryptedEphemeral);
      var temp := Hmac(chainingKey, unencryptedEphemeral);
      chainingKey := Hmac(temp, [Lit(1)]);
      var ephemeralShared := DiffieHellman(ephemeral, received.peerEphemeral);
      temp := Hmac(chainingKey, ephemeralShared);
      chainingKey := Hmac(temp, [Lit(1)]);
      temp := Hmac(chainingKey, DiffieHellman(ephemeral, peerStaticPublic));
      chainingKey := Hmac(temp, [Lit(1)]);
      temp := Hmac(chainingKey, if presharedKey.Some? then presharedKey.value else Spec.Zeros(32));
      chainingKey := Hmac(temp, [Lit(1)]);
      var temp2 := B2sHmac2(temp, chainingKey, [Lit(2)]);
      var key := B2sHmac2(temp, temp2, [Lit(3)]);
      hash := Hash(hash, temp2);
      var encryptedNothing := Seal(key, CounterNonce(0), [], hash);
      var temp1 := Hmac(chainingKey, []);
      temp2 := Hmac(temp1, [Lit(1)]);
      var temp3 := B2sHmac2(temp1, temp2, [Lit(2)]);
      var wire := AppendMac1AndMac2(localIndex,
        Encode(HandshakeResponse(localIndex, received.peerIndex, unencryptedEphemeral, encryptedNothing)));
      return Ok((wire, Session.New(localIndex, received.peerIndex, temp2, temp3)));
    }

    method ReceiveHandshakeInitialization(packet: Packet, dstLen: nat, ephemeral: nat)
      returns (r: Result<(Bytes, Session.Session)>)
      requires Valid() && packet.HandshakeInit?
      modifies this
      ensures Valid() && (View(), r) == Spec.ReceiveInitiation(old(View()), packet, dstLen, ephemeral)
    {
      hide Hash, Hmac, Open, DiffieHellman, PublicKey, Spec.ParseTimestamp, Spec.After, Spec.FormatResponse;
      var chainingKey := Noise.INITIAL_CHAIN_KEY;
      var hash := Noise.INITIAL_CHAIN_HASH;
      hash := Hash(hash, staticPublic);
      hash := Hash(hash, packet.ephemeral);
      chainingKey := Hmac(Hmac(chainingKey, packet.ephemeral), [Lit(1)]);
      var ephemeralShared := DiffieHellman(staticPrivate, packet.ephemeral);
      var temp := Hmac(chainingKey, ephemeralShared);
      chainingKey := Hmac(temp, [Lit(1)]);
      var key := B2sHmac2(temp, chainingKey, [Lit(2)]);
      var peerStaticDecrypted := Open(key, CounterNonce(0), packet.encryptedStatic, hash);
      if peerStaticDecrypted.None? {
        return Err(InvalidAeadTag);
      }
      if peerStaticPublic != peerStaticDecrypted.value {
        return Err(WrongKey);
      }
      hash := Hash(hash, packet.encryptedStatic);
      temp := Hmac(chainingKey, staticShared);
      chainingKey := Hmac(temp, [Lit(1)]);
      key := B2sHmac2(temp, chainingKey, [Lit(2)]);
      var stamp := Open(key, CounterNonce(0), packet.encryptedTimestamp, hash);
      if stamp.None? {
        return Err(InvalidAeadTag);
      }
      var timestamp := Spec.ParseTimestamp(stamp.value);
      if timestamp.Err? {
        return Err(timestamp.error);
      }
      if !Spec.After(timestamp.value, lastHandshakeTimestamp) {
        return Err(WrongTai64nTimestamp);
      }
      lastHandshakeTimestamp := timestamp.value;
      hash := Hash(hash, packet.encryptedTimestamp);
      previous := state;
      state := Spec.InitReceived(hash, chainingKey, packet.ephemeral, packet.senderIdx);
      r := FormatHandshakeResponse(dstLen, ephemeral);
    }

    method ReceiveHandshakeResponse(packet: Packet, now: nat) returns (r: Result<Session.Session>)
      requires Valid() && packet.HandshakeResponse?
      modifies this
      ensures Valid() && (View(), r) == Spec.ReceiveResponse(old(View()), packet, now)
    {
      hide Hash, Hmac, Open, DiffieHellman, PublicKey;
      var sent, isPrevious;
      if state.InitSent? && state.localIndex == packet.receiverIdx {
        sent, isPrevious := state, false;
      } else if previous.InitSent? && previous.localIndex == packet.receiverIdx {
        sent, isPrevious := previous, true;
      } else {
        return Err(UnexpectedPacket);
      }
      var hash := Hash(sent.hash, packet.ephemeral);
      var temp := Hmac(sent.chainingKey, packet.ephemeral);
      var chainingKey := Hmac(temp, [Lit(1)]);
      var ephemeralShared := DiffieHellman(sent.ephemeralPrivate, packet.ephemeral);
      temp := Hmac(chainingKey, ephemeralShared);
      chainingKey := Hmac(temp, [Lit(1)]);
      temp := Hmac(chainingKey, DiffieHellman(staticPrivate, packet.ephemeral));
      chainingKey := Hmac(temp, [Lit(1)]);
      temp := Hmac(chainingKey, if presharedKey.Some? then presharedKey.value else Spec.Zeros(32));
      chainingKey := Hmac(temp, [Lit(1)]);
      var temp2 := B2sHmac2(temp, chainingKey, [Lit(2)]);
      var key := B2sHmac2(temp, temp2, [Lit(3)]);
      hash := Hash(hash, temp2);
      var nothing := Open(key, CounterNonce(0), packet.encryptedNothing, hash);
      if nothing.None? {
        return Err(InvalidAeadTag);
      }
      var temp1 := Hmac(chainingKey, []);
      temp2 := Hmac(temp1, [Lit(1)]);
      var temp3 := B2sHmac2(temp1, temp2, [Lit(2)]);
      lastRtt := Some(Spec.Since(now, sent.timeSent) / 1_000_000 % U32_SIZE);
      if isPrevious {
        previous := Spec.NoHandshake;
      } else {
        state := Spec.NoHandshake;
      }
      return Ok(Session.New(sent.localIndex, packet.senderIdx, temp3, temp2));
    }

    method ReceiveCookieReply(packet: Packet) returns (r: Result<Unit>)
      requires Valid() && packet.PacketCookieReply?
      modifies this
      ensures Valid() && (View(), r) == Spec.ReceiveCookieReply(old(View()), packet)
    {
      hide Hash, XOpen;
      if lastMac1.None? {
        return Err(UnexpectedPacket);
      }
      if packet.receiverIdx != cookieIndex {
        return Err(WrongIndex);
      }
      var key := Hash(Noise.LABEL_COOKIE, peerStaticPublic);
      var plaintext := XOpen(key, packet.nonce, packet.encryptedCookie, lastMac1.value);
      if plaintext.None? {
        return Err(InvalidAeadTag);
      }
      if |plaintext.value| != 16 {
        return Err(InvalidPacket);
      }
      writeCookie := Some(plaintext.value);
      return Ok(Unit);
    }
  }
}
