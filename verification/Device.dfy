/** The device: its peers, found by public key, by index and by address. */
module Device {
  import opened Wrappers
  import opened ByteStrings
  import opened Crypto
  import opened Wire
  import opened AllowedIps
  import opened TunnelSpec
  import opened TunnelInvariants
  import opened TunnelFlush
  import opened PeerUpdates
  import Lfsr = IndexLfsr
  import LfsrSpec
  import Routing
  import Signals = SignalPackets
  import H = HandshakeSpec
  import HP = HandshakeProofs

  /** A peer with its own list of networks; its identity is that of the object. */
  class Peer {
    const publicKey: Bytes
    const index: nat
    const allowedIps: map<Network, ()>
    var tunnel: Tunnel

    constructor (publicKey: Bytes, index: nat, allowed: seq<(Addr, nat)>, tunnel: Tunnel)
      requires forall k | 0 <= k < |allowed| :: allowed[k].1 <= Width(allowed[k].0)
      ensures this.publicKey == publicKey && this.index == index && this.tunnel == tunnel
      ensures allowedIps == InsertAll(map[], allowed, ())
    {
      this.publicKey, this.index, this.tunnel := publicKey, index, tunnel;
      allowedIps := InsertAll(map[], allowed, ());
    }

    method IsAllowedIp(a: Addr) returns (b: bool)
      ensures b <==> exists n :: n in allowedIps && Contains(n, a)
    {
      b := Find(allowedIps, a, Width(a)).Some?;
      AllowedIff(allowedIps, a);
    }
  }

  lemma AllowedIff(table: map<Network, ()>, a: Addr)
    ensures Find(table, a, Width(a)).Some? <==> exists n :: n in table && Contains(n, a)
  {
    hide Find, Contains;
    FindsNothingIff(table, a);
  }

  /** The source address of a packet that the tunnel passes on. */
  function SourceOf(r: TunnResult): Option<Addr> {
    if r.WriteToTunnelV4? && Values(r.source).Some? then Some(V4(FromBe(Values(r.source).value)))
    else if r.WriteToTunnelV6? && Values(r.source).Some? then Some(V6(FromBe(Values(r.source).value)))
    else None
  }

  /** The source filter reads the octets of the header in their order. */
  lemma SourceBegins(r: TunnResult, octets: seq<u8>, base: seq<u8>, k: nat)
    requires (r.WriteToTunnelV4? && |octets| == 4) || (r.WriteToTunnelV6? && |octets| == 16)
    requires r.source == Lits(octets) && k <= |base| == |octets|
    ensures var b := if |base| == 4 then V4(FromBe(base)) else V6(FromBe(base));
            && SourceOf(r).Some?
            && (Contains(NetworkOf(b, 8 * k), SourceOf(r).value) <==> octets[..k] == base[..k])
  {
    ValuesOfLits(octets);
    ContainsOctets(base, k, octets);
    hide Contains, NetworkOf, FromBe;
  }

  /** Payment signals do not go to the interface, and are not filtered. */
  predicate IsSignal(r: TunnResult) {
    r.WriteToTunnelV4? && Values(r.packet).Some? && Signals.IsPaymentSignal(Values(r.packet).value)
  }

  /** What the tunnel of a peer must satisfy to be found by what is addressed to it. */
  ghost predicate TunnelFits(t: Tunnel, publicKey: Bytes, index: nat, key: Option<nat>) {
    && StructureOk(t, index)
    && t.handshake.params.peerStaticPublic == publicKey
    && key == Some(t.handshake.params.staticPrivate)
  }

  /** A new tunnel: it has the keys and the keepalive it was given, and has done nothing yet. */
  ghost predicate Configured(t: Tunnel, params: H.Params, keepalive: Option<nat>, stamper: H.TimeStamper, now: nat) {
    && t.handshake.params == params && t.handshake.stamper == stamper
    && t.timers.persistentKeepalive == (if keepalive.Some? then keepalive.value else 0)
    && t.sessions == NO_SESSIONS && t.queue == [] && t.txBytes == t.rxBytes == 0
    && t.handshake.state.NoHandshake? && t.handshake.previous.NoHandshake?
    && t.handshake.lastTimestamp == H.ZERO_TIME && t.handshake.cookies.writeCookie.None?
    && TimersOk(t, now)
  }

  /** The three maps agree: by key and by index they hold the same peers, each once, and addresses
      lead only to them. */
  ghost predicate Agree(peers: map<Bytes, Peer>, byIdx: map<nat, Peer>, byIp: map<Network, Peer>) {
    && (forall k | k in peers ::
          && peers[k].publicKey == k && peers[k].index in byIdx
          && byIdx[peers[k].index] == peers[k])
    && (forall i | i in byIdx ::
          && byIdx[i].index == i && byIdx[i].publicKey in peers
          && peers[byIdx[i].publicKey] == byIdx[i])
    && (forall n | n in byIp :: byIp[n] in byIdx.Values)
  }

  lemma AddAgrees(peers: map<Bytes, Peer>, byIdx: map<nat, Peer>, byIp: map<Network, Peer>, peer: Peer)
    requires Agree(peers, byIdx, byIp) && peer.publicKey !in peers && peer.index !in byIdx
    ensures Agree(peers[peer.publicKey := peer], byIdx[peer.index := peer], byIp)
    ensures peer in byIdx[peer.index := peer].Values
  {
    IndexKeepsValues(byIdx, peer.index, peer);
  }

  lemma InsertAgrees(peers: map<Bytes, Peer>, byIdx: map<nat, Peer>, byIp: map<Network, Peer>, n: Network, peer: Peer)
    requires Agree(peers, byIdx, byIp) && peer in byIdx.Values
    ensures Agree(peers, byIdx, byIp[n := peer])
  {
  }

  lemma KeysDiffer(peers: map<Bytes, Peer>, byIdx: map<nat, Peer>, byIp: map<Network, Peer>)
    requires Agree(peers, byIdx, byIp)
    ensures forall k | k in peers :: peers[k].publicKey == k
  {
  }

  function Others(byIp: map<Network, Peer>, peer: Peer): map<Network, Peer> {
    map n | n in byIp && byIp[n] != peer :: byIp[n]
  }

  lemma RemoveAgrees(peers: map<Bytes, Peer>, byIdx: map<nat, Peer>, byIp: map<Network, Peer>, key: Bytes)
    requires Agree(peers, byIdx, byIp) && key in peers
    ensures Agree(peers - {key}, byIdx - {peers[key].index}, Others(byIp, peers[key]))
  {
    var peer := peers[key];
    forall n | n in Others(byIp, peer)
      ensures byIp[n] in (byIdx - {peer.index}).Values
    {
      var i :| i in byIdx && byIdx[i] == byIp[n];
      assert i in byIdx - {peer.index};
      assert (byIdx - {peer.index})[i] == byIp[n];
    }
  }

  ghost function TableOf(peers: map<Bytes, Peer>, byIp: map<Network, Peer>): Routing.Table {
    Routing.Table(map k | k in peers :: peers[k].allowedIps.Keys, map n | n in byIp :: byIp[n].publicKey)
  }

  lemma TableWithout(peers: map<Bytes, Peer>, byIdx: map<nat, Peer>, byIp: map<Network, Peer>, key: Bytes)
    requires Agree(peers, byIdx, byIp)
    ensures key in peers ==>
              TableOf(peers - {key}, Others(byIp, peers[key]))
                  == Routing.Apply(TableOf(peers, byIp), Routing.Remove(key))
    ensures key !in peers ==> TableOf(peers, byIp) == Routing.Apply(TableOf(peers, byIp), Routing.Remove(key))
  {
    var t := Routing.Apply(TableOf(peers, byIp), Routing.Remove(key));
    if key in peers {
      var u := TableOf(peers - {key}, Others(byIp, peers[key]));
      assert forall n | n in byIp :: byIp[n] == peers[byIp[n].publicKey];
      assert u.routes == t.routes && u.allowed == t.allowed;
    } else {
      assert TableOf(peers, byIp).routes == t.routes && TableOf(peers, byIp).allowed == t.allowed;
    }
  }

  lemma TableWith(peers: map<Bytes, Peer>, byIp: map<Network, Peer>, allowed: seq<(Addr, nat)>, peer: Peer)
    requires forall k | 0 <= k < |allowed| :: allowed[k].1 <= Width(allowed[k].0)
    requires peer.publicKey !in peers && peer.allowedIps == InsertAll(map[], allowed, ())
    ensures TableOf(peers[peer.publicKey := peer], InsertAll(byIp, allowed, peer))
         == Routing.Apply(TableOf(peers, byIp), Routing.Add(peer.publicKey, Networks(allowed)))
  {
    AddedRoutes(byIp, allowed, peer);
    AddedNetworks(allowed);
    hide InsertAll, Networks;
    RoutesWith(byIp, InsertAll(byIp, allowed, peer), Networks(allowed), peer);
    AllowedWith(peers, peers[peer.publicKey := peer], peer);
  }

  lemma RoutesWith(byIp: map<Network, Peer>, more: map<Network, Peer>, networks: set<Network>, peer: Peer)
    requires more == byIp + map n | n in networks :: peer
    ensures (map n | n in more :: more[n].publicKey)
         == (map n | n in byIp :: byIp[n].publicKey) + map n | n in networks :: peer.publicKey
  {
  }

  lemma AllowedWith(peers: map<Bytes, Peer>, more: map<Bytes, Peer>, peer: Peer)
    requires peer.publicKey !in peers && more == peers[peer.publicKey := peer]
    ensures (map k | k in more :: more[k].allowedIps.Keys)
         == (map k | k in peers :: peers[k].allowedIps.Keys)[peer.publicKey := peer.allowedIps.Keys]
  {
  }

  class Device {
    var keyPair: Option<nat>
    var peers: map<Bytes, Peer>
    var peersByIdx: map<nat, Peer>
    var peersByIp: map<Network, Peer>
    const nextIndex: Lfsr.IndexLfsr

    ghost function Content(): Content
      reads this, nextIndex
    {
      PeerUpdates.Content(peers.Keys, keyPair.Some?, nextIndex.calls)
    }

    /** Each peer's own networks, and the table for all. */
    ghost function Table(): Routing.Table
      reads this
    {
      TableOf(peers, peersByIp)
    }

    ghost predicate MapsAgree()
      reads this
    {
      Agree(peers, peersByIdx, peersByIp)
    }

    ghost predicate TunnelsFit()
      reads this, peers.Values
    {
      forall k | k in peers :: TunnelFits(peers[k].tunnel, k, peers[k].index, keyPair)
    }

    ghost predicate Valid()
      reads this, nextIndex, peers.Values
    {
      MapsAgree() && TunnelsFit() && nextIndex.Valid() && peersByIdx.Keys <= nextIndex.Issued()
    }

    constructor (seed: bv32, mask: bv32)
      requires LfsrSpec.InRange(seed) && LfsrSpec.InRange(mask)
      ensures Valid() && fresh(nextIndex) && peers == map[] && keyPair.None? && Table() == Routing.EMPTY
    {
      keyPair, peers, peersByIdx, peersByIp := None, map[], map[], map[];
      nextIndex := new Lfsr.IndexLfsr(seed, mask);
    }

    /** Removes every reference to a peer. */
    method RemovePeer(key: Bytes)
      requires Valid()
      modifies this
      ensures Valid() && keyPair == old(keyPair)
      ensures peers == old(peers) - {key} && Table() == Routing.Apply(old(Table()), Routing.Remove(key))
      ensures key !in old(peers) ==> peersByIdx == old(peersByIdx) && peersByIp == old(peersByIp)
      ensures key in old(peers) ==>
                && peersByIdx == old(peersByIdx) - {old(peers[key]).index}
                && peersByIp == Others(old(peersByIp), old(peers)[key])
    {
      hide Agree, TunnelFits, TableOf;
      TableWithout(peers, peersByIdx, peersByIp, key);
      if key in peers {
        RemoveAgrees(peers, peersByIdx, peersByIp, key);
        var peer := peers[key];
        peers := peers - {key};
        peersByIdx := peersByIdx - {peer.index};
        peersByIp := map n | n in peersByIp && peersByIp[n] != peer :: peersByIp[n];
      }
    }

    method UpdatePeer(key: Bytes, remove: bool, allowed: seq<(Addr, nat)>, keepalive: Option<nat>,
                      presharedKey: Option<Bytes>, stamper: H.TimeStamper, now: nat) returns (outcome: Outcome)
      requires Valid()
      requires forall k | 0 <= k < |allowed| :: allowed[k].1 <= Width(allowed[k].0)
      modifies this, nextIndex
      ensures outcome != TooManyPeers ==> Valid()
      ensures MapsAgree() && keyPair == old(keyPair)
      ensures (Content(), outcome) == Update(old(Content()), key, remove)
      ensures outcome == Added ==>
                && key in peers && fresh(peers[key]) && peers == old(peers)[key := peers[key]]
                && peers[key].index !in old(peersByIdx)
                && peersByIdx == old(peersByIdx)[peers[key].index := peers[key]]
                && peersByIp == InsertAll(old(peersByIp), allowed, peers[key])
                && Configured(peers[key].tunnel, H.Params(keyPair.value, key, presharedKey), keepalive, stamper, now)
                && peers[key].allowedIps.Keys == Networks(allowed)
                && Table() == Routing.Apply(old(Table()), Routing.Add(key, Networks(allowed)))
      ensures outcome == PeerRemoved ==>
                && peers == old(peers) - {key}
                && Table() == Routing.Apply(old(Table()), Routing.Remove(key))
      ensures Panics(outcome) ==>
                peers == old(peers) && peersByIdx == old(peersByIdx) && peersByIp == old(peersByIp)
    {
      hide Agree, TunnelFits, Configured, New, LfsrSpec.InRange, LfsrSpec.Output, TableOf, InsertAll, Networks;
      if remove {
        RemovePeer(key);
        assert peers.Keys == old(peers).Keys - {key};
        return PeerRemoved;
      }
      if key in peers {
        return PeerExists;
      }
      var index := nextIndex.Next();
      if index.None? {
        return TooManyPeers;
      }
      if keyPair.None? {
        return NoKey;
      }
      var params := H.Params(keyPair.value, key, presharedKey);
      var tunnel := New(params, index.value, stamper, keepalive, now);
      NewFits(params, index.value, stamper, keepalive, now);
      NewIsConfigured(params, index.value, stamper, keepalive, now);
      var peer := new Peer(key, index.value, allowed, tunnel);
      AddedNetworks(allowed);
      AddPeer(peer, allowed);
      assert peers.Keys == old(peers).Keys + {key};
      outcome := Added;
    }

    /** Enters a new peer into the three maps. */
    method AddPeer(peer: Peer, allowed: seq<(Addr, nat)>)
      requires MapsAgree() && peer.publicKey !in peers && peer.index !in peersByIdx
      requires forall k | 0 <= k < |allowed| :: allowed[k].1 <= Width(allowed[k].0)
      requires peer.allowedIps == InsertAll(map[], allowed, ())
      modifies this
      ensures MapsAgree() && keyPair == old(keyPair)
      ensures peers == old(peers)[peer.publicKey := peer]
      ensures peersByIdx == old(peersByIdx)[peer.index := peer]
      ensures peersByIp == InsertAll(old(peersByIp), allowed, peer)
      ensures Table() == Routing.Apply(old(Table()), Routing.Add(peer.publicKey, Networks(allowed)))
    {
      hide Agree, TableOf, Networks;
      TableWith(peers, peersByIp, allowed, peer);
      AddAgrees(peers, peersByIdx, peersByIp, peer);
      peers := peers[peer.publicKey := peer];
      peersByIdx := peersByIdx[peer.index := peer];
      var i := 0;
      assert allowed[..0] == [];
      while i < |allowed|
        invariant i <= |allowed|
        invariant peersByIp == InsertAll(old(peersByIp), allowed[..i], peer)
        invariant MapsAgree()
        modifies this`peersByIp
      {
        InsertAgrees(peers, peersByIdx, peersByIp, NetworkOf(allowed[i].0, allowed[i].1), peer);
        assert allowed[..i + 1][..i] == allowed[..i];
        peersByIp := peersByIp[NetworkOf(allowed[i].0, allowed[i].1) := peer];
        i := i + 1;
      }
      assert allowed[..i] == allowed;
    }

    method ClearPeers()
      requires Valid()
      modifies this
      ensures Valid() && peers == map[] && peersByIdx == map[] && peersByIp == map[] && keyPair == old(keyPair)
      ensures Table() == Routing.Apply(old(Table()), Routing.Clear)
    {
      peers, peersByIdx, peersByIp := map[], map[], map[];
    }

    /** Which peer a verified packet is for: an initiation names its sender's key, everything else
        carries the receiver's index. */
    method Dispatch(p: Packet) returns (peer: Option<Peer>)
      requires keyPair.Some?
      ensures peer == Target(p)
    {
      match p
      case HandshakeInit(_, _, _, _) =>
        var half := H.ParseAnon(keyPair.value, p);
        if half.Ok? && half.value.peerStaticPublic in peers {
          return Some(peers[half.value.peerStaticPublic]);
        }
        return None;
      case HandshakeResponse(_, receiverIdx, _, _) => peer := ByIndex(receiverIdx / 256);
      case PacketCookieReply(receiverIdx, _, _) => peer := ByIndex(receiverIdx / 256);
      case PacketData(receiverIdx, _, _) => peer := ByIndex(receiverIdx / 256);
    }

    method ByIndex(index: nat) returns (peer: Option<Peer>)
      ensures peer == if index in peersByIdx then Some(peersByIdx[index]) else None
    {
      if index in peersByIdx {
        return Some(peersByIdx[index]);
      }
      return None;
    }

    /** The peer a packet from the tunnel interface goes to, by its destination address: the one whose
        network matches longest, and never a removed one. */
    method RouteTo(a: Addr) returns (peer: Option<Peer>)
      requires Valid()
      ensures peer == Find(peersByIp, a, Width(a))
      ensures peer.Some? ==> peer.value.publicKey in peers && peers[peer.value.publicKey] == peer.value
      ensures peer.Some? ==> exists n :: LongestMatch(peersByIp, a, n) && peersByIp[n] == peer.value
      ensures peer.None? <==> forall n | n in peersByIp :: !Contains(n, a)
    {
      hide Find, Contains, TunnelFits;
      peer := Find(peersByIp, a, Width(a));
      ghost var found := peer;
      if found.Some? {
        FindIsLongestMatch(peersByIp, a, found.value);
      } else {
        FindsNothingIff(peersByIp, a);
      }
    }

    ghost function Target(p: Packet): Option<Peer>
      requires keyPair.Some?
      reads this
    {
      if p.HandshakeInit? then
        match H.ParseAnon(keyPair.value, p)
        case Ok(half) => if half.peerStaticPublic in peers then Some(peers[half.peerStaticPublic]) else None
        case Err(_) => None
      else if p.receiverIdx / 256 in peersByIdx then Some(peersByIdx[p.receiverIdx / 256]) else None
    }

    /** A new private key reaches every peer's tunnel; the same key again changes nothing. */
    method SetKey(privateKey: nat)
      requires Valid()
      modifies this`keyPair, peers.Values
      ensures Valid() && keyPair == Some(privateKey)
      ensures forall k | k in peers :: peers[k].tunnel
                == if old(keyPair) == Some(privateKey) then old(peers[k].tunnel)
                    else SetStaticPrivate(old(peers[k].tunnel), privateKey)
    {
      hide TunnelFits, SetStaticPrivate, Agree;
      KeysDiffer(peers, peersByIdx, peersByIp);
      if keyPair == Some(privateKey) {
        return;
      }
      var left := peers.Keys;
      while left != {}
        invariant left <= peers.Keys
        invariant forall k | k in peers :: peers[k].tunnel
                    == if k in left then old(peers[k].tunnel) else SetStaticPrivate(old(peers[k].tunnel), privateKey)
        modifies peers.Values
        decreases |left|
      {
        var key :| key in left;
        left := left - {key};
        var peer := peers[key];
        peer.tunnel := SetStaticPrivate(peer.tunnel, privateKey);
      }
      forall k | k in peers
        ensures TunnelFits(peers[k].tunnel, k, peers[k].index, Some(privateKey))
      {
        RekeyKeepsFit(old(peers[k].tunnel), k, peers[k].index, old(keyPair), privateKey);
      }
      keyPair := Some(privateKey);
    }

    /** A packet from the network that passed the rate limiter: find its peer, let the tunnel handle
        it, and flush the queue if the tunnel answered. What the tunnel passes on is delivered to the
        interface if its source address is one of the peer's own. */
    method HandlePacket(p: Packet, i: Input, inputs: nat -> Input)
      returns (sent: seq<Bytes>, result: TunnResult, delivered: Option<Bytes>)
      requires Valid() && keyPair.Some? && InputOk(i) && forall k: nat :: InputOk(inputs(k))
      modifies peers.Values
      ensures Valid()
      ensures Target(p).None? ==>
                && sent == [] && result == Done && delivered.None?
                && forall k | k in peers :: peers[k].tunnel == old(peers[k].tunnel)
      ensures delivered.Some? <==> Target(p).Some? && Delivers(Target(p).value, result)
      ensures delivered.Some? ==> delivered.value == result.packet
      ensures Target(p).Some? ==>
                var peer := Target(p).value;
                && Handled(old(peer.tunnel), peer.tunnel, p, i, inputs, sent, result)
                && forall k | k in peers && peers[k] != peer :: peers[k].tunnel == old(peers[k].tunnel)
    {
      hide TunnelFits, Handled, InputOk, Agree, H.ParseAnon, Delivers;
      KeysDiffer(peers, peersByIdx, peersByIp);
      sent, result, delivered := [], Done, None;
      var target := Dispatch(p);
      if target.None? {
        return;
      }
      TargetFits(this, p);
      sent, result := HandleFor(target.value, p, i, inputs, keyPair);
      delivered := Filter(target.value, result);
    }

    /** The tunnel handles the packet, and if it answers, the queue is flushed after the answer. */
    method HandleFor(peer: Peer, p: Packet, i: Input, inputs: nat -> Input, ghost key: Option<nat>)
      returns (sent: seq<Bytes>, result: TunnResult)
      requires TunnelFits(peer.tunnel, peer.publicKey, peer.index, key)
      requires InputOk(i) && forall k: nat :: InputOk(inputs(k))
      modifies peer
      ensures TunnelFits(peer.tunnel, peer.publicKey, peer.index, key)
      ensures Handled(old(peer.tunnel), peer.tunnel, p, i, inputs, sent, result)
    {
      hide TunnelFits, HandleVerifiedPacket, FlushAll, CallsLeft, InputOk, QueueOk;
      ghost var t := peer.tunnel;
      sent := [];
      var (u, r) := HandleVerifiedPacket(peer.tunnel, p, i);
      assert u == Step(t, Receive(p, i)).0;
      StepKeepsFit(t, Receive(p, i), peer.publicKey, peer.index, key);
      FitsQueue(u, peer.publicKey, peer.index, key);
      peer.tunnel := u;
      result := r;
      if r.WriteToNetwork? {
        var flushed := Flush(peer, inputs);
        FlushAllKeepsFit(u, FirstInputs(inputs, |flushed| + 1), peer.publicKey, peer.index, key);
        sent := [r.wire] + flushed;
        assert sent[1..] == flushed;
      }
    }

    method Filter(peer: Peer, r: TunnResult) returns (delivered: Option<Bytes>)
      ensures delivered.Some? <==> Delivers(peer, r)
      ensures delivered.Some? ==> delivered.value == r.packet
    {
      hide IsSignal, SourceOf, Contains;
      delivered := None;
      if (r.WriteToTunnelV4? || r.WriteToTunnelV6?) && !IsSignal(r) && SourceOf(r).Some? {
        var allowed := peer.IsAllowedIp(SourceOf(r).value);
        if allowed {
          delivered := Some(r.packet);
        }
      }
    }

    /** The flush loop after a handled packet; `inputs` are what its calls read. It ends after exactly
        the calls that are left, and has then done what FlushAll does. */
    method Flush(peer: Peer, inputs: nat -> Input) returns (sent: seq<Bytes>)
      requires QueueOk(peer.tunnel) && forall k: nat :: InputOk(inputs(k))
      modifies peer
      ensures |sent| == CallsLeft(old(peer.tunnel))
      ensures (peer.tunnel, sent, true) == FlushAll(old(peer.tunnel), FirstInputs(inputs, |sent| + 1))
    {
      hide SendQueuedPacket, QueueOk, InputOk, CallsLeft;
      sent := [];
      ghost var t := peer.tunnel;
      ghost var all := FirstInputs(inputs, CallsLeft(t) + 1);
      CallCountsDown(t, inputs(0));
      OneMoreCall(sent, t, all);
      assert all[0] == inputs(0) && sent + FlushAll(t, all).1 == FlushAll(t, all).1;
      var (u, r) := SendQueuedPacket(peer.tunnel, inputs(0));
      peer.tunnel := u;
      while r.WriteToNetwork?
        invariant QueueOk(peer.tunnel)
        invariant |sent| + (if r.WriteToNetwork? then CallsLeft(peer.tunnel) + 1 else 0) == CallsLeft(t)
        invariant FlushAll(t, all) == Continue(sent, peer.tunnel, r, all[|sent| + 1..])
        modifies peer
        decreases if r.WriteToNetwork? then CallsLeft(peer.tunnel) + 1 else 0
      {
        sent := sent + [r.wire];
        CallCountsDown(peer.tunnel, inputs(|sent|));
        OneMoreCall(sent, peer.tunnel, all[|sent|..]);
        assert all[|sent|..][0] == inputs(|sent|) && all[|sent|..][1..] == all[|sent| + 1..];
        var next := SendQueuedPacket(peer.tunnel, inputs(|sent|));
        peer.tunnel, r := next.0, next.1;
      }
    }
  }

  function Networks(allowed: seq<(Addr, nat)>): set<Network>
    requires forall k | 0 <= k < |allowed| :: allowed[k].1 <= Width(allowed[k].0)
  {
    set k | 0 <= k < |allowed| :: NetworkOf(allowed[k].0, allowed[k].1)
  }

  lemma OneMoreNetwork(allowed: seq<(Addr, nat)>)
    requires allowed != [] && forall k | 0 <= k < |allowed| :: allowed[k].1 <= Width(allowed[k].0)
    ensures var last := |allowed| - 1;
            Networks(allowed) == Networks(allowed[..last]) + {NetworkOf(allowed[last].0, allowed[last].1)}
  {
    hide NetworkOf;
    var last := |allowed| - 1;
    assert allowed == allowed[..last] + [allowed[last]];
  }

  lemma {:induction false} AddedRoutes(byIp: map<Network, Peer>, allowed: seq<(Addr, nat)>, peer: Peer)
    requires forall k | 0 <= k < |allowed| :: allowed[k].1 <= Width(allowed[k].0)
    ensures InsertAll(byIp, allowed, peer) == byIp + map n | n in Networks(allowed) :: peer
  {
    hide NetworkOf;
    if allowed != [] {
      AddedRoutes(byIp, allowed[..|allowed| - 1], peer);
      OneMoreNetwork(allowed);
    }
  }

  lemma {:induction false} AddedNetworks(allowed: seq<(Addr, nat)>)
    requires forall k | 0 <= k < |allowed| :: allowed[k].1 <= Width(allowed[k].0)
    ensures InsertAll(map[], allowed, ()).Keys == Networks(allowed)
  {
    hide NetworkOf;
    if allowed != [] {
      AddedNetworks(allowed[..|allowed| - 1]);
      OneMoreNetwork(allowed);
    }
  }

  function FirstInputs(inputs: nat -> Input, n: nat): (s: seq<Input>)
    ensures |s| == n
  {
    seq(n, k requires 0 <= k < n => inputs(k))
  }

  /** A handled packet: the tunnel's result and, if that is an answer, the answer and the whole queue. */
  ghost predicate Handled(t: Tunnel, v: Tunnel, p: Packet, i: Input, inputs: nat -> Input, sent: seq<Bytes>,
                          result: TunnResult) {
    var (u, r) := HandleVerifiedPacket(t, p, i);
    && result == r
    && if r.WriteToNetwork?
       then && |sent| == 1 + CallsLeft(u) && sent[0] == r.wire
            && (v, sent[1..], true) == FlushAll(u, FirstInputs(inputs, |sent|))
       else v == u && sent == []
  }

  /** The flush loop in the middle: what was sent, the last result, and the calls to come. */
  ghost function Continue(sent: seq<Bytes>, t: Tunnel, r: TunnResult, rest: seq<Input>): (Tunnel, seq<Bytes>, bool) {
    if r.WriteToNetwork? then
      var (u, wires, ended) := FlushAll(t, rest);
      (u, sent + [r.wire] + wires, ended)
    else (t, sent, true)
  }

  lemma OneMoreCall(sent: seq<Bytes>, t: Tunnel, rest: seq<Input>)
    requires rest != []
    ensures var (u, r) := SendQueuedPacket(t, rest[0]);
            var (v, wires, ended) := FlushAll(t, rest);
            (v, sent + wires, ended) == Continue(sent, u, r, rest[1..])
  {
    hide SendQueuedPacket, FlushAll;
    FlushOnce(t, rest);
    var (u, r) := SendQueuedPacket(t, rest[0]);
    if r.WriteToNetwork? {
      var wires := FlushAll(u, rest[1..]).1;
      assert sent + ([r.wire] + wires) == sent + [r.wire] + wires;
    } else {
      assert sent + [] == sent;
    }
  }

  lemma IndexKeepsValues(byIdx: map<nat, Peer>, index: nat, peer: Peer)
    requires index !in byIdx
    ensures byIdx.Values <= byIdx[index := peer].Values && peer in byIdx[index := peer].Values
  {
    var more := byIdx[index := peer];
    assert more[index] == peer;
    forall p | p in byIdx.Values
      ensures p in more.Values
    {
      var i :| i in byIdx && byIdx[i] == p;
      assert more[i] == p;
    }
  }

  lemma NewFits(params: H.Params, index: nat, stamper: H.TimeStamper, keepalive: Option<nat>, now: nat)
    requires index < 0x100_0000
    ensures TunnelFits(New(params, index, stamper, keepalive, now), params.peerStaticPublic, index,
                       Some(params.staticPrivate))
  {
  }

  lemma NewIsConfigured(params: H.Params, index: nat, stamper: H.TimeStamper, keepalive: Option<nat>, now: nat)
    requires index < 0x100_0000
    ensures Configured(New(params, index, stamper, keepalive, now), params, keepalive, stamper, now)
  {
  }

  // Routing

  /** What the tunnel of a peer passes on reaches the interface. */
  ghost predicate Delivers(peer: Peer, r: TunnResult) {
    && (r.WriteToTunnelV4? || r.WriteToTunnelV6?) && !IsSignal(r)
    && SourceOf(r).Some? && exists n :: n in peer.allowedIps && Contains(n, SourceOf(r).value)
  }

  /** The filter lets through exactly what the peer may send by the device's table. */
  lemma DeliversIff(d: Device, key: Bytes, r: TunnResult)
    requires key in d.peers
    ensures Delivers(d.peers[key], r)
       <==> && (r.WriteToTunnelV4? || r.WriteToTunnelV6?) && !IsSignal(r)
            && SourceOf(r).Some? && Routing.MaySend(d.Table(), key, SourceOf(r).value)
  {
    hide IsSignal, SourceOf, Contains;
    assert d.Table().allowed[key] == d.peers[key].allowedIps.Keys;
  }

  /** In every valid device, what names the index of a session in a peer's ring, or of a handshake it
      has under way, or of its last message for a cookie, reaches that peer. */
  lemma DispatchReachesOwner(d: Device, key: Bytes, p: Packet)
    requires d.Valid() && d.keyPair.Some? && key in d.peers && !p.HandshakeInit?
    requires var t := d.peers[key].tunnel;
             || (exists k :: 0 <= k < 8 && t.sessions[k].Some? && t.sessions[k].value.localIndex == p.receiverIdx)
             || H.Awaits(t.handshake.state, p.receiverIdx) || H.Awaits(t.handshake.previous, p.receiverIdx)
             || (t.handshake.cookies.lastMac1.Some? && t.handshake.cookies.index == p.receiverIdx)
    ensures d.Target(p) == Some(d.peers[key])
  {
    assert TunnelFits(d.peers[key].tunnel, key, d.peers[key].index, d.keyPair);
  }

  /** Sessions of different peers never share an index. */
  lemma SessionIndexesAreDistinct(d: Device, a: Bytes, b: Bytes, j: nat, k: nat)
    requires d.Valid() && a in d.peers && b in d.peers && j < 8 && k < 8
    requires d.peers[a].tunnel.sessions[j].Some? && d.peers[b].tunnel.sessions[k].Some?
    requires d.peers[a].tunnel.sessions[j].value.localIndex == d.peers[b].tunnel.sessions[k].value.localIndex
    ensures a == b && j == k
  {
    assert TunnelFits(d.peers[a].tunnel, a, d.peers[a].index, d.keyPair);
    assert TunnelFits(d.peers[b].tunnel, b, d.peers[b].index, d.keyPair);
  }

  /** An initiation that a configured peer makes for this device reaches the object that holds that
      peer's public key. */
  lemma InitiationReachesOwner(d: Device, caller: H.Params, localIndex: u32, ephemeral: nat, stamp: H.Tai64N)
    requires d.Valid() && d.keyPair.Some?
    requires caller.peerStaticPublic == PublicKey(d.keyPair.value) && H.StaticPublic(caller) in d.peers
    ensures var packet := H.InitiationFields(caller, localIndex, ephemeral, stamp).0;
            && packet.HandshakeInit?
            && d.Target(packet) == Some(d.peers[H.StaticPublic(caller)])
  {
    var own := H.Params(d.keyPair.value, H.StaticPublic(caller), None);
    HP.InitiationIsRead(caller, own, localIndex, ephemeral, stamp);
    hide H.InitiationFields, H.ParseAnon, H.ReadInitiation;
  }

  /** Whatever happens to a peer's tunnel, the device stays valid: the tunnel keeps fitting. */
  lemma StepKeepsFit(t: Tunnel, e: Event, publicKey: Bytes, index: nat, key: Option<nat>)
    requires TunnelFits(t, publicKey, index, key) && InputOk(InputOf(e)) && !e.Rekey?
    ensures TunnelFits(Step(t, e).0, publicKey, index, key)
  {
    StepKeepsStructure(t, e, index);
    StepKeepsParams(t, e);
    hide Step, StructureOk;
  }

  lemma RekeyKeepsFit(t: Tunnel, publicKey: Bytes, index: nat, key: Option<nat>, privateKey: nat)
    requires TunnelFits(t, publicKey, index, key)
    ensures TunnelFits(SetStaticPrivate(t, privateKey), publicKey, index, Some(privateKey))
  {
  }

  lemma FitsQueue(t: Tunnel, publicKey: Bytes, index: nat, key: Option<nat>)
    requires TunnelFits(t, publicKey, index, key)
    ensures QueueOk(t)
  {
  }

  lemma TargetFits(d: Device, p: Packet)
    requires d.Valid() && d.keyPair.Some? && d.Target(p).Some?
    ensures var peer := d.Target(p).value;
            && peer.publicKey in d.peers && d.peers[peer.publicKey] == peer
            && TunnelFits(peer.tunnel, peer.publicKey, peer.index, d.keyPair)
  {
    hide TunnelFits, H.ParseAnon;
  }

  lemma {:induction false} FlushAllKeepsFit(t: Tunnel, inputs: seq<Input>, publicKey: Bytes, index: nat,
                                            key: Option<nat>)
    requires TunnelFits(t, publicKey, index, key) && forall k | 0 <= k < |inputs| :: InputOk(inputs[k])
    ensures TunnelFits(FlushAll(t, inputs).0, publicKey, index, key)
    decreases |inputs|
  {
    hide TunnelFits, SendQueuedPacket, InputOk;
    if inputs != [] {
      StepKeepsFit(t, TunnelSpec.Flush(inputs[0]), publicKey, index, key);
      var u := SendQueuedPacket(t, inputs[0]).0;
      FlushAllKeepsFit(u, inputs[1..], publicKey, index, key);
      FlushOnce(t, inputs);
    }
  }

  lemma StepKeepsParams(t: Tunnel, e: Event)
    requires !e.Rekey?
    ensures Step(t, e).0.handshake.params == t.handshake.params
  {
    hide Encapsulate, HandleVerifiedPacket, UpdateTimers;
    match e
    case Send(src, i) => EncapsulateKeepsParams(t, src, i);
    case Receive(p, i) => ReceiveKeepsParams(t, p, i);
    case Flush(i) =>
      if t.queue != [] {
        EncapsulateKeepsParams(t.(queue := t.queue[1..]), t.queue[0], i);
      }
    case TimerEvent(i) => UpdateKeepsParams(t, i);
  }

  lemma InitiationKeepsParams(t: Tunnel, force: bool, i: Input)
    ensures FormatInitiation(t, force, i).0.handshake.params == t.handshake.params
  {
    hide Mac16, Encode, H.InitiationFields, H.IncIndex;
  }

  lemma EncapsulateKeepsParams(t: Tunnel, src: Bytes, i: Input)
    ensures Encapsulate(t, src, i).0.handshake.params == t.handshake.params
  {
    InitiationKeepsParams(QueuePacket(t, src), false, i);
    hide FormatInitiation;
  }

  lemma ReceiveKeepsParams(t: Tunnel, p: Packet, i: Input)
    ensures HandleVerifiedPacket(t, p, i).0.handshake.params == t.handshake.params
  {
    hide H.ReadInitiation, H.After, Mac16, Encode, H.ResponderKey, H.ResponseKey, H.IncIndex, IpHeader, XOpen;
  }

  lemma UpdateKeepsParams(t: Tunnel, i: Input)
    ensures UpdateTimers(t, i).0.handshake.params == t.handshake.params
  {
    hide FormatInitiation, Encapsulate, RekeyDue, SilenceDue, KeepaliveDue, PersistentKeepaliveDue;
    var t2 := DropOldCookie(BeginUpdate(t, i));
    InitiationKeepsParams(t2, true, i);
    var t3 := if SilenceDue(t2.timers) then t2.(timers := t2.timers.(wantHandshake := false)) else t2;
    InitiationKeepsParams(t3, true, i);
    var t4 := if KeepaliveDue(t2.timers) then t3.(timers := t3.timers.(wantKeepalive := false)) else t3;
    EncapsulateKeepsParams(t4, [], i);
    EncapsulateKeepsParams(Tick(t4, TimePersistentKeepalive), [], i);
  }
}
