/** The registration service's address pool and its four collections, as functions on values. */
module RegistrationSpec {
  import opened Wrappers

  const SECOND: nat := 1_000_000_000
  const STALE_PEER_SECS: nat := 600
  const STALE_NEVER_CONNECTED_SECS: nat := 600

  type Key = s: seq<u8> | |s| == 32
    witness [0, 0, 0, 0, 0, 0, 0, 0, 0, 0, 0, 0, 0, 0, 0, 0, 0, 0, 0, 0, 0, 0, 0, 0, 0, 0, 0, 0, 0, 0, 0, 0]

  /** The text of a public key, as far as base64 can read it. */
  datatype KeyText = NotBase64 | Bytes(bytes: seq<u8>)

  datatype Registry = Registry(
    registered: set<Key>,
    available: set<u8>,
    octetOf: map<Key, u8>,
    registeredAt: map<Key, nat>,
    serverKey: Option<Key>,
    listenPort: Option<nat>)

  const POOL: set<u8> := set o: u8 | 2 <= o <= 254

  function Octets(last: nat): set<u8> {
    set o | o in POOL && o <= last
  }

  const NEW: Registry := Registry({}, POOL, map[], map[], None, None)

  /** The device's answers: to a query for its own key and port, and to the removal of a peer. */
  datatype ServerInfo = Unreachable | Answer(key: Option<Key>, port: Option<nat>)
  datatype Removal = Removed | Refused | Failed

  /** The HTTP status, and the last octet of the address on success. */
  datatype Reply = Success(octet: u8, serverKey: Key, port: nat) | Ok200 | Status(code: nat)

  /** The server's key and port are asked for once. */
  function FillCache(g: Registry, info: ServerInfo): (Registry, Option<Reply>) {
    if g.serverKey.Some? then (g, None)
    else
      match info
      case Unreachable => (g, Some(Status(500)))
      case Answer(None, _) => (g, Some(Status(503)))
      case Answer(Some(key), port) => (g.(serverKey := Some(key), listenPort := port), None)
  }

  function SuccessFor(g: Registry, octet: u8): Reply
    requires g.serverKey.Some?
  {
    Success(octet, g.serverKey.value, if g.listenPort.Some? then g.listenPort.value else 51820)
  }

  /** Whether a registration gets as far as asking the device to add the peer. */
  predicate AsksDevice(g: Registry, text: KeyText, info: ServerInfo) {
    && text.Bytes? && |text.bytes| == 32
    && FillCache(g, info).1.None?
    && !(text.bytes in g.registered && text.bytes in g.octetOf)
    && g.available != {}
  }

  /** `pick` is the free octet that iterating over the pool meets first; `accepted` is the device's
      answer, if it is asked. */
  function Register(g: Registry, text: KeyText, info: ServerInfo, pick: u8, accepted: bool, now: nat)
    : (Registry, Reply)
  {
    if text.NotBase64? || |text.bytes| != 32 then (g, Status(400))
    else
      var (g1, failed) := FillCache(g, info);
      if failed.Some? then (g, failed.value)
      else
        var key: Key := text.bytes;
        if key in g1.registered && key in g1.octetOf then (g1, SuccessFor(g1, g1.octetOf[key]))
        else if g1.available == {} then (g1, Status(503))
        else if !accepted then (g1, Status(500))
        else
          (g1.(available := g1.available - {pick},
               registered := g1.registered + {key},
               octetOf := g1.octetOf[key := pick],
               registeredAt := g1.registeredAt[key := now]),
           SuccessFor(g1, pick))
  }

  function Forget(g: Registry, keys: set<Key>): Registry
    requires keys <= g.octetOf.Keys
  {
    g.(available := g.available + (set k | k in keys :: g.octetOf[k]),
       registered := g.registered - keys,
       octetOf := g.octetOf - keys,
       registeredAt := g.registeredAt - keys)
  }

  function Unregister(g: Registry, text: KeyText, answer: Removal): (Registry, Reply) {
    if text.NotBase64? || |text.bytes| != 32 then (g, Status(400))
    else if text.bytes !in g.octetOf then (g, Status(404))
    else if answer.Removed? then (Forget(g, {text.bytes}), Ok200)
    else (g, Status(500))
  }

  /** What the device's peer list says of each peer: the age of its last handshake in seconds. */
  type Snapshot = map<Key, Option<nat>>

  function Age(now: nat, at: nat): nat {
    if now < at then 0 else (now - at) / SECOND
  }

  predicate IsStale(g: Registry, peers: Snapshot, key: Key, now: nat) {
    if key !in peers then true
    else if peers[key].Some? && peers[key].value > 0 then peers[key].value > STALE_PEER_SECS
    else key in g.registeredAt && Age(now, g.registeredAt[key]) > STALE_NEVER_CONNECTED_SECS
  }

  function Stale(g: Registry, peers: Snapshot, now: nat): set<Key> {
    set k | k in g.octetOf && IsStale(g, peers, k, now)
  }

  function Reaped(g: Registry, peers: Snapshot, answers: Key -> Removal, now: nat): (r: set<Key>)
    ensures r <= g.octetOf.Keys
  {
    set k | k in Stale(g, peers, now) && answers(k).Removed?
  }

  /** Only what the device removed is forgotten. */
  function Reap(g: Registry, peers: Snapshot, answers: Key -> Removal, now: nat): Registry {
    Forget(g, Reaped(g, peers, answers, now))
  }
}

/** What all runs of the registration service keep, whatever the device answers. */
module RegistrationProofs {
  import opened Wrappers
  import opened RegistrationSpec

  /** The pool is split between free and assigned octets, no octet is assigned twice, and the
      collections have equal keys. */
  ghost predicate Inv(g: Registry) {
    && g.available + g.octetOf.Values == POOL && g.available !! g.octetOf.Values
    && (forall a, b | a in g.octetOf && b in g.octetOf && a != b :: g.octetOf[a] != g.octetOf[b])
    && g.registered == g.octetOf.Keys == g.registeredAt.Keys
  }

  datatype Event =
    | RegisterEvent(text: KeyText, info: ServerInfo, pick: u8, accepted: bool, now: nat)
    | UnregisterEvent(text: KeyText, answer: Removal)
    | ReapEvent(peers: Snapshot, agreed: set<Key>, now: nat)

  /** The peers that the device agrees to remove; from the others comes a refusal or no answer. */
  function AnswersOf(agreed: set<Key>): Key -> Removal {
    k => if k in agreed then Removed else Refused
  }

  function Step(g: Registry, e: Event): Registry {
    match e
    case RegisterEvent(text, info, pick, accepted, now) => Register(g, text, info, pick, accepted, now).0
    case UnregisterEvent(text, answer) => Unregister(g, text, answer).0
    case ReapEvent(peers, agreed, now) => Reap(g, peers, AnswersOf(agreed), now)
  }

  predicate PicksFree(g: Registry, e: Event) {
    e.RegisterEvent? && g.available != {} ==> e.pick in g.available
  }

  function Exec(events: seq<Event>): Registry {
    if events == [] then NEW else Step(Exec(events[..|events| - 1]), events[|events| - 1])
  }

  ghost predicate Legal(events: seq<Event>) {
    forall k | 0 <= k < |events| :: PicksFree(Exec(events[..k]), events[k])
  }

  lemma ForgetKeepsInv(g: Registry, keys: set<Key>)
    requires Inv(g) && keys <= g.octetOf.Keys
    ensures Inv(Forget(g, keys))
  {
    var u := Forget(g, keys);
    forall o: u8
      ensures o in u.available <==> o in POOL && o !in u.octetOf.Values
    {
      assert o in POOL <==> o in g.available || o in g.octetOf.Values;
      if o in g.octetOf.Values {
        var k :| k in g.octetOf && g.octetOf[k] == o;
        if k !in keys {
          assert u.octetOf[k] == o;
        }
      }
      if o in u.octetOf.Values {
        var k :| k in u.octetOf && u.octetOf[k] == o;
        assert g.octetOf[k] == o;
      }
    }
  }

  lemma RegisterKeepsInv(g: Registry, text: KeyText, info: ServerInfo, pick: u8, accepted: bool, now: nat)
    requires Inv(g) && (g.available != {} ==> pick in g.available)
    ensures Inv(Register(g, text, info, pick, accepted, now).0)
  {
    if AsksDevice(g, text, info) && accepted {
      var key: Key := text.bytes;
      var u := Register(g, text, info, pick, accepted, now).0;
      assert u.octetOf == g.octetOf[key := pick] && key !in g.octetOf;
      forall o: u8
        ensures o in u.octetOf.Values <==> o in g.octetOf.Values || o == pick
      {
        if o in g.octetOf.Values {
          var k :| k in g.octetOf && g.octetOf[k] == o;
          assert u.octetOf[k] == o;
        }
        assert u.octetOf[key] == pick;
      }
    }
  }

  lemma StepKeepsInv(g: Registry, e: Event)
    requires Inv(g) && PicksFree(g, e)
    ensures Inv(Step(g, e))
  {
    hide Forget, Inv, Register;
    match e
    case RegisterEvent(text, info, pick, accepted, now) => RegisterKeepsInv(g, text, info, pick, accepted, now);
    case UnregisterEvent(text, answer) =>
      if text.Bytes? && |text.bytes| == 32 && text.bytes in g.octetOf {
        ForgetKeepsInv(g, {text.bytes});
      }
    case ReapEvent(peers, agreed, now) => ForgetKeepsInv(g, Reaped(g, peers, AnswersOf(agreed), now));
  }

  lemma {:induction false} RunKeepsInv(events: seq<Event>)
    requires Legal(events)
    ensures Inv(Exec(events))
  {
    if events != [] {
      var last := |events| - 1;
      assert forall k | 0 <= k < last :: events[..last][..k] == events[..k];
      RunKeepsInv(events[..last]);
      StepKeepsInv(Exec(events[..last]), events[last]);
    }
  }

  /** 253 addresses: a new key is turned away for lack of one exactly if 253 are assigned. */
  lemma PoolIsExhaustedIff(g: Registry, text: KeyText, info: ServerInfo, pick: u8, now: nat)
    requires Inv(g) && text.Bytes? && |text.bytes| == 32 && text.bytes !in g.registered
    requires FillCache(g, info).1.None?
    ensures Register(g, text, info, pick, true, now).1 == Status(503) <==> |g.registered| == 253
    ensures |g.registered| <= 253
  {
    PoolIsShared(g);
    hide Inv;
    assert g.available == {} <==> |g.available| == 0;
  }

  lemma PoolIsShared(g: Registry)
    requires Inv(g)
    ensures |g.available| + |g.registered| == 253
  {
    PoolSize(254);
    InjectiveSize(g.octetOf);
    hide Inv;
    assert POOL == Octets(254);
    DisjointSizes(g.available, g.octetOf.Values) by {
      assert Inv(g);
    }
  }

  lemma DisjointSizes(a: set<u8>, b: set<u8>)
    requires a !! b
    ensures |a + b| == |a| + |b|
  {
  }

  lemma {:induction false} PoolSize(last: nat)
    requires 1 <= last <= 254
    ensures |Octets(last)| == last - 1
  {
    if last == 1 {
      assert Octets(1) == {};
    } else {
      PoolSize(last - 1);
      assert Octets(last) == Octets(last - 1) + {last};
    }
  }

  lemma {:induction false} InjectiveSize(m: map<Key, u8>)
    requires forall a, b | a in m && b in m && a != b :: m[a] != m[b]
    ensures |m.Values| == |m.Keys|
  {
    if m.Keys == {} {
      assert m.Values == {};
    } else {
      var k :| k in m;
      InjectiveSize(m - {k});
      assert m.Keys == (m - {k}).Keys + {k};
      ValuesWithout(m, k);
    }
  }

  lemma ValuesWithout(m: map<Key, u8>, k: Key)
    requires k in m && forall a | a in m && a != k :: m[a] != m[k]
    ensures m[k] !in (m - {k}).Values && m.Values == (m - {k}).Values + {m[k]}
  {
    var rest := m - {k};
    forall o: u8 | o in m.Values
      ensures o == m[k] || o in rest.Values
    {
      var j :| j in m && m[j] == o;
      assert j == k || rest[j] == o;
    }
    forall o: u8 | o in rest.Values
      ensures o in m.Values && o != m[k]
    {
      var j :| j in rest && rest[j] == o;
      assert m[j] == o;
    }
    assert m[k] in m.Values;
  }

  /** Registering again returns the same address and changes nothing, whatever the device would say. */
  lemma RegisteringAgain(g: Registry, text: KeyText, info: ServerInfo, pick: u8, accepted: bool, now: nat,
                         info2: ServerInfo, pick2: u8, accepted2: bool, now2: nat)
    requires Inv(g) && Register(g, text, info, pick, accepted, now).1.Success?
    ensures var (u, r) := Register(g, text, info, pick, accepted, now);
            Register(u, text, info2, pick2, accepted2, now2) == (u, r)
  {
  }

  /** What a successful reply names: the octet that is now assigned to the key and to no other, and the
      server's key and port. */
  lemma ReplyNamesAssigned(g: Registry, text: KeyText, info: ServerInfo, pick: u8, accepted: bool, now: nat)
    requires Inv(g) && (g.available != {} ==> pick in g.available)
    requires Register(g, text, info, pick, accepted, now).1.Success?
    ensures var (u, r) := Register(g, text, info, pick, accepted, now);
            && text.Bytes? && text.bytes in u.octetOf && r.octet == u.octetOf[text.bytes] && 2 <= r.octet <= 254
            && (forall other | other in u.octetOf && other != text.bytes :: u.octetOf[other] != r.octet)
            && u.serverKey == Some(r.serverKey)
            && (if u.listenPort.Some? then r.port == u.listenPort.value else r.port == 51820)
            && (g.serverKey.None? ==> info == Answer(Some(r.serverKey), u.listenPort))
            && u.registeredAt[text.bytes] == if text.bytes in g.registeredAt then g.registeredAt[text.bytes] else now
  {
    RegisterKeepsInv(g, text, info, pick, accepted, now);
    var u := Register(g, text, info, pick, accepted, now).0;
    assert u.octetOf[text.bytes] in u.octetOf.Values;
    assert u.octetOf[text.bytes] in POOL;
  }

  /** A removal succeeds exactly if the key is assigned and the device removed the peer; then the key is
      no longer assigned and its octet is free again. */
  lemma UnregisterFrees(g: Registry, text: KeyText, answer: Removal)
    requires Inv(g)
    ensures var (u, r) := Unregister(g, text, answer);
            && (r == Ok200 <==> text.Bytes? && |text.bytes| == 32 && text.bytes in g.octetOf && answer.Removed?)
            && (r == Ok200 ==>
                  && text.bytes !in u.octetOf && text.bytes !in u.registered
                  && u.available == g.available + {g.octetOf[text.bytes]} && g.octetOf[text.bytes] !in g.available
                  && u.octetOf == g.octetOf - {text.bytes})
            && (r != Ok200 ==> u == g)
  {
    if text.Bytes? && |text.bytes| == 32 && text.bytes in g.octetOf {
      assert g.octetOf[text.bytes] in g.octetOf.Values;
      assert (set k | k in {text.bytes} :: g.octetOf[k]) == {g.octetOf[text.bytes]};
    }
  }

  lemma StepKeepsAddress(g: Registry, e: Event, key: Key)
    requires Inv(g) && key in g.octetOf && key in Step(g, e).octetOf
    ensures Step(g, e).octetOf[key] == g.octetOf[key]
  {
  }

  /** A peer keeps its address from registration until it is unregistered or reaped. */
  lemma {:induction false} AddressIsStable(events: seq<Event>, i: nat, j: nat, key: Key)
    requires Legal(events) && i <= j <= |events|
    requires forall k | i <= k <= j :: key in Exec(events[..k]).octetOf
    ensures Exec(events[..j]).octetOf[key] == Exec(events[..i]).octetOf[key]
  {
    hide Step, Inv, Legal;
    if i < j {
      AddressIsStable(events, i, j - 1, key);
      assert events[..j][..j - 1] == events[..j - 1] && events[..j][j - 1] == events[j - 1];
      LegalPrefix(events, j - 1);
      RunKeepsInv(events[..j - 1]);
      StepKeepsAddress(Exec(events[..j - 1]), events[j - 1], key);
    }
  }

  lemma LegalPrefix(events: seq<Event>, n: nat)
    requires Legal(events) && n <= |events|
    ensures Legal(events[..n])
  {
    assert forall k | 0 <= k < n :: events[..n][..k] == events[..k];
  }

  /** Refusals lose nothing: after any answer but success the collections are as before. */
  lemma RefusalsChangeNothing(g: Registry, text: KeyText, info: ServerInfo, pick: u8, accepted: bool, now: nat,
                              answer: Removal)
    ensures var (u, r) := Register(g, text, info, pick, accepted, now);
            !r.Success? ==> u == g.(serverKey := u.serverKey, listenPort := u.listenPort)
    ensures var (u, r) := Unregister(g, text, answer);
            r != Ok200 ==> u == g
  {
  }

  // The reaper

  /** Which peers a reaper run removes: those missing from the device's list, those whose last
      handshake is over STALE_PEER_SECS old, and those with no handshake, or one of age zero, that
      registered over STALE_NEVER_CONNECTED_SECS ago; of these, the ones the device agrees to remove. */
  lemma ReapedIff(g: Registry, peers: Snapshot, answers: Key -> Removal, now: nat, key: Key)
    requires Inv(g) && key in g.octetOf
    ensures key !in Reap(g, peers, answers, now).octetOf
       <==> && answers(key).Removed?
            && (|| key !in peers
                || (peers[key].Some? && peers[key].value > STALE_PEER_SECS)
                || ((peers[key].None? || peers[key].value == 0)
                    && now >= g.registeredAt[key] + 601 * SECOND))
    ensures key in Reap(g, peers, answers, now).octetOf ==>
              Reap(g, peers, answers, now).octetOf[key] == g.octetOf[key]
  {
  }

  /** A peer whose last handshake is recent is reaped exactly if that handshake is less than a second
      old and the peer registered long ago: an age of zero reads as no handshake at all. */
  lemma ActivePeerIsReapedIff(g: Registry, peers: Snapshot, answers: Key -> Removal, now: nat, key: Key)
    requires Inv(g) && key in g.octetOf && answers(key).Removed?
    requires key in peers && peers[key].Some? && peers[key].value <= STALE_PEER_SECS
    ensures key !in Reap(g, peers, answers, now).octetOf
       <==> peers[key].value == 0 && now >= g.registeredAt[key] + 601 * SECOND
  {
    ReapedIff(g, peers, answers, now, key);
  }
}

/** The service together with the device it configures. What the device does and what the service hears
    of it are separate: an addition or removal can be done without its answer arriving. The reaper
    works with a list of the device's peers that it queried earlier. */
module RegistrationDevice {
  import opened Wrappers
  import opened RegistrationSpec
  import opened RegistrationProofs

  /** `peers` and `routes` are the device's: its peers, and to which of them an octet's address leads;
      `up` until a panic stops it. */
  datatype System = System(registry: Registry, up: bool, peers: set<Key>, routes: map<u8, Key>, captured: Snapshot)

  const START: System := System(NEW, true, {}, map[], map[])

  datatype Call =
    | RegisterCall(text: KeyText, info: ServerInfo, pick: u8, added: bool, answered: bool, now: nat)
    | UnregisterCall(text: KeyText, removed: bool, answered: bool)
    | QueryCall(ages: map<Key, nat>)
    | ReapCall(removals: set<Key>, answers: set<Key>, now: nat)

  /** Adding a peer the device already has makes the device panic. */
  predicate MeetsExistingPeer(s: System, text: KeyText, info: ServerInfo) {
    s.up && AsksDevice(s.registry, text, info) && text.bytes in s.peers
  }

  /** The device carries out such an addition: it panics inside its lock, and stops for good. */
  predicate Stops(s: System, c: Call) {
    c.RegisterCall? && c.added && MeetsExistingPeer(s, c.text, c.info)
  }

  predicate Adds(s: System, c: Call, key: Key) {
    && s.up && c.RegisterCall? && c.added && AsksDevice(s.registry, c.text, c.info)
    && !MeetsExistingPeer(s, c.text, c.info) && c.text.bytes == key
  }

  predicate Removes(s: System, c: Call, key: Key) {
    && s.up
    && (|| (c.UnregisterCall? && c.removed && c.text.Bytes? && c.text.bytes == key && key in s.registry.octetOf)
        || (c.ReapCall? && key in c.removals && key in Stale(s.registry, s.captured, c.now)))
  }

  predicate Answers(c: Call, key: Key) {
    match c
    case RegisterCall(_, _, _, _, answered, _) => answered
    case UnregisterCall(_, _, answered) => answered
    case QueryCall(_) => true
    case ReapCall(_, answers, _) => key in answers
  }

  /** The registry sees an addition or removal only if it was done and answered. */
  function RegistryAfter(s: System, c: Call): Registry {
    match c
    case RegisterCall(text, info, pick, added, answered, now) =>
      Register(s.registry, text, info, pick, s.up && added && answered && !MeetsExistingPeer(s, text, info), now).0
    case UnregisterCall(text, removed, answered) =>
      Unregister(s.registry, text, if s.up && removed && answered then Removed else Failed).0
    case QueryCall(_) => s.registry
    case ReapCall(removals, answers, now) =>
        Reap(s.registry, s.captured, AnswersOf(if s.up then removals * answers else {}), now)
  }

  function PeersAfter(s: System, c: Call): set<Key> {
    match c
    case RegisterCall(text, _, _, _, _, _) =>
      if text.Bytes? && |text.bytes| == 32 && Adds(s, c, text.bytes) then s.peers + {text.bytes} else s.peers
    case _ => set k | k in s.peers && !Removes(s, c, k)
  }

  function RoutesAfter(s: System, c: Call): map<u8, Key> {
    match c
    case RegisterCall(text, _, pick, _, _, _) =>
      if text.Bytes? && |text.bytes| == 32 && Adds(s, c, text.bytes) then s.routes[pick := text.bytes] else s.routes
    case _ => map o | o in s.routes && !Removes(s, c, s.routes[o]) :: s.routes[o]
  }

  function Apply(s: System, c: Call): System {
    System(RegistryAfter(s, c), s.up && !Stops(s, c), PeersAfter(s, c), RoutesAfter(s, c),
           if s.up && c.QueryCall? then map k | k in s.peers :: (if k in c.ages then Some(c.ages[k]) else None)
           else s.captured)
  }

  function ExecCalls(calls: seq<Call>): System {
    if calls == [] then START else Apply(ExecCalls(calls[..|calls| - 1]), calls[|calls| - 1])
  }

  /** Iterating over the pool meets a free octet. */
  predicate PicksFreeOctet(s: System, c: Call) {
    c.RegisterCall? && s.registry.available != {} ==> c.pick in s.registry.available
  }

  ghost predicate LegalCalls(calls: seq<Call>) {
    forall k | 0 <= k < |calls| :: PicksFreeOctet(ExecCalls(calls[..k]), calls[k])
  }

  lemma LegalCallsPrefix(calls: seq<Call>, n: nat)
    requires LegalCalls(calls) && n <= |calls|
    ensures LegalCalls(calls[..n])
    ensures n < |calls| ==> PicksFreeOctet(ExecCalls(calls[..n]), calls[n])
  {
    assert forall k | 0 <= k < n :: calls[..n][..k] == calls[..k];
  }

  /** The last thing done at the device to a key, and whether the service heard of it. */
  datatype Done = Nothing | Added(answered: bool) | Gone(answered: bool)

  function LastDone(calls: seq<Call>, key: Key): Done {
    if calls == [] then Nothing
    else
      var (before, c) := (calls[..|calls| - 1], calls[|calls| - 1]);
      var s := ExecCalls(before);
      if Adds(s, c, key) then Added(Answers(c, key))
      else if Removes(s, c, key) then Gone(Answers(c, key))
      else LastDone(before, key)
  }

  /** How the last thing done to a key shows on both sides. */
  predicate Shows(s: System, key: Key, done: Done) {
    && (key in s.peers <==> done.Added?)
    && (key in s.registry.registered <==> done == Added(true) || done == Gone(false))
  }

  /** Every octet leads to a peer the device has, and a registered peer that the device has is routed. */
  ghost predicate Routed(s: System) {
    && (forall o | o in s.routes :: s.routes[o] in s.peers)
    && (forall k | k in s.peers && k in s.registry.octetOf ::
          && s.registry.octetOf[k] in s.routes
          && s.routes[s.registry.octetOf[k]] == k)
  }

  lemma RegistryKeepsInv(s: System, c: Call)
    requires Inv(s.registry) && PicksFreeOctet(s, c)
    ensures Inv(RegistryAfter(s, c))
  {
    hide Inv, Register, Unregister, Reap, MeetsExistingPeer;
    match c
    case RegisterCall(text, info, pick, added, answered, now) =>
      StepKeepsInv(s.registry, RegisterEvent(text, info, pick, s.up && added && answered
                                             && !MeetsExistingPeer(s, text, info), now));
    case UnregisterCall(text, removed, answered) =>
      StepKeepsInv(s.registry, UnregisterEvent(text, if s.up && removed && answered then Removed else Failed));
    case QueryCall(_) =>
    case ReapCall(removals, answers, now) =>
        StepKeepsInv(s.registry, ReapEvent(s.captured, if s.up then removals * answers else {}, now));
  }

  lemma ApplyShows(s: System, c: Call, key: Key, done: Done)
    requires Inv(s.registry) && Shows(s, key, done)
    ensures Shows(Apply(s, c), key,
                  if Adds(s, c, key) then Added(Answers(c, key)) else if Removes(s, c, key) then Gone(Answers(c, key))
                     else done)
  {
  }

  lemma ApplyKeepsRouted(s: System, c: Call)
    requires Inv(s.registry) && Routed(s) && PicksFreeOctet(s, c)
    ensures Routed(Apply(s, c))
  {
    if c.RegisterCall? {
      RegisterKeepsRouted(s, c);
    } else {
      RemovalKeepsRouted(s, c);
    }
  }

  lemma RegisterKeepsRouted(s: System, c: Call)
    requires Inv(s.registry) && Routed(s) && PicksFreeOctet(s, c) && c.RegisterCall?
    ensures Routed(Apply(s, c))
  {
    var (u, g) := (Apply(s, c), s.registry);
    if c.text.Bytes? && |c.text.bytes| == 32 && Adds(s, c, c.text.bytes) {
      forall k | k in u.peers && k in u.registry.octetOf
        ensures u.registry.octetOf[k] in u.routes && u.routes[u.registry.octetOf[k]] == k
      {
        if k in g.octetOf {
          assert g.octetOf[k] in g.octetOf.Values;
        }
      }
    }
  }

  lemma RemovalKeepsRouted(s: System, c: Call)
    requires Inv(s.registry) && Routed(s) && !c.RegisterCall?
    ensures Routed(Apply(s, c))
  {
    var u := Apply(s, c);
    assert forall k | k in u.registry.octetOf ::
             && k in s.registry.octetOf
             && u.registry.octetOf[k] == s.registry.octetOf[k];
  }

  lemma {:induction false} CallsKeepRegistry(calls: seq<Call>)
    requires LegalCalls(calls)
    ensures Inv(ExecCalls(calls).registry) && Routed(ExecCalls(calls))
  {
    if calls != [] {
      hide Inv, Routed, Apply, RegistryAfter, LegalCalls, PicksFreeOctet;
      var last := |calls| - 1;
      LegalCallsPrefix(calls, last);
      CallsKeepRegistry(calls[..last]);
      var s := ExecCalls(calls[..last]);
      RegistryKeepsInv(s, calls[last]);
      ApplyKeepsRouted(s, calls[last]);
      RegistryOf(s, calls[last]);
    }
  }

  lemma RegistryOf(s: System, c: Call)
    ensures Apply(s, c).registry == RegistryAfter(s, c)
  {
  }

  lemma {:induction false} CallsShow(calls: seq<Call>, key: Key)
    requires LegalCalls(calls)
    ensures Shows(ExecCalls(calls), key, LastDone(calls, key))
  {
    if calls != [] {
      hide Inv, Apply, LegalCalls, PicksFreeOctet, Adds, Removes, Answers, Shows;
      var last := |calls| - 1;
      LegalCallsPrefix(calls, last);
      CallsShow(calls[..last], key);
      CallsKeepRegistry(calls[..last]);
      ApplyShows(ExecCalls(calls[..last]), calls[last], key, LastDone(calls[..last], key));
    }
  }

  // Meeting an existing peer

  /** In every run: a registration meets an existing peer exactly if the device is still up, the last
      thing done to its key there was an addition whose answer was lost, and an address is free. */
  lemma MeetsExistingPeerIff(calls: seq<Call>, text: KeyText, info: ServerInfo)
    requires LegalCalls(calls) && text.Bytes? && |text.bytes| == 32
    requires FillCache(ExecCalls(calls).registry, info).1.None?
    ensures MeetsExistingPeer(ExecCalls(calls), text, info)
       <==> && ExecCalls(calls).up && LastDone(calls, text.bytes) == Added(false)
            && |ExecCalls(calls).registry.registered| < 253
  {
    hide LastDone, ExecCalls, LegalCalls;
    var (s, key: Key) := (ExecCalls(calls), text.bytes);
    CallsShow(calls, key);
    CallsKeepRegistry(calls);
    if key !in s.registry.registered {
      PoolIsExhaustedIff(s.registry, text, info, 0, 0);
    }
  }

  /** Some call was an addition of a peer the device had, and the device carried that out. */
  ghost predicate WasStopped(calls: seq<Call>) {
    exists k :: 0 <= k < |calls| && Stops(ExecCalls(calls[..k]), calls[k])
  }

  /** The device is down exactly if some call of the run stopped it. */
  lemma {:induction false} DownIff(calls: seq<Call>)
    ensures !ExecCalls(calls).up <==> WasStopped(calls)
  {
    if calls != [] {
      hide Apply, Stops, WasStopped;
      DownIff(calls[..|calls| - 1]);
      UpAfter(ExecCalls(calls[..|calls| - 1]), calls[|calls| - 1]);
      LastStops(calls);
    }
  }

  lemma LastStops(calls: seq<Call>)
    requires calls != []
    ensures var before := calls[..|calls| - 1];
            WasStopped(calls) <==> WasStopped(before) || Stops(ExecCalls(before), calls[|calls| - 1])
  {
    hide ExecCalls, Stops;
    var before := calls[..|calls| - 1];
    assert forall k | 0 <= k < |before| :: before[..k] == calls[..k] && before[k] == calls[k];
    if k :| 0 <= k < |before| && Stops(ExecCalls(before[..k]), before[k]) {
      assert Stops(ExecCalls(calls[..k]), calls[k]);
    }
  }

  lemma UpAfter(s: System, c: Call)
    ensures Apply(s, c).up <==> s.up && !Stops(s, c)
  {
  }

  lemma DownStep(s: System, c: Call)
    requires !s.up
    ensures var (u, g) := (Apply(s, c), s.registry);
            && !u.up && u.peers == s.peers && u.routes == s.routes && u.captured == s.captured
            && u.registry == g.(serverKey := u.registry.serverKey, listenPort := u.registry.listenPort)
  {
    if c.ReapCall? {
      assert Reaped(s.registry, s.captured, AnswersOf({}), c.now) == {};
      assert Forget(s.registry, {}) == s.registry;
    }
  }

  /** Once the device is down, nothing changes for good: it keeps its peers and routes, and the service
      can neither register a new key nor remove or reap one. */
  lemma {:induction false} DownForEver(calls: seq<Call>, n: nat)
    requires n <= |calls| && !ExecCalls(calls[..n]).up
    ensures var (s, u) := (ExecCalls(calls[..n]), ExecCalls(calls));
            && !u.up && u.peers == s.peers && u.routes == s.routes
            && u.registry == s.registry.(serverKey := u.registry.serverKey, listenPort := u.registry.listenPort)
    decreases |calls|
  {
    if n == |calls| {
      assert calls[..n] == calls;
    } else {
      hide Apply;
      var before := calls[..|calls| - 1];
      assert before[..n] == calls[..n];
      DownForEver(before, n);
      DownStep(ExecCalls(before), calls[|calls| - 1]);
    }
  }

  /** All answers arrive. */
  predicate Faithful(c: Call) {
    match c
    case RegisterCall(_, _, _, _, answered, _) => answered
    case UnregisterCall(_, _, answered) => answered
    case QueryCall(_) => true
    case ReapCall(removals, answers, _) => removals <= answers
  }

  ghost predicate AllFaithful(calls: seq<Call>) {
    forall k | 0 <= k < |calls| :: Faithful(calls[k])
  }

  lemma {:induction false} NothingIsLost(calls: seq<Call>, key: Key)
    requires AllFaithful(calls)
    ensures LastDone(calls, key) == Nothing || LastDone(calls, key).answered
  {
    if calls != [] {
      NothingIsLost(calls[..|calls| - 1], key);
    }
  }

  /** If all answers arrive, the device's peers are the registered ones, no registration ever meets an
      existing peer, and the device stays up. */
  lemma NeverMeetsExistingPeer(calls: seq<Call>, text: KeyText, info: ServerInfo)
    requires LegalCalls(calls) && AllFaithful(calls)
    ensures ExecCalls(calls).peers == ExecCalls(calls).registry.registered
    ensures !MeetsExistingPeer(ExecCalls(calls), text, info)
    ensures ExecCalls(calls).up
    decreases |calls|
  {
    hide LastDone, ExecCalls, LegalCalls, AllFaithful, Stops, MeetsExistingPeer;
    StaysUp(calls);
    DevicePeersAreRegistered(calls);
    MeetsNobody(ExecCalls(calls), text, info);
  }

  lemma MeetsNobody(s: System, text: KeyText, info: ServerInfo)
    requires s.peers == s.registry.registered && s.registry.registered == s.registry.octetOf.Keys
    ensures !MeetsExistingPeer(s, text, info)
  {
  }

  lemma StaysUp(calls: seq<Call>)
    requires LegalCalls(calls) && AllFaithful(calls)
    ensures ExecCalls(calls).up
  {
    hide LastDone, ExecCalls, MeetsExistingPeer;
    DownIff(calls);
    if k :| 0 <= k < |calls| && Stops(ExecCalls(calls[..k]), calls[k]) {
      LegalCallsPrefix(calls, k);
      assert AllFaithful(calls[..k]);
      DevicePeersAreRegistered(calls[..k]);
      MeetsNobody(ExecCalls(calls[..k]), calls[k].text, calls[k].info);
    }
  }

  lemma DevicePeersAreRegistered(calls: seq<Call>)
    requires LegalCalls(calls) && AllFaithful(calls)
    ensures ExecCalls(calls).peers == ExecCalls(calls).registry.registered == ExecCalls(calls).registry.octetOf.Keys
  {
    hide LastDone, ExecCalls, LegalCalls, AllFaithful, MeetsExistingPeer;
    var s := ExecCalls(calls);
    forall key: Key
      ensures key in s.peers <==> key in s.registry.registered
    {
      CallsShow(calls, key);
      NothingIsLost(calls, key);
    }
    assert s.peers == s.registry.registered;
    CallsKeepRegistry(calls);
  }

  /** Nothing the service does repairs a lost addition: it neither knows the peer nor can remove it. */
  lemma {:induction false} LostForEver(calls: seq<Call>, n: nat, key: Key)
    requires LegalCalls(calls) && n <= |calls| && LastDone(calls[..n], key) == Added(false)
    ensures LastDone(calls, key) == Added(false)
    decreases |calls| - n
  {
    if n == |calls| {
      assert calls[..n] == calls;
    } else {
      LegalCallsPrefix(calls, n);
      OneMoreCall(calls, n, key);
      LostForEver(calls, n + 1, key);
    }
  }

  lemma OneMoreCall(calls: seq<Call>, n: nat, key: Key)
    requires LegalCalls(calls) && n < |calls| && LastDone(calls[..n], key) == Added(false)
    ensures LastDone(calls[..n + 1], key) == Added(false)
  {
    assert calls[..n + 1][..n] == calls[..n] && calls[..n + 1][n] == calls[n];
    LegalCallsPrefix(calls, n);
    hide LegalCalls;
    CallsShow(calls[..n], key);
    CallsKeepRegistry(calls[..n]);
    LostIsStuck(ExecCalls(calls[..n]), calls[n], key);
  }

  lemma LostIsStuck(s: System, c: Call, key: Key)
    requires Inv(s.registry) && Shows(s, key, Added(false))
    ensures !Adds(s, c, key) && !Removes(s, c, key)
  {
  }

  /** The address of a lost addition: it stays free in the pool while the device routes it to the peer
      the service does not know. */
  lemma LostOctetStaysFree(s: System, c: Call, key: Key)
    requires Inv(s.registry) && PicksFreeOctet(s, c)
    requires Adds(s, c, key) && !c.answered
    ensures var u := Apply(s, c);
            && c.pick in u.registry.available && key !in u.registry.registered
            && c.pick in u.routes && u.routes[c.pick] == key
  {
  }

  /** Another addition uses the octet. */
  predicate Takes(s: System, c: Call, o: u8) {
    c.RegisterCall? && c.pick == o && c.text.Bytes? && |c.text.bytes| == 32 && Adds(s, c, c.text.bytes)
  }

  /** One call: the octet stays as it is until another addition takes it over, in the pool if that is
      answered, and on the device in any case. */
  lemma LostOctetStep(s: System, c: Call, key: Key, o: u8)
    requires Inv(s.registry) && Shows(s, key, Added(false)) && PicksFreeOctet(s, c)
    requires o in s.registry.available && o in s.routes && s.routes[o] == key
    ensures var u := Apply(s, c);
            if Takes(s, c, o)
            then && o in u.routes && u.routes[o] == c.text.bytes != key
                 && (c.answered <==> o !in u.registry.available)
            else o in u.registry.available && o in u.routes && u.routes[o] == key
  {
    LostIsStuck(s, c, key);
  }

  /** No call from the n-th on takes the octet. */
  ghost predicate NoneTakes(calls: seq<Call>, n: nat, o: u8) {
    forall k | n <= k < |calls| :: !Takes(ExecCalls(calls[..k]), calls[k], o)
  }

  /** The octet leads to the peer exactly if nobody took it, and then it is free in the pool. */
  predicate LeadsIf(s: System, key: Key, o: u8, untaken: bool) {
    && (o in s.routes && s.routes[o] == key <==> untaken)
    && (untaken ==> o in s.registry.available)
  }

  lemma LeadsOn(s: System, c: Call, key: Key, o: u8, untaken: bool)
    requires Inv(s.registry) && Shows(s, key, Added(false)) && PicksFreeOctet(s, c) && LeadsIf(s, key, o, untaken)
    ensures LeadsIf(Apply(s, c), key, o, untaken && !Takes(s, c, o))
  {
    if untaken {
      LostOctetStep(s, c, key, o);
    } else {
      LostIsStuck(s, c, key);
    }
  }

  /** Over whole runs: the octet of a lost addition leads to the peer that the service does not know
      exactly until another addition takes it; until then it is free in the pool, and afterwards it
      never leads to that peer again. */
  lemma {:induction false} LostOctetUntilTaken(calls: seq<Call>, n: nat, key: Key, o: u8)
    requires LegalCalls(calls) && n <= |calls| && LastDone(calls[..n], key) == Added(false)
    requires LeadsIf(ExecCalls(calls[..n]), key, o, true)
    ensures LeadsIf(ExecCalls(calls), key, o, NoneTakes(calls, n, o))
    decreases |calls|
  {
    hide *;
    var last := |calls| - 1;
    if n > last {
      assert calls[..n] == calls;
      NoneYet(calls, n, o);
    } else {
      var before := calls[..last];
      LegalCallsPrefix(calls, last);
      assert before[..n] == calls[..n];
      LostOctetUntilTaken(before, n, key, o);
      LostForEver(before, n, key);
      CallsShow(before, key);
      CallsKeepRegistry(before);
      LastTakes(calls, n, o);
      LastCall(calls);
      LeadsOn(ExecCalls(before), calls[last], key, o, NoneTakes(before, n, o));
    }
  }

  lemma NoneYet(calls: seq<Call>, n: nat, o: u8)
    requires n >= |calls|
    ensures NoneTakes(calls, n, o)
  {
  }

  lemma LastCall(calls: seq<Call>)
    requires calls != []
    ensures ExecCalls(calls) == Apply(ExecCalls(calls[..|calls| - 1]), calls[|calls| - 1])
  {
    hide Apply;
  }

  lemma LastTakes(calls: seq<Call>, n: nat, o: u8)
    requires n < |calls|
    ensures var before := calls[..|calls| - 1];
            NoneTakes(calls, n, o) <==> NoneTakes(before, n, o) && !Takes(ExecCalls(before), calls[|calls| - 1], o)
  {
    hide ExecCalls, Takes;
    var before := calls[..|calls| - 1];
    assert forall k | n <= k < |before| :: before[..k] == calls[..k];
  }

  /** Two registrations of one key: the first is done and its answer lost, the second meets it, and the
      device stops. */
  lemma LostAnswerThenPanic(key: Key, server: Key)
    ensures var (text, info) := (Bytes(key), Answer(Some(server), None));
            var calls := [RegisterCall(text, info, 2, true, false, 0)];
            && LegalCalls(calls) && MeetsExistingPeer(ExecCalls(calls), text, info)
            && !Apply(ExecCalls(calls), RegisterCall(text, info, 3, true, false, 0)).up
  {
    var (text, info) := (Bytes(key), Answer(Some(server), None));
    var c := RegisterCall(text, info, 2, true, false, 0);
    OneCall(c);
    assert 2 in POOL;
    assert AsksDevice(NEW, text, info);
  }

  // The reaper's list

  /** The list the reaper holds names the peers the device had when it was queried. */
  lemma {:induction false} ListIsOfTheQuery(calls: seq<Call>, n: nat)
    requires n < |calls| && calls[n].QueryCall? && forall m | n < m < |calls| :: !calls[m].QueryCall?
    requires ExecCalls(calls[..n]).up
    ensures ExecCalls(calls).captured.Keys == ExecCalls(calls[..n]).peers
    decreases |calls|
  {
    var last := |calls| - 1;
    if n < last {
      hide RegistryAfter, PeersAfter, RoutesAfter;
      assert calls[..last][..n] == calls[..n];
      ListIsOfTheQuery(calls[..last], n);
    }
  }

  /** If all answers arrive: of the registered peers, the list misses exactly those that were not
      registered at the query, and these were added after it. */
  lemma MissingFromListIff(calls: seq<Call>, n: nat, key: Key)
    requires LegalCalls(calls) && AllFaithful(calls)
    requires n < |calls| && calls[n].QueryCall? && forall m | n < m < |calls| :: !calls[m].QueryCall?
    requires key in ExecCalls(calls).registry.registered
    ensures key !in ExecCalls(calls).captured <==> key !in ExecCalls(calls[..n]).registry.registered
    ensures key !in ExecCalls(calls).captured ==>
              exists m :: n < m < |calls| && Adds(ExecCalls(calls[..m]), calls[m], key)
  {
    hide LastDone, LegalCalls, ExecCalls, Adds, MeetsExistingPeer;
    var (text, info) := (Bytes(key), Unreachable);
    LegalCallsPrefix(calls, n);
    NeverMeetsExistingPeer(calls[..n], text, info);
    ListIsOfTheQuery(calls, n);
    if key !in ExecCalls(calls).captured {
      NeverMeetsExistingPeer(calls, text, info);
      assert calls[..|calls|] == calls;
      var m := FirstAddition(calls, n, |calls|, key);
      QueryAddsNothing(ExecCalls(calls[..n]), calls[n], key);
    }
  }

  lemma QueryAddsNothing(s: System, c: Call, key: Key)
    requires c.QueryCall?
    ensures !Adds(s, c, key)
  {
  }

  /** Between a state without a peer and one with it, the peer was added. */
  lemma {:induction false} FirstAddition(calls: seq<Call>, n: nat, k: nat, key: Key) returns (m: nat)
    requires n <= k <= |calls| && key !in ExecCalls(calls[..n]).peers && key in ExecCalls(calls[..k]).peers
    ensures n <= m < k && Adds(ExecCalls(calls[..m]), calls[m], key)
  {
    hide RegistryAfter, RoutesAfter, Adds, Removes;
    assert n < k;
    assert calls[..k][..k - 1] == calls[..k - 1] && calls[..k][k - 1] == calls[k - 1];
    if key in ExecCalls(calls[..k - 1]).peers {
      m := FirstAddition(calls, n, k - 1, key);
    } else {
      m := k - 1;
      OnlyAdditionsAdd(ExecCalls(calls[..m]), calls[m], key);
    }
  }

  lemma OnlyAdditionsAdd(s: System, c: Call, key: Key)
    requires key !in s.peers && key in PeersAfter(s, c)
    ensures Adds(s, c, key)
  {
  }

  /** A registered peer that the list misses is reaped whatever its age, if the device removes it and
      answers. */
  lemma MissingIsReaped(s: System, removals: set<Key>, answers: set<Key>, now: nat, key: Key)
    requires Inv(s.registry) && key in s.registry.registered && key !in s.captured
    ensures key !in Apply(s, ReapCall(removals, answers, now)).registry.registered
       <==> s.up && key in removals && key in answers
  {
    ReapedIff(s.registry, s.captured, AnswersOf(if s.up then removals * answers else {}), now, key);
  }

  /** A run of three calls at one instant: the list is queried, a peer registers, the reaper removes it. */
  lemma RacedPeerIsReaped(key: Key, server: Key, now: nat)
    ensures var calls := [QueryCall(map[]), RegisterCall(Bytes(key), Answer(Some(server), None), 2, true, true, now)];
            && LegalCalls(calls) && AllFaithful(calls)
            && key in ExecCalls(calls).registry.registered
            && key !in Apply(ExecCalls(calls), ReapCall({key}, {key}, now)).registry.registered
  {
    var (q, c) := (QueryCall(map[]), RegisterCall(Bytes(key), Answer(Some(server), None), 2, true, true, now));
    OneCall(q);
    TwoCalls(q, c);
    assert 2 in POOL;
    var s := Apply(START, q);
    assert AsksDevice(s.registry, c.text, c.info);
  }

  /** A run in which a peer registers, makes a handshake less than a second before the query, eleven
      minutes after registering, and is removed. */
  lemma ActivePeerIsReaped(key: Key, server: Key)
    ensures var calls := [RegisterCall(Bytes(key), Answer(Some(server), None), 2, true, true, 0),
                          QueryCall(map[key := 0])];
            && LegalCalls(calls) && AllFaithful(calls)
            && key in ExecCalls(calls).registry.registered
            && key !in Apply(ExecCalls(calls), ReapCall({key}, {key}, 660 * SECOND)).registry.registered
  {
    var (c, q) := (RegisterCall(Bytes(key), Answer(Some(server), None), 2, true, true, 0), QueryCall(map[key := 0]));
    OneCall(c);
    TwoCalls(c, q);
    assert 2 in POOL;
    assert AsksDevice(NEW, c.text, c.info);
    var s := Apply(Apply(START, c), q);
    assert s.captured == map[key := Some(0)];
    assert s.registry.registeredAt == map[key := 0];
  }

  lemma TwoCalls(c: Call, d: Call)
    ensures ExecCalls([c, d]) == Apply(Apply(START, c), d)
    ensures PicksFreeOctet(START, c) && PicksFreeOctet(Apply(START, c), d) ==> LegalCalls([c, d])
  {
    hide Apply, PicksFreeOctet;
    OneCall(c);
    assert [c, d][..0] == [] && [c, d][..1] == [c];
  }

  lemma OneCall(c: Call)
    ensures ExecCalls([c]) == Apply(START, c)
    ensures LegalCalls([c]) <==> PicksFreeOctet(START, c)
  {
    assert [c][..0] == [];
  }
}

/** The service's shared state, changed under its mutex. */
module Registration {
  import opened Wrappers
  import opened RegistrationSpec

  class RegistrationInner {
    var registeredPeers: set<Key>
    var availableIps: set<u8>
    var peerToOctet: map<Key, u8>
    var peerRegisteredAt: map<Key, nat>
    var serverPubkeyCache: Option<Key>
    var listenPortCache: Option<nat>

    function View(): Registry
      reads this
    {
      Registry(registeredPeers, availableIps, peerToOctet, peerRegisteredAt, serverPubkeyCache, listenPortCache)
    }

    constructor ()
      ensures View() == NEW
    {
      registeredPeers, peerToOctet, peerRegisteredAt := {}, map[], map[];
      serverPubkeyCache, listenPortCache := None, None;
      availableIps := {};
      new;
      var octet := 2;
      while octet <= 254
        invariant 2 <= octet <= 255
        invariant View() == NEW.(available := Octets(octet - 1))
      {
        availableIps := availableIps + {octet};
        octet := octet + 1;
      }
    }

    method HandleRegistration(text: KeyText, info: ServerInfo, accepted: bool, now: nat)
      returns (reply: Reply, ghost pick: u8)
      modifies this
      ensures old(availableIps) != {} ==> pick in old(availableIps)
      ensures (View(), reply) == Register(old(View()), text, info, pick, accepted, now)
    {
      pick := 0;
      if availableIps != {} {
        var o :| o in availableIps;
        pick := o;
      }
      if text.NotBase64? || |text.bytes| != 32 {
        return Status(400), pick;
      }
      var key: Key := text.bytes;
      if serverPubkeyCache.None? {
        match info
        case Unreachable => return Status(500), pick;
        case Answer(None, _) => return Status(503), pick;
        case Answer(Some(serverKey), port) => serverPubkeyCache, listenPortCache := Some(serverKey), port;
      }
      var port := if listenPortCache.Some? then listenPortCache.value else 51820;
      if key in registeredPeers && key in peerToOctet {
        return Success(peerToOctet[key], serverPubkeyCache.value, port), pick;
      }
      if availableIps == {} {
        return Status(503), pick;
      }
      var octet :| octet in availableIps;
      pick := octet;
      if accepted {
        availableIps := availableIps - {octet};
        registeredPeers := registeredPeers + {key};
        peerToOctet := peerToOctet[key := octet];
        peerRegisteredAt := peerRegisteredAt[key := now];
        reply := Success(octet, serverPubkeyCache.value, port);
      } else {
        reply := Status(500);
      }
    }

    method HandleUnregister(text: KeyText, answer: Removal) returns (reply: Reply)
      modifies this
      ensures (View(), reply) == Unregister(old(View()), text, answer)
    {
      if text.NotBase64? || |text.bytes| != 32 {
        return Status(400);
      }
      var key: Key := text.bytes;
      if key !in peerToOctet {
        return Status(404);
      }
      var octet := peerToOctet[key];
      if answer.Removed? {
        Remove(key, octet);
        reply := Ok200;
      } else {
        reply := Status(500);
      }
    }

    method Remove(key: Key, octet: u8)
      requires key in peerToOctet && peerToOctet[key] == octet
      modifies this
      ensures View() == Forget(old(View()), {key})
    {
      availableIps := availableIps + {octet};
      registeredPeers := registeredPeers - {key};
      peerToOctet := peerToOctet - {key};
      peerRegisteredAt := peerRegisteredAt - {key};
      assert (set k | k in {key} :: old(peerToOctet)[k]) == {octet};
    }

    method CheckStale(peers: Snapshot, key: Key, now: nat) returns (stale: bool)
      ensures stale == IsStale(View(), peers, key, now)
    {
      stale := false;
      if key in peers {
        if peers[key].Some? && peers[key].value > 0 {
          stale := peers[key].value > STALE_PEER_SECS;
        } else if key in peerRegisteredAt {
          stale := Age(now, peerRegisteredAt[key]) > STALE_NEVER_CONNECTED_SECS;
        }
      } else {
        stale := true;
      }
    }

    method FindStale(peers: Snapshot, now: nat) returns (toRemove: seq<(Key, u8)>)
      ensures Lists(toRemove, Stale(View(), peers, now), View())
    {
      hide IsStale, Lists;
      NoneListed(View());
      toRemove := [];
      var left := peerToOctet.Keys;
      ghost var found: set<Key> := {};
      while left != {}
        invariant left <= peerToOctet.Keys && found <= peerToOctet.Keys
        invariant forall k | k in peerToOctet :: k in found <==> k !in left && IsStale(View(), peers, k, now)
        invariant Lists(toRemove, found, View())
        decreases |left|
      {
        var key :| key in left;
        left := left - {key};
        var stale := CheckStale(peers, key, now);
        if stale {
          ListsOneMore(toRemove, found, View(), key);
          toRemove := toRemove + [(key, peerToOctet[key])];
          found := found + {key};
        }
      }
      assert found == Stale(View(), peers, now);
    }

    /** The reaper's critical section: find the stale peers, then remove those the device removes. */
    method ReapStale(peers: Snapshot, answers: Key -> Removal, now: nat)
      modifies this
      ensures View() == Reap(old(View()), peers, answers, now)
    {
      var toRemove := FindStale(peers, now);
      ghost var g := View();
      var i := 0;
      ghost var done: set<Key> := {};
      while i < |toRemove|
        invariant i <= |toRemove|
        invariant forall k :: k in done <==> k in Answered(toRemove[..i], answers)
        invariant done <= g.octetOf.Keys && View() == Forget(g, done)
      {
        var (key, octet) := toRemove[i];
        AnsweredOneMore(toRemove, i, answers);
        if answers(key).Removed? {
          assert key !in done;
          Remove(key, octet);
          ForgetMore(g, done, key);
          done := done + {key};
        }
        i := i + 1;
      }
      assert toRemove[..i] == toRemove;
      assert done == Reaped(g, peers, answers, now);
    }
  }

  /** Which listed peers the device removes. */
  ghost function Answered(list: seq<(Key, u8)>, answers: Key -> Removal): set<Key> {
    set i | 0 <= i < |list| && answers(list[i].0).Removed? :: list[i].0
  }

  lemma AnsweredOneMore(list: seq<(Key, u8)>, i: nat, answers: Key -> Removal)
    requires i < |list| && forall j, k | 0 <= j < k < |list| :: list[j].0 != list[k].0
    ensures Answered(list[..i + 1], answers)
         == Answered(list[..i], answers) + (if answers(list[i].0).Removed? then {list[i].0} else {})
    ensures list[i].0 !in Answered(list[..i], answers)
  {
    assert list[..i + 1] == list[..i] + [list[i]];
  }

  lemma NoneListed(g: Registry)
    ensures Lists([], {}, g)
  {
  }

  lemma ListsOneMore(list: seq<(Key, u8)>, keys: set<Key>, g: Registry, key: Key)
    requires Lists(list, keys, g) && key !in keys && key in g.octetOf
    ensures Lists(list + [(key, g.octetOf[key])], keys + {key}, g)
  {
    var more := list + [(key, g.octetOf[key])];
    forall k | k in keys + {key}
      ensures exists i :: 0 <= i < |more| && more[i].0 == k
    {
      if k == key {
        assert more[|list|].0 == k;
      } else {
        var i :| 0 <= i < |list| && list[i].0 == k;
        assert more[i].0 == k;
      }
    }
  }

  /** A list of different peers with their octets. */
  ghost predicate Lists(list: seq<(Key, u8)>, keys: set<Key>, g: Registry) {
    && (forall i | 0 <= i < |list| :: list[i].0 in keys && list[i].0 in g.octetOf && list[i].1 == g.octetOf[list[i].0])
    && (forall i, j | 0 <= i < j < |list| :: list[i].0 != list[j].0)
    && (forall k | k in keys :: exists i :: 0 <= i < |list| && list[i].0 == k)
  }

  lemma ForgetMore(g: Registry, done: set<Key>, key: Key)
    requires done <= g.octetOf.Keys && key in g.octetOf && key !in done
    ensures Forget(Forget(g, done), {key}) == Forget(g, done + {key})
  {
    var (a, b) := (Forget(Forget(g, done), {key}), Forget(g, done + {key}));
    assert a.available == b.available;
    assert a.octetOf == b.octetOf && a.registeredAt == b.registeredAt;
  }
}
