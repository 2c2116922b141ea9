/** The table of networks that lead to each peer. */
module AllowedIps {
  import opened Wrappers
  import opened ByteStrings

  datatype Addr = V4(bits: nat) | V6(bits: nat)

  function Width(a: Addr): nat {
    if a.V4? then 32 else 128
  }

  /** Without the host bits. */
  function Truncate(bits: nat, host: nat): nat {
    if host == 0 then bits else Truncate(bits / 2, host - 1)
  }

  /** A network: address family, prefix length and the prefix without host bits. */
  datatype Network = Network(v6: bool, cidr: nat, prefix: nat)

  function NetworkOf(a: Addr, cidr: nat): Network
    requires cidr <= Width(a)
  {
    Network(a.V6?, cidr, Truncate(a.bits, Width(a) - cidr))
  }

  /** The entry of the longest network that contains the address. */
  function Find<D>(table: map<Network, D>, a: Addr, cidr: nat): Option<D>
    requires cidr <= Width(a)
    decreases cidr
  {
    if NetworkOf(a, cidr) in table then Some(table[NetworkOf(a, cidr)])
    else if cidr == 0 then None
    else Find(table, a, cidr - 1)
  }

  // What a network contains

  function Pow2(n: nat): (p: nat)
    ensures p > 0
  {
    if n == 0 then 1 else 2 * Pow2(n - 1)
  }

  /** The address is of the network's family and has its prefix in front of the host bits. */
  predicate Contains(n: Network, a: Addr) {
    n.v6 == a.V6? && n.cidr <= Width(a) && a.bits / Pow2(Width(a) - n.cidr) == n.prefix
  }

  lemma DivideTwice(n: nat, p: nat)
    requires p > 0
    ensures n / 2 / p == n / (2 * p)
  {
    var (q, r) := (n / 2 / p, n / 2 % p);
    assert n / 2 == q * p + r;
    assert n == q * (2 * p) + (2 * r + n % 2);
    assert 0 <= 2 * r + n % 2 < 2 * p;
    DivideUnique(n, 2 * p, q, 2 * r + n % 2);
  }

  lemma DivideUnique(n: nat, p: nat, q: nat, r: nat)
    requires p > 0 && n == q * p + r && r < p
    ensures n / p == q
  {
    assert (n / p - q) * p == r - n % p;
    Vanishes(n / p - q, p);
  }

  lemma Vanishes(d: int, p: nat)
    requires 0 - p < d * p < p
    ensures d == 0
  {
    assert d >= 1 ==> d * p >= p;
    assert d <= -1 ==> d * p <= 0 - p;
  }

  lemma {:induction false} TruncateDivides(bits: nat, host: nat)
    ensures Truncate(bits, host) == bits / Pow2(host)
  {
    if host > 0 {
      TruncateDivides(bits / 2, host - 1);
      DivideTwice(bits, Pow2(host - 1));
    }
  }

  /** The network of an address and a length contains exactly the addresses of its family that agree
      with it in front of the host bits. */
  lemma ContainsIff(b: Addr, cidr: nat, a: Addr)
    requires cidr <= Width(b)
    ensures Contains(NetworkOf(b, cidr), a)
       <==> a.V6? == b.V6? && a.bits / Pow2(Width(b) - cidr) == b.bits / Pow2(Width(b) - cidr)
  {
    TruncateDivides(b.bits, Width(b) - cidr);
  }

  /** The one network of a length that contains an address. */
  lemma ContainingNetwork(n: Network, a: Addr)
    ensures Contains(n, a) <==> n.cidr <= Width(a) && n == NetworkOf(a, n.cidr)
  {
    if n.cidr <= Width(a) {
      TruncateDivides(a.bits, Width(a) - n.cidr);
    }
  }

  function Bit(n: nat, i: nat): nat {
    n / Pow2(i) % 2
  }

  lemma OneBit(n: nat, i: nat)
    ensures n / Pow2(i) == 2 * (n / Pow2(i + 1)) + Bit(n, i)
  {
    var p := Pow2(i);
    var (q, r) := (n / p, n % p);
    var (h, b) := (q / 2, q % 2);
    assert n == q * p + r && q == 2 * h + b;
    assert n == h * (2 * p) + (b * p + r);
    assert b * p + r < 2 * p by {
      assert b == 0 || b == 1;
    }
    DivideUnique(n, 2 * p, h, b * p + r);
  }

  lemma {:induction false} SameBits(x: nat, y: nat, i: nat, w: nat)
    requires i <= w && x < Pow2(w) && y < Pow2(w)
    ensures x / Pow2(i) == y / Pow2(i) <==> forall j | i <= j < w :: Bit(x, j) == Bit(y, j)
    decreases w - i
  {
    if i < w {
      SameBits(x, y, i + 1, w);
      OneBit(x, i);
      OneBit(y, i);
      hide Bit, Pow2;
      assert (forall j | i <= j < w :: Bit(x, j) == Bit(y, j))
        <==> Bit(x, i) == Bit(y, i) && forall j | i + 1 <= j < w :: Bit(x, j) == Bit(y, j);
      BitIsSmall(x, i);
      BitIsSmall(y, i);
    } else {
      DivideUnique(x, Pow2(w), 0, x);
      DivideUnique(y, Pow2(w), 0, y);
    }
  }

  lemma BitIsSmall(n: nat, i: nat)
    ensures Bit(n, i) < 2
  {
  }

  /** Bit by bit: a network contains an address exactly if both are of one family and agree in their
      first bits, as many as the network's length says. */
  lemma ContainsBitwise(b: Addr, cidr: nat, a: Addr)
    requires cidr <= Width(b) && b.bits < Pow2(Width(b)) && a.bits < Pow2(Width(a))
    ensures Contains(NetworkOf(b, cidr), a)
       <==> a.V6? == b.V6? && forall i | Width(b) - cidr <= i < Width(b) :: Bit(a.bits, i) == Bit(b.bits, i)
  {
    ContainsIff(b, cidr, a);
    if a.V6? == b.V6? {
      SameBits(a.bits, b.bits, Width(b) - cidr, Width(b));
    }
  }

  lemma {:induction false} Pow2Pow256(m: nat)
    ensures Pow2(8 * m) == Pow256(m)
  {
    if m > 0 {
      Pow2Pow256(m - 1);
      var n := 8 * (m - 1);
      assert Pow2(n + 2) == 4 * Pow2(n);
      assert Pow2(n + 4) == 4 * Pow2(n + 2);
      assert Pow2(n + 6) == 4 * Pow2(n + 4);
      assert Pow2(n + 8) == 4 * Pow2(n + 6);
    }
  }

  lemma {:induction false} DropOctets(s: seq<u8>, k: nat)
    requires k <= |s|
    ensures FromBe(s) / Pow256(|s| - k) == FromBe(s[..k])
  {
    if k == |s| {
      assert s[..k] == s;
    } else {
      var front := s[..|s| - 1];
      DropOctets(front, k);
      assert front[..k] == s[..k];
      var (n, p) := (FromBe(s), Pow256(|s| - k - 1));
      assert n / 256 == FromBe(front) by {
        DivideUnique(n, 256, FromBe(front), s[|s| - 1]);
      }
      DivideBoth(n, 256, p);
    }
  }

  lemma DivideBoth(n: nat, m: nat, p: nat)
    requires m > 0 && p > 0
    ensures m * p > 0 && n / m / p == n / (m * p)
  {
    var (q, r) := (n / m / p, n / m % p);
    assert n / m == q * p + r;
    assert n == q * (m * p) + (r * m + n % m);
    assert r * m + n % m < m * p by {
      assert (r + 1) * m <= p * m;
    }
    DivideUnique(n, m * p, q, r * m + n % m);
  }

  /** In octets: the network of the first k octets of an address contains exactly the addresses that begin
      with them. */
  lemma ContainsOctets(s: seq<u8>, k: nat, a: seq<u8>)
    requires k <= |s| == |a| && (|s| == 4 || |s| == 16)
    ensures var (b, c) := if |s| == 4 then (V4(FromBe(s)), V4(FromBe(a))) else (V6(FromBe(s)), V6(FromBe(a)));
            Contains(NetworkOf(b, 8 * k), c) <==> a[..k] == s[..k]
  {
    hide Contains, NetworkOf, Pow2, Pow256, FromBe;
    var (b, c) := if |s| == 4 then (V4(FromBe(s)), V4(FromBe(a))) else (V6(FromBe(s)), V6(FromBe(a)));
    ContainsIff(b, 8 * k, c);
    Pow2Pow256(|s| - k);
    DropOctets(s, k);
    DropOctets(a, k);
    BeInverse(s[..k]);
    BeInverse(a[..k]);
  }

  // The longest match

  ghost predicate LongestMatch<D>(table: map<Network, D>, a: Addr, n: Network) {
    && n in table && Contains(n, a)
    && forall m | m in table && Contains(m, a) :: m.cidr <= n.cidr
  }

  lemma {:induction false} FindWithin<D>(table: map<Network, D>, a: Addr, cidr: nat)
    requires cidr <= Width(a)
    ensures Find(table, a, cidr).None? <==> forall c | 0 <= c <= cidr :: NetworkOf(a, c) !in table
    ensures Find(table, a, cidr).Some? ==>
              exists c :: 0 <= c <= cidr && NetworkOf(a, c) in table
                  && Find(table, a, cidr) == Some(table[NetworkOf(a, c)])
                          && forall longer | c < longer <= cidr :: NetworkOf(a, longer) !in table
  {
    hide NetworkOf;
    if NetworkOf(a, cidr) in table {
      assert Find(table, a, cidr) == Some(table[NetworkOf(a, cidr)]);
    } else if cidr > 0 {
      FindWithin(table, a, cidr - 1);
    }
  }

  /** The table finds nothing exactly if there is no entry whose prefix the address has. */
  lemma FindsNothingIff<D>(table: map<Network, D>, a: Addr)
    ensures Find(table, a, Width(a)).None? <==> forall n | n in table :: !Contains(n, a)
  {
    FindWithin(table, a, Width(a));
    forall n {
      ContainingNetwork(n, a);
    }
    hide Find, NetworkOf, Contains;
    forall c | 0 <= c <= Width(a)
      ensures Contains(NetworkOf(a, c), a)
    {
      OwnNetwork(a, c);
    }
  }

  /** Of the entries whose prefix the address has, the table finds the one with most bits. */
  lemma FindIsLongestMatch<D>(table: map<Network, D>, a: Addr, d: D)
    ensures Find(table, a, Width(a)) == Some(d) <==> exists n :: LongestMatch(table, a, n) && table[n] == d
  {
    FindWithin(table, a, Width(a));
    FindsNothingIff(table, a);
    forall n {
      ContainingNetwork(n, a);
    }
    hide Find, NetworkOf, Contains;
    forall c | 0 <= c <= Width(a)
      ensures Contains(NetworkOf(a, c), a) && NetworkOf(a, c).cidr == c
    {
      OwnNetwork(a, c);
    }
    if Find(table, a, Width(a)).Some? {
      var c :| 0 <= c <= Width(a) && NetworkOf(a, c) in table
          && Find(table, a, Width(a)) == Some(table[NetworkOf(a, c)])
               && forall longer | c < longer <= Width(a) :: NetworkOf(a, longer) !in table;
      assert LongestMatch(table, a, NetworkOf(a, c));
      forall n | LongestMatch(table, a, n)
        ensures n == NetworkOf(a, c)
      {
        assert n == NetworkOf(a, n.cidr);
      }
    }
  }

  lemma OwnNetwork(a: Addr, c: nat)
    requires c <= Width(a)
    ensures Contains(NetworkOf(a, c), a) && NetworkOf(a, c).cidr == c
  {
    ContainingNetwork(NetworkOf(a, c), a);
  }

  /** The table after the networks of a new peer were entered one after the other. */
  function InsertAll<D>(table: map<Network, D>, allowed: seq<(Addr, nat)>, d: D): map<Network, D>
    requires forall k | 0 <= k < |allowed| :: allowed[k].1 <= Width(allowed[k].0)
  {
    if allowed == [] then table
    else
      var last := |allowed| - 1;
      InsertAll(table, allowed[..last], d)[NetworkOf(allowed[last].0, allowed[last].1) := d]
  }
}

/** Which peer may send from an address, and which peer receives what is sent to it. Each peer has a
    list of networks of its own, which nobody changes; the device has one table for all. */
module Routing {
  import opened Wrappers
  import opened Crypto
  import opened AllowedIps

  datatype Table = Table(allowed: map<Bytes, set<Network>>, routes: map<Network, Bytes>)

  const EMPTY: Table := Table(map[], map[])

  datatype Change =
    | Add(key: Bytes, networks: set<Network>)
    | Remove(key: Bytes)
    | Clear

  /** Adding a peer the device already has is a panic, and enters nothing. */
  function Apply(t: Table, c: Change): Table {
    match c
    case Add(key, networks) =>
      if key in t.allowed then t
      else Table(t.allowed[key := networks], t.routes + map n | n in networks :: key)
    case Remove(key) => Table(t.allowed - {key}, map n | n in t.routes && t.routes[n] != key :: t.routes[n])
    case Clear => EMPTY
  }

  function Exec(changes: seq<Change>): Table {
    if changes == [] then EMPTY else Apply(Exec(changes[..|changes| - 1]), changes[|changes| - 1])
  }

  /** The device lets a peer send from an address that one of its own networks contains. */
  ghost predicate MaySend(t: Table, key: Bytes, a: Addr) {
    key in t.allowed && exists n :: n in t.allowed[key] && Contains(n, a)
  }

  /** The k-th change adds a peer, and with it a claim to a network. */
  ghost predicate Claims(changes: seq<Change>, k: nat, n: Network, key: Bytes) {
    && k < |changes| && changes[k].Add? && changes[k].key == key && n in changes[k].networks
    && key !in Exec(changes[..k]).allowed
  }

  /** A claim ends when the peer is removed, or when another peer claims the network. */
  ghost predicate Ends(changes: seq<Change>, j: nat, n: Network, key: Bytes) {
    && j < |changes|
    && (changes[j] == Remove(key) || changes[j].Clear? || exists other :: Claims(changes, j, n, other))
  }

  ghost predicate Stands(changes: seq<Change>, k: nat, n: Network, key: Bytes) {
    Claims(changes, k, n, key) && forall j: nat | k < j < |changes| :: !Ends(changes, j, n, key)
  }

  lemma SameBefore(changes: seq<Change>, k: nat, n: Network, key: Bytes)
    requires k + 1 < |changes|
    ensures var before := changes[..|changes| - 1];
            && (Claims(changes, k, n, key) <==> Claims(before, k, n, key))
            && (Ends(changes, k, n, key) <==> Ends(before, k, n, key))
  {
    hide Exec;
    var before := changes[..|changes| - 1];
    assert before[..k] == changes[..k];
    assert forall other :: Claims(changes, k, n, other) <==> Claims(before, k, n, other);
  }

  /** A network leads to a peer exactly if a claim of that peer to it stands. */
  lemma {:induction false} RoutesIff(changes: seq<Change>, n: Network, key: Bytes)
    ensures n in Exec(changes).routes && Exec(changes).routes[n] == key <==> exists k: nat :: Stands(changes, k, n, key)
  {
    if changes != [] {
      var last := |changes| - 1;
      var before := changes[..last];
      RoutesIff(before, n, key);
      forall k: nat | k < last
        ensures Stands(changes, k, n, key) <==> Stands(before, k, n, key) && !Ends(changes, last, n, key)
      {
        StandsOn(changes, k, n, key);
      }
      LastChange(changes, n, key);
      hide Exec, Claims, Ends;
    }
  }

  lemma StandsOn(changes: seq<Change>, k: nat, n: Network, key: Bytes)
    requires k + 1 < |changes|
    ensures Stands(changes, k, n, key) <==>
              && Stands(changes[..|changes| - 1], k, n, key)
              && !Ends(changes, |changes| - 1, n, key)
  {
    hide Exec, Claims, Ends;
    var before := changes[..|changes| - 1];
    forall j: nat | k <= j < |before|
      ensures Claims(changes, j, n, key) <==> Claims(before, j, n, key)
      ensures Ends(changes, j, n, key) <==> Ends(before, j, n, key)
    {
      SameBefore(changes, j, n, key);
    }
  }

  lemma LastChange(changes: seq<Change>, n: Network, key: Bytes)
    requires changes != []
    ensures var last := |changes| - 1;
            var (s, t) := (Exec(changes[..last]).routes, Exec(changes).routes);
            && (n in t && t[n] == key
                <==> Claims(changes, last, n, key) || (n in s && s[n] == key && !Ends(changes, last, n, key)))
            && (Stands(changes, last, n, key) <==> Claims(changes, last, n, key))
  {
    var last := |changes| - 1;
    var c := changes[last];
    if c.Add? {
      assert Claims(changes, last, n, c.key) <==> n in c.networks && c.key !in Exec(changes[..last]).allowed;
    }
  }

  // Answers to a sender

  /** Where what is sent to an address goes: along the longest network that leads anywhere. */
  function RouteTo(t: Table, a: Addr): Option<Bytes> {
    Find(t.routes, a, Width(a))
  }

  ghost predicate LongestClaim(changes: seq<Change>, a: Addr, n: Network, key: Bytes) {
    && Contains(n, a) && (exists k: nat :: Stands(changes, k, n, key))
    && forall m, other, k: nat | Contains(m, a) && Stands(changes, k, m, other) :: m.cidr <= n.cidr
  }

  /** In every run: what is sent to an address goes to a peer exactly if, of all the claims that stand
      to networks containing the address, the one to the longest network is that peer's. So a peer
      that may send from an address gets the answers exactly under this condition. */
  lemma RoutesBackIff(changes: seq<Change>, a: Addr, key: Bytes)
    ensures RouteTo(Exec(changes), a) == Some(key) <==> exists n :: LongestClaim(changes, a, n, key)
  {
    hide Exec, Find, Stands, Contains;
    var routes := Exec(changes).routes;
    FindIsLongestMatch(routes, a, key);
    forall n
      ensures LongestMatch(routes, a, n) && routes[n] == key <==> LongestClaim(changes, a, n, key)
    {
      RoutesIff(changes, n, key);
      if LongestMatch(routes, a, n) && routes[n] == key {
        forall m, other, k: nat | Contains(m, a) && Stands(changes, k, m, other)
          ensures m.cidr <= n.cidr
        {
          RoutesIff(changes, m, other);
        }
      }
      if LongestClaim(changes, a, n, key) {
        forall m | m in routes && Contains(m, a)
          ensures m.cidr <= n.cidr
        {
          RoutesIff(changes, m, routes[m]);
        }
      }
    }
  }

  /** If no two peers ever claim networks that share an address, every peer that may send from an
      address also gets the answers. */
  lemma DisjointClaimsRouteBack(changes: seq<Change>, a: Addr, key: Bytes)
    requires MaySend(Exec(changes), key, a)
    requires forall m, other, k: nat | Contains(m, a) && Claims(changes, k, m, other) :: other == key
    ensures RouteTo(Exec(changes), a) == Some(key)
  {
    hide Find, RouteTo;
    var n :| n in Exec(changes).allowed[key] && Contains(n, a);
    AllowedIsRouted(changes, a, n, key);
    hide Exec, Contains;
    FindsNothingIff(Exec(changes).routes, a);
    FindsSomething(changes, a, key);
  }

  lemma FindsSomething(changes: seq<Change>, a: Addr, key: Bytes)
    requires Find(Exec(changes).routes, a, Width(a)).Some?
    requires forall m, other, k: nat | Contains(m, a) && Claims(changes, k, m, other) :: other == key
    ensures RouteTo(Exec(changes), a) == Some(key)
  {
    hide Exec, Find, Claims, Contains;
    var other := Find(Exec(changes).routes, a, Width(a)).value;
    RoutesBackIff(changes, a, other);
    var n :| LongestClaim(changes, a, n, other);
    var k: nat :| Stands(changes, k, n, other);
  }

  /** A peer's own networks lead to it as long as nobody else claims one that contains the address. */
  lemma {:induction false} AllowedIsRouted(changes: seq<Change>, a: Addr, n: Network, key: Bytes)
    requires Contains(n, a) && key in Exec(changes).allowed && n in Exec(changes).allowed[key]
    requires forall m, other, k: nat | Contains(m, a) && Claims(changes, k, m, other) :: other == key
    ensures n in Exec(changes).routes && Exec(changes).routes[n] == key
  {
    var last := |changes| - 1;
    var before := changes[..last];
    var (t, c) := (Exec(before), changes[last]);
    forall m, other, k: nat | Contains(m, a) && Claims(before, k, m, other)
      ensures other == key
    {
      SameBefore(changes, k, m, other);
    }
    if c.Add? && c.key !in t.allowed && n in c.networks {
      assert Claims(changes, last, n, c.key);
    }
    if key in t.allowed && n in t.allowed[key] {
      AllowedIsRouted(before, a, n, key);
    }
  }

  /** Two peers of one network, and the second one is removed: the first may still send from its
      addresses, and nothing sent there reaches anybody. */
  lemma TakenOverThenGone(key: Bytes, other: Bytes, n: Network, a: Addr)
    requires key != other && Contains(n, a)
    ensures var t := Exec([Add(key, {n}), Add(other, {n})]);
            MaySend(t, key, a) && MaySend(t, other, a) && RouteTo(t, a) == Some(other)
    ensures var t := Exec([Add(key, {n}), Add(other, {n}), Remove(other)]);
            MaySend(t, key, a) && RouteTo(t, a).None?
  {
    var (c, d, e) := (Add(key, {n}), Add(other, {n}), Remove(other));
    assert [c, d, e][..2] == [c, d] && [c, d][..1] == [c] && [c][..0] == [];
    var t := Apply(Apply(EMPTY, c), d);
    assert t.routes == map[n := other] && Apply(t, e).routes == map[];
    assert Exec([c]) == Apply(EMPTY, c);
    assert Exec([c, d]) == t;
    assert n in t.allowed[key] && n in t.allowed[other];
    OnlyRoute(t.routes, n, a, other);
    FindsNothingIff<Bytes>(map[], a);
  }

  lemma OnlyRoute(routes: map<Network, Bytes>, n: Network, a: Addr, key: Bytes)
    requires routes == map[n := key] && Contains(n, a)
    ensures Find(routes, a, Width(a)) == Some(key)
  {
    hide Find, Contains;
    FindIsLongestMatch(routes, a, key);
    assert LongestMatch(routes, a, n);
  }
}

