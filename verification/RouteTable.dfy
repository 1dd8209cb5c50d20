/** The VPN route table: peers' advertised prefixes folded into a conflict-free table that is
    searched front to back. The specification is longest-prefix match (RFC 4632, section 5.1)
    over the prefixes that exactly one live peer claims. */
module RouteTable {
  import opened Cidr
  import opened Wrappers

  type Hash = nat

  /** A peer as one call of `build` reads it. */
  datatype Peer = Peer(hash: Hash, tunnelIp: Ip, routeExpiresTs: nat, routes: seq<Ipv4Cidr>)

  /** The arguments of `build` other than the peers. */
  datatype Site = Site(now: nat, localHash: Hash, localTunnelIp: Ip)

  type Claim = (Ipv4Cidr, Hash)

  datatype Table = Table(tunnelIps: map<Ip, Hash>, subnets: seq<Claim>)

  // --- specification ---

  predicate Remote(p: Peer, site: Site) {
    p.hash != site.localHash
  }

  predicate Expired(p: Peer, site: Site) {
    p.routeExpiresTs != 0 && p.routeExpiresTs <= site.now
  }

  /** What one peer claims: nothing when it is ourselves or its routes have expired. */
  function PeerClaims(p: Peer, site: Site): set<Claim> {
    if Remote(p, site) && !Expired(p, site) then set r | r in p.routes :: (r, p.hash) else {}
  }

  function Claims(peers: seq<Peer>, site: Site): set<Claim> {
    set i, c | 0 <= i < |peers| && c in PeerClaims(peers[i], site) :: c
  }

  /** A claim survives when nobody else claims the same prefix and the prefix leaves our own
      tunnel address alone. */
  ghost predicate Survives(claims: set<Claim>, site: Site, c: Claim) {
    c in claims && !Contains(c.0, site.localTunnelIp) && forall d :: d in claims && d.0 == c.0 ==> d.1 == c.1
  }

  /** Longest-prefix match over the surviving claims. */
  ghost predicate LongestMatch(claims: set<Claim>, site: Site, ip: Ip, answer: Option<Hash>) {
    match answer
    case None =>
      forall c: Claim :: Survives(claims, site, c) ==> !Contains(c.0, ip)
    case Some(h) =>
      exists r: Ipv4Cidr :: Survives(claims, site, (r, h)) && Contains(r, ip) && NoLongerMatch(claims, site, ip, r.len)
  }

  ghost predicate NoLongerMatch(claims: set<Claim>, site: Site, ip: Ip, len: nat) {
    forall d: Claim :: Survives(claims, site, d) && Contains(d.0, ip) ==> d.0.len <= len
  }

  /** Remote peers answering for each tunnel address; on a shared address the later peer wins. */
  function TunnelIps(peers: seq<Peer>, site: Site): map<Ip, Hash> {
    if peers == [] then map[]
    else
      var p, before := peers[|peers| - 1], TunnelIps(peers[..|peers| - 1], site);
      if Remote(p, site) then before[p.tunnelIp := p.hash] else before
  }

  predicate SortedByLength(subnets: seq<Claim>) {
    forall i, j :: 0 <= i < j < |subnets| ==> subnets[i].0.len >= subnets[j].0.len
  }

  /** The tables `build` may return: map iteration order and the order of equal lengths are free. */
  ghost predicate BuiltFrom(t: Table, peers: seq<Peer>, site: Site) {
    && t.tunnelIps == TunnelIps(peers, site)
    && SortedByLength(t.subnets)
    && forall c: Claim :: c in t.subnets <==> Survives(Claims(peers, site), site, c)
  }

  /** First match, tunnel addresses before prefixes. */
  function FirstMatch(subnets: seq<Claim>, ip: Ip): Option<Hash> {
    if subnets == [] then None
    else if Contains(subnets[0].0, ip) then Some(subnets[0].1)
    else FirstMatch(subnets[1..], ip)
  }

  function Lookup(t: Table, ip: Ip): Option<Hash> {
    if ip in t.tunnelIps then Some(t.tunnelIps[ip]) else FirstMatch(t.subnets, ip)
  }

  // --- the code ---

  /** Where the two maps of `build` stand after the claims seen so far. */
  ghost predicate Tally(claims: set<Claim>, site: Site, claimed: map<Ipv4Cidr, Hash>, conflicts: set<Ipv4Cidr>) {
    && (forall c: Claim :: c in claims && !Contains(c.0, site.localTunnelIp) ==> c.0 in claimed)
    && (forall r: Ipv4Cidr :: r in claimed ==> !Contains(r, site.localTunnelIp) && (r, claimed[r]) in claims)
    && (forall r: Ipv4Cidr :: r in conflicts ==> r in claimed || Contains(r, site.localTunnelIp))
    && (forall r: Ipv4Cidr :: r in claimed ==>
          (r in conflicts <==> exists c: Claim :: c in claims && c.0 == r && c.1 != claimed[r]))
  }

  lemma TallyMeansSurvival(claims: set<Claim>, site: Site, claimed: map<Ipv4Cidr, Hash>, conflicts: set<Ipv4Cidr>,
      c: Claim)
    requires Tally(claims, site, claimed, conflicts)
    ensures Survives(claims, site, c) <==> c.0 in claimed && claimed[c.0] == c.1 && c.0 !in conflicts
  {
    if c.0 in claimed {
      assert (c.0, claimed[c.0]) in claims;
      assert c == (c.0, c.1);
    }
  }

  method RecordClaim(claimed: map<Ipv4Cidr, Hash>, conflicts: set<Ipv4Cidr>, route: Ipv4Cidr, hash: Hash, site: Site,
                     ghost claims: set<Claim>)
    returns (claimed': map<Ipv4Cidr, Hash>, conflicts': set<Ipv4Cidr>)
    requires Tally(claims, site, claimed, conflicts)
    ensures Tally(claims + {(route, hash)}, site, claimed', conflicts')
  {
    claimed', conflicts' := claimed, conflicts;
    ghost var claims' := claims + {(route, hash)};
    if Contains(route, site.localTunnelIp) {
      conflicts' := conflicts' + {route};
    } else if route in claimed && claimed[route] != hash {
      conflicts' := conflicts' + {route};
      assert (route, hash) in claims';
    } else if route !in claimed {
      claimed' := claimed'[route := hash];
    }
  }

  /** The stable descending sort by prefix length of the standard library. */
  function InsertByLength(c: Claim, sorted: seq<Claim>): (r: seq<Claim>)
    requires SortedByLength(sorted)
    ensures SortedByLength(r)
    ensures forall d :: d in r <==> d == c || d in sorted
  {
    if sorted == [] || c.0.len >= sorted[0].0.len then [c] + sorted
    else
      var tail := InsertByLength(c, sorted[1..]);
      HeadBeforeTail(sorted[0], tail, c, sorted);
      [sorted[0]] + tail
  }

  lemma HeadBeforeTail(head: Claim, tail: seq<Claim>, c: Claim, sorted: seq<Claim>)
    requires sorted != [] && head == sorted[0] && SortedByLength(sorted) && SortedByLength(tail) && c.0.len < head.0.len
    requires forall d :: d in tail <==> d == c || d in sorted[1..]
    ensures SortedByLength([head] + tail)
    ensures forall d :: d in [head] + tail <==> d == c || d in sorted
  {
    var r := [head] + tail;
    forall d
      ensures d in r <==> d == c || d in sorted
    {
      assert sorted == [head] + sorted[1..];
    }
    forall i, j | 0 <= i < j < |r|
      ensures r[i].0.len >= r[j].0.len
    {
      assert r[j] in tail;
    }
  }

  function SortByLength(subnets: seq<Claim>): (r: seq<Claim>)
    ensures SortedByLength(r)
    ensures forall d :: d in r <==> d in subnets
  {
    if subnets == [] then [] else
      assert forall d :: d in subnets <==> d == subnets[0] || d in subnets[1..];
      InsertByLength(subnets[0], SortByLength(subnets[1..]))
  }

  /** The inner loop of `build`: the routes of one live remote peer. */
  method RecordPeer(claimed: map<Ipv4Cidr, Hash>, conflicts: set<Ipv4Cidr>, peer: Peer, site: Site,
      ghost claims: set<Claim>)
    returns (claimed': map<Ipv4Cidr, Hash>, conflicts': set<Ipv4Cidr>)
    requires Tally(claims, site, claimed, conflicts) && Remote(peer, site) && !Expired(peer, site)
    ensures Tally(claims + PeerClaims(peer, site), site, claimed', conflicts')
  {
    claimed', conflicts' := claimed, conflicts;
    assert claims + RoutesOf(peer, 0) == claims;
    for j := 0 to |peer.routes|
      invariant Tally(claims + RoutesOf(peer, j), site, claimed', conflicts')
    {
      claimed', conflicts' := RecordClaim(claimed', conflicts', peer.routes[j], peer.hash, site,
          claims + RoutesOf(peer, j));
      assert claims + RoutesOf(peer, j + 1) == claims + RoutesOf(peer, j) + {(peer.routes[j], peer.hash)};
    }
    assert RoutesOf(peer, |peer.routes|) == PeerClaims(peer, site);
  }

  /** `RouteTable::build`: the peers come in any order, and so do the entries of the claimed map. */
  method Build(peers: seq<Peer>, site: Site) returns (t: Table)
    ensures BuiltFrom(t, peers, site)
  {
    var tunnelIps: map<Ip, Hash> := map[];
    var claimed: map<Ipv4Cidr, Hash> := map[];
    var conflicts: set<Ipv4Cidr> := {};
    for i := 0 to |peers|
      invariant tunnelIps == TunnelIps(peers[..i], site)
      invariant Tally(Claims(peers[..i], site), site, claimed, conflicts)
    {
      var peer := peers[i];
      assert peers[..i + 1][..i] == peers[..i];
      ClaimsOfSnoc(peers[..i], peer, site);
      assert peers[..i] + [peer] == peers[..i + 1];
      if peer.hash == site.localHash {
        continue;
      }
      tunnelIps := tunnelIps[peer.tunnelIp := peer.hash];
      if peer.routeExpiresTs != 0 && peer.routeExpiresTs <= site.now {
        continue;
      }
      claimed, conflicts := RecordPeer(claimed, conflicts, peer, site, Claims(peers[..i], site));
    }
    assert peers[..|peers|] == peers;
    var subnets := Collect(claimed, conflicts);
    t := Table(tunnelIps, SortByLength(subnets));
    forall c: Claim
      ensures c in t.subnets <==> Survives(Claims(peers, site), site, c)
    {
      TallyMeansSurvival(Claims(peers, site), site, claimed, conflicts, c);
    }
  }

  ghost function RoutesOf(peer: Peer, n: nat): set<Claim>
    requires n <= |peer.routes|
  {
    set r | r in peer.routes[..n] :: (r, peer.hash)
  }

  lemma ClaimsOfSnoc(peers: seq<Peer>, p: Peer, site: Site)
    ensures Claims(peers + [p], site) == Claims(peers, site) + PeerClaims(p, site)
  {
    var all := peers + [p];
    forall c | c in Claims(peers, site) + PeerClaims(p, site)
      ensures c in Claims(all, site)
    {
      if c in PeerClaims(p, site) {
        assert all[|peers|] == p;
      } else {
        var i :| 0 <= i < |peers| && c in PeerClaims(peers[i], site);
        assert all[i] == peers[i];
      }
    }
  }

  /** Drains the claimed map in whatever order it yields, keeping the unconflicted entries. */
  method Collect(claimed: map<Ipv4Cidr, Hash>, conflicts: set<Ipv4Cidr>) returns (subnets: seq<Claim>)
    ensures forall c: Claim :: c in subnets <==> c.0 in claimed && claimed[c.0] == c.1 && c.0 !in conflicts
  {
    subnets := [];
    var rest := claimed.Keys;
    while rest != {}
      invariant rest <= claimed.Keys
      invariant forall c: Claim :: c in subnets <==>
        c.0 in claimed && c.0 !in rest && claimed[c.0] == c.1 && c.0 !in conflicts
    {
      var r :| r in rest;
      rest := rest - {r};
      if r !in conflicts {
        subnets := subnets + [(r, claimed[r])];
      }
    }
  }

  /** `RouteTable::resolve`. */
  method Resolve(t: Table, ip: Ip) returns (answer: Option<Hash>)
    ensures answer == Lookup(t, ip)
  {
    if ip in t.tunnelIps {
      return Some(t.tunnelIps[ip]);
    }
    assert t.subnets[0..] == t.subnets;
    for i := 0 to |t.subnets|
      invariant FirstMatch(t.subnets, ip) == FirstMatch(t.subnets[i..], ip)
    {
      if Contains(t.subnets[i].0, ip) {
        return Some(t.subnets[i].1);
      }
    }
    answer := None;
  }

  /** `Router`: holds the current table; `swap` installs a freshly built one. */
  class Router {
    var table: Table

    constructor ()
      ensures table == Table(map[], [])
    {
      table := Table(map[], []);
    }

    method Snapshot() returns (t: Table)
      ensures t == table
    {
      t := table;
    }

    method Swap(next: Table)
      modifies this
      ensures table == next
    {
      table := next;
    }
  }

  // --- resolve is longest-prefix match ---

  lemma {:induction false} FirstMatchIsFirst(subnets: seq<Claim>, ip: Ip) returns (k: nat)
    ensures k <= |subnets| && forall i :: 0 <= i < k ==> !Contains(subnets[i].0, ip)
    ensures k < |subnets| ==> Contains(subnets[k].0, ip)
    ensures FirstMatch(subnets, ip) == if k < |subnets| then Some(subnets[k].1) else None
  {
    if subnets == [] || Contains(subnets[0].0, ip) {
      k := 0;
    } else {
      var k' := FirstMatchIsFirst(subnets[1..], ip);
      k := k' + 1;
    }
  }

  /** Whatever order the maps were drained in, the first match is the longest match. */
  lemma FirstMatchIsLongest(t: Table, peers: seq<Peer>, site: Site, ip: Ip)
    requires BuiltFrom(t, peers, site)
    ensures LongestMatch(Claims(peers, site), site, ip, FirstMatch(t.subnets, ip))
  {
    var claims := Claims(peers, site);
    var k := FirstMatchIsFirst(t.subnets, ip);
    if k == |t.subnets| {
      forall c: Claim | Survives(claims, site, c)
        ensures !Contains(c.0, ip)
      {
        assert c in t.subnets;
      }
    } else {
      var (r, h) := t.subnets[k];
      assert (r, h) in t.subnets;
      forall d: Claim | Survives(claims, site, d) && Contains(d.0, ip)
        ensures d.0.len <= r.len
      {
        assert d in t.subnets;
      }
      assert Survives(claims, site, (r, h)) && NoLongerMatch(claims, site, ip, r.len);
    }
  }

  /** At most one answer is a longest match: equal lengths that share an address are one prefix,
      and a surviving prefix has one claimant. */
  lemma LongestMatchIsUnique(claims: set<Claim>, site: Site, ip: Ip, a: Option<Hash>, b: Option<Hash>)
    requires LongestMatch(claims, site, ip, a) && LongestMatch(claims, site, ip, b)
    ensures a == b
  {
    if a.Some? && b.Some? {
      var r: Ipv4Cidr :| Survives(claims, site, (r, a.value)) && Contains(r, ip)
          && NoLongerMatch(claims, site, ip, r.len);
      var q: Ipv4Cidr :| Survives(claims, site, (q, b.value)) && Contains(q, ip)
          && NoLongerMatch(claims, site, ip, q.len);
      SameLengthOverlapIsEqual(r, q, ip);
    }
  }

  /** The chosen prefix is the most specific one: it lies inside every other surviving prefix that
      contains the address. */
  lemma LongestMatchIsMostSpecific(claims: set<Claim>, site: Site, ip: Ip, h: Hash) returns (r: Ipv4Cidr)
    requires LongestMatch(claims, site, ip, Some(h))
    ensures Survives(claims, site, (r, h)) && Contains(r, ip)
    ensures forall d: Claim, other: Ip :: Survives(claims, site, d) && Contains(d.0, ip) && Contains(r, other) ==>
        Contains(d.0, other)
  {
    r :| Survives(claims, site, (r, h)) && Contains(r, ip) && NoLongerMatch(claims, site, ip, r.len);
    forall d: Claim, other: Ip | Survives(claims, site, d) && Contains(d.0, ip) && Contains(r, other)
      ensures Contains(d.0, other)
    {
      LongerOverlapIsNested(d.0, r, ip, other);
    }
  }

  /** Away from tunnel addresses, resolving means longest-prefix match, and nothing else does. */
  lemma LookupIsLongestPrefixMatch(t: Table, peers: seq<Peer>, site: Site, ip: Ip, answer: Option<Hash>)
    requires BuiltFrom(t, peers, site)
    requires forall i :: 0 <= i < |peers| && Remote(peers[i], site) ==> peers[i].tunnelIp != ip
    ensures Lookup(t, ip) == answer <==> LongestMatch(Claims(peers, site), site, ip, answer)
  {
    TunnelIpsOwner(peers, site, ip);
    FirstMatchIsLongest(t, peers, site, ip);
    if LongestMatch(Claims(peers, site), site, ip, answer) {
      LongestMatchIsUnique(Claims(peers, site), site, ip, answer, Lookup(t, ip));
    }
  }

  /** A tunnel address belongs to the last remote peer that has it. */
  lemma {:induction false} TunnelIpsOwner(peers: seq<Peer>, site: Site, ip: Ip)
    ensures ip in TunnelIps(peers, site) <==>
        exists i :: 0 <= i < |peers| && Remote(peers[i], site) && peers[i].tunnelIp == ip
    ensures ip in TunnelIps(peers, site) ==>
      exists i :: LastRemoteAt(peers, site, ip, i) && TunnelIps(peers, site)[ip] == peers[i].hash
  {
    if peers != [] {
      var n := |peers| - 1;
      TunnelIpsOwner(peers[..n], site, ip);
      if Remote(peers[n], site) && peers[n].tunnelIp == ip {
        assert LastRemoteAt(peers, site, ip, n);
      } else if ip in TunnelIps(peers[..n], site) {
        var i :| LastRemoteAt(peers[..n], site, ip, i) && TunnelIps(peers[..n], site)[ip] == peers[..n][i].hash;
        assert LastRemoteAt(peers, site, ip, i);
      }
    }
  }

  ghost predicate LastRemoteAt(peers: seq<Peer>, site: Site, ip: Ip, i: int) {
    && 0 <= i < |peers| && Remote(peers[i], site) && peers[i].tunnelIp == ip
    && forall j :: i < j < |peers| && Remote(peers[j], site) ==> peers[j].tunnelIp != ip
  }

  /** At a remote peer's tunnel address the answer is the last such peer, whatever the prefixes say. */
  lemma LookupAtTunnelIp(t: Table, peers: seq<Peer>, site: Site, i: nat)
    requires BuiltFrom(t, peers, site) && i < |peers|
    requires LastRemoteAt(peers, site, peers[i].tunnelIp, i)
    ensures Lookup(t, peers[i].tunnelIp) == Some(peers[i].hash)
  {
    TunnelIpsOwner(peers, site, peers[i].tunnelIp);
    var k :| LastRemoteAt(peers, site, peers[i].tunnelIp, k)
        && TunnelIps(peers, site)[peers[i].tunnelIp] == peers[k].hash;
    assert k == i;
  }

  // --- the order of peers does not matter ---

  /** No two remote peers with different hashes share a tunnel address. */
  ghost predicate TunnelIpsUnambiguous(peers: seq<Peer>, site: Site) {
    forall p, q :: p in peers && q in peers && Remote(p, site) && Remote(q, site) && p.tunnelIp == q.tunnelIp
      ==> p.hash == q.hash
  }

  /** Every table built from every ordering of the peers resolves every address alike. */
  ghost predicate OrderFree(peers: seq<Peer>, site: Site) {
    forall reordered: seq<Peer>, t: Table, t': Table, ip: Ip ::
      multiset(reordered) == multiset(peers) && BuiltFrom(t, peers, site) && BuiltFrom(t', reordered, site)
        ==> Lookup(t, ip) == Lookup(t', ip)
  }

  lemma SamePeersSameMembers(a: seq<Peer>, b: seq<Peer>)
    requires multiset(a) == multiset(b)
    ensures forall p :: p in a <==> p in b
  {
    forall p
      ensures p in a <==> p in b
    {
      assert p in a <==> p in multiset(a);
      assert p in b <==> p in multiset(b);
    }
  }

  lemma SameMembersSameClaims(a: seq<Peer>, b: seq<Peer>, site: Site)
    requires forall p :: p in a ==> p in b
    ensures Claims(a, site) <= Claims(b, site)
  {
    forall c | c in Claims(a, site)
      ensures c in Claims(b, site)
    {
      var i :| 0 <= i < |a| && c in PeerClaims(a[i], site);
      assert a[i] in b;
      var j :| 0 <= j < |b| && b[j] == a[i];
    }
  }

  lemma ReorderedTunnelIps(a: seq<Peer>, b: seq<Peer>, site: Site, ip: Ip)
    requires forall p :: p in a <==> p in b
    requires TunnelIpsUnambiguous(a, site)
    ensures ip in TunnelIps(a, site) <==> ip in TunnelIps(b, site)
    ensures ip in TunnelIps(a, site) ==> TunnelIps(a, site)[ip] == TunnelIps(b, site)[ip]
  {
    TunnelIpsOwner(a, site, ip);
    TunnelIpsOwner(b, site, ip);
    if i :| 0 <= i < |a| && Remote(a[i], site) && a[i].tunnelIp == ip {
      assert a[i] in b;
    }
    if j :| 0 <= j < |b| && Remote(b[j], site) && b[j].tunnelIp == ip {
      assert b[j] in a;
    }
  }

  lemma ReorderedLookup(peers: seq<Peer>, reordered: seq<Peer>, site: Site, t: Table, t': Table, ip: Ip)
    requires TunnelIpsUnambiguous(peers, site)
    requires multiset(reordered) == multiset(peers)
    requires BuiltFrom(t, peers, site) && BuiltFrom(t', reordered, site)
    ensures Lookup(t, ip) == Lookup(t', ip)
  {
    SamePeersSameMembers(peers, reordered);
    SameMembersSameClaims(peers, reordered, site);
    SameMembersSameClaims(reordered, peers, site);
    ReorderedTunnelIps(peers, reordered, site, ip);
    FirstMatchIsLongest(t, peers, site, ip);
    FirstMatchIsLongest(t', reordered, site, ip);
    LongestMatchIsUnique(Claims(peers, site), site, ip, FirstMatch(t.subnets, ip), FirstMatch(t'.subnets, ip));
  }

  lemma {:induction false} SurvivorsCanBeSorted(claims: set<Claim>, site: Site, rest: set<Claim>)
      returns (subnets: seq<Claim>)
    ensures forall c: Claim :: c in subnets <==> c in rest && Survives(claims, site, c)
    decreases rest
  {
    if rest == {} {
      subnets := [];
    } else {
      var c :| c in rest;
      subnets := SurvivorsCanBeSorted(claims, site, rest - {c});
      if Survives(claims, site, c) {
        subnets := [c] + subnets;
      }
    }
  }

  lemma TableExists(peers: seq<Peer>, site: Site) returns (t: Table)
    ensures BuiltFrom(t, peers, site)
  {
    var claims := Claims(peers, site);
    var subnets := SurvivorsCanBeSorted(claims, site, claims);
    t := Table(TunnelIps(peers, site), SortByLength(subnets));
  }

  /** Moving a remote peer to the end makes it the owner of its tunnel address. */
  lemma MoveToEnd(peers: seq<Peer>, site: Site, i: nat) returns (reordered: seq<Peer>, t: Table)
    requires i < |peers| && Remote(peers[i], site)
    ensures multiset(reordered) == multiset(peers) && BuiltFrom(t, reordered, site)
    ensures Lookup(t, peers[i].tunnelIp) == Some(peers[i].hash)
  {
    reordered := peers[..i] + peers[i + 1..] + [peers[i]];
    assert peers == peers[..i] + [peers[i]] + peers[i + 1..];
    t := TableExists(reordered, site);
    LookupAtTunnelIp(t, reordered, site, |peers| - 1);
  }

  /** Resolution is independent of the order in which peers are enumerated exactly when tunnel
      addresses are unambiguous. */
  lemma OrderFreeIffUnambiguous(peers: seq<Peer>, site: Site)
    ensures OrderFree(peers, site) <==> TunnelIpsUnambiguous(peers, site)
  {
    if TunnelIpsUnambiguous(peers, site) {
      forall reordered: seq<Peer>, t: Table, t': Table, ip: Ip |
        multiset(reordered) == multiset(peers) && BuiltFrom(t, peers, site) && BuiltFrom(t', reordered, site)
        ensures Lookup(t, ip) == Lookup(t', ip)
      {
        ReorderedLookup(peers, reordered, site, t, t', ip);
      }
    } else {
      var p, q :| p in peers && q in peers && Remote(p, site) && Remote(q, site) && p.tunnelIp == q.tunnelIp
          && p.hash != q.hash;
      var i :| 0 <= i < |peers| && peers[i] == p;
      var j :| 0 <= j < |peers| && peers[j] == q;
      var a, ta := MoveToEnd(peers, site, i);
      var b, tb := MoveToEnd(peers, site, j);
      var t := TableExists(peers, site);
      assert Lookup(ta, p.tunnelIp) != Lookup(tb, p.tunnelIp);
      assert Lookup(t, p.tunnelIp) != Lookup(ta, p.tunnelIp) || Lookup(t, p.tunnelIp) != Lookup(tb, p.tunnelIp);
    }
  }

  // --- a new peer changes only what it touches ---

  lemma SurvivesElsewhere(claims: set<Claim>, more: set<Claim>, site: Site, c: Claim)
    requires forall d: Claim :: d in more ==> d.0 != c.0
    ensures Survives(claims, site, c) <==> Survives(claims + more, site, c)
  {
  }

  lemma LongestMatchElsewhere(claims: set<Claim>, more: set<Claim>, site: Site, ip: Ip, a: Option<Hash>)
    requires forall d: Claim :: d in more ==> !Contains(d.0, ip)
    requires LongestMatch(claims, site, ip, a)
    ensures LongestMatch(claims + more, site, ip, a)
  {
    forall c: Claim | Contains(c.0, ip)
      ensures Survives(claims, site, c) <==> Survives(claims + more, site, c)
    {
      SurvivesElsewhere(claims, more, site, c);
    }
  }

  /** Inserting a peer anywhere leaves every address outside its routes and other than its tunnel
      address resolving as before. */
  lemma NewPeerIsLocal(before: seq<Peer>, p: Peer, after: seq<Peer>, site: Site, t: Table, t': Table, ip: Ip)
    requires BuiltFrom(t, before + after, site) && BuiltFrom(t', before + [p] + after, site)
    requires ip != p.tunnelIp
    requires forall r: Ipv4Cidr :: r in p.routes ==> !Contains(r, ip)
    ensures Lookup(t, ip) == Lookup(t', ip)
  {
    var fewer, peers := before + after, before + [p] + after;
    TunnelIpsInsert(before, p, after, site, ip);
    assert Claims(peers, site) == Claims(fewer, site) + PeerClaims(p, site) by {
      SameMembersSameClaims(peers, fewer + [p], site);
      SameMembersSameClaims(fewer + [p], peers, site);
      ClaimsOfSnoc(fewer, p, site);
    }
    FirstMatchIsLongest(t, fewer, site, ip);
    FirstMatchIsLongest(t', peers, site, ip);
    LongestMatchElsewhere(Claims(fewer, site), PeerClaims(p, site), site, ip, FirstMatch(t.subnets, ip));
    LongestMatchIsUnique(Claims(peers, site), site, ip, FirstMatch(t.subnets, ip), FirstMatch(t'.subnets, ip));
  }

  lemma {:induction false} TunnelIpsInsert(before: seq<Peer>, p: Peer, after: seq<Peer>, site: Site, ip: Ip)
    requires ip != p.tunnelIp
    ensures ip in TunnelIps(before + after, site) <==> ip in TunnelIps(before + [p] + after, site)
    ensures ip in TunnelIps(before + after, site) ==>
      TunnelIps(before + after, site)[ip] == TunnelIps(before + [p] + after, site)[ip]
    decreases |after|
  {
    var fewer, peers := before + after, before + [p] + after;
    if after == [] {
      assert fewer == before && peers[..|peers| - 1] == before;
    } else {
      var n := |after| - 1;
      assert fewer[..|fewer| - 1] == before + after[..n];
      assert peers[..|peers| - 1] == before + [p] + after[..n];
      TunnelIpsInsert(before, p, after[..n], site, ip);
    }
  }
}
