/** Longest-prefix resolution stated over the peers' own fields. */
module RoutesByPeers {
  import opened Cidr
  import opened RouteTable
  import opened Wrappers

  /** A peer other than ourselves, with routes that never expire or have not yet, advertises the prefix. */
  predicate Offers(p: Peer, site: Site, r: Ipv4Cidr) {
    p.hash != site.localHash && (p.routeExpiresTs == 0 || site.now < p.routeExpiresTs) && r in p.routes
  }

  /** The prefix is offered by peers of this hash and nobody else, and leaves our tunnel address alone. */
  ghost predicate Owned(peers: seq<Peer>, site: Site, r: Ipv4Cidr, h: Hash) {
    && (exists i :: 0 <= i < |peers| && Offers(peers[i], site, r) && peers[i].hash == h)
    && (forall i :: 0 <= i < |peers| && Offers(peers[i], site, r) ==> peers[i].hash == h)
    && !Around(r, site.localTunnelIp)
  }

  /** The address is one of the prefix's, from the first to the last. */
  predicate Around(r: Ipv4Cidr, ip: Ip) {
    r.addr <= ip < r.addr + Pow2(32 - r.len)
  }

  /** Such a prefix of h around the address, and no longer one around it is owned by anybody. */
  ghost predicate BestOwned(peers: seq<Peer>, site: Site, ip: Ip, r: Ipv4Cidr, h: Hash) {
    && Owned(peers, site, r, h) && Around(r, ip)
    && forall q: Ipv4Cidr, g: Hash :: Owned(peers, site, q, g) && Around(q, ip) ==> q.len <= r.len
  }

  lemma OwnedMeansSurvival(peers: seq<Peer>, site: Site, r: Ipv4Cidr, h: Hash)
    ensures Owned(peers, site, r, h) <==> Survives(Claims(peers, site), site, (r, h))
  {
    var claims := Claims(peers, site);
    forall g: Hash
      ensures (r, g) in claims <==> exists i :: 0 <= i < |peers| && Offers(peers[i], site, r) && peers[i].hash == g
    {
      if (r, g) in claims {
        var i :| 0 <= i < |peers| && (r, g) in PeerClaims(peers[i], site);
        assert Offers(peers[i], site, r);
      }
      if i :| 0 <= i < |peers| && Offers(peers[i], site, r) && peers[i].hash == g {
        assert (r, g) in PeerClaims(peers[i], site);
      }
    }
    if Survives(claims, site, (r, h)) {
      forall i | 0 <= i < |peers| && Offers(peers[i], site, r)
        ensures peers[i].hash == h
      {
        assert (r, peers[i].hash) in claims;
      }
    }
    if Owned(peers, site, r, h) {
      forall d | d in claims && d.0 == r
        ensures d.1 == h
      {
        assert (r, d.1) in claims;
      }
    }
  }

  /** Away from other peers' tunnel addresses the answer is h exactly if h owns a prefix around the
      address that is no shorter than any other owned one, and nothing exactly if none is owned. */
  lemma LookupOverPeers(t: Table, peers: seq<Peer>, site: Site, ip: Ip, h: Hash)
    requires BuiltFrom(t, peers, site)
    requires forall i :: 0 <= i < |peers| && peers[i].hash != site.localHash ==> peers[i].tunnelIp != ip
    ensures Lookup(t, ip) == Some(h) <==>
      exists r: Ipv4Cidr :: BestOwned(peers, site, ip, r, h)
    ensures Lookup(t, ip) == None <==>
      forall q: Ipv4Cidr, g: Hash :: Owned(peers, site, q, g) ==> !Around(q, ip)
  {
    var claims := Claims(peers, site);
    forall r: Ipv4Cidr, g: Hash
      ensures Owned(peers, site, r, g) <==> Survives(claims, site, (r, g))
    {
      OwnedMeansSurvival(peers, site, r, g);
    }
    LookupIsLongestPrefixMatch(t, peers, site, ip, Some(h));
    LookupIsLongestPrefixMatch(t, peers, site, ip, None);
    MatchOverPeers(peers, site, ip, h);
    if LongestMatch(claims, site, ip, None) {
      forall q: Ipv4Cidr, g: Hash | Owned(peers, site, q, g)
        ensures !Around(q, ip)
      {
        assert Survives(claims, site, (q, g));
      }
    } else {
      var c: Claim :| Survives(claims, site, c) && Contains(c.0, ip);
      assert Owned(peers, site, c.0, c.1);
    }
  }

  lemma MatchOverPeers(peers: seq<Peer>, site: Site, ip: Ip, h: Hash)
    ensures LongestMatch(Claims(peers, site), site, ip, Some(h)) <==>
      exists r: Ipv4Cidr :: BestOwned(peers, site, ip, r, h)
  {
    var claims := Claims(peers, site);
    forall r: Ipv4Cidr, g: Hash
      ensures Owned(peers, site, r, g) <==> Survives(claims, site, (r, g))
    {
      OwnedMeansSurvival(peers, site, r, g);
    }
    if LongestMatch(claims, site, ip, Some(h)) {
      var r: Ipv4Cidr :| Survives(claims, site, (r, h)) && Contains(r, ip) && NoLongerMatch(claims, site, ip, r.len);
      forall q: Ipv4Cidr, g: Hash | Owned(peers, site, q, g) && Around(q, ip)
        ensures q.len <= r.len
      {
        assert Survives(claims, site, (q, g)) && Contains((q, g).0, ip);
      }
      assert BestOwned(peers, site, ip, r, h);
    }
    if r: Ipv4Cidr :| BestOwned(peers, site, ip, r, h) {
      forall d: Claim | Survives(claims, site, d) && Contains(d.0, ip)
        ensures d.0.len <= r.len
      {
        assert Owned(peers, site, d.0, d.1);
      }
      assert Survives(claims, site, (r, h)) && Contains(r, ip) && NoLongerMatch(claims, site, ip, r.len);
    }
  }

  /** At another peer's tunnel address the last such peer answers. */
  lemma TunnelAddressOverPeers(t: Table, peers: seq<Peer>, site: Site, i: nat)
    requires BuiltFrom(t, peers, site) && i < |peers| && peers[i].hash != site.localHash
    requires forall j :: i < j < |peers| && peers[j].hash != site.localHash ==> peers[j].tunnelIp != peers[i].tunnelIp
    ensures Lookup(t, peers[i].tunnelIp) == Some(peers[i].hash)
  {
    LookupAtTunnelIp(t, peers, site, i);
  }
}
