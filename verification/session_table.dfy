/**
 * The server's session table (sessman) on values. An entry is known by its number in the order of
 * creation; entries are never forgotten, only dropped from the three indexes.
 */
module SessionTable {
  import opened Prelude
  import opened Crypto

  /** A source endpoint in its textual form, "ip:port". */
  type UdpKey = string

  /** A valid netip.Addr; an invalid one is None. */
  datatype Addr = V4(octets: seq<byte>) | V6(octets: seq<byte>)

  datatype EntryState = EntryState(peer: Term, udp: UdpKey, tunIP: Option<Addr>)

  datatype Table = Table(
    entries: seq<EntryState>, byUDP: map<UdpKey, nat>, byTunIP: map<Addr, nat>, byPeer: map<Term, nat>)

  const EMPTY_TABLE := Table([], map[], map[], map[])

  predicate InRange(t: Table) {
    && (forall k | k in t.byUDP :: t.byUDP[k] < |t.entries|)
    && (forall ip | ip in t.byTunIP :: t.byTunIP[ip] < |t.entries|)
    && (forall p | p in t.byPeer :: t.byPeer[p] < |t.entries|)
  }

  function WithoutAddr(m: map<Addr, nat>, a: Option<Addr>): map<Addr, nat> {
    if a.Some? then m - {a.value} else m
  }

  /** An entry with the same UDP key is replaced. */
  function Put(t: Table, udp: UdpKey, peer: Term): Table
    requires InRange(t)
  {
    var id := |t.entries|;
    var t' := if udp in t.byUDP
              then var evicted := t.entries[t.byUDP[udp]];
                   t.(byTunIP := WithoutAddr(t.byTunIP, evicted.tunIP), byPeer := t.byPeer - {evicted.peer})
              else t;
    t'.(entries := t.entries + [EntryState(peer, udp, None)],
        byUDP := t'.byUDP[udp := id],
        byPeer := t'.byPeer[peer := id])
  }

  function BindTunIP(t: Table, id: nat, ip: Addr): Table
    requires id < |t.entries|
  {
    var e := t.entries[id];
    var byTunIP := if e.tunIP.Some? && e.tunIP.value != ip then t.byTunIP - {e.tunIP.value} else t.byTunIP;
    t.(entries := t.entries[id := e.(tunIP := Some(ip))], byTunIP := byTunIP[ip := id])
  }

  function Remove(t: Table, id: nat): Table
    requires id < |t.entries|
  {
    var e := t.entries[id];
    t.(byUDP := t.byUDP - {e.udp}, byTunIP := WithoutAddr(t.byTunIP, e.tunIP), byPeer := t.byPeer - {e.peer})
  }

  function Lookup<K>(m: map<K, nat>, k: K): Option<nat> {
    if k in m then Some(m[k]) else None
  }

  /* Invariant */

  predicate Live(t: Table, id: nat) {
    id < |t.entries| && t.entries[id].udp in t.byUDP && t.byUDP[t.entries[id].udp] == id
  }

  /** The UDP and the peer index are two views of one set of live entries; bound addresses are those entries'. */
  predicate Inv(t: Table) {
    && InRange(t)
    && (forall k | k in t.byUDP :: UdpOk(t, k))
    && (forall p | p in t.byPeer :: PeerOk(t, p))
    && (forall ip | ip in t.byTunIP :: AddrOk(t, ip))
  }

  predicate UdpOk(t: Table, k: UdpKey)
    requires InRange(t) && k in t.byUDP
  {
    var e := t.entries[t.byUDP[k]];
    e.udp == k && e.peer in t.byPeer && t.byPeer[e.peer] == t.byUDP[k]
  }

  predicate PeerOk(t: Table, p: Term)
    requires InRange(t) && p in t.byPeer
  {
    var e := t.entries[t.byPeer[p]];
    e.peer == p && e.udp in t.byUDP && t.byUDP[e.udp] == t.byPeer[p]
  }

  predicate AddrOk(t: Table, ip: Addr)
    requires InRange(t) && ip in t.byTunIP
  {
    t.entries[t.byTunIP[ip]].tunIP == Some(ip) && Live(t, t.byTunIP[ip])
  }

  /** The address index misses no live entry that is bound to `ip`. */
  ghost predicate Exact(t: Table, ip: Addr) {
    forall id: nat | Live(t, id) && t.entries[id].tunIP == Some(ip) :: Lookup(t.byTunIP, ip) == Some(id)
  }

  lemma RemoveKeepsInv(t: Table, id: nat)
    requires Inv(t) && Live(t, id)
    ensures Inv(Remove(t, id)) && Remove(t, id).entries == t.entries
    ensures Remove(t, id).byPeer.Keys == t.byPeer.Keys - {t.entries[id].peer}
    ensures t.entries[id].udp !in Remove(t, id).byUDP
  {
    var t' := Remove(t, id);
    assert UdpOk(t, t.entries[id].udp);
    forall k | k in t'.byUDP ensures UdpOk(t', k) {
      assert UdpOk(t, k);
    }
    forall p | p in t'.byPeer ensures PeerOk(t', p) {
      assert PeerOk(t, p);
    }
    forall ip | ip in t'.byTunIP ensures AddrOk(t', ip) {
      assert AddrOk(t, ip);
    }
  }

  lemma RemoveLive(t: Table, id: nat)
    requires Inv(t) && Live(t, id)
    ensures forall j: nat :: Live(Remove(t, id), j) <==> j != id && Live(t, j)
    ensures forall ip | Exact(t, ip) :: Exact(Remove(t, id), ip)
  {
  }

  function Inserted(t: Table, udp: UdpKey, peer: Term): Table {
    var id := |t.entries|;
    Table(t.entries + [EntryState(peer, udp, None)], t.byUDP[udp := id], t.byTunIP, t.byPeer[peer := id])
  }

  /** Replacing an entry of the same endpoint is removing it first. */
  lemma PutRemovesFirst(t: Table, udp: UdpKey, peer: Term)
    requires Inv(t)
    ensures Put(t, udp, peer) == Inserted(if udp in t.byUDP then Remove(t, t.byUDP[udp]) else t, udp, peer)
  {
    if udp in t.byUDP {
      var id := |t.entries|;
      assert (t.byUDP - {udp})[udp := id] == t.byUDP[udp := id];
    }
  }

  lemma InsertKeepsInv(t: Table, udp: UdpKey, peer: Term)
    requires Inv(t) && udp !in t.byUDP && peer !in t.byPeer
    ensures Inv(Inserted(t, udp, peer))
  {
    var t' := Inserted(t, udp, peer);
    assert InRange(t');
    forall k | k in t'.byUDP ensures UdpOk(t', k) {
      if k != udp {
        assert UdpOk(t, k);
      }
    }
    forall p | p in t'.byPeer ensures PeerOk(t', p) {
      if p != peer {
        assert PeerOk(t, p);
      }
    }
    forall ip | ip in t'.byTunIP ensures AddrOk(t', ip) {
      assert AddrOk(t, ip);
    }
  }

  lemma InsertBreaksInv(t: Table, udp: UdpKey, peer: Term)
    requires Inv(t) && udp !in t.byUDP && peer in t.byPeer
    ensures !Inv(Inserted(t, udp, peer))
  {
    assert PeerOk(t, peer);
    var t', k := Inserted(t, udp, peer), t.entries[t.byPeer[peer]].udp;
    assert InRange(t') && k in t'.byUDP && !UdpOk(t', k);
  }

  lemma InsertLive(t: Table, udp: UdpKey, peer: Term)
    requires InRange(t) && udp !in t.byUDP
    ensures forall j: nat :: Live(Inserted(t, udp, peer), j) <==> j == |t.entries| || Live(t, j)
    ensures forall ip | Exact(t, ip) :: Exact(Inserted(t, udp, peer), ip)
  {
  }

  /** Put alone keeps the invariant exactly when the peer has no session at another endpoint. */
  lemma PutKeepsInv(t: Table, udp: UdpKey, peer: Term)
    requires Inv(t)
    ensures Inv(Put(t, udp, peer)) <==> peer !in t.byPeer || t.entries[t.byPeer[peer]].udp == udp
  {
    hide Inserted, Put;
    PutRemovesFirst(t, udp, peer);
    var t1 := t;
    if udp in t.byUDP {
      assert UdpOk(t, udp);
      t1 := Remove(t, t.byUDP[udp]);
      RemoveKeepsInv(t, t.byUDP[udp]);
    }
    if peer in t.byPeer {
      assert PeerOk(t, peer);
    }
    if peer in t1.byPeer {
      InsertBreaksInv(t1, udp, peer);
    } else {
      InsertKeepsInv(t1, udp, peer);
    }
  }

  lemma BindKeepsInv(t: Table, id: nat, ip: Addr)
    requires Inv(t) && Live(t, id)
    ensures Inv(BindTunIP(t, id, ip)) && |BindTunIP(t, id, ip).entries| == |t.entries|
    ensures forall j: nat :: Live(BindTunIP(t, id, ip), j) <==> Live(t, j)
  {
    var t' := BindTunIP(t, id, ip);
    forall k | k in t'.byUDP ensures UdpOk(t', k) {
      assert UdpOk(t, k);
    }
    forall p | p in t'.byPeer ensures PeerOk(t', p) {
      assert PeerOk(t, p);
    }
    forall a | a in t'.byTunIP ensures AddrOk(t', a) {
      assert a != ip ==> AddrOk(t, a);
    }
  }

  /** A new session of a peer, as the handshake handler records it. */
  function Admit(t: Table, udp: UdpKey, peer: Term): Table
    requires Inv(t)
  {
    if peer in t.byPeer then
      PeerIsLive(t, peer);
      RemoveKeepsInv(t, t.byPeer[peer]);
      Put(Remove(t, t.byPeer[peer]), udp, peer)
    else
      Put(t, udp, peer)
  }

  lemma AdmitKeepsInv(t: Table, udp: UdpKey, peer: Term)
    requires Inv(t)
    ensures
      var t' := Admit(t, udp, peer);
      && Inv(t') && |t'.entries| == |t.entries| + 1 && t'.entries == t.entries + [EntryState(peer, udp, None)]
      && (forall ip | Exact(t, ip) :: Exact(t', ip))
      && forall j: nat :: Live(t', j) <==>
           j == |t.entries| || (Live(t, j) && t.entries[j].udp != udp && t.entries[j].peer != peer)
  {
    hide Put, Remove, Inv, Exact;
    if peer in t.byPeer {
      var id := t.byPeer[peer];
      PeerIsLive(t, peer);
      RemoveKeepsInv(t, id);
      RemoveLive(t, id);
      PutFacts(Remove(t, id), udp, peer);
    } else {
      PutFacts(t, udp, peer);
    }
  }

  lemma PeerIsLive(t: Table, peer: Term)
    requires Inv(t) && peer in t.byPeer
    ensures Live(t, t.byPeer[peer]) && t.entries[t.byPeer[peer]].peer == peer
    ensures forall j: nat | Live(t, j) && t.entries[j].peer == peer :: j == t.byPeer[peer]
  {
    assert PeerOk(t, peer);
    forall j: nat | Live(t, j) && t.entries[j].peer == peer ensures j == t.byPeer[peer] {
      assert UdpOk(t, t.entries[j].udp);
    }
  }

  lemma PutFacts(t: Table, udp: UdpKey, peer: Term)
    requires Inv(t) && peer !in t.byPeer
    ensures
      var t' := Put(t, udp, peer);
      && Inv(t') && |t'.entries| == |t.entries| + 1 && t'.entries == t.entries + [EntryState(peer, udp, None)]
      && (forall ip | Exact(t, ip) :: Exact(t', ip))
      && forall j: nat :: Live(t', j) <==>
           j == |t.entries| || (Live(t, j) && t.entries[j].udp != udp && t.entries[j].peer != peer)
  {
    PutKeepsInv(t, udp, peer);
    PutRemovesFirst(t, udp, peer);
    NoPeerLive(t, peer);
    if udp in t.byUDP {
      assert UdpOk(t, udp);
      RemoveLive(t, t.byUDP[udp]);
      InsertLive(Remove(t, t.byUDP[udp]), udp, peer);
    } else {
      InsertLive(t, udp, peer);
    }
    hide Put, Inv, Exact, Inserted, Remove;
  }

  lemma NoPeerLive(t: Table, peer: Term)
    requires Inv(t) && peer !in t.byPeer
    ensures forall j: nat | Live(t, j) :: t.entries[j].peer != peer
  {
    forall j: nat | Live(t, j) ensures t.entries[j].peer != peer {
      assert UdpOk(t, t.entries[j].udp);
    }
  }

  /** One live session per peer key and per endpoint, and Count is the number of peers. */
  lemma OneSessionPerPeer(t: Table, i: nat, j: nat)
    requires Inv(t) && Live(t, i) && Live(t, j)
    requires t.entries[i].peer == t.entries[j].peer || t.entries[i].udp == t.entries[j].udp
    ensures i == j
  {
  }

  lemma {:induction false} SameSize<K, L>(m: map<K, nat>, n: map<L, nat>)
    requires forall k | k in m :: exists l | l in n :: n[l] == m[k]
    requires forall k, k' | k in m && k' in m && m[k] == m[k'] :: k == k'
    ensures |m| <= |n|
    decreases |m|
  {
    if m == map[] {
    } else {
      var k :| k in m;
      var l :| l in n && n[l] == m[k];
      var m', n' := m - {k}, n - {l};
      forall j | j in m' ensures exists i | i in n' :: n'[i] == m'[j] {
        var i :| i in n && n[i] == m[j];
        assert i in n';
      }
      SameSize(m', n');
      assert |m'| == |m| - 1 && |n'| == |n| - 1 by {
        assert m'.Keys == m.Keys - {k} && n'.Keys == n.Keys - {l};
        assert |m'.Keys| == |m'| && |n'.Keys| == |n'|;
      }
    }
  }

  lemma CountIsPeers(t: Table)
    requires Inv(t)
    ensures |t.byUDP| == |t.byPeer|
  {
    SameSize(t.byUDP, t.byPeer);
    SameSize(t.byPeer, t.byUDP);
  }

  /** With nothing missing, the address index answers like a search through all live entries. */
  lemma LookupIsSearch(t: Table, ip: Addr, id: nat)
    requires Inv(t) && Exact(t, ip)
    ensures Lookup(t.byTunIP, ip) == Some(id) <==> Live(t, id) && t.entries[id].tunIP == Some(ip)
  {
    if Lookup(t.byTunIP, ip) == Some(id) {
      assert AddrOk(t, ip);
    }
  }

  /**
   * A binding makes the index exact for its address exactly when it takes the address from nobody, and
   * keeps it exact for all other addresses.
   */
  lemma BindKeepsExact(t: Table, id: nat, ip: Addr)
    requires Inv(t) && Live(t, id)
    ensures Exact(BindTunIP(t, id, ip), ip) <==>
            forall j: nat | j != id && Live(t, j) :: t.entries[j].tunIP != Some(ip)
    ensures forall a | a != ip && Exact(t, a) :: Exact(BindTunIP(t, id, ip), a)
  {
    var t' := BindTunIP(t, id, ip);
    assert forall j: nat :: Live(t', j) <==> Live(t, j);
  }

  /* Routes. An entry gives its address up without asking whose entry the index has under it. */

  /** The index does not have another entry under the address of entry `id`. */
  predicate Owns(t: Table, id: nat)
    requires id < |t.entries|
  {
    t.entries[id].tunIP.Some? ==> Lookup(t.byTunIP, t.entries[id].tunIP.value) in {None, Some(id)}
  }

  /** Every address that was routed to another entry is routed as before. */
  ghost predicate KeepsOtherRoutes(t: Table, t': Table, id: nat) {
    forall ip | ip in t.byTunIP && t.byTunIP[ip] != id :: Lookup(t'.byTunIP, ip) == Some(t.byTunIP[ip])
  }

  /** Removing an entry leaves all other routes alone exactly when its address was not taken over. */
  lemma RemoveKeepsRoutes(t: Table, id: nat)
    requires id < |t.entries|
    ensures KeepsOtherRoutes(t, Remove(t, id), id) <==> Owns(t, id)
  {
    var own, t' := t.entries[id].tunIP, Remove(t, id);
    if !Owns(t, id) {
      assert own.value in t.byTunIP && Lookup(t'.byTunIP, own.value).None?;
    }
  }

  /**
   * A binding leaves all other routes alone exactly when the entry's old address was not taken over
   * and its new one is not another's.
   */
  lemma BindKeepsRoutes(t: Table, id: nat, ip: Addr)
    requires id < |t.entries|
    ensures KeepsOtherRoutes(t, BindTunIP(t, id, ip), id) <==>
            Owns(t, id) && Lookup(t.byTunIP, ip) in {None, Some(id)}
  {
    var own, t' := t.entries[id].tunIP, BindTunIP(t, id, ip);
    assert Lookup(t'.byTunIP, ip) == Some(id);
    if !Owns(t, id) && own != Some(ip) {
      assert own.value in t.byTunIP && Lookup(t'.byTunIP, own.value).None?;
    }
  }

  /**
   * When the loser of a takeover is removed or moves on, the winner loses the address too: it stays live
   * and bound in its own record, but the address finds nobody.
   */
  lemma WinnerIsStranded(t: Table, winner: nat, loser: nat, ip: Addr, other: Addr)
    requires Inv(t) && Live(t, winner) && Live(t, loser) && winner != loser && other != ip
    requires t.entries[winner].tunIP == t.entries[loser].tunIP == Some(ip)
    ensures
      var t' := Remove(t, loser);
      Live(t', winner) && t'.entries[winner].tunIP == Some(ip) && Lookup(t'.byTunIP, ip) == None
    ensures
      var t' := BindTunIP(t, loser, other);
      Live(t', winner) && t'.entries[winner].tunIP == Some(ip) && Lookup(t'.byTunIP, ip) == None
  {
    RemoveLive(t, loser);
    BindKeepsInv(t, loser, other);
  }

  /** A new session of `peer` at `udp` takes the place of this entry. */
  predicate Replaces(t: Table, udp: UdpKey, peer: Term, id: nat) {
    id < |t.entries| && Live(t, id) && (t.entries[id].udp == udp || t.entries[id].peer == peer)
  }

  lemma PutRoutes(t: Table, udp: UdpKey, peer: Term, ip: Addr)
    requires Inv(t)
    ensures ip in Put(t, udp, peer).byTunIP <==>
            ip in t.byTunIP && (udp in t.byUDP ==> t.entries[t.byUDP[udp]].tunIP != Some(ip))
    ensures ip in Put(t, udp, peer).byTunIP ==> Put(t, udp, peer).byTunIP[ip] == t.byTunIP[ip]
  {
  }

  lemma ReplacedByAdmit(t: Table, udp: UdpKey, peer: Term, id: nat)
    requires Inv(t)
    ensures Replaces(t, udp, peer, id) <==>
            (udp in t.byUDP && t.byUDP[udp] == id) || (peer in t.byPeer && t.byPeer[peer] == id)
  {
    if udp in t.byUDP {
      assert UdpOk(t, udp);
    }
    if peer in t.byPeer {
      PeerIsLive(t, peer);
    } else {
      NoPeerLive(t, peer);
    }
  }

  lemma AdmitDrops(t: Table, udp: UdpKey, peer: Term, ip: Addr)
    requires Inv(t)
    ensures ip in Admit(t, udp, peer).byTunIP <==>
            && ip in t.byTunIP
            && (udp in t.byUDP ==> t.entries[t.byUDP[udp]].tunIP != Some(ip))
            && (peer in t.byPeer ==> t.entries[t.byPeer[peer]].tunIP != Some(ip))
    ensures ip in Admit(t, udp, peer).byTunIP ==> Admit(t, udp, peer).byTunIP[ip] == t.byTunIP[ip]
  {
    if peer in t.byPeer {
      assert PeerOk(t, peer);
      RemoveKeepsInv(t, t.byPeer[peer]);
      hide Put;
      PutRoutes(Remove(t, t.byPeer[peer]), udp, peer, ip);
    } else {
      hide Put;
      PutRoutes(t, udp, peer, ip);
    }
  }

  /** The addresses of the replaced entries are dropped, and nothing else is. */
  lemma AdmitRoutes(t: Table, udp: UdpKey, peer: Term, ip: Addr)
    requires Inv(t)
    ensures ip in Admit(t, udp, peer).byTunIP <==>
            ip in t.byTunIP && forall id: nat | Replaces(t, udp, peer, id) :: t.entries[id].tunIP != Some(ip)
    ensures ip in Admit(t, udp, peer).byTunIP ==> Admit(t, udp, peer).byTunIP[ip] == t.byTunIP[ip]
  {
    AdmitDrops(t, udp, peer, ip);
    hide Admit, Inv;
    forall id: nat ensures Replaces(t, udp, peer, id) <==>
        (udp in t.byUDP && t.byUDP[udp] == id) || (peer in t.byPeer && t.byPeer[peer] == id)
    {
      ReplacedByAdmit(t, udp, peer, id);
    }
  }

  /**
   * A new session leaves the routes of all sessions that go on alone exactly when no entry that it
   * replaces had its address taken over by one of them.
   */
  lemma AdmitKeepsRoutes(t: Table, udp: UdpKey, peer: Term)
    requires Inv(t)
    ensures
      (forall ip | ip in t.byTunIP && !Replaces(t, udp, peer, t.byTunIP[ip]) ::
        Lookup(Admit(t, udp, peer).byTunIP, ip) == Some(t.byTunIP[ip])) <==>
      forall id: nat | Replaces(t, udp, peer, id) && t.entries[id].tunIP.Some? ::
        Owns(t, id) || Replaces(t, udp, peer, t.byTunIP[t.entries[id].tunIP.value])
  {
    forall ip ensures
        && (ip in Admit(t, udp, peer).byTunIP <==>
            ip in t.byTunIP && forall id: nat | Replaces(t, udp, peer, id) :: t.entries[id].tunIP != Some(ip))
        && (ip in Admit(t, udp, peer).byTunIP ==> Admit(t, udp, peer).byTunIP[ip] == t.byTunIP[ip])
    {
      AdmitRoutes(t, udp, peer, ip);
    }
    hide Admit, Inv;
    DroppedRoutes(t, udp, peer, Admit(t, udp, peer).byTunIP);
  }

  lemma DroppedRoutes(t: Table, udp: UdpKey, peer: Term, kept: map<Addr, nat>)
    requires forall ip :: ip in kept <==>
               ip in t.byTunIP && forall id: nat | Replaces(t, udp, peer, id) :: t.entries[id].tunIP != Some(ip)
    requires forall ip | ip in kept :: kept[ip] == t.byTunIP[ip]
    ensures
      (forall ip | ip in t.byTunIP && !Replaces(t, udp, peer, t.byTunIP[ip]) ::
        Lookup(kept, ip) == Some(t.byTunIP[ip])) <==>
      forall id: nat | Replaces(t, udp, peer, id) && t.entries[id].tunIP.Some? ::
        Owns(t, id) || Replaces(t, udp, peer, t.byTunIP[t.entries[id].tunIP.value])
  {
    hide Live;
    if id: nat :| Replaces(t, udp, peer, id) && t.entries[id].tunIP.Some? && !Owns(t, id) &&
                  !Replaces(t, udp, peer, t.byTunIP[t.entries[id].tunIP.value]) {
      assert t.entries[id].tunIP.value !in kept;
    }
    forall ip | ip in t.byTunIP && ip !in kept
      ensures exists id: nat :: Replaces(t, udp, peer, id) && t.entries[id].tunIP == Some(ip)
    {
    }
  }

  /** Taking over an address leaves the loser's binding behind: its entry is live but not found. */
  lemma TakeoverHidesLoser(t: Table, id: nat, loser: nat, ip: Addr)
    requires Inv(t) && Live(t, id) && Live(t, loser) && id != loser && t.entries[loser].tunIP == Some(ip)
    ensures
      var t' := BindTunIP(t, id, ip);
      Live(t', loser) && t'.entries[loser].tunIP == Some(ip) && Lookup(t'.byTunIP, ip) == Some(id)
  {
  }
}
