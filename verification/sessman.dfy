/**
 * The session table as the server keeps it: three mutable maps over shared entry objects. Each
 * method is proved against the corresponding step of `SessionTable`.
 */
module SessMan {
  import opened Prelude
  import opened Crypto
  import opened SessionTable
  import opened NoiseSession

  class Entry {
    ghost const id: nat
    const session: Session
    const peerKey: Term
    const udpAddr: UdpKey
    var tunIP: Option<Addr>

    constructor (ghost id: nat, udpAddr: UdpKey, peerKey: Term, session: Session)
      ensures this.id == id && this.udpAddr == udpAddr && this.peerKey == peerKey && this.session == session
      ensures tunIP == None
    {
      this.id, this.session, this.peerKey, this.udpAddr, tunIP := id, session, peerKey, udpAddr, None;
    }

    ghost function State(): EntryState
      reads this
    {
      EntryState(peerKey, udpAddr, tunIP)
    }
  }

  /** An index with each entry replaced by its number. */
  ghost function Ids<K>(m: map<K, Entry>): map<K, nat> {
    map k | k in m :: m[k].id
  }

  /** Every entry of the index is the one that its number stands for. */
  ghost predicate Indexed<K>(m: map<K, Entry>, all: seq<Entry>) {
    forall k | k in m :: m[k].id < |all| && all[m[k].id] == m[k]
  }

  lemma IndexedAt<K>(m: map<K, Entry>, all: seq<Entry>, k: K)
    requires Indexed(m, all)
    ensures k in Ids(m) <==> k in m
    ensures k in m ==> Ids(m)[k] == m[k].id && m[k].id < |all| && all[m[k].id] == m[k]
  {
  }

  lemma IndexedSet<K>(m: map<K, Entry>, all: seq<Entry>, k: K, e: Entry)
    requires Indexed(m, all) && e.id < |all| && all[e.id] == e
    ensures Indexed(m[k := e], all) && Ids(m[k := e]) == Ids(m)[k := e.id]
  {
  }

  lemma IndexedDelete<K>(m: map<K, Entry>, all: seq<Entry>, k: K)
    requires Indexed(m, all)
    ensures Indexed(m - {k}, all) && Ids(m - {k}) == Ids(m) - {k}
  {
  }

  lemma IndexedMore<K>(m: map<K, Entry>, all: seq<Entry>, e: Entry)
    requires Indexed(m, all)
    ensures Indexed(m, all + [e])
  {
  }

  ghost function States(all: seq<Entry>): seq<EntryState>
    reads all
  {
    seq(|all|, i requires 0 <= i < |all| reads all => all[i].State())
  }

  lemma StatesAt(all: seq<Entry>, e: Entry)
    requires e.id < |all| && all[e.id] == e
    ensures |States(all)| == |all| && States(all)[e.id] == e.State()
  {
  }

  lemma StatesAfterPut(all: seq<Entry>, e: Entry)
    ensures |States(all)| == |all| && States(all + [e]) == States(all) + [e.State()]
  {
  }

  lemma PutParts(t: Table, udp: UdpKey, peer: Term)
    requires InRange(t)
    ensures
      var t', id := SessionTable.Put(t, udp, peer), |t.entries|;
      && t'.entries == t.entries + [EntryState(peer, udp, None)]
      && t'.byUDP == t.byUDP[udp := id]
      && (udp in t.byUDP ==>
        && t.byUDP[udp] < |t.entries|
        && t'.byTunIP == WithoutAddr(t.byTunIP, t.entries[t.byUDP[udp]].tunIP)
        && t'.byPeer == (t.byPeer - {t.entries[t.byUDP[udp]].peer})[peer := id])
      && (udp !in t.byUDP ==> t'.byTunIP == t.byTunIP && t'.byPeer == t.byPeer[peer := id])
  {
  }

  lemma WithoutAddrParts(m: map<Addr, nat>, a: Option<Addr>)
    ensures WithoutAddr(m, a) == if a.Some? then m - {a.value} else m
  {
  }

  class Manager {
    var byUDPKey: map<UdpKey, Entry>
    var byTunIP: map<Addr, Entry>
    var byPeer: map<Term, Entry>
    ghost var all: seq<Entry>     // every entry ever put, in order

    ghost predicate Known(e: Entry)
      reads this
    {
      e.id < |all| && all[e.id] == e
    }

    ghost predicate Valid()
      reads this
    {
      && (forall i | 0 <= i < |all| :: all[i].id == i)
      && Indexed(byUDPKey, all) && Indexed(byTunIP, all) && Indexed(byPeer, all)
    }

    ghost function View(): Table
      reads this, all
    {
      Table(States(all), Ids(byUDPKey), Ids(byTunIP), Ids(byPeer))
    }

    constructor ()
      ensures Valid() && all == [] && View() == EMPTY_TABLE
    {
      byUDPKey, byTunIP, byPeer, all := map[], map[], map[], [];
    }

    method Put(udpAddr: UdpKey, peerKey: Term, session: Session) returns (e: Entry)
      requires Valid() && InRange(View())
      modifies this
      ensures Valid() && all == old(all) + [e] && fresh(e) && e.session == session
      ensures View() == SessionTable.Put(old(View()), udpAddr, peerKey)
    {
      hide Ids, Indexed, InRange, States, WithoutAddr, SessionTable.Put;
      PutParts(View(), udpAddr, peerKey);
      e := new Entry(|all|, udpAddr, peerKey, session);
      IndexedAt(byUDPKey, all, udpAddr);
      if udpAddr in byUDPKey {
        var evicted := byUDPKey[udpAddr];
        StatesAt(all, evicted);
        WithoutAddrParts(Ids(byTunIP), evicted.tunIP);
        if evicted.tunIP.Some? {
          IndexedDelete(byTunIP, all, evicted.tunIP.value);
          byTunIP := byTunIP - {evicted.tunIP.value};
        }
        IndexedDelete(byPeer, all, evicted.peerKey);
        byPeer := byPeer - {evicted.peerKey};
      }
      StatesAfterPut(all, e);
      IndexedMore(byUDPKey, all, e);
      IndexedMore(byTunIP, all, e);
      IndexedMore(byPeer, all, e);
      all := all + [e];
      IndexedSet(byUDPKey, all, udpAddr, e);
      byUDPKey := byUDPKey[udpAddr := e];
      IndexedSet(byPeer, all, peerKey, e);
      byPeer := byPeer[peerKey := e];
      assert States(all) == old(States(all)) + [EntryState(peerKey, udpAddr, None)];
      assert Ids(byUDPKey) == old(Ids(byUDPKey))[udpAddr := e.id];
    }

    method LookupByUDP(addr: UdpKey) returns (e: Entry?)
      requires Valid()
      ensures e == null <==> Lookup(View().byUDP, addr).None?
      ensures e != null ==> Known(e) && Lookup(View().byUDP, addr) == Some(e.id)
    {
      e := if addr in byUDPKey then byUDPKey[addr] else null;
    }

    method LookupByTunIP(ip: Addr) returns (e: Entry?)
      requires Valid()
      ensures e == null <==> Lookup(View().byTunIP, ip).None?
      ensures e != null ==> Known(e) && Lookup(View().byTunIP, ip) == Some(e.id)
    {
      e := if ip in byTunIP then byTunIP[ip] else null;
    }

    method LookupByPeer(peerKey: Term) returns (e: Entry?)
      requires Valid()
      ensures e == null <==> Lookup(View().byPeer, peerKey).None?
      ensures e != null ==> Known(e) && Lookup(View().byPeer, peerKey) == Some(e.id)
    {
      e := if peerKey in byPeer then byPeer[peerKey] else null;
    }

    /** An invalid address binds nothing. */
    method BindTunIP(e: Entry, ip: Option<Addr>)
      requires Valid() && Known(e)
      modifies this`byTunIP, e`tunIP
      ensures Valid()
      ensures View() == if ip.Some? then SessionTable.BindTunIP(old(View()), e.id, ip.value) else old(View())
    {
      hide Ids, Indexed;
      if ip.None? {
        return;
      }
      if e.tunIP.Some? && e.tunIP != ip {
        IndexedDelete(byTunIP, all, e.tunIP.value);
        byTunIP := byTunIP - {e.tunIP.value};
      }
      e.tunIP := ip;
      IndexedSet(byTunIP, all, ip.value, e);
      byTunIP := byTunIP[ip.value := e];
      assert States(all) == old(States(all))[e.id := e.State()];
    }

    /** Without an entry, nothing happens. */
    method Remove(e: Entry?)
      requires Valid() && (e != null ==> Known(e))
      modifies this`byUDPKey, this`byTunIP, this`byPeer
      ensures Valid()
      ensures View() == if e == null then old(View()) else SessionTable.Remove(old(View()), e.id)
    {
      hide Ids, Indexed;
      if e == null {
        return;
      }
      IndexedDelete(byUDPKey, all, e.udpAddr);
      byUDPKey := byUDPKey - {e.udpAddr};
      if e.tunIP.Some? {
        IndexedDelete(byTunIP, all, e.tunIP.value);
        byTunIP := byTunIP - {e.tunIP.value};
      }
      IndexedDelete(byPeer, all, e.peerKey);
      byPeer := byPeer - {e.peerKey};
    }

    /** While the table is consistent, the number of sessions is the number of peers. */
    method Count() returns (n: nat)
      requires Valid() && Inv(View())
      ensures n == |View().byUDP| == |View().byPeer|
    {
      n := |byUDPKey|;
      assert View().byUDP.Keys == byUDPKey.Keys;
      assert |View().byUDP.Keys| == |View().byUDP| && |byUDPKey.Keys| == |byUDPKey|;
      CountIsPeers(View());
    }
  }
}
