/**
 * The datagram handlers and the TUN loop's steps on the shared objects: the session table, its
 * entries and their sessions. Each is proved against the corresponding step of `TunServer`.
 */
module TunServerWorker {
  import opened Prelude
  import opened Crypto
  import opened NoiseIK
  import opened SessionTable
  import opened NoiseSession
  import opened SessMan
  import TunServer

  ghost function SessionStates(all: seq<Entry>): seq<SessionState>
    reads set e | e in all :: e.session
  {
    seq(|all|, i requires 0 <= i < |all| reads set e | e in all :: e.session => all[i].session.State())
  }

  /** The sessions are sound, and no two entries share one. */
  ghost predicate SessionsOk(all: seq<Entry>)
    reads set e | e in all :: e.session
  {
    && (forall i | 0 <= i < |all| :: all[i].session.Valid())
    && (forall i, j | 0 <= i < j < |all| :: all[i].session != all[j].session)
  }

  lemma SessionsAfterPut(all: seq<Entry>, e: Entry)
    requires SessionsOk(all) && e.session.Valid() && forall i | 0 <= i < |all| :: all[i].session != e.session
    ensures SessionsOk(all + [e]) && SessionStates(all + [e]) == SessionStates(all) + [e.session.State()]
  {
  }

  lemma SessionsAre(all: seq<Entry>)
    requires SessionsOk(all)
    ensures |SessionStates(all)| == |all|
    ensures forall i | 0 <= i < |all| :: all[i].session.Valid() && SessionStates(all)[i] == all[i].session.State()
    ensures forall i, j | 0 <= i < |all| && 0 <= j < |all| && i != j :: all[i].session != all[j].session
  {
  }

  /** Changing the session of one entry leaves all others as they were. */
  lemma OneSessionChanged(all: seq<Entry>, before: seq<SessionState>, id: nat)
    requires |before| == |all| && id < |all|
    requires forall i, j | 0 <= i < |all| && 0 <= j < |all| && i != j :: all[i].session != all[j].session
    requires forall i | 0 <= i < |all| :: all[i].session.Valid() && (i != id ==> all[i].session.State() == before[i])
    ensures SessionsOk(all) && SessionStates(all) == before[id := all[id].session.State()]
  {
  }

  lemma EndpointIsLive(t: Table, addr: UdpKey)
    requires Inv(t) && addr in t.byUDP
    ensures Live(t, t.byUDP[addr])
  {
    assert UdpOk(t, addr);
  }

  lemma InvInRange(t: Table)
    requires Inv(t)
    ensures InRange(t)
  {
  }

  class Worker {
    const identity: KeyPair
    const prologue: Term
    const sessions: Manager

    constructor (identity: KeyPair, prologue: Term)
      ensures Valid() && View() == TunServer.NewServer(identity, prologue)
      ensures fresh(sessions)
    {
      this.identity, this.prologue := identity, prologue;
      sessions := new Manager();
    }

    ghost function View(): TunServer.Server
      reads this, sessions, sessions.all, set e | e in sessions.all :: e.session
    {
      TunServer.Server(identity, prologue, sessions.View(), SessionStates(sessions.all))
    }

    ghost predicate Valid()
      reads this, sessions, sessions.all, set e | e in sessions.all :: e.session
    {
      sessions.Valid() && SessionsOk(sessions.all) && TunServer.Ok(View())
    }

    /** Records a new session of a peer in place of its previous one. */
    method Admit(addr: UdpKey, peer: Term, sess: Session)
      requires Valid() && sess.Valid() && forall i | 0 <= i < |sessions.all| :: sessions.all[i].session != sess
      modifies sessions
      ensures Valid()
      ensures View() == old(View()).(table := SessionTable.Admit(old(View()).table, addr, peer),
                                     sess := old(View()).sess + [sess.State()])
    {
      hide Inv, InRange, Indexed, States, SessionStates, SessionsOk, Session.Valid;
      hide SessionTable.Put, SessionTable.Remove;
      var existing := sessions.LookupByPeer(peer);
      AdmitKeepsInv(sessions.View(), addr, peer);
      if existing != null {
        PeerIsLive(sessions.View(), peer);
        RemoveKeepsInv(sessions.View(), existing.id);
        sessions.Remove(existing);
      }
      InvInRange(sessions.View());
      var entry := sessions.Put(addr, peer, sess);
      SessionsAfterPut(old(sessions.all), entry);
    }

    method HandleHandshakeA(addr: UdpKey, m: HandshakeMessage, e: Scalar, allowed: set<Term>, delivered: bool)
      returns (reply: Option<HandshakeMessage>)
      requires Valid()
      modifies sessions
      ensures Valid()
      ensures (View(), reply) == TunServer.HandleHandshakeA(old(View()), addr, m, e, allowed, delivered)
    {
      hide NoiseIK.ReadHandshake, NoiseIK.WriteHandshake, NewResponder, Inv, SessionTable.Admit;
      hide SessionsOk, SessionStates, Indexed, States, Session.Valid;
      var sess := new Session.Responder(prologue, identity);
      var got := sess.ReadHandshake(m);
      if got.Failure? {
        return None;
      }
      var peer := sess.rs;
      if peer !in allowed {
        return None;
      }
      var msgB := sess.WriteHandshake(e, EMPTY);
      if msgB.Failure? {
        return None;
      }
      if !delivered {
        return Some(msgB.value);
      }
      Admit(addr, peer, sess);
      return Some(msgB.value);
    }

    /** Moves the entry's inner address to the source of a packet it sent, by the rules for doing so. */
    method Observe(entry: Entry, pt: Term)
      requires Valid() && sessions.Known(entry) && Live(sessions.View(), entry.id)
      modifies sessions`byTunIP, entry`tunIP
      ensures Valid()
      ensures
        var t := old(View()).table;
        View() == old(View()).(table :=
          if TunServer.Moves(t, entry.id, pt)
          then SessionTable.BindTunIP(t, entry.id, TunServer.Source(pt).value)
          else t)
    {
      hide Inv, Indexed, States, SessionStates, SessionsOk, SessionTable.BindTunIP, TunServer.Source, TunServer.Rebinds;
      StatesAt(sessions.all, entry);
      var src := TunServer.Source(pt);
      if src.Some? && TunServer.Rebinds(entry.tunIP, src.value) {
        BindKeepsInv(sessions.View(), entry.id, src.value);
        sessions.BindTunIP(entry, src);
      }
    }

    method DecryptFor(entry: Entry, f: TransportMessage) returns (got: Result<Term, Error>)
      requires Valid() && sessions.Known(entry)
      modifies entry.session
      ensures Valid()
      ensures entry.id < |old(View()).sess|
      ensures got == DecryptTransport(old(View()).sess[entry.id], f).1
      ensures View() ==
              old(View()).(sess := old(View()).sess[entry.id := DecryptTransport(old(View()).sess[entry.id], f).0])
    {
      hide DecryptTransport, Inv, Indexed, States, Session.Valid, SessionStates, SessionsOk;
      SessionsAre(sessions.all);
      ghost var before := SessionStates(sessions.all);
      got := entry.session.Decrypt(f);
      OneSessionChanged(sessions.all, before, entry.id);
    }

    /** The result is what goes to the TUN device. */
    method HandleTransport(addr: UdpKey, f: TransportMessage) returns (out: Option<Term>)
      requires Valid()
      modifies sessions`byTunIP, sessions.all`tunIP, set e | e in sessions.all :: e.session
      ensures Valid()
      ensures (View(), out) == TunServer.HandleTransport(old(View()), addr, f)
    {
      hide DecryptTransport, Inv, Indexed, States, Session.Valid, SessionStates, SessionsOk;
      hide SessionTable.BindTunIP, TunServer.Moves, TunServer.Source;
      var entry := sessions.LookupByUDP(addr);
      if entry == null {
        return None;
      }
      EndpointIsLive(sessions.View(), addr);
      var got := DecryptFor(entry, f);
      if got.Failure? {
        return None;
      }
      Observe(entry, got.value);
      return Some(got.value);
    }

    /** The TUN loop's lookup. */
    method Route(packet: seq<byte>) returns (e: Entry?)
      requires Valid()
      ensures e == null <==> TunServer.Route(View(), packet).None?
      ensures e != null ==> sessions.Known(e) && TunServer.Route(View(), packet) == Some(e.id)
    {
      hide Inv, Indexed, States;
      var dst := TunServer.Destination(packet);
      if dst.None? {
        return null;
      }
      e := sessions.LookupByTunIP(dst.value);
    }

    /** The TUN loop's sealing. */
    method SealPacket(e: Entry, packet: seq<byte>) returns (f: Option<TransportMessage>)
      requires Valid() && sessions.Known(e)
      modifies e.session
      ensures Valid()
      ensures (View(), f) == TunServer.SealPacket(old(View()), e.id, packet)
    {
      hide Inv, Indexed, States, Session.Valid, SessionStates, SessionsOk;
      SessionsAre(sessions.all);
      ghost var before := SessionStates(sessions.all);
      var r := e.session.Encrypt(Bytes(packet));
      OneSessionChanged(sessions.all, before, e.id);
      return if r.Success? then Some(r.value) else None;
    }
  }
}
