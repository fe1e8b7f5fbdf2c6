/** What the server puts on the wire: over every run, each sealed frame holds the packet it was sealed for. */
module ServerSealing {
  import opened Prelude
  import opened Crypto
  import opened NoiseIK
  import opened SessionTable
  import opened TunServer
  import ReplayWindow

  /** Every session of the table is a responder's and has completed its handshake. */
  predicate SessionsReady(sess: seq<SessionState>) {
    forall id | 0 <= id < |sess| :: HandshakeComplete(sess[id]) && !sess[id].i
  }

  /** The frame is the packet, sealed under the entry's sending key with a nonce that is used up. */
  predicate Holds(sess: seq<SessionState>, id: nat, packet: seq<byte>, f: TransportMessage) {
    && id < |sess|
    && f.ciphertext == Seal(Tx(sess[id]).k, f.nonce, EMPTY, Bytes(packet))
    && f.nonce < Tx(sess[id]).n
  }

  predicate SameNonce(a: Fact, b: Fact) {
    a.Sealed? && b.Sealed? && a.id == b.id && a.f.nonce == b.f.nonce
  }

  ghost predicate SealedWell(sess: seq<SessionState>, log: seq<Fact>) {
    && SessionsReady(sess)
    && (forall j | 0 <= j < |log| && log[j].Sealed? :: Holds(sess, log[j].id, log[j].packet, log[j].f))
    && forall i, j | 0 <= i < j < |log| :: !SameNonce(log[i], log[j])
  }

  /** Sending goes on where it was, in the same key. */
  predicate Follows(s: SessionState, s': SessionState) {
    HandshakeComplete(s') && s'.i == s.i && Tx(s').k == Tx(s).k && Tx(s').n >= Tx(s).n
  }

  /** Whatever is not a sealing leaves the sealings as they were. */
  lemma OtherFacts(sess: seq<SessionState>, sess': seq<SessionState>, log: seq<Fact>, more: seq<Fact>)
    requires SealedWell(sess, log) && SessionsReady(sess') && |sess| <= |sess'|
    requires forall id | 0 <= id < |sess| :: sess'[id] == sess[id] || Follows(sess[id], sess'[id])
    requires forall i | 0 <= i < |more| :: !more[i].Sealed?
    ensures SealedWell(sess', log + more)
  {
    var log' := log + more;
    forall j | 0 <= j < |log'| && log'[j].Sealed? ensures Holds(sess', log'[j].id, log'[j].packet, log'[j].f) {
      assert log'[j] == log[j];
    }
    forall i, j | 0 <= i < j < |log'| ensures !SameNonce(log'[i], log'[j]) {
      if j < |log| {
        assert log'[i] == log[i] && log'[j] == log[j];
      } else {
        assert log'[j] == more[j - |log|];
      }
    }
  }

  lemma NewSessionReady(prologue: Term, identity: KeyPair, m: HandshakeMessage, e: Scalar)
    ensures
      var (s1, got) := ReadHandshake(NewResponder(prologue, identity), m);
      var s2 := WriteHandshake(s1, e, EMPTY).0;
      got.Success? ==> HandshakeComplete(s2) && !s2.i
  {
    hide ReadMessageA, WriteMessageB;
  }

  lemma HandshakeSealed(st: State, addr: UdpKey, m: HandshakeMessage, e: Scalar, allowed: set<Term>, delivered: bool)
    requires Ok(st.srv) && SealedWell(st.srv.sess, st.log)
    ensures
      var st' := Step(st, HandshakeA(addr, m, e, allowed, delivered));
      SealedWell(st'.srv.sess, st'.log)
  {
    NewSessionReady(st.srv.prologue, st.srv.identity, m, e);
    WellIsReady(st.srv.sess, st.log);
    hide ReadHandshake, WriteHandshake, NewResponder, Inv, Admit, SealedWell;
    var st' := Step(st, HandshakeA(addr, m, e, allowed, delivered));
    AdmitOk(st.srv.table, addr, PeerStatic(ReadHandshake(NewResponder(st.srv.prologue, st.srv.identity), m).0));
    OtherFacts(st.srv.sess, st'.srv.sess, st.log, OpenedBy(st.srv, st'.srv, allowed));
  }

  lemma WellIsReady(sess: seq<SessionState>, log: seq<Fact>)
    requires SealedWell(sess, log)
    ensures SessionsReady(sess)
  {
  }

  lemma TransportSealed(st: State, addr: UdpKey, f: TransportMessage)
    requires Ok(st.srv) && SealedWell(st.srv.sess, st.log)
    ensures
      var st' := Step(st, Transport(addr, f));
      SealedWell(st'.srv.sess, st'.log)
  {
    WellIsReady(st.srv.sess, st.log);
    hide Ok, SealedWell, DecryptTransport, Step;
    var more := TransportEffect(st, addr, f);
    if addr in st.srv.table.byUDP {
      ReceivingFollows(st.srv.sess[st.srv.table.byUDP[addr]], f);
    }
    hide Follows;
    OtherFacts(st.srv.sess, Step(st, Transport(addr, f)).srv.sess, st.log, more);
  }

  /** A frame changes the session of its endpoint and no other, and is no sealing. */
  lemma TransportEffect(st: State, addr: UdpKey, f: TransportMessage) returns (more: seq<Fact>)
    requires Ok(st.srv)
    ensures Step(st, Transport(addr, f)).log == st.log + more && forall i | 0 <= i < |more| :: !more[i].Sealed?
    ensures addr !in st.srv.table.byUDP ==> Step(st, Transport(addr, f)).srv == st.srv
    ensures addr in st.srv.table.byUDP ==>
              var id := st.srv.table.byUDP[addr];
              id < |st.srv.sess| &&
              Step(st, Transport(addr, f)).srv.sess == st.srv.sess[id := DecryptTransport(st.srv.sess[id], f).0]
  {
    hide Inv, Source, Rebinds, BindTunIP, DecryptTransport;
    more := [];
    if addr in st.srv.table.byUDP {
      EndpointInRange(st.srv, addr);
      var id, out := st.srv.table.byUDP[addr], HandleTransport(st.srv, addr, f).1;
      if out.Some? {
        more := [Received(id, out.value)] + BoundBy(st.srv.table, id, out.value);
      }
    }
  }

  lemma ReceivingFollows(s: SessionState, f: TransportMessage)
    requires HandshakeComplete(s)
    ensures Follows(s, DecryptTransport(s, f).0)
    ensures HandshakeComplete(DecryptTransport(s, f).0) && DecryptTransport(s, f).0.i == s.i
  {
    hide AeadOpen, ReplayWindow.Receive, ReplayWindow.Fresh;
  }

  lemma EndpointInRange(srv: Server, addr: UdpKey)
    requires Ok(srv) && addr in srv.table.byUDP
    ensures srv.table.byUDP[addr] < |srv.table.entries| == |srv.sess|
  {
  }

  lemma TunReadSealed(st: State, packet: seq<byte>)
    requires Ok(st.srv) && SealedWell(st.srv.sess, st.log)
    ensures
      var st' := Step(st, TunRead(packet));
      SealedWell(st'.srv.sess, st'.log)
  {
    WellIsReady(st.srv.sess, st.log);
    hide Inv, Route, SealedWell;
    if st.routed.None? && Route(st.srv, packet).Some? {
      OtherFacts(st.srv.sess, st.srv.sess, st.log, [Routed(Route(st.srv, packet).value, packet, st.srv.table)]);
    }
  }

  lemma TunSendSealed(st: State)
    requires Ok(st.srv) && SealedWell(st.srv.sess, st.log)
    ensures
      var st' := Step(st, TunSend);
      SealedWell(st'.srv.sess, st'.log)
  {
    hide Inv;
    if st.routed.Some? && st.routed.value.0 < |st.srv.sess| {
      var (id, packet) := st.routed.value;
      var (srv, f) := SealPacket(st.srv, id, packet);
      if f.Some? {
        OneMoreSealed(st.srv.sess, srv.sess, st.log, id, packet, f.value);
      } else {
        assert Step(st, TunSend).log == st.log;
      }
    }
  }

  lemma OneMoreSealed(
    sess: seq<SessionState>, sess': seq<SessionState>, log: seq<Fact>, id: nat, packet: seq<byte>, f: TransportMessage)
    requires SealedWell(sess, log) && id < |sess| == |sess'|
    requires EncryptTransport(sess[id], Bytes(packet)) == (sess'[id], Success(f))
    requires sess' == sess[id := sess'[id]]
    ensures SealedWell(sess', log + [Sealed(id, packet, f)])
  {
    var log' := log + [Sealed(id, packet, f)];
    forall j | 0 <= j < |log'| && log'[j].Sealed? ensures Holds(sess', log'[j].id, log'[j].packet, log'[j].f) {
      if j < |log| {
        assert log'[j] == log[j] && Holds(sess, log[j].id, log[j].packet, log[j].f);
      }
    }
    forall i, j | 0 <= i < j < |log'| ensures !SameNonce(log'[i], log'[j]) {
      if j == |log| && log[i].Sealed? {
        assert Holds(sess, log[i].id, log[i].packet, log[i].f);
      }
    }
  }

  lemma {:induction false} RunSealed(identity: KeyPair, prologue: Term, events: seq<Event>)
    ensures SealedWell(Run(identity, prologue, events).srv.sess, Run(identity, prologue, events).log)
  {
    if events == [] {
    } else {
      hide SealedWell, Step, Ok;
      var st := Run(identity, prologue, events[..|events| - 1]);
      RunSealed(identity, prologue, events[..|events| - 1]);
      match events[|events| - 1] {
        case HandshakeA(addr, m, e, allowed, delivered) => HandshakeSealed(st, addr, m, e, allowed, delivered);
        case Transport(addr, f) => TransportSealed(st, addr, f);
        case TunRead(packet) => TunReadSealed(st, packet);
        case TunSend => TunSendSealed(st);
      }
    }
  }

  /**
   * In every run, each frame that was sealed for an entry holds exactly the packet it was sealed for,
   * under the sending key of the entry's session, and no two frames of one entry share a nonce.
   */
  lemma SealedPackets(identity: KeyPair, prologue: Term, events: seq<Event>)
    ensures
      var st := Run(identity, prologue, events);
      && (forall j | 0 <= j < |st.log| && st.log[j].Sealed? ::
        var id, f := st.log[j].id, st.log[j].f;
        id < |st.srv.sess| && f.ciphertext == Seal(Tx(st.srv.sess[id]).k, f.nonce, EMPTY, Bytes(st.log[j].packet)))
      && forall i, j | 0 <= i < j < |st.log| && st.log[i].Sealed? && st.log[j].Sealed? && st.log[i].id == st.log[j].id
         :: st.log[i].f.nonce != st.log[j].f.nonce
  {
    RunSealed(identity, prologue, events);
    var st := Run(identity, prologue, events);
    hide Run;
    forall i, j | 0 <= i < j < |st.log| && st.log[i].Sealed? && st.log[j].Sealed? && st.log[i].id == st.log[j].id
      ensures st.log[i].f.nonce != st.log[j].f.nonce
    {
      assert !SameNonce(st.log[i], st.log[j]);
    }
  }

  /** In every run, every session of the table has completed its handshake. */
  lemma RunReady(identity: KeyPair, prologue: Term, events: seq<Event>)
    ensures SessionsReady(Run(identity, prologue, events).srv.sess)
  {
    RunSealed(identity, prologue, events);
  }

  /**
   * In every run, a frame is accepted exactly when its endpoint has a session and the frame is genuine and
   * fresh for that session, and its plaintext is what goes to the TUN device.
   */
  lemma AcceptedInRuns(
    identity: KeyPair, prologue: Term, events: seq<Event>, addr: UdpKey, f: TransportMessage, pt: Term)
    ensures
      var srv := Run(identity, prologue, events).srv;
      && (addr in srv.table.byUDP ==> srv.table.byUDP[addr] < |srv.sess|)
      && (HandleTransport(srv, addr, f).1 == Some(pt) <==>
        && addr in srv.table.byUDP
        && var s := srv.sess[srv.table.byUDP[addr]];
           ReplayWindow.Fresh(s.rx, f.nonce) && f.ciphertext == Seal(Rx(s).k, f.nonce, EMPTY, pt))
  {
    RunReady(identity, prologue, events);
    var srv := Run(identity, prologue, events).srv;
    hide Run, HandleTransport, Ok, ReplayWindow.Fresh;
    if addr in srv.table.byUDP {
      EndpointInRange(srv, addr);
    }
    AcceptedExactly(srv, addr, f, pt);
  }
}
