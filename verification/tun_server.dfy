/**
 * The decisions of tun-server between a datagram or a packet and a change of the session table,
 * on values, and what holds over every run of the server.
 */
module TunServer {
  import opened Prelude
  import opened Crypto
  import opened NoiseIK
  import opened SessionTable
  import ReplayWindow

  /** `sess` holds the session of each table entry. */
  datatype Server = Server(identity: KeyPair, prologue: Term, table: Table, sess: seq<SessionState>)

  predicate Ok(srv: Server) {
    Inv(srv.table) && |srv.sess| == |srv.table.entries|
  }

  function NewServer(identity: KeyPair, prologue: Term): Server {
    Server(identity, prologue, EMPTY_TABLE, [])
  }

  /** Source and destination of an IP packet. */
  function PacketEndpoints(packet: seq<byte>): Option<(Addr, Addr)> {
    if |packet| < 1 then None
    else if packet[0] / 0x10 == 4 then
      if |packet| < 20 then None else Some((V4(packet[12..16]), V4(packet[16..20])))
    else if packet[0] / 0x10 == 6 then
      if |packet| < 40 then None else Some((V6(packet[8..24]), V6(packet[24..40])))
    else None
  }

  /**
   * The endpoints of a packet are what its header holds at the places that IPv4 and IPv6 give
   * them, and only a packet with a whole header has any.
   */
  lemma EndpointsLayout(packet: seq<byte>, src: Addr, dst: Addr)
    ensures PacketEndpoints(packet) == Some((src, dst)) <==>
            exists pre: seq<byte>, rest: seq<byte> :: HasEndpoints(packet, pre, src, dst, rest)
  {
    if PacketEndpoints(packet) == Some((src, dst)) {
      var from, len := if src.V4? then 12 else 8, |src.octets|;
      assert HasEndpoints(packet, packet[..from], src, dst, packet[from + 2 * len..]);
    }
    if pre: seq<byte>, rest: seq<byte> :| HasEndpoints(packet, pre, src, dst, rest) {
      var from, len := |pre|, |src.octets|;
      assert packet[from..from + len] == src.octets && packet[from + len..from + 2 * len] == dst.octets;
    }
  }

  /** The packet has the two addresses side by side after the fixed part `pre` of its header. */
  predicate HasEndpoints(packet: seq<byte>, pre: seq<byte>, src: Addr, dst: Addr, rest: seq<byte>) {
    && packet == pre + src.octets + dst.octets + rest
    && pre != [] && |src.octets| == |dst.octets| && src.V4? == dst.V4?
    && (if src.V4? then |pre| == 12 && |src.octets| == 4 && pre[0] / 0x10 == 4
        else |pre| == 8 && |src.octets| == 16 && pre[0] / 0x10 == 6)
  }

  function Source(pt: Term): Option<Addr> {
    if pt.Bytes? && PacketEndpoints(pt.b).Some? then Some(PacketEndpoints(pt.b).value.0) else None
  }

  function Destination(packet: seq<byte>): Option<Addr> {
    if PacketEndpoints(packet).Some? then Some(PacketEndpoints(packet).value.1) else None
  }

  /** The packet's header names `ip` as its source. */
  ghost predicate SentFrom(pt: Term, ip: Addr) {
    pt.Bytes? && exists pre, dst, rest :: HasEndpoints(pt.b, pre, ip, dst, rest)
  }

  /** The packet's header names `ip` as its destination. */
  ghost predicate SentTo(packet: seq<byte>, ip: Addr) {
    exists pre, src, rest :: HasEndpoints(packet, pre, src, ip, rest)
  }

  lemma SourceIs(pt: Term, ip: Addr)
    ensures Source(pt) == Some(ip) <==> SentFrom(pt, ip)
  {
    hide PacketEndpoints, HasEndpoints;
    if pt.Bytes? {
      if Source(pt) == Some(ip) {
        EndpointsLayout(pt.b, ip, PacketEndpoints(pt.b).value.1);
      }
      if pre, dst, rest :| HasEndpoints(pt.b, pre, ip, dst, rest) {
        EndpointsLayout(pt.b, ip, dst);
      }
    }
  }

  lemma DestinationIs(packet: seq<byte>, ip: Addr)
    ensures Destination(packet) == Some(ip) <==> SentTo(packet, ip)
  {
    hide PacketEndpoints, HasEndpoints;
    if Destination(packet) == Some(ip) {
      EndpointsLayout(packet, PacketEndpoints(packet).value.0, ip);
    }
    if pre, src, rest :| HasEndpoints(packet, pre, src, ip, rest) {
      EndpointsLayout(packet, src, ip);
    }
  }

  /** IPv4 sources always move the binding; others only until an IPv4 source has been seen. */
  predicate Rebinds(bound: Option<Addr>, src: Addr) {
    (src.V4? || bound.None? || !bound.value.V4?) && bound != Some(src)
  }

  /** A packet decrypted for entry `id` moves the entry's inner address. */
  predicate Moves(t: Table, id: nat, pt: Term)
    requires id < |t.entries|
  {
    Source(pt).Some? && Rebinds(t.entries[id].tunIP, Source(pt).value)
  }

  /**
   * Message A from `addr`. `allowed` is the allowlist at this moment, `e` the generated ephemeral
   * key, `delivered` whether the reply could be sent. The result is the reply, if any was made.
   */
  function HandleHandshakeA(
    srv: Server, addr: UdpKey, m: HandshakeMessage, e: Scalar, allowed: set<Term>, delivered: bool)
    : (r: (Server, Option<HandshakeMessage>))
    requires Ok(srv)
    ensures Ok(r.0)
  {
    hide ReadHandshake, WriteHandshake, NewResponder, Inv, Admit;
    var (s1, got) := ReadHandshake(NewResponder(srv.prologue, srv.identity), m);
    var peer := PeerStatic(s1);
    var (s2, reply) := WriteHandshake(s1, e, EMPTY);
    if got.Failure? || peer !in allowed || reply.Failure? then (srv, None)
    else if !delivered then (srv, Some(reply.value))
    else
      AdmitOk(srv.table, addr, peer);
      (srv.(table := Admit(srv.table, addr, peer), sess := srv.sess + [s2]), Some(reply.value))
  }

  lemma AdmitOk(t: Table, udp: UdpKey, peer: Term)
    requires Inv(t)
    ensures Inv(Admit(t, udp, peer)) && |Admit(t, udp, peer).entries| == |t.entries| + 1
  {
    hide Inv, Admit;
    AdmitKeepsInv(t, udp, peer);
  }

  /** A transport frame from `addr`. The result is what is written to the TUN device, if anything. */
  function HandleTransport(srv: Server, addr: UdpKey, f: TransportMessage): (r: (Server, Option<Term>))
    requires Ok(srv)
    ensures Ok(r.0)
  {
    match Lookup(srv.table.byUDP, addr)
    case None => (srv, None)
    case Some(id) =>
      var (s, got) := DecryptTransport(srv.sess[id], f);
      var srv' := srv.(sess := srv.sess[id := s]);
      if got.Failure? then (srv', None)
      else if Moves(srv.table, id, got.value) then
        assert UdpOk(srv.table, addr);
        BindKeepsInv(srv.table, id, Source(got.value).value);
        (srv'.(table := BindTunIP(srv.table, id, Source(got.value).value)), Some(got.value))
      else (srv', Some(got.value))
  }

  /** The TUN loop's choice of a session for a packet. */
  function Route(srv: Server, packet: seq<byte>): Option<nat> {
    if Destination(packet).Some? then Lookup(srv.table.byTunIP, Destination(packet).value) else None
  }

  /** The TUN loop's sealing of the packet for the entry it found. */
  function SealPacket(srv: Server, id: nat, packet: seq<byte>): (Server, Option<TransportMessage>)
    requires id < |srv.sess|
  {
    match EncryptTransport(srv.sess[id], Bytes(packet))
    case (s, Success(f)) => (srv.(sess := srv.sess[id := s]), Some(f))
    case (s, Failure(_)) => (srv, None)
  }

  /* Runs. The TUN loop is a thread of its own: other steps may come between routing and sealing. */

  datatype Event =
    | HandshakeA(addr: UdpKey, m: HandshakeMessage, e: Scalar, allowed: set<Term>, delivered: bool)
    | Transport(addr: UdpKey, f: TransportMessage)
    | TunRead(packet: seq<byte>)
    | TunSend

  /** What happened, in order. */
  datatype Fact =
    | Opened(id: nat, peer: Term, allowed: set<Term>)
    | Received(id: nat, pt: Term)
    | Bound(id: nat, peer: Term, ip: Addr)
    | Routed(id: nat, packet: seq<byte>, table: Table)
    | Sealed(id: nat, packet: seq<byte>, f: TransportMessage)

  datatype State = State(srv: Server, routed: Option<(nat, seq<byte>)>, log: seq<Fact>)

  function Step(st: State, ev: Event): (st': State)
    requires Ok(st.srv)
    ensures Ok(st'.srv)
  {
    match ev
    case HandshakeA(addr, m, e, allowed, delivered) =>
      var srv := HandleHandshakeA(st.srv, addr, m, e, allowed, delivered).0;
      st.(srv := srv, log := st.log + OpenedBy(st.srv, srv, allowed))
    case Transport(addr, f) =>
      var (srv, out) := HandleTransport(st.srv, addr, f);
      if out.None? then st.(srv := srv)
      else
        var id := st.srv.table.byUDP[addr];
        st.(srv := srv, log := st.log + [Received(id, out.value)] + BoundBy(st.srv.table, id, out.value))
    case TunRead(packet) =>
      if st.routed.Some? || Route(st.srv, packet).None? then st
      else
        var id := Route(st.srv, packet).value;
        st.(routed := Some((id, packet)), log := st.log + [Routed(id, packet, st.srv.table)])
    case TunSend =>
      if st.routed.None? || st.routed.value.0 >= |st.srv.sess| then st
      else
        var (id, packet) := st.routed.value;
        var (srv, f) := SealPacket(st.srv, id, packet);
        State(srv, None, st.log + if f.Some? then [Sealed(id, packet, f.value)] else [])
  }

  function OpenedBy(srv: Server, srv': Server, allowed: set<Term>): seq<Fact> {
    var id := |srv.table.entries|;
    if id < |srv'.table.entries| then [Opened(id, srv'.table.entries[id].peer, allowed)] else []
  }

  function BoundBy(t: Table, id: nat, pt: Term): seq<Fact>
    requires id < |t.entries|
  {
    if Moves(t, id, pt) then [Bound(id, t.entries[id].peer, Source(pt).value)] else []
  }

  function Run(identity: KeyPair, prologue: Term, events: seq<Event>): (st: State)
    ensures Ok(st.srv)
  {
    if events == [] then State(NewServer(identity, prologue), None, [])
    else Step(Run(identity, prologue, events[..|events| - 1]), events[|events| - 1])
  }

  /** Entry `id` was opened for `peer` while the allowlist named it. */
  predicate Admitted(log: seq<Fact>, id: nat, peer: Term) {
    exists i | 0 <= i < |log| :: log[i].Opened? && log[i].id == id && log[i].peer == peer && peer in log[i].allowed
  }

  /** Entry `id` decrypted a packet whose inner source is `ip`. */
  predicate HeardFrom(log: seq<Fact>, id: nat, ip: Addr) {
    exists i | 0 <= i < |log| :: log[i].Received? && log[i].id == id && Source(log[i].pt) == Some(ip)
  }

  /**
   * At m, the packet was routed to entry `id`, which was live and bound to the packet's destination at
   * that moment, had been opened for an allowed peer, and had decrypted a packet from there.
   */
  predicate WellRouted(log: seq<Fact>, m: nat, id: nat, packet: seq<byte>) {
    && m < |log| && log[m].Routed? && log[m].id == id && log[m].packet == packet
    && Live(log[m].table, id) && log[m].table.entries[id].tunIP == Destination(packet) && Destination(packet).Some?
    && Admitted(log[..m], id, log[m].table.entries[id].peer)
    && HeardFrom(log[..m], id, Destination(packet).value)
  }

  /** The sealing recorded at j was preceded by what entitles it. */
  predicate Entitled(log: seq<Fact>, j: nat)
    requires j < |log| && log[j].Sealed?
  {
    exists m: nat | m < j :: WellRouted(log, m, log[j].id, log[j].packet)
  }

  ghost predicate Sound(st: State) {
    var t := st.srv.table;
    && Ok(st.srv)
    && (forall id: nat | id < |t.entries| :: Admitted(st.log, id, t.entries[id].peer))
    && (forall id: nat | id < |t.entries| && t.entries[id].tunIP.Some? ::
      HeardFrom(st.log, id, t.entries[id].tunIP.value))
    && (st.routed.Some? ==>
      && st.routed.value.0 < |t.entries|
      && exists m: nat :: WellRouted(st.log, m, st.routed.value.0, st.routed.value.1))
    && forall j: nat | j < |st.log| && st.log[j].Sealed? :: Entitled(st.log, j)
  }

  /** A longer log says at least as much. */
  lemma LogGrows(log: seq<Fact>, more: seq<Fact>)
    ensures forall id, peer | Admitted(log, id, peer) :: Admitted(log + more, id, peer)
    ensures forall id, ip | HeardFrom(log, id, ip) :: HeardFrom(log + more, id, ip)
    ensures forall m, id, packet | WellRouted(log, m, id, packet) :: WellRouted(log + more, m, id, packet)
    ensures forall j: nat | j < |log| && log[j].Sealed? && Entitled(log, j) :: Entitled(log + more, j)
  {
    FactsStay(log, more);
    hide WellRouted, Admitted, HeardFrom, Entitled;
    forall m, id, packet | WellRouted(log, m, id, packet) ensures WellRouted(log + more, m, id, packet) {
      RoutingStays(log, more, m, id, packet);
    }
    forall j: nat | j < |log| && log[j].Sealed? && Entitled(log, j) ensures Entitled(log + more, j) {
      EntitledStays(log, more, j);
    }
  }

  lemma FactsStay(log: seq<Fact>, more: seq<Fact>)
    ensures forall id, peer | Admitted(log, id, peer) :: Admitted(log + more, id, peer)
    ensures forall id, ip | HeardFrom(log, id, ip) :: HeardFrom(log + more, id, ip)
  {
    forall id, peer | Admitted(log, id, peer) ensures Admitted(log + more, id, peer) {
      var i :| 0 <= i < |log| && log[i].Opened? && log[i].id == id && log[i].peer == peer && peer in log[i].allowed;
      assert (log + more)[i] == log[i];
    }
    forall id, ip | HeardFrom(log, id, ip) ensures HeardFrom(log + more, id, ip) {
      var i :| 0 <= i < |log| && log[i].Received? && log[i].id == id && Source(log[i].pt) == Some(ip);
      assert (log + more)[i] == log[i];
    }
  }

  lemma EntitledStays(log: seq<Fact>, more: seq<Fact>, j: nat)
    requires j < |log| && log[j].Sealed? && Entitled(log, j)
    ensures Entitled(log + more, j)
  {
    hide WellRouted;
    var m: nat :| m < j && WellRouted(log, m, log[j].id, log[j].packet);
    RoutingStays(log, more, m, log[j].id, log[j].packet);
    assert (log + more)[j] == log[j];
  }

  lemma RoutingStays(log: seq<Fact>, more: seq<Fact>, m: nat, id: nat, packet: seq<byte>)
    requires WellRouted(log, m, id, packet)
    ensures WellRouted(log + more, m, id, packet)
  {
    hide Admitted, HeardFrom, Destination;
    assert (log + more)[..m] == log[..m] && (log + more)[m] == log[m];
  }

  lemma HandshakeSound(st: State, addr: UdpKey, m: HandshakeMessage, e: Scalar, allowed: set<Term>, delivered: bool)
    requires Sound(st)
    ensures Sound(Step(st, HandshakeA(addr, m, e, allowed, delivered)))
  {
    hide ReadHandshake, WriteHandshake, Inv, Admit, Admitted, HeardFrom, Entitled;
    var st' := Step(st, HandshakeA(addr, m, e, allowed, delivered));
    if st'.srv != st.srv {
      var peer := PeerStatic(ReadHandshake(NewResponder(st.srv.prologue, st.srv.identity), m).0);
      AdmitKeepsInv(st.srv.table, addr, peer);
      var fact := Opened(|st.srv.table.entries|, peer, allowed);
      assert st'.log == st.log + [fact];
      LogGrows(st.log, [fact]);
      OpenedAdmits(st.log, fact);
    } else {
      assert st'.log == st.log;
    }
  }

  lemma OpenedAdmits(log: seq<Fact>, fact: Fact)
    requires fact.Opened? && fact.peer in fact.allowed
    ensures Admitted(log + [fact], fact.id, fact.peer)
  {
    assert (log + [fact])[|log|] == fact;
  }

  lemma KnownEndpoint(srv: Server, addr: UdpKey)
    requires Ok(srv) && addr in srv.table.byUDP
    ensures srv.table.byUDP[addr] < |srv.table.entries|
  {
  }

  lemma TransportSound(st: State, addr: UdpKey, f: TransportMessage)
    requires Sound(st)
    ensures Sound(Step(st, Transport(addr, f)))
  {
    hide DecryptTransport, Inv, Admitted, HeardFrom, Entitled, Source;
    var st' := Step(st, Transport(addr, f));
    var out := HandleTransport(st.srv, addr, f).1;
    if out.Some? {
      KnownEndpoint(st.srv, addr);
      var id := st.srv.table.byUDP[addr];
      var more := [Received(id, out.value)] + BoundBy(st.srv.table, id, out.value);
      assert st'.log == st.log + more;
      LogGrows(st.log, more);
      ReceivedHears(st.log, more, id, out.value);
    }
  }

  lemma ReceivedHears(log: seq<Fact>, more: seq<Fact>, id: nat, pt: Term)
    requires more != [] && more[0] == Received(id, pt)
    ensures Source(pt).Some? ==> HeardFrom(log + more, id, Source(pt).value)
  {
    assert (log + more)[|log|] == Received(id, pt);
  }

  /** The entry that routing finds is live and bound to the packet's destination. */
  lemma RouteIsLive(srv: Server, packet: seq<byte>)
    requires Ok(srv) && Route(srv, packet).Some?
    ensures
      var id := Route(srv, packet).value;
      Live(srv.table, id) && srv.table.entries[id].tunIP == Destination(packet) && Destination(packet).Some?
  {
    assert AddrOk(srv.table, Destination(packet).value);
  }

  lemma TunReadSound(st: State, packet: seq<byte>)
    requires Sound(st)
    ensures Sound(Step(st, TunRead(packet)))
  {
    hide Inv, Admitted, HeardFrom, Entitled, Route, Destination, Live, WellRouted;
    var st' := Step(st, TunRead(packet));
    if st.routed.None? && Route(st.srv, packet).Some? {
      var fact := Routed(Route(st.srv, packet).value, packet, st.srv.table);
      RoutedWell(st, packet);
      LogGrows(st.log, [fact]);
      assert st'.log == st.log + [fact];
      assert WellRouted(st'.log, |st.log|, st'.routed.value.0, st'.routed.value.1);
    }
  }

  lemma RoutedWell(st: State, packet: seq<byte>)
    requires Sound(st) && Route(st.srv, packet).Some?
    ensures
      var id := Route(st.srv, packet).value;
      id < |st.srv.table.entries| && WellRouted(st.log + [Routed(id, packet, st.srv.table)], |st.log|, id, packet)
  {
    RouteIsLive(st.srv, packet);
    hide Inv, Admitted, HeardFrom, Entitled, Route, Destination;
    var log' := st.log + [Routed(Route(st.srv, packet).value, packet, st.srv.table)];
    assert log'[..|st.log|] == st.log;
  }

  lemma TunSendSound(st: State)
    requires Sound(st)
    ensures Sound(Step(st, TunSend))
  {
    hide Inv, EncryptTransport, HeardFrom, Admitted, WellRouted;
    var st' := Step(st, TunSend);
    if st.routed.Some? {
      var (id, packet) := st.routed.value;
      var f := SealPacket(st.srv, id, packet).1;
      if f.Some? {
        var more := [Sealed(id, packet, f.value)];
        LogGrows(st.log, more);
        assert st'.log == st.log + more;
        var m: nat :| WellRouted(st.log, m, id, packet);
        RoutedBefore(st.log, m, id, packet);
        assert WellRouted(st'.log, m, id, packet);
      } else {
        assert st'.log == st.log;
      }
    }
  }

  lemma RoutedBefore(log: seq<Fact>, m: nat, id: nat, packet: seq<byte>)
    requires WellRouted(log, m, id, packet)
    ensures m < |log|
  {
  }

  lemma {:induction false} RunSound(identity: KeyPair, prologue: Term, events: seq<Event>)
    ensures Sound(Run(identity, prologue, events))
  {
    if events == [] {
    } else {
      hide Sound, Step;
      var st := Run(identity, prologue, events[..|events| - 1]);
      RunSound(identity, prologue, events[..|events| - 1]);
      match events[|events| - 1] {
        case HandshakeA(addr, m, e, allowed, delivered) => HandshakeSound(st, addr, m, e, allowed, delivered);
        case Transport(addr, f) => TransportSound(st, addr, f);
        case TunRead(packet) => TunReadSound(st, packet);
        case TunSend => TunSendSound(st);
      }
    }
  }

  /**
   * Routing safety. In every run, whenever a packet is sealed for an entry, it was routed to that entry
   * before, while the entry was live and bound to the address that the packet's header names as its
   * destination. Before that, the entry was opened for a peer that the allowlist named at that moment,
   * and the same entry had decrypted a packet whose header names that address as its source.
   */
  lemma RoutingSafety(identity: KeyPair, prologue: Term, events: seq<Event>, j: nat)
    requires j < |Run(identity, prologue, events).log| && Run(identity, prologue, events).log[j].Sealed?
    ensures
      var log := Run(identity, prologue, events).log;
      var id := log[j].id;
      exists i, k, m, dst | 0 <= i < m && 0 <= k < m < j ::
        && SentTo(log[j].packet, dst)
        && log[i].Opened? && log[i].id == id && log[i].peer in log[i].allowed
        && log[k].Received? && log[k].id == id && SentFrom(log[k].pt, dst)
        && log[m].Routed? && log[m].id == id && log[m].packet == log[j].packet
        && Live(log[m].table, id) && log[m].table.entries[id].tunIP == Some(dst)
        && log[m].table.entries[id].peer == log[i].peer
  {
    RunSound(identity, prologue, events);
    var log := Run(identity, prologue, events).log;
    assert Entitled(log, j);
    var id, packet := log[j].id, log[j].packet;
    var m: nat :| m < j && WellRouted(log, m, id, packet);
    var i, k := RoutingEvidence(log, m, id, packet);
    assert log[m].Routed? && log[m].id == id && log[m].packet == packet && Live(log[m].table, id);
    hide *;
    var dst := log[m].table.entries[id].tunIP.value;
    SourceIs(log[k].pt, dst);
    DestinationIs(packet, dst);
  }

  lemma RoutingEvidence(log: seq<Fact>, m: nat, id: nat, packet: seq<byte>) returns (i: nat, k: nat)
    requires WellRouted(log, m, id, packet)
    ensures m < |log| && log[m].Routed? && id < |log[m].table.entries| && log[m].table.entries[id].tunIP.Some?
    ensures i < m && log[i].Opened? && log[i].id == id && log[i].peer in log[i].allowed
    ensures log[i].peer == log[m].table.entries[id].peer
    ensures k < m && log[k].Received? && log[k].id == id && Source(log[k].pt) == log[m].table.entries[id].tunIP
    ensures log[m].table.entries[id].tunIP == Destination(packet)
  {
    hide Source, Destination;
    var before, peer := log[..m], log[m].table.entries[id].peer;
    i :| 0 <= i < m && before[i].Opened? && before[i].id == id && before[i].peer == peer && peer in before[i].allowed;
    k :| 0 <= k < m && before[k].Received? && before[k].id == id && Source(before[k].pt) == Destination(packet);
  }

  /** In every run the UDP and peer indexes describe one set of live sessions, one per peer. */
  lemma TableInvariant(identity: KeyPair, prologue: Term, events: seq<Event>)
    ensures
      var t := Run(identity, prologue, events).srv.table;
      Inv(t) && |t.byUDP| == |t.byPeer|
  {
    CountIsPeers(Run(identity, prologue, events).srv.table);
  }

  /** The TUN loop routes by the destination in the packet's header, and drops a packet that has none. */
  lemma RouteByHeader(srv: Server, packet: seq<byte>, dst: Addr)
    ensures SentTo(packet, dst) ==> Route(srv, packet) == Lookup(srv.table.byTunIP, dst)
    ensures Route(srv, packet).Some? ==>
              exists ip :: SentTo(packet, ip) && Route(srv, packet) == Lookup(srv.table.byTunIP, ip)
  {
    DestinationIs(packet, dst);
    if Destination(packet).Some? {
      DestinationIs(packet, Destination(packet).value);
    }
    hide Destination, SentTo;
  }

  /**
   * A frame is accepted exactly when its endpoint has a session and it is a fresh genuine frame of that
   * session; what goes to the TUN device is its plaintext, and no other session changes.
   */
  lemma AcceptedExactly(srv: Server, addr: UdpKey, f: TransportMessage, pt: Term)
    requires Ok(srv) && (addr in srv.table.byUDP ==> HandshakeComplete(srv.sess[srv.table.byUDP[addr]]))
    ensures HandleTransport(srv, addr, f).1 == Some(pt) <==>
            && addr in srv.table.byUDP
            && var s := srv.sess[srv.table.byUDP[addr]];
               ReplayWindow.Fresh(s.rx, f.nonce) && f.ciphertext == Seal(Rx(s).k, f.nonce, EMPTY, pt)
    ensures |HandleTransport(srv, addr, f).0.sess| == |srv.sess|
    ensures forall id: nat | id < |srv.sess| && !(addr in srv.table.byUDP && srv.table.byUDP[addr] == id) ::
              HandleTransport(srv, addr, f).0.sess[id] == srv.sess[id]
  {
    if addr in srv.table.byUDP {
      KnownEndpoint(srv, addr);
    }
    hide Inv, Source, Rebinds, BindTunIP, ReplayWindow.Receive, ReplayWindow.Fresh;
  }

  /**
   * An accepted packet binds its entry to the source in its header: always, if that is an IPv4 address,
   * and otherwise only while the entry is not bound to an IPv4 address. A packet without a whole header
   * binds nothing.
   */
  lemma BindsHeaderSource(srv: Server, addr: UdpKey, f: TransportMessage, src: Addr)
    requires Ok(srv) && addr in srv.table.byUDP && HandleTransport(srv, addr, f).1.Some?
    ensures srv.table.byUDP[addr] < |srv.table.entries|
    ensures
      var (srv', out) := HandleTransport(srv, addr, f);
      var id := srv.table.byUDP[addr];
      var before, after := srv.table.entries[id].tunIP, srv'.table.entries[id].tunIP;
      && (SentFrom(out.value, src) ==>
        after == if src.V4? || before.None? || before.value.V6? then Some(src) else before)
      && ((forall ip :: !SentFrom(out.value, ip)) ==> srv'.table == srv.table)
  {
    KnownEndpoint(srv, addr);
    var out := HandleTransport(srv, addr, f).1;
    SourceIs(out.value, src);
    if Source(out.value).Some? {
      SourceIs(out.value, Source(out.value).value);
    }
    hide Inv, DecryptTransport, Source, SentFrom;
  }

  /**
   * After a packet from inner address `src` was accepted, replies to `src` are routed to the session
   * it came from exactly when that session held `src` in the index already or has just bound it. An
   * IPv4 sender misses its replies only if its own record says that it is bound to `src` while the index
   * has another session there, or none: then sending from `src` again does not win the address back.
   */
  lemma ReplyReachesSender(srv: Server, addr: UdpKey, f: TransportMessage, src: Addr, reply: seq<byte>)
    requires Ok(srv) && addr in srv.table.byUDP && HandleTransport(srv, addr, f).1.Some?
    requires SentFrom(HandleTransport(srv, addr, f).1.value, src) && SentTo(reply, src)
    ensures srv.table.byUDP[addr] < |srv.table.entries|
    ensures
      var (srv', out) := HandleTransport(srv, addr, f);
      var t, id := srv.table, srv.table.byUDP[addr];
      && (Route(srv', reply) == Some(id) <==> Moves(t, id, out.value) || Lookup(t.byTunIP, src) == Some(id))
      && (src.V4? ==>
        (Route(srv', reply) == Some(id) <==> t.entries[id].tunIP != Some(src) || Lookup(t.byTunIP, src) == Some(id)))
  {
    KnownEndpoint(srv, addr);
    SourceIs(HandleTransport(srv, addr, f).1.value, src);
    DestinationIs(reply, src);
    hide Inv, DecryptTransport, Source, Destination, Rebinds, SentFrom, SentTo;
    var t, id := srv.table, srv.table.byUDP[addr];
    var (srv', out) := HandleTransport(srv, addr, f);
    assert srv'.table == if Moves(t, id, out.value) then BindTunIP(t, id, src) else t;
    hide HandleTransport;
    if src.V4? {
      MovesV4(t, id, out.value);
    }
  }

  lemma MovesV4(t: Table, id: nat, pt: Term)
    requires id < |t.entries| && Source(pt).Some? && Source(pt).value.V4?
    ensures Moves(t, id, pt) <==> t.entries[id].tunIP != Source(pt)
  {
    hide Source;
  }

  /* Getting a lost address back */

  predicate MovedAway(log: seq<Fact>, base: nat, i: nat, id: nat, ip: Addr) {
    base <= i < |log| && log[i].Bound? && log[i].id == id && log[i].ip != ip
  }

  predicate CameBack(log: seq<Fact>, i: nat, id: nat, ip: Addr) {
    exists j | i < j < |log| :: log[j].Bound? && log[j].id == id && log[j].ip == ip
  }

  /**
   * Entry `id` says it is bound to `ip` and the index does not have it there; or it has moved to another
   * address since and, if the index has it under `ip` now, come back after that.
   */
  ghost predicate Astray(st: State, base: nat, id: nat, ip: Addr) {
    && id < |st.srv.table.entries| && base <= |st.log|
    && (|| (st.srv.table.entries[id].tunIP == Some(ip) && Lookup(st.srv.table.byTunIP, ip) != Some(id))
        || exists i: nat :: MovedAway(st.log, base, i, id, ip) &&
             (Lookup(st.srv.table.byTunIP, ip) == Some(id) ==> CameBack(st.log, i, id, ip)))
  }

  lemma AstrayGrows(log: seq<Fact>, more: seq<Fact>, base: nat, id: nat, ip: Addr)
    ensures forall i: nat | MovedAway(log, base, i, id, ip) :: MovedAway(log + more, base, i, id, ip)
    ensures forall i: nat | CameBack(log, i, id, ip) :: CameBack(log + more, i, id, ip)
  {
    forall i: nat | CameBack(log, i, id, ip) ensures CameBack(log + more, i, id, ip) {
      var j :| i < j < |log| && log[j].Bound? && log[j].id == id && log[j].ip == ip;
      assert (log + more)[j] == log[j];
    }
  }

  lemma HandshakeAstray(
    st: State, addr: UdpKey, m: HandshakeMessage, e: Scalar, allowed: set<Term>, delivered: bool,
    base: nat, id: nat, ip: Addr)
    requires Ok(st.srv) && Astray(st, base, id, ip)
    ensures Astray(Step(st, HandshakeA(addr, m, e, allowed, delivered)), base, id, ip)
  {
    hide ReadHandshake, WriteHandshake, Inv, Admit, MovedAway, CameBack;
    var st' := Step(st, HandshakeA(addr, m, e, allowed, delivered));
    AstrayGrows(st.log, OpenedBy(st.srv, st'.srv, allowed), base, id, ip);
    if st'.srv != st.srv {
      var peer := PeerStatic(ReadHandshake(NewResponder(st.srv.prologue, st.srv.identity), m).0);
      AdmitKeepsInv(st.srv.table, addr, peer);
      AdmitDrops(st.srv.table, addr, peer, ip);
    }
  }

  lemma TransportAstray(st: State, addr: UdpKey, f: TransportMessage, base: nat, id: nat, ip: Addr)
    requires Ok(st.srv) && Astray(st, base, id, ip)
    ensures Astray(Step(st, Transport(addr, f)), base, id, ip)
  {
    hide DecryptTransport, Inv, Source, MovedAway, CameBack;
    var st' := Step(st, Transport(addr, f));
    var t := st.srv.table;
    var out := HandleTransport(st.srv, addr, f).1;
    if out.Some? {
      KnownEndpoint(st.srv, addr);
      var sender := t.byUDP[addr];
      var more := [Received(sender, out.value)] + BoundBy(t, sender, out.value);
      assert st'.log == st.log + more;
      AstrayGrows(st.log, more, base, id, ip);
      if Moves(t, sender, out.value) {
        BindAstray(st, sender, Source(out.value).value, st'.log, base, id, ip);
      }
    }
  }

  lemma BindAstray(st: State, sender: nat, src: Addr, log: seq<Fact>, base: nat, id: nat, ip: Addr)
    requires Astray(st, base, id, ip) && sender < |st.srv.table.entries|
    requires st.srv.table.entries[sender].tunIP != Some(src)
    requires |log| > |st.log| && log[|log| - 1].Bound? && log[|log| - 1].id == sender && log[|log| - 1].ip == src
    requires forall i: nat | MovedAway(st.log, base, i, id, ip) :: MovedAway(log, base, i, id, ip)
    requires forall i: nat | CameBack(st.log, i, id, ip) :: CameBack(log, i, id, ip)
    ensures
      var t' := BindTunIP(st.srv.table, sender, src);
      || (t'.entries[id].tunIP == Some(ip) && Lookup(t'.byTunIP, ip) != Some(id))
      || exists i: nat :: MovedAway(log, base, i, id, ip) &&
           (Lookup(t'.byTunIP, ip) == Some(id) ==> CameBack(log, i, id, ip))
  {
    var t, t', last := st.srv.table, BindTunIP(st.srv.table, sender, src), |log| - 1;
    if t.entries[id].tunIP == Some(ip) && Lookup(t.byTunIP, ip) != Some(id) {
      if sender == id {
        assert MovedAway(log, base, last, id, ip);
      }
    } else {
      var i: nat :| MovedAway(st.log, base, i, id, ip) &&
        (Lookup(t.byTunIP, ip) == Some(id) ==> CameBack(st.log, i, id, ip));
      assert i < last && MovedAway(log, base, i, id, ip);
    }
  }

  lemma TunAstray(st: State, ev: Event, base: nat, id: nat, ip: Addr)
    requires Ok(st.srv) && Astray(st, base, id, ip) && (ev.TunRead? || ev.TunSend?)
    ensures Astray(Step(st, ev), base, id, ip)
  {
    hide Inv, EncryptTransport, MovedAway, CameBack;
    var st' := Step(st, ev);
    var more := st'.log[|st.log|..];
    assert st'.log == st.log + more;
    AstrayGrows(st.log, more, base, id, ip);
  }

  lemma {:induction false} RunAstray(
    identity: KeyPair, prologue: Term, events: seq<Event>, k: nat, base: nat, id: nat, ip: Addr)
    requires k <= |events| && Astray(Run(identity, prologue, events[..k]), base, id, ip)
    ensures Astray(Run(identity, prologue, events), base, id, ip)
    decreases |events|
  {
    if k == |events| {
      assert events[..k] == events;
    } else {
      hide Astray, Step, Ok;
      var before, ev := events[..|events| - 1], events[|events| - 1];
      assert before[..k] == events[..k];
      RunAstray(identity, prologue, before, k, base, id, ip);
      var st := Run(identity, prologue, before);
      match ev {
        case HandshakeA(addr, m, e, allowed, delivered) =>
          HandshakeAstray(st, addr, m, e, allowed, delivered, base, id, ip);
        case Transport(addr, f) => TransportAstray(st, addr, f, base, id, ip);
        case _ => TunAstray(st, ev, base, id, ip);
      }
    }
  }

  /**
   * In every run, an entry that is bound to an address in its own record only, because another entry
   * took it over or dropped it, is found under that address again only after it has been bound to
   * another address and then to this one again.
   */
  lemma RegainedByMoving(identity: KeyPair, prologue: Term, events: seq<Event>, k: nat, id: nat, ip: Addr)
    requires k <= |events| && id < |Run(identity, prologue, events[..k]).srv.table.entries|
    requires Run(identity, prologue, events[..k]).srv.table.entries[id].tunIP == Some(ip)
    requires Lookup(Run(identity, prologue, events[..k]).srv.table.byTunIP, ip) != Some(id)
    requires Lookup(Run(identity, prologue, events).srv.table.byTunIP, ip) == Some(id)
    ensures
      var base, log := |Run(identity, prologue, events[..k]).log|, Run(identity, prologue, events).log;
      exists i, j | base <= i < j < |log| ::
        log[i].Bound? && log[i].id == id && log[i].ip != ip && log[j].Bound? && log[j].id == id && log[j].ip == ip
  {
    var base := |Run(identity, prologue, events[..k]).log|;
    RunAstray(identity, prologue, events, k, base, id, ip);
    var log := Run(identity, prologue, events).log;
    var i: nat :| MovedAway(log, base, i, id, ip) && CameBack(log, i, id, ip);
    var j :| i < j < |log| && log[j].Bound? && log[j].id == id && log[j].ip == ip;
  }

  /* Message A again */

  lemma StepIdentity(st: State, ev: Event)
    requires Ok(st.srv)
    ensures Step(st, ev).srv.identity == st.srv.identity && Step(st, ev).srv.prologue == st.srv.prologue
  {
    hide ReadHandshake, WriteHandshake, DecryptTransport, EncryptTransport, Inv, Admit, BindTunIP, Source, Rebinds;
    hide Route, BoundBy, OpenedBy;
  }

  lemma {:induction false} RunIdentity(identity: KeyPair, prologue: Term, events: seq<Event>)
    ensures
      var srv := Run(identity, prologue, events).srv;
      srv.identity == identity && srv.prologue == prologue
  {
    if events == [] {
    } else {
      hide Step, Ok;
      RunIdentity(identity, prologue, events[..|events| - 1]);
      StepIdentity(Run(identity, prologue, events[..|events| - 1]), events[|events| - 1]);
    }
  }

  /** Whether message A is admitted depends on the message and the allowlist alone. */
  lemma AdmittedExactly(
    srv: Server, addr: UdpKey, m: HandshakeMessage, e: Scalar, allowed: set<Term>)
    requires Ok(srv)
    ensures
      var (s1, got) := ReadHandshake(NewResponder(srv.prologue, srv.identity), m);
      var srv' := HandleHandshakeA(srv, addr, m, e, allowed, true).0;
      if got.Success? && PeerStatic(s1) in allowed
      then srv'.table == Admit(srv.table, addr, PeerStatic(s1)) && |srv'.table.entries| == |srv.table.entries| + 1
      else srv' == srv
  {
    AnswerIsWritten(NewResponder(srv.prologue, srv.identity), m, e);
    hide ReadHandshake, WriteHandshake, NewResponder, Inv, Admit;
    AdmitOk(srv.table, addr, PeerStatic(ReadHandshake(NewResponder(srv.prologue, srv.identity), m).0));
  }

  lemma AnswerIsWritten(s: SessionState, m: HandshakeMessage, e: Scalar)
    requires s.mc == 0
    ensures ReadHandshake(s, m).1.Success? ==> WriteHandshake(ReadHandshake(s, m).0, e, EMPTY).1.Success?
  {
    hide ReadMessageA, WriteMessageB;
  }

  /** The peer that a message A names to this server, if it can be read. */
  function Named(identity: KeyPair, prologue: Term, m: HandshakeMessage): Option<Term> {
    var (s1, got) := ReadHandshake(NewResponder(prologue, identity), m);
    if got.Success? then Some(PeerStatic(s1)) else None
  }

  /**
   * A message A is answered exactly when it can be read and the allowlist has the peer it names; when the
   * answer cannot be sent, nothing changes.
   */
  lemma AnsweredExactly(
    srv: Server, addr: UdpKey, m: HandshakeMessage, e: Scalar, allowed: set<Term>, delivered: bool)
    requires Ok(srv)
    ensures
      var (srv', reply) := HandleHandshakeA(srv, addr, m, e, allowed, delivered);
      var peer := Named(srv.identity, srv.prologue, m);
      && (reply.Some? <==> peer.Some? && peer.value in allowed)
      && (reply.None? || !delivered ==> srv' == srv)
      && (reply.Some? ==>
        var s := ReadHandshake(NewResponder(srv.prologue, srv.identity), m).0;
        WriteHandshake(s, e, EMPTY).1 == Success(reply.value))
  {
    AnswerIsWritten(NewResponder(srv.prologue, srv.identity), m, e);
    hide ReadHandshake, WriteHandshake, NewResponder, Inv, Admit;
  }

  /** A message A ends the live session of the peer it names exactly when the allowlist has the peer. */
  lemma KnockEnds(srv: Server, addr: UdpKey, m: HandshakeMessage, e: Scalar, allowed: set<Term>)
    requires Ok(srv)
    ensures
      var peer := Named(srv.identity, srv.prologue, m);
      var srv' := HandleHandshakeA(srv, addr, m, e, allowed, true).0;
      var t, t' := srv.table, srv'.table;
      if peer.Some? && peer.value in allowed then
        && t'.entries == t.entries + [EntryState(peer.value, addr, None)] && Live(t', |t.entries|)
        && forall id: nat | Live(t, id) && t.entries[id].peer == peer.value :: !Live(t', id)
      else
        srv' == srv
  {
    AdmittedExactly(srv, addr, m, e, allowed);
    var peer := PeerStatic(ReadHandshake(NewResponder(srv.prologue, srv.identity), m).0);
    AdmitKeepsInv(srv.table, addr, peer);
    hide ReadHandshake, HandleHandshakeA, NewResponder, Inv, Admit;
  }

  lemma KnockStep(st: State, addr: UdpKey, m: HandshakeMessage, e: Scalar, allowed: set<Term>)
    requires Ok(st.srv)
    ensures
      var st' := Step(st, HandshakeA(addr, m, e, allowed, true));
      st'.srv == HandleHandshakeA(st.srv, addr, m, e, allowed, true).0 && (st'.srv == st.srv ==> st' == st)
  {
    hide HandleHandshakeA, Ok;
  }

  /**
   * In every run, a message A that was admitted once is admitted again, from any endpoint and whoever
   * sends it, exactly while its peer is on the allowlist; the peer's live session ends then.
   */
  lemma MessageAIsReplayable(
    identity: KeyPair, prologue: Term, events: seq<Event>, k: nat, addr: UdpKey, e: Scalar, allowed: set<Term>)
    requires k < |events| && events[k].HandshakeA? && events[k].delivered
    requires
      |Run(identity, prologue, events[..k]).srv.table.entries| <
      |Step(Run(identity, prologue, events[..k]), events[k]).srv.table.entries|
    ensures
      var first := Run(identity, prologue, events[..k]);
      var peer := Step(first, events[k]).srv.table.entries[|first.srv.table.entries|].peer;
      var st := Run(identity, prologue, events);
      var st' := Step(st, HandshakeA(addr, events[k].m, e, allowed, true));
      var t, t' := st.srv.table, st'.srv.table;
      if peer in allowed then
        && t'.entries == t.entries + [EntryState(peer, addr, None)] && Live(t', |t.entries|)
        && forall id: nat | Live(t, id) && t.entries[id].peer == peer :: !Live(t', id)
      else
        st' == st
  {
    hide Step, Run, HandleHandshakeA, Named, Ok, Live;
    var first, st, ev := Run(identity, prologue, events[..k]), Run(identity, prologue, events), events[k];
    RunIdentity(identity, prologue, events[..k]);
    RunIdentity(identity, prologue, events);
    KnockStep(first, ev.addr, ev.m, ev.e, ev.allowed);
    KnockEnds(first.srv, ev.addr, ev.m, ev.e, ev.allowed);
    KnockStep(st, addr, ev.m, e, allowed);
    KnockEnds(st.srv, addr, ev.m, e, allowed);
  }

  /* The binding of an entry */

  /** The latest inner source that entry `id` decrypted; with `v4`, the latest IPv4 one. */
  function LastSource(log: seq<Fact>, id: nat, v4: bool): Option<Addr> {
    if log == [] then None
    else
      var fact := log[|log| - 1];
      if fact.Received? && fact.id == id && Source(fact.pt).Some? && (v4 ==> Source(fact.pt).value.V4?)
      then Source(fact.pt)
      else LastSource(log[..|log| - 1], id, v4)
  }

  function PreferredSource(log: seq<Fact>, id: nat): Option<Addr> {
    if LastSource(log, id, true).Some? then LastSource(log, id, true) else LastSource(log, id, false)
  }

  ghost predicate BoundToPreferred(st: State) {
    && (forall id: nat | id < |st.srv.table.entries| ::
      st.srv.table.entries[id].tunIP == PreferredSource(st.log, id))
    && forall id: nat | id >= |st.srv.table.entries| :: LastSource(st.log, id, false).None?
  }

  lemma {:induction false} LastV4IsLast(log: seq<Fact>, id: nat)
    ensures LastSource(log, id, true).Some? ==> LastSource(log, id, true).value.V4? && LastSource(log, id, false).Some?
    ensures LastSource(log, id, false).Some? && LastSource(log, id, false).value.V4? ==>
            LastSource(log, id, true) == LastSource(log, id, false)
  {
    if log == [] {
    } else {
      LastV4IsLast(log[..|log| - 1], id);
    }
  }

  lemma LastSourceAppend(log: seq<Fact>, fact: Fact)
    ensures forall id, v4 :: LastSource(log + [fact], id, v4) ==
              if fact.Received? && fact.id == id && Source(fact.pt).Some? && (v4 ==> Source(fact.pt).value.V4?)
              then Source(fact.pt) else LastSource(log, id, v4)
  {
    assert (log + [fact])[..|log|] == log;
  }

  lemma HandshakeBinding(st: State, addr: UdpKey, m: HandshakeMessage, e: Scalar, allowed: set<Term>, delivered: bool)
    requires Ok(st.srv) && BoundToPreferred(st)
    ensures BoundToPreferred(Step(st, HandshakeA(addr, m, e, allowed, delivered)))
  {
    hide ReadHandshake, WriteHandshake, Inv, Admit, Source, LastSource;
    var st' := Step(st, HandshakeA(addr, m, e, allowed, delivered));
    if st'.srv != st.srv {
      var peer := PeerStatic(ReadHandshake(NewResponder(st.srv.prologue, st.srv.identity), m).0);
      AdmitKeepsInv(st.srv.table, addr, peer);
      LastSourceAppend(st.log, Opened(|st.srv.table.entries|, peer, allowed));
      LastV4IsLast(st.log, |st.srv.table.entries|);
    } else {
      assert st'.log == st.log;
    }
  }

  lemma TransportBinding(st: State, addr: UdpKey, f: TransportMessage)
    requires Ok(st.srv) && BoundToPreferred(st)
    ensures BoundToPreferred(Step(st, Transport(addr, f)))
  {
    hide DecryptTransport, Inv, Source, LastSource;
    var t := st.srv.table;
    var out := HandleTransport(st.srv, addr, f).1;
    if out.Some? {
      KnownEndpoint(st.srv, addr);
      var id := t.byUDP[addr];
      LastV4IsLast(st.log, id);
      var log1 := st.log + [Received(id, out.value)];
      LastSourceAppend(st.log, Received(id, out.value));
      if Moves(t, id, out.value) {
        LastSourceAppend(log1, Bound(id, t.entries[id].peer, Source(out.value).value));
      } else {
        assert log1 + BoundBy(t, id, out.value) == log1;
      }
    }
  }

  lemma TunBinding(st: State, ev: Event)
    requires Ok(st.srv) && BoundToPreferred(st) && (ev.TunRead? || ev.TunSend?)
    ensures BoundToPreferred(Step(st, ev))
  {
    hide Inv, EncryptTransport, Source, LastSource;
    var st' := Step(st, ev);
    if st'.log != st.log {
      LastSourceAppend(st.log, st'.log[|st.log|]);
      assert st'.log == st.log + [st'.log[|st.log|]];
    }
  }

  lemma {:induction false} RunBinding(identity: KeyPair, prologue: Term, events: seq<Event>)
    ensures BoundToPreferred(Run(identity, prologue, events))
  {
    if events == [] {
      NewIsUnbound(identity, prologue);
    } else {
      hide BoundToPreferred, Step, Ok;
      var st, ev := Run(identity, prologue, events[..|events| - 1]), events[|events| - 1];
      RunBinding(identity, prologue, events[..|events| - 1]);
      match ev {
        case HandshakeA(addr, m, e, allowed, delivered) => HandshakeBinding(st, addr, m, e, allowed, delivered);
        case Transport(addr, f) => TransportBinding(st, addr, f);
        case _ => TunBinding(st, ev);
      }
    }
  }

  /** Entry `id` decrypted at i a packet whose header names `ip` as its source. */
  ghost predicate Heard(log: seq<Fact>, id: nat, i: nat, ip: Addr) {
    i < |log| && log[i].Received? && log[i].id == id && SentFrom(log[i].pt, ip)
  }

  /**
   * No packet of the entry is preferred to this one: if it names an IPv4 address, no later IPv4 one; if it
   * names another, no later one and no IPv4 one at all.
   */
  ghost predicate Preferred(log: seq<Fact>, id: nat, i: nat, ip: Addr) {
    && Heard(log, id, i, ip)
    && forall k: nat, src | Heard(log, id, k, src) :: if ip.V4? then k > i ==> !src.V4? else k <= i && !src.V4?
  }

  lemma HeardIsReceived(log: seq<Fact>, id: nat, i: nat, ip: Addr)
    ensures Heard(log, id, i, ip) <==>
            i < |log| && log[i].Received? && log[i].id == id && Source(log[i].pt) == Some(ip)
  {
    if i < |log| && log[i].Received? {
      SourceIs(log[i].pt, ip);
    }
    hide Source, SentFrom;
  }

  lemma {:induction false} LastSourceIs(log: seq<Fact>, id: nat, v4: bool, ip: Addr)
    ensures LastSource(log, id, v4) == Some(ip) ==>
              exists i: nat :: Heard(log, id, i, ip) && (v4 ==> ip.V4?) &&
                forall k: nat, src | k > i && Heard(log, id, k, src) :: v4 && !src.V4?
    ensures LastSource(log, id, v4).None? ==> forall k: nat, src | Heard(log, id, k, src) :: v4 && !src.V4?
  {
    hide Heard, Source;
    if log == [] {
      forall k: nat, src ensures !Heard(log, id, k, src) {
        HeardIsReceived(log, id, k, src);
      }
    } else {
      var last := |log| - 1;
      var before := log[..last];
      LastSourceIs(before, id, v4, ip);
      forall k: nat, src
        ensures k < last ==> (Heard(log, id, k, src) <==> Heard(before, id, k, src))
        ensures k > last ==> !Heard(log, id, k, src)
        ensures k == last ==>
                  (Heard(log, id, k, src) <==>
                   log[last].Received? && log[last].id == id && Source(log[last].pt) == Some(src))
        ensures k >= last ==> !Heard(before, id, k, src)
      {
        HeardIsReceived(log, id, k, src);
        HeardIsReceived(before, id, k, src);
      }
      var fact := log[last];
      if fact.Received? && fact.id == id && Source(fact.pt).Some? && (v4 ==> Source(fact.pt).value.V4?) {
        assert Heard(log, id, last, Source(fact.pt).value);
      } else if LastSource(before, id, v4) == Some(ip) {
        var i: nat :| Heard(before, id, i, ip) && (v4 ==> ip.V4?) &&
          forall k: nat, src | k > i && Heard(before, id, k, src) :: v4 && !src.V4?;
        assert Heard(log, id, i, ip);
      }
    }
  }

  /**
   * In every run each entry is bound to the header source of the latest IPv4 packet it decrypted, to that
   * of the latest other packet while there was no IPv4 one, and to nothing before it decrypted a packet.
   */
  lemma BindingIsPreferred(identity: KeyPair, prologue: Term, events: seq<Event>, id: nat, ip: Addr)
    requires id < |Run(identity, prologue, events).srv.table.entries|
    ensures
      var st := Run(identity, prologue, events);
      st.srv.table.entries[id].tunIP == Some(ip) <==> exists i: nat :: Preferred(st.log, id, i, ip)
  {
    RunBinding(identity, prologue, events);
    var log := Run(identity, prologue, events).log;
    hide Run, LastSource, Heard;
    LastV4IsLast(log, id);
    PreferredIs(log, id, ip);
  }

  lemma PreferredIs(log: seq<Fact>, id: nat, ip: Addr)
    ensures PreferredSource(log, id) == Some(ip) <==> exists i: nat :: Preferred(log, id, i, ip)
  {
    var v4, any := LastSource(log, id, true), LastSource(log, id, false);
    LastV4IsLast(log, id);
    LastSourceIs(log, id, true, if v4.Some? then v4.value else ip);
    LastSourceIs(log, id, false, if any.Some? then any.value else ip);
    OneSource(log, id);
    hide LastSource, Heard;
    if i: nat :| Preferred(log, id, i, ip) {
      if v4.Some? {
        var j: nat :| Heard(log, id, j, v4.value) && forall k: nat, src | k > j && Heard(log, id, k, src) :: !src.V4?;
        assert i == j;
      } else {
        assert any.Some?;
        var j: nat :| Heard(log, id, j, any.value) && forall k: nat, src | k > j :: !Heard(log, id, k, src);
        assert i == j;
      }
    } else if PreferredSource(log, id) == Some(ip) {
      if v4.Some? {
        var j: nat :| Heard(log, id, j, ip) && forall k: nat, src | k > j && Heard(log, id, k, src) :: !src.V4?;
        assert Preferred(log, id, j, ip);
      } else {
        var j: nat :| Heard(log, id, j, ip) && forall k: nat, src | k > j :: !Heard(log, id, k, src);
        assert Preferred(log, id, j, ip);
      }
    }
  }

  /** A packet has one source. */
  lemma OneSource(log: seq<Fact>, id: nat)
    ensures forall i: nat, src, src' | Heard(log, id, i, src) && Heard(log, id, i, src') :: src == src'
  {
    hide Heard, Source;
    forall i: nat, src, src' | Heard(log, id, i, src) && Heard(log, id, i, src') ensures src == src' {
      HeardIsReceived(log, id, i, src);
      HeardIsReceived(log, id, i, src');
    }
  }

  lemma NewIsUnbound(identity: KeyPair, prologue: Term)
    ensures BoundToPreferred(State(NewServer(identity, prologue), None, []))
  {
  }

  /* The address index */

  /** The inner address was never bound for two different peers. */
  predicate Unshared(log: seq<Fact>, ip: Addr) {
    forall i, j | 0 <= i < |log| && 0 <= j < |log| && log[i].Bound? && log[j].Bound? && log[i].ip == log[j].ip == ip ::
      log[i].peer == log[j].peer
  }

  ghost predicate BoundInLog(st: State) {
    forall id: nat | id < |st.srv.table.entries| && st.srv.table.entries[id].tunIP.Some? ::
      BoundAt(st.log, st.srv.table.entries[id].peer, st.srv.table.entries[id].tunIP.value)
  }

  predicate BoundAt(log: seq<Fact>, peer: Term, ip: Addr) {
    exists i | 0 <= i < |log| :: log[i].Bound? && log[i].peer == peer && log[i].ip == ip
  }

  lemma BoundGrows(log: seq<Fact>, more: seq<Fact>)
    ensures forall peer, ip | BoundAt(log, peer, ip) :: BoundAt(log + more, peer, ip)
    ensures forall ip | Unshared(log + more, ip) :: Unshared(log, ip)
  {
    forall peer, ip | BoundAt(log, peer, ip) ensures BoundAt(log + more, peer, ip) {
      var i :| 0 <= i < |log| && log[i].Bound? && log[i].peer == peer && log[i].ip == ip;
      assert (log + more)[i] == log[i];
    }
    forall ip | Unshared(log + more, ip) ensures Unshared(log, ip) {
      forall i, j | 0 <= i < |log| && 0 <= j < |log| && log[i].Bound? && log[j].Bound? && log[i].ip == log[j].ip == ip
        ensures log[i].peer == log[j].peer
      {
        assert (log + more)[i] == log[i] && (log + more)[j] == log[j];
      }
    }
  }

  lemma HandshakeExact(st: State, addr: UdpKey, m: HandshakeMessage, e: Scalar, allowed: set<Term>, delivered: bool)
    requires Ok(st.srv) && BoundInLog(st)
    ensures
      var st' := Step(st, HandshakeA(addr, m, e, allowed, delivered));
      && BoundInLog(st') && (forall ip | Unshared(st'.log, ip) :: Unshared(st.log, ip))
      && forall ip | Exact(st.srv.table, ip) :: Exact(st'.srv.table, ip)
  {
    hide ReadHandshake, WriteHandshake, Inv, Admit, BoundAt, Unshared, Exact;
    var st' := Step(st, HandshakeA(addr, m, e, allowed, delivered));
    BoundGrows(st.log, OpenedBy(st.srv, st'.srv, allowed));
    if st'.srv != st.srv {
      AdmitKeepsInv(st.srv.table, addr, PeerStatic(ReadHandshake(NewResponder(st.srv.prologue, st.srv.identity), m).0));
    }
  }

  lemma TransportExact(st: State, addr: UdpKey, f: TransportMessage)
    requires Ok(st.srv) && BoundInLog(st)
    ensures
      var st' := Step(st, Transport(addr, f));
      && BoundInLog(st') && (forall ip | Unshared(st'.log, ip) :: Unshared(st.log, ip))
      && forall ip | Unshared(st'.log, ip) && Exact(st.srv.table, ip) :: Exact(st'.srv.table, ip)
  {
    hide DecryptTransport, Unshared, BoundAt, Source, Exact, Inv;
    var st' := Step(st, Transport(addr, f));
    var t := st.srv.table;
    var out := HandleTransport(st.srv, addr, f).1;
    if out.Some? {
      KnownEndpoint(st.srv, addr);
      var id := t.byUDP[addr];
      var more := [Received(id, out.value)] + BoundBy(t, id, out.value);
      assert st'.log == st.log + more;
      BoundGrows(st.log, more);
      if Moves(t, id, out.value) {
        BindExact(st, st'.log, addr, Source(out.value).value);
      }
    }
  }

  lemma BindExact(st: State, log: seq<Fact>, addr: UdpKey, ip: Addr)
    requires Ok(st.srv) && BoundInLog(st) && addr in st.srv.table.byUDP
    requires |log| > |st.log| && log[..|st.log|] == st.log
    requires log[|log| - 1] == Bound(st.srv.table.byUDP[addr], st.srv.table.entries[st.srv.table.byUDP[addr]].peer, ip)
    ensures BoundAt(log, st.srv.table.entries[st.srv.table.byUDP[addr]].peer, ip)
    ensures forall a | Exact(st.srv.table, a) && Unshared(log, a) ::
              Exact(BindTunIP(st.srv.table, st.srv.table.byUDP[addr], ip), a)
  {
    var t, id := st.srv.table, st.srv.table.byUDP[addr];
    assert UdpOk(t, addr);
    BindKeepsExact(t, id, ip);
    if Unshared(log, ip) {
      forall j: nat | Live(t, j) && t.entries[j].tunIP == Some(ip) ensures j == id {
        assert BoundAt(st.log, t.entries[j].peer, ip);
        var i :| 0 <= i < |st.log| && st.log[i].Bound? && st.log[i].peer == t.entries[j].peer && st.log[i].ip == ip;
        assert log[i] == st.log[i];
        OneSessionPerPeer(t, id, j);
      }
    }
  }

  lemma TunExact(st: State, ev: Event)
    requires Ok(st.srv) && BoundInLog(st) && (ev.TunRead? || ev.TunSend?)
    ensures
      var st' := Step(st, ev);
      && BoundInLog(st') && (forall ip | Unshared(st'.log, ip) :: Unshared(st.log, ip))
      && forall ip | Exact(st.srv.table, ip) :: Exact(st'.srv.table, ip)
  {
    hide Exact, Unshared, BoundAt, Inv;
    var st' := Step(st, ev);
    var more := st'.log[|st.log|..];
    assert st'.log == st.log + more;
    BoundGrows(st.log, more);
  }

  lemma {:induction false} RunExact(identity: KeyPair, prologue: Term, events: seq<Event>)
    ensures BoundInLog(Run(identity, prologue, events))
    ensures forall ip | Unshared(Run(identity, prologue, events).log, ip) ::
              Exact(Run(identity, prologue, events).srv.table, ip)
  {
    if events == [] {
    } else {
      hide Exact, Unshared, BoundInLog, Step, Ok;
      var st, ev := Run(identity, prologue, events[..|events| - 1]), events[|events| - 1];
      RunExact(identity, prologue, events[..|events| - 1]);
      match ev {
        case HandshakeA(addr, m, e, allowed, delivered) => HandshakeExact(st, addr, m, e, allowed, delivered);
        case Transport(addr, f) => TransportExact(st, addr, f);
        case _ => TunExact(st, ev);
      }
    }
  }

  /**
   * In every run in which an inner address was never bound for two peers, looking it up finds exactly
   * the live session bound to it, and finds nothing exactly when there is none.
   */
  lemma LookupByTunIP(identity: KeyPair, prologue: Term, events: seq<Event>, ip: Addr)
    requires Unshared(Run(identity, prologue, events).log, ip)
    ensures
      var t := Run(identity, prologue, events).srv.table;
      && (forall id: nat :: Lookup(t.byTunIP, ip) == Some(id) <==> Live(t, id) && t.entries[id].tunIP == Some(ip))
      && (Lookup(t.byTunIP, ip).None? <==> forall id: nat | Live(t, id) :: t.entries[id].tunIP != Some(ip))
  {
    RunExact(identity, prologue, events);
    var t := Run(identity, prologue, events).srv.table;
    forall id: nat ensures Lookup(t.byTunIP, ip) == Some(id) <==> Live(t, id) && t.entries[id].tunIP == Some(ip) {
      LookupIsSearch(t, ip, id);
    }
  }
}
