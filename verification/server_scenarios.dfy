/**
 * Runs of the server from its start, with real handshakes and frames: a packet is sealed, and a session
 * is stranded by a takeover of its address.
 */
module ServerScenarios {
  import opened Prelude
  import opened Crypto
  import opened ReplayWindow
  import opened NoiseIK
  import opened SessionTable
  import opened TunServer
  import Handshake

  /* One client */

  /** The client with static key x; e is its ephemeral key, e' the server's. */
  datatype Client = Client(x: Scalar, e: Scalar, e': Scalar)

  function Hello(y: Scalar, prologue: Term, c: Client): HandshakeMessage {
    WriteHandshake(NewInitiator(prologue, GeneratedPair(c.x), Pub(y)), c.e, EMPTY).1.value
  }

  /** The server's session with the client. */
  function SessionWith(y: Scalar, prologue: Term, c: Client): SessionState {
    WriteHandshake(ReadHandshake(NewResponder(prologue, GeneratedPair(y)), Hello(y, prologue, c)).0, c.e', EMPTY).0
  }

  function Knock(y: Scalar, prologue: Term, c: Client, addr: UdpKey): Event {
    HandshakeA(addr, Hello(y, prologue, c), c.e', {Pub(c.x)}, true)
  }

  lemma HelloIsAccepted(y: Scalar, prologue: Term, c: Client)
    ensures
      var (s1, got) := ReadHandshake(NewResponder(prologue, GeneratedPair(y)), Hello(y, prologue, c));
      got.Success? && PeerStatic(s1) == Pub(c.x) && WriteHandshake(s1, c.e', EMPTY).1.Success?
    ensures
      var s := SessionWith(y, prologue, c);
      HandshakeComplete(s) && !s.i && s.rx == NEW_RECEIVER && s.cs2.n == 0
  {
    hide WriteMessageA, ReadMessageA, WriteMessageB, ReadMessageB;
    Handshake.Completeness(prologue, c.x, y, c.e, EMPTY, c.e', EMPTY);
  }

  lemma KnockIsAdmitted(st: State, y: Scalar, c: Client, addr: UdpKey)
    requires Ok(st.srv) && st.srv.identity == GeneratedPair(y)
    ensures
      Step(st, Knock(y, st.srv.prologue, c, addr)) ==
        State(
          st.srv.(table := Admit(st.srv.table, addr, Pub(c.x)),
                  sess := st.srv.sess + [SessionWith(y, st.srv.prologue, c)]),
          st.routed,
          st.log + [Opened(|st.srv.table.entries|, Pub(c.x), {Pub(c.x)})])
  {
    HelloIsAccepted(y, st.srv.prologue, c);
    AdmitKeepsInv(st.srv.table, addr, Pub(c.x));
    hide ReadHandshake, WriteHandshake, Hello, NewResponder, Admit, Inv;
  }

  /** The server's answer to an allowed client is what the client's session reads and completes with. */
  lemma AnswerCompletes(srv: Server, y: Scalar, c: Client, addr: UdpKey, allowed: set<Term>, delivered: bool)
    requires Ok(srv) && srv.identity == GeneratedPair(y) && Pub(c.x) in allowed
    ensures
      var reply := HandleHandshakeA(srv, addr, Hello(y, srv.prologue, c), c.e', allowed, delivered).1;
      var i1 := WriteHandshake(NewInitiator(srv.prologue, GeneratedPair(c.x), Pub(y)), c.e, EMPTY).0;
      && reply.Some?
      && var (i2, got) := ReadHandshake(i1, reply.value);
         var s := SessionWith(y, srv.prologue, c);
         got == Success(EMPTY) && HandshakeComplete(i2) && i2.h == s.h && i2.cs1 == s.cs1 && i2.cs2 == s.cs2
  {
    AnsweredExactly(srv, addr, Hello(y, srv.prologue, c), c.e', allowed, delivered);
    hide WriteMessageA, ReadMessageA, WriteMessageB, ReadMessageB, HandleHandshakeA, Ok;
    Handshake.Completeness(srv.prologue, c.x, y, c.e, EMPTY, c.e', EMPTY);
  }

  /** A frame that the session accepts. */
  function Frame(s: SessionState, n: uint64, packet: seq<byte>): TransportMessage {
    TransportMessage(n, AeadSeal(Rx(s).k, n, EMPTY, Bytes(packet)))
  }

  /** The client's own session after the handshake. */
  function ClientsSession(y: Scalar, prologue: Term, c: Client): SessionState {
    var i1 := WriteHandshake(NewInitiator(prologue, GeneratedPair(c.x), Pub(y)), c.e, EMPTY).0;
    var s1 := ReadHandshake(NewResponder(prologue, GeneratedPair(y)), Hello(y, prologue, c)).0;
    match WriteHandshake(s1, c.e', EMPTY).1
    case Success(reply) => ReadHandshake(i1, reply).0
    case Failure(_) => i1
  }

  /** The session after it has encrypted the packets. */
  function AfterSending(s: SessionState, packets: seq<seq<byte>>): SessionState {
    if packets == [] then s
    else EncryptTransport(AfterSending(s, packets[..|packets| - 1]), Bytes(packets[|packets| - 1])).0
  }

  lemma ClientsKey(y: Scalar, prologue: Term, c: Client)
    ensures
      var s := ClientsSession(y, prologue, c);
      && s.i && HandshakeComplete(s) && s.cs1 == CipherState(Rx(SessionWith(y, prologue, c)).k, 0)
      && s.cs2.k == SessionWith(y, prologue, c).cs2.k && s.rx == NEW_RECEIVER
  {
    hide WriteMessageA, ReadMessageA, WriteMessageB, ReadMessageB;
    Handshake.Completeness(prologue, c.x, y, c.e, EMPTY, c.e', EMPTY);
  }

  lemma {:induction false} SendingCounts(s: SessionState, packets: seq<seq<byte>>)
    requires s.i && HandshakeComplete(s) && s.cs1.n == 0 && |packets| <= MAX_UINT64
    ensures
      var s' := AfterSending(s, packets);
      s'.i && HandshakeComplete(s') && s'.cs1 == CipherState(s.cs1.k, |packets|)
  {
    if packets == [] {
    } else {
      SendingCounts(s, packets[..|packets| - 1]);
    }
  }

  /** What the client's own session makes of its n-th packet is frame n: the frames of these runs are genuine. */
  lemma FrameIsTheClients(y: Scalar, prologue: Term, c: Client, packets: seq<seq<byte>>, packet: seq<byte>)
    requires |packets| < MAX_UINT64
    ensures
      EncryptTransport(AfterSending(ClientsSession(y, prologue, c), packets), Bytes(packet)).1 ==
        Success(Frame(SessionWith(y, prologue, c), |packets|, packet))
  {
    ClientsKey(y, prologue, c);
    SendingCounts(ClientsSession(y, prologue, c), packets);
    hide ClientsSession, SessionWith, AfterSending;
  }

  function AfterFrame(srv: Server, id: nat, n: uint64, packet: seq<byte>): Server
    requires id < |srv.sess| && id < |srv.table.entries|
  {
    var s, pt := srv.sess[id], Bytes(packet);
    srv.(table := if Moves(srv.table, id, pt) then BindTunIP(srv.table, id, Source(pt).value) else srv.table,
         sess := srv.sess[id := s.(rx := Receive(s.rx, n, true))])
  }

  lemma FrameIsAccepted(st: State, addr: UdpKey, id: nat, n: uint64, packet: seq<byte>)
    requires Ok(st.srv) && addr in st.srv.table.byUDP && st.srv.table.byUDP[addr] == id
    requires id < |st.srv.table.entries|
    requires HandshakeComplete(st.srv.sess[id]) && Fresh(st.srv.sess[id].rx, n)
    ensures
      Step(st, Transport(addr, Frame(st.srv.sess[id], n, packet))) ==
        State(AfterFrame(st.srv, id, n, packet), st.routed,
              st.log + [Received(id, Bytes(packet))] + BoundBy(st.srv.table, id, Bytes(packet)))
  {
    var f := Frame(st.srv.sess[id], n, packet);
    assert DecryptTransport(st.srv.sess[id], f) ==
           (st.srv.sess[id].(rx := Receive(st.srv.sess[id].rx, n, true)), Success(Bytes(packet)));
    hide DecryptTransport, Frame, Inv, Source, Receive, Fresh;
  }

  lemma RunMore(identity: KeyPair, prologue: Term, events: seq<Event>, ev: Event)
    ensures Run(identity, prologue, events + [ev]) == Step(Run(identity, prologue, events), ev)
  {
    assert (events + [ev])[..|events|] == events;
  }

  /** What the session sends for a packet. */
  function Sending(s: SessionState, packet: seq<byte>): TransportMessage {
    TransportMessage(Tx(s).n, Seal(Tx(s).k, Tx(s).n, EMPTY, Bytes(packet)))
  }

  lemma RoutedThenSealed(st: State, packet: seq<byte>, id: nat)
    requires Ok(st.srv) && st.routed.None? && Route(st.srv, packet) == Some(id) && id < |st.srv.sess|
    requires HandshakeComplete(st.srv.sess[id]) && Tx(st.srv.sess[id]).n < MAX_UINT64
    ensures
      var log := Step(Step(st, TunRead(packet)), TunSend).log;
      log != [] && log[|log| - 1] == Sealed(id, packet, Sending(st.srv.sess[id], packet))
  {
    hide Inv, Route, Destination, Live;
    var st1 := Step(st, TunRead(packet));
    assert st1.routed == Some((id, packet)) && st1.srv == st.srv;
    assert SealPacket(st.srv, id, packet).1.Some?;
  }

  function AfterFirst(s: SessionState): SessionState {
    s.(rx := Receive(NEW_RECEIVER, 0, true))
  }

  /* The tables of the two runs */

  function One(addr: UdpKey, peer: Term, ip: Option<Addr>): Table {
    Table([EntryState(peer, addr, ip)], map[addr := 0], if ip.Some? then map[ip.value := 0] else map[], map[peer := 0])
  }

  function Two(
    addr1: UdpKey, peer1: Term, ip1: Option<Addr>, addr2: UdpKey, peer2: Term, ip2: Option<Addr>,
    byTunIP: map<Addr, nat>): Table
  {
    Table([EntryState(peer1, addr1, ip1), EntryState(peer2, addr2, ip2)],
          map[addr1 := 0, addr2 := 1], byTunIP, map[peer1 := 0, peer2 := 1])
  }

  lemma FirstAdmitted(addr: UdpKey, peer: Term, ip: Addr)
    ensures Inv(EMPTY_TABLE) && Admit(EMPTY_TABLE, addr, peer) == One(addr, peer, None)
    ensures BindTunIP(One(addr, peer, None), 0, ip) == One(addr, peer, Some(ip))
  {
  }

  lemma SecondAdmitted(addr1: UdpKey, peer1: Term, addr2: UdpKey, peer2: Term)
    requires addr1 != addr2 && peer1 != peer2
    ensures Inv(One(addr1, peer1, None))
    ensures Admit(One(addr1, peer1, None), addr2, peer2) == Two(addr1, peer1, None, addr2, peer2, None, map[])
  {
  }

  lemma BothBound(addr1: UdpKey, peer1: Term, addr2: UdpKey, peer2: Term, ip: Addr)
    ensures BindTunIP(Two(addr1, peer1, None, addr2, peer2, None, map[]), 0, ip) ==
            Two(addr1, peer1, Some(ip), addr2, peer2, None, map[ip := 0])
    ensures BindTunIP(Two(addr1, peer1, Some(ip), addr2, peer2, None, map[ip := 0]), 1, ip) ==
            Two(addr1, peer1, Some(ip), addr2, peer2, Some(ip), map[ip := 1])
  {
    assert map[ip := 0][ip := 1] == map[ip := 1];
  }

  lemma FirstReturns(addr1: UdpKey, peer1: Term, addr2: UdpKey, peer2: Term, ip: Addr, addr3: UdpKey)
    requires addr1 != addr2 && peer1 != peer2 && addr2 != addr3
    requires Inv(Two(addr1, peer1, Some(ip), addr2, peer2, Some(ip), map[ip := 1]))
    ensures
      var t := Admit(Two(addr1, peer1, Some(ip), addr2, peer2, Some(ip), map[ip := 1]), addr3, peer1);
      && |t.entries| == 3 && Live(t, 1) && t.entries[1] == EntryState(peer2, addr2, Some(ip))
      && addr2 in t.byUDP && t.byUDP[addr2] == 1 && Lookup(t.byTunIP, ip) == None
  {
    var t := Two(addr1, peer1, Some(ip), addr2, peer2, Some(ip), map[ip := 1]);
    AdmitKeepsInv(t, addr3, peer1);
    AdmitDrops(t, addr3, peer1, ip);
    hide Admit, Inv;
    assert Live(t, 1);
  }

  lemma NextIsFresh()
    ensures Fresh(NEW_RECEIVER, 0) && Fresh(Receive(NEW_RECEIVER, 0, true), 1)
  {
  }

  lemma FirstMoves(t: Table, id: nat, packet: seq<byte>)
    requires id < |t.entries| && Source(Bytes(packet)).Some?
    ensures t.entries[id].tunIP == None ==> Moves(t, id, Bytes(packet))
    ensures t.entries[id].tunIP == Source(Bytes(packet)) ==> !Moves(t, id, Bytes(packet))
  {
    hide Source;
  }

  /* A packet is sealed */

  /** A client connects and sends a packet. */
  lemma OneConnects(y: Scalar, prologue: Term, c: Client, addr: UdpKey, packet: seq<byte>)
    returns (events: seq<Event>)
    requires Source(Bytes(packet)).Some?
    ensures
      var st := Run(GeneratedPair(y), prologue, events);
      && st.routed.None? && st.srv.table == One(addr, Pub(c.x), Source(Bytes(packet)))
      && st.srv.sess == [AfterFirst(SessionWith(y, prologue, c))]
  {
    hide Step, Source, SessionWith, Knock, Inv, Admit, BindTunIP, Fresh, Receive, Moves;
    var identity := GeneratedPair(y);
    FirstAdmitted(addr, Pub(c.x), Source(Bytes(packet)).value);
    HelloIsAccepted(y, prologue, c);
    NextIsFresh();
    KnockIsAdmitted(Run(identity, prologue, []), y, c, addr);
    RunMore(identity, prologue, [], Knock(y, prologue, c, addr));
    events := [] + [Knock(y, prologue, c, addr)];
    var st1 := Run(identity, prologue, events);
    FirstMoves(st1.srv.table, 0, packet);
    var frame := Transport(addr, Frame(st1.srv.sess[0], 0, packet));
    FrameIsAccepted(st1, addr, 0, 0, packet);
    RunMore(identity, prologue, events, frame);
    events := events + [frame];
  }

  /**
   * Then a reply to the packet's source is routed to the client's session and sealed, and what the client
   * itself decrypts is that reply.
   */
  lemma ReplyIsSealed(y: Scalar, prologue: Term, c: Client, addr: UdpKey, packet: seq<byte>, ip: Addr, reply: seq<byte>)
    returns (events: seq<Event>)
    requires SentFrom(Bytes(packet), ip) && SentTo(reply, ip)
    ensures
      var log := Run(GeneratedPair(y), prologue, events).log;
      && log != [] && log[|log| - 1].Sealed? && log[|log| - 1].packet == reply && log[|log| - 1].id == 0
      && DecryptTransport(ClientsSession(y, prologue, c), log[|log| - 1].f).1 == Success(Bytes(reply))
  {
    SourceIs(Bytes(packet), ip);
    DestinationIs(reply, ip);
    hide Step, Run, Source, Destination, SessionWith, Inv, Receive, SentFrom, SentTo, ClientsSession, DecryptTransport;
    var identity := GeneratedPair(y);
    events := OneConnects(y, prologue, c, addr, packet);
    HelloIsAccepted(y, prologue, c);
    RoutedThenSealed(Run(identity, prologue, events), reply, 0);
    RunMore(identity, prologue, events, TunRead(reply));
    RunMore(identity, prologue, events + [TunRead(reply)], TunSend);
    ReplyIsRead(y, prologue, c, reply);
    events := events + [TunRead(reply)] + [TunSend];
  }

  /** The first frame that the server seals for the client opens with the client's own session. */
  lemma ReplyIsRead(y: Scalar, prologue: Term, c: Client, reply: seq<byte>)
    ensures
      var f := TransportMessage(0, Seal(SessionWith(y, prologue, c).cs2.k, 0, EMPTY, Bytes(reply)));
      DecryptTransport(ClientsSession(y, prologue, c), f).1 == Success(Bytes(reply))
  {
    ClientsKey(y, prologue, c);
    hide ClientsSession, SessionWith;
  }

  /* A session is stranded */

  /** Two clients connect. */
  lemma TwoConnect(y: Scalar, prologue: Term, c1: Client, c2: Client, addr1: UdpKey, addr2: UdpKey)
    returns (events: seq<Event>)
    requires addr1 != addr2 && c1.x != c2.x
    ensures
      var t := Two(addr1, Pub(c1.x), None, addr2, Pub(c2.x), None, map[]);
      Run(GeneratedPair(y), prologue, events).srv ==
        Server(GeneratedPair(y), prologue, t, [SessionWith(y, prologue, c1), SessionWith(y, prologue, c2)])
  {
    hide Step, SessionWith, Knock, Inv, Admit;
    var identity := GeneratedPair(y);
    FirstAdmitted(addr1, Pub(c1.x), V4([]));
    SecondAdmitted(addr1, Pub(c1.x), addr2, Pub(c2.x));
    KnockIsAdmitted(Run(identity, prologue, []), y, c1, addr1);
    RunMore(identity, prologue, [], Knock(y, prologue, c1, addr1));
    events := [] + [Knock(y, prologue, c1, addr1)];
    var st1 := Run(identity, prologue, events);
    KnockIsAdmitted(st1, y, c2, addr2);
    RunMore(identity, prologue, events, Knock(y, prologue, c2, addr2));
    events := events + [Knock(y, prologue, c2, addr2)];
  }

  /** Then both send a packet from the same inner address: client 2 takes it over. */
  lemma TakenOver(
    y: Scalar, prologue: Term, c1: Client, c2: Client, addr1: UdpKey, addr2: UdpKey,
    packet: seq<byte>, before: seq<Event>)
    returns (events: seq<Event>)
    requires addr1 != addr2 && c1.x != c2.x && Source(Bytes(packet)).Some?
    requires Run(GeneratedPair(y), prologue, before).srv ==
             Server(GeneratedPair(y), prologue, Two(addr1, Pub(c1.x), None, addr2, Pub(c2.x), None, map[]),
                    [SessionWith(y, prologue, c1), SessionWith(y, prologue, c2)])
    ensures
      var ip := Source(Bytes(packet)).value;
      var t := Two(addr1, Pub(c1.x), Some(ip), addr2, Pub(c2.x), Some(ip), map[ip := 1]);
      Run(GeneratedPair(y), prologue, events).srv ==
        Server(GeneratedPair(y), prologue, t,
               [AfterFirst(SessionWith(y, prologue, c1)), AfterFirst(SessionWith(y, prologue, c2))])
  {
    hide Step, Run, Source, SessionWith, Inv, BindTunIP, Fresh, Receive, Moves;
    var identity, ip := GeneratedPair(y), Source(Bytes(packet)).value;
    BothBound(addr1, Pub(c1.x), addr2, Pub(c2.x), ip);
    HelloIsAccepted(y, prologue, c1);
    HelloIsAccepted(y, prologue, c2);
    NextIsFresh();
    var st2 := Run(identity, prologue, before);
    FirstMoves(st2.srv.table, 0, packet);
    var frame1 := Transport(addr1, Frame(st2.srv.sess[0], 0, packet));
    FrameIsAccepted(st2, addr1, 0, 0, packet);
    RunMore(identity, prologue, before, frame1);
    events := before + [frame1];

    var st3 := Run(identity, prologue, events);
    FirstMoves(st3.srv.table, 1, packet);
    var frame2 := Transport(addr2, Frame(st3.srv.sess[1], 0, packet));
    FrameIsAccepted(st3, addr2, 1, 0, packet);
    RunMore(identity, prologue, events, frame2);
    events := events + [frame2];
  }

  /**
   * Then client 1, which has lost the address, connects again, and client 2 sends another packet from
   * it. Client 2's session is live and bound to the address, and replies to that packet find nobody.
   */
  lemma SessionIsStranded(
    y: Scalar, prologue: Term, c1: Client, c2: Client, again: Client, addr1: UdpKey, addr2: UdpKey, addr3: UdpKey,
    packet: seq<byte>, inner: Addr, reply: seq<byte>)
    returns (events: seq<Event>)
    requires addr1 != addr2 && addr2 != addr3 && c1.x == again.x != c2.x
    requires SentFrom(Bytes(packet), inner) && SentTo(reply, inner)
    ensures
      var st := Run(GeneratedPair(y), prologue, events);
      && Live(st.srv.table, 1) && st.srv.table.entries[1].peer == Pub(c2.x)
      && st.srv.table.entries[1].tunIP == Some(inner)
      && st.log != [] && st.log[|st.log| - 1] == Received(1, Bytes(packet))
      && Route(st.srv, reply) == None
  {
    SourceIs(Bytes(packet), inner);
    DestinationIs(reply, inner);
    hide Step, Source, Destination, SessionWith, Knock, Inv, Admit, Fresh, Receive, Moves, SentFrom, SentTo;
    var identity, ip := GeneratedPair(y), Source(Bytes(packet)).value;
    events := TwoConnect(y, prologue, c1, c2, addr1, addr2);
    events := TakenOver(y, prologue, c1, c2, addr1, addr2, packet, events);
    HelloIsAccepted(y, prologue, c2);
    NextIsFresh();
    var st4 := Run(identity, prologue, events);
    FirstReturns(addr1, Pub(c1.x), addr2, Pub(c2.x), ip, addr3);
    KnockIsAdmitted(st4, y, again, addr3);
    RunMore(identity, prologue, events, Knock(y, prologue, again, addr3));
    events := events + [Knock(y, prologue, again, addr3)];

    var st5 := Run(identity, prologue, events);
    FirstMoves(st5.srv.table, 1, packet);
    var frame3 := Transport(addr2, Frame(st5.srv.sess[1], 1, packet));
    FrameIsAccepted(st5, addr2, 1, 1, packet);
    RunMore(identity, prologue, events, frame3);
    events := events + [frame3];
  }
}
