/**
 * Any number of honest sessions on a network that an active adversary controls. The adversary sees
 * every message, delivers what it likes to whom it likes, computes with every primitive, opens what
 * it has the key for, and owns the private keys in `bad`. Honest initiators follow tun-client and
 * honest responders tun-server: a session whose handshake read fails is dropped.
 */
module Network {
  import opened Prelude
  import opened Crypto
  import opened ReplayWindow
  import opened NoiseIK
  import Handshake

  /* The adversary */

  /** How the adversary computes a term. */
  datatype Derivation =
    | Seen(t: Term)
    | Literal(b: seq<byte>)
    | Public(x: Scalar)
    | Hashing(a: Derivation, d: Derivation)
    | Expanding1(ck: Derivation, ikm: Derivation)
    | Expanding2(ck: Derivation, ikm: Derivation)
    | Exchanging(x: Scalar, p: Derivation)
    | Sealing(k: Derivation, n: uint64, ad: Derivation, pt: Derivation)
    | Opening(ct: Derivation, k: Derivation)

  /** The term computed, or None when a step is not possible for the adversary. */
  function Derive(bad: set<Scalar>, wire: set<Term>, d: Derivation): Option<Term> {
    match d
    case Seen(t) => if t in wire then Some(t) else None
    case Literal(b) => Some(Bytes(b))
    case Public(x) => Some(Pub(x))
    case Hashing(a, b) =>
      var x, y := Derive(bad, wire, a), Derive(bad, wire, b);
      if x.Some? && y.Some? then Some(Hash(x.value, y.value)) else None
    case Expanding1(a, b) =>
      var x, y := Derive(bad, wire, a), Derive(bad, wire, b);
      if x.Some? && y.Some? then Some(Kdf1(x.value, y.value)) else None
    case Expanding2(a, b) =>
      var x, y := Derive(bad, wire, a), Derive(bad, wire, b);
      if x.Some? && y.Some? then Some(Kdf2(x.value, y.value)) else None
    case Exchanging(x, a) =>
      var p := Derive(bad, wire, a);
      if x in bad && p.Some? then Some(Dh(x, p.value)) else None
    case Sealing(a, n, b, c) =>
      var k, ad, pt := Derive(bad, wire, a), Derive(bad, wire, b), Derive(bad, wire, c);
      if k.Some? && ad.Some? && pt.Some? then Some(AeadSeal(k.value, n, ad.value, pt.value)) else None
    case Opening(a, b) =>
      var ct, k := Derive(bad, wire, a), Derive(bad, wire, b);
      if ct.Some? && k.Some? && ct.value.Seal? && ct.value.k == k.value then Some(ct.value.pt) else None
  }

  ghost predicate Derivable(bad: set<Scalar>, wire: set<Term>, t: Term) {
    exists d :: Derive(bad, wire, d) == Some(t)
  }

  /** An upper bound on the adversary's knowledge: no secret of two uncorrupted keys, no foreign seal. */
  predicate Safe(bad: set<Scalar>, wire: set<Term>, t: Term) {
    match t
    case Bytes(_) => true
    case Pub(_) => true
    case Hash(a, d) => Safe(bad, wire, a) && Safe(bad, wire, d)
    case Kdf1(ck, ikm) => Safe(bad, wire, ck) && Safe(bad, wire, ikm)
    case Kdf2(ck, ikm) => Safe(bad, wire, ck) && Safe(bad, wire, ikm)
    case Shared(x, y) => x in bad || y in bad
    case Point(x, p) => x in bad && Safe(bad, wire, p)
    case Seal(k, n, ad, pt) => t in wire || (Safe(bad, wire, k) && Safe(bad, wire, ad) && Safe(bad, wire, pt))
  }

  /** What honest sessions put on the wire: public keys, the absent static blob, and seals of plain data. */
  predicate WireTerm(t: Term) {
    t.Pub? || t == EMPTY || (t.Seal? && (t.pt.Bytes? || t.pt.Pub?))
  }

  lemma {:induction false} DerivableIsSafe(bad: set<Scalar>, wire: set<Term>, d: Derivation)
    requires forall t | t in wire :: WireTerm(t)
    requires Derive(bad, wire, d).Some?
    ensures Safe(bad, wire, Derive(bad, wire, d).value)
  {
    match d
    case Seen(t) =>
    case Literal(b) =>
    case Public(x) =>
    case Hashing(a, b) => DerivableIsSafe(bad, wire, a); DerivableIsSafe(bad, wire, b);
    case Expanding1(a, b) => DerivableIsSafe(bad, wire, a); DerivableIsSafe(bad, wire, b);
    case Expanding2(a, b) => DerivableIsSafe(bad, wire, a); DerivableIsSafe(bad, wire, b);
    case Exchanging(x, a) => DerivableIsSafe(bad, wire, a);
    case Sealing(a, n, b, c) =>
      DerivableIsSafe(bad, wire, a);
      DerivableIsSafe(bad, wire, b);
      DerivableIsSafe(bad, wire, c);
    case Opening(a, b) => DerivableIsSafe(bad, wire, a); DerivableIsSafe(bad, wire, b);
  }

  lemma {:induction false} SafeMonotone(bad: set<Scalar>, wire: set<Term>, wire': set<Term>, t: Term)
    requires wire <= wire' && Safe(bad, wire, t)
    ensures Safe(bad, wire', t)
  {
    match t
    case Bytes(_) =>
    case Pub(_) =>
    case Hash(a, d) => SafeMonotone(bad, wire, wire', a); SafeMonotone(bad, wire, wire', d);
    case Kdf1(a, d) => SafeMonotone(bad, wire, wire', a); SafeMonotone(bad, wire, wire', d);
    case Kdf2(a, d) => SafeMonotone(bad, wire, wire', a); SafeMonotone(bad, wire, wire', d);
    case Shared(x, y) =>
    case Point(x, p) => SafeMonotone(bad, wire, wire', p);
    case Seal(k, n, ad, pt) =>
      if t !in wire {
        SafeMonotone(bad, wire, wire', k);
        SafeMonotone(bad, wire, wire', ad);
        SafeMonotone(bad, wire, wire', pt);
      }
  }

  /* Honest parties */

  datatype Role = Initiator | Responder

  datatype Phase = Waiting | Ready | Dead

  /** A transport frame that was accepted. */
  datatype Delivery = Delivery(nonce: uint64, pt: Term)

  /**
   * One honest session: how it was set up, the message it wrote and the one it read, its current
   * state, the frames it sent and the frames it accepted.
   */
  datatype Party = Party(
    role: Role, prologue: Term, s: KeyPair, pin: Term, e: Scalar, payload: seq<byte>,
    phase: Phase, input: HandshakeMessage, sess: SessionState,
    sent: seq<TransportMessage>, got: seq<Delivery>)

  const NO_MESSAGE := HandshakeMessage(EMPTY, EMPTY, EMPTY)

  /** The session before its first handshake call. */
  function Start(p: Party): SessionState {
    if p.role.Initiator? then NewInitiator(p.prologue, p.s, p.pin) else NewResponder(p.prologue, p.s)
  }

  /** The session between its two handshake calls. */
  function Middle(p: Party): SessionState {
    if p.role.Initiator? then WriteHandshake(Start(p), p.e, Bytes(p.payload)).0
    else ReadHandshake(Start(p), p.input).0
  }

  /** The session after its two handshake calls. */
  function End(p: Party): SessionState {
    if p.role.Initiator? then ReadHandshake(Middle(p), p.input).0
    else WriteHandshake(Middle(p), p.e, Bytes(p.payload)).0
  }

  function Written(p: Party): Result<HandshakeMessage, Error> {
    WriteHandshake(if p.role.Initiator? then Start(p) else Middle(p), p.e, Bytes(p.payload)).1
  }

  function WasRead(p: Party): Result<Term, Error> {
    ReadHandshake(if p.role.Initiator? then Middle(p) else Start(p), p.input).1
  }

  datatype Net = Net(parties: seq<Party>, wire: set<Term>)

  const NEW_NET := Net([], {})

  datatype Event =
    | Initiate(prologue: Term, s: KeyPair, pin: Term, e: Scalar, payload: seq<byte>)
    | Respond(prologue: Term, s: KeyPair, msgA: HandshakeMessage, e: Scalar, payload: seq<byte>)
    | Complete(i: nat, msgB: HandshakeMessage)
    | Send(i: nat, pt: seq<byte>)
    | Deliver(i: nat, frame: TransportMessage)

  ghost predicate DerivableMessage(bad: set<Scalar>, wire: set<Term>, m: HandshakeMessage) {
    Derivable(bad, wire, m.ephemeral) && Derivable(bad, wire, m.staticEnc) && Derivable(bad, wire, m.ciphertext)
  }

  /** No ephemeral key is used twice or is anyone's static key; one static key may have many sessions. */
  predicate NewKeys(net: Net, s: Scalar, e: Scalar) {
    e != s && forall i | 0 <= i < |net.parties| ::
      net.parties[i].e != e && net.parties[i].s.priv != e && net.parties[i].e != s
  }

  /** Every input comes from the adversary; key pairs are valid and ephemeral keys are new. */
  ghost predicate Enabled(bad: set<Scalar>, net: Net, ev: Event) {
    match ev
    case Initiate(_, s, _, e, payload) =>
      s.pub == Pub(s.priv) && e !in bad && NewKeys(net, s.priv, e)
    case Respond(_, s, m, e, payload) =>
      s.pub == Pub(s.priv) && e !in bad && NewKeys(net, s.priv, e) && DerivableMessage(bad, net.wire, m)
    case Complete(i, m) =>
      i < |net.parties| && net.parties[i].phase.Waiting? && DerivableMessage(bad, net.wire, m)
    case Send(i, pt) => i < |net.parties| && net.parties[i].phase.Ready?
    case Deliver(i, f) => i < |net.parties| && net.parties[i].phase.Ready? && Derivable(bad, net.wire, f.ciphertext)
  }

  function Joined(net: Net, p: Party, m: HandshakeMessage): Net {
    Net(net.parties + [p], net.wire + {m.ephemeral, m.staticEnc, m.ciphertext})
  }

  function Replaced(net: Net, i: nat, p: Party): Net
    requires i < |net.parties|
  {
    net.(parties := net.parties[i := p])
  }

  function Initiated(net: Net, p: Party): Net {
    if Written(p).Success? then Joined(net, p.(sess := Middle(p)), Written(p).value) else net
  }

  function Responded(net: Net, p: Party): Net {
    if WasRead(p).Success? && Written(p).Success? then Joined(net, p.(sess := End(p)), Written(p).value) else net
  }

  /** The initiator has read `p.input`. */
  function Completed(net: Net, i: nat, p: Party): Net
    requires i < |net.parties|
  {
    Replaced(net, i, if WasRead(p).Success? then p.(phase := Ready, sess := End(p)) else p.(phase := Dead))
  }

  function Sent(net: Net, i: nat, pt: seq<byte>): Net
    requires i < |net.parties|
  {
    var p := net.parties[i];
    match EncryptTransport(p.sess, Bytes(pt))
    case (sess, Success(f)) =>
      Replaced(net, i, p.(sess := sess, sent := p.sent + [f])).(wire := net.wire + {f.ciphertext})
    case (_, Failure(_)) => net
  }

  function Delivered(net: Net, i: nat, f: TransportMessage): Net
    requires i < |net.parties|
  {
    var p := net.parties[i];
    match DecryptTransport(p.sess, f)
    case (sess, Success(pt)) => Replaced(net, i, p.(sess := sess, got := p.got + [Delivery(f.nonce, pt)]))
    case (sess, Failure(_)) => Replaced(net, i, p.(sess := sess))
  }

  function NewInitiatorParty(prologue: Term, s: KeyPair, pin: Term, e: Scalar, payload: seq<byte>): Party {
    Party(Initiator, prologue, s, pin, e, payload, Waiting, NO_MESSAGE, NewInitiator(prologue, s, pin), [], [])
  }

  function NewResponderParty(prologue: Term, s: KeyPair, m: HandshakeMessage, e: Scalar, payload: seq<byte>): Party {
    Party(Responder, prologue, s, ZERO_KEY, e, payload, Ready, m, NewResponder(prologue, s), [], [])
  }

  function Apply(net: Net, ev: Event): Net {
    match ev
    case Initiate(prologue, s, pin, e, payload) =>
      Initiated(net, NewInitiatorParty(prologue, s, pin, e, payload))
    case Respond(prologue, s, m, e, payload) =>
      Responded(net, NewResponderParty(prologue, s, m, e, payload))
    case Complete(i, m) => if i < |net.parties| then Completed(net, i, net.parties[i].(input := m)) else net
    case Send(i, pt) => if i < |net.parties| then Sent(net, i, pt) else net
    case Deliver(i, f) => if i < |net.parties| then Delivered(net, i, f) else net
  }

  function Reached(events: seq<Event>): Net {
    if events == [] then NEW_NET
    else Apply(Reached(events[..|events| - 1]), events[|events| - 1])
  }

  /** A run of the network: every event is possible in the state that the events before it left. */
  ghost predicate Legal(bad: set<Scalar>, events: seq<Event>) {
    events == [] ||
    (Legal(bad, events[..|events| - 1]) &&
     Enabled(bad, Reached(events[..|events| - 1]), events[|events| - 1]))
  }

  /* Invariant */

  /** `t` is something that `p` sealed. */
  ghost predicate Made(p: Party, t: Term) {
    || (Written(p).Success? && (t == Written(p).value.staticEnc || t == Written(p).value.ciphertext))
    || exists j | 0 <= j < |p.sent| :: p.sent[j].ciphertext == t
  }

  ghost predicate MadeBySomeone(net: Net, t: Term) {
    exists i | 0 <= i < |net.parties| :: Made(net.parties[i], t)
  }

  predicate SentOk(p: Party) {
    && |p.sent| == Tx(p.sess).n
    && forall j: nat | j < |p.sent| ::
      var ct := p.sent[j].ciphertext;
      p.sent[j].nonce == j && ct.Seal? && ct.k == Tx(p.sess).k && ct.n == j && ct.ad == EMPTY && ct.pt.Bytes?
  }

  predicate GotOk(bad: set<Scalar>, wire: set<Term>, p: Party) {
    && Sound(p.sess.rx)
    && (forall j | 0 <= j < |p.got| ::
      p.got[j].nonce in p.sess.rx.accepted &&
      Safe(bad, wire, Seal(Rx(p.sess).k, p.got[j].nonce, EMPTY, p.got[j].pt)))
    && forall j, k | 0 <= j < k < |p.got| :: p.got[j].nonce != p.got[k].nonce
  }

  predicate SameKeys(a: SessionState, b: SessionState) {
    a.mc == b.mc == 2 && a.i == b.i && a.h == b.h && a.cs1.k == b.cs1.k && a.cs2.k == b.cs2.k
  }

  predicate PartyOk(bad: set<Scalar>, wire: set<Term>, p: Party) {
    && p.s.pub == Pub(p.s.priv) && p.e !in bad && Written(p).Success?
    && match p.phase
       case Waiting => p.role.Initiator? && p.sess == Middle(p) && p.sent == [] && p.got == []
       case Dead => p.role.Initiator? && p.sent == [] && p.got == []
       case Ready =>
         && WasRead(p).Success? && Safe(bad, wire, p.input.ciphertext)
         && SameKeys(p.sess, End(p)) && SentOk(p) && GotOk(bad, wire, p)
  }

  ghost predicate NetOk(bad: set<Scalar>, net: Net) {
    && (forall i | 0 <= i < |net.parties| :: PartyOk(bad, net.wire, net.parties[i]))
    && (forall i, j | 0 <= i < j < |net.parties| :: net.parties[i].e != net.parties[j].e)
    && (forall i, j | 0 <= i < |net.parties| && 0 <= j < |net.parties| :: net.parties[i].e != net.parties[j].s.priv)
    && forall t | t in net.wire :: WireTerm(t) && (t.Seal? ==> MadeBySomeone(net, t))
  }

  lemma PartyOkMonotone(bad: set<Scalar>, wire: set<Term>, wire': set<Term>, p: Party)
    requires wire <= wire' && PartyOk(bad, wire, p)
    ensures PartyOk(bad, wire', p)
  {
    hide End, Middle, Written, WasRead;
    if p.phase.Ready? {
      SafeMonotone(bad, wire, wire', p.input.ciphertext);
      forall j | 0 <= j < |p.got|
        ensures Safe(bad, wire', Seal(Rx(p.sess).k, p.got[j].nonce, EMPTY, p.got[j].pt))
      {
        SafeMonotone(bad, wire, wire', Seal(Rx(p.sess).k, p.got[j].nonce, EMPTY, p.got[j].pt));
      }
    }
  }

  lemma WrittenOnWire(p: Party)
    requires Written(p).Success? && p.s.pub.Pub?
    ensures
      var m := Written(p).value;
      && WireTerm(m.ephemeral) && WireTerm(m.staticEnc) && WireTerm(m.ciphertext)
      && m.ephemeral == Pub(p.e)
  {
    hide WriteMessageA, WriteMessageB, ReadMessageA, Dh;
    Handshake.WroteA(Start(p).hs, p.e, Bytes(p.payload));
    Handshake.WroteB(Middle(p).hs, p.e, Bytes(p.payload));
  }

  /** A party that has just been made joins with its handshake message. */
  lemma JoinedOk(bad: set<Scalar>, net: Net, p: Party, m: HandshakeMessage)
    requires NetOk(bad, net) && NewKeys(net, p.s.priv, p.e) && PartyOk(bad, net.wire, p)
    requires WireTerm(m.ephemeral) && !m.ephemeral.Seal?
    requires WireTerm(m.staticEnc) && Made(p, m.staticEnc)
    requires WireTerm(m.ciphertext) && Made(p, m.ciphertext)
    ensures NetOk(bad, Joined(net, p, m))
  {
    hide PartyOk, WireTerm, Made;
    var net' := Joined(net, p, m);
    assert net'.parties[|net.parties|] == p;
    forall i | 0 <= i < |net'.parties| ensures PartyOk(bad, net'.wire, net'.parties[i]) {
      PartyOkMonotone(bad, net.wire, net'.wire, if i < |net.parties| then net.parties[i] else p);
    }
    MadeKept(net, net');
  }

  /** What was sealed by someone stays sealed by someone. */
  lemma MadeKept(net: Net, net': Net)
    requires |net.parties| <= |net'.parties|
    requires forall i | 0 <= i < |net.parties| ::
      forall t | Made(net.parties[i], t) :: Made(net'.parties[i], t)
    ensures forall t | MadeBySomeone(net, t) :: MadeBySomeone(net', t)
  {
    hide Made;
  }

  lemma ReplacedOk(bad: set<Scalar>, net: Net, i: nat, p: Party, wire: set<Term>)
    requires NetOk(bad, net) && i < |net.parties|
    requires PartyOk(bad, wire, p) && p.e == net.parties[i].e && p.s == net.parties[i].s
    requires net.wire <= wire && forall t | t in wire - net.wire :: WireTerm(t) && Made(p, t)
    requires forall t | Made(net.parties[i], t) :: Made(p, t)
    ensures NetOk(bad, Replaced(net, i, p).(wire := wire))
  {
    hide PartyOk, Made, WireTerm;
    var net' := Replaced(net, i, p).(wire := wire);
    forall j | 0 <= j < |net'.parties| ensures PartyOk(bad, wire, net'.parties[j]) {
      if j != i {
        PartyOkMonotone(bad, net.wire, wire, net.parties[j]);
      }
    }
    MadeKept(net, net');
    assert net'.parties[i] == p;
  }

  lemma InitiateOk(bad: set<Scalar>, net: Net, p: Party)
    requires NetOk(bad, net) && NewKeys(net, p.s.priv, p.e) && p.e !in bad && p.s.pub == Pub(p.s.priv)
    requires p.role.Initiator? && p.phase.Waiting? && p.sent == [] && p.got == []
    ensures NetOk(bad, Initiated(net, p))
  {
    hide WriteMessageA, ReadMessageB;
    if Written(p).Success? {
      WrittenOnWire(p);
      JoinedOk(bad, net, p.(sess := Middle(p)), Written(p).value);
    }
  }

  lemma RespondOk(bad: set<Scalar>, net: Net, p: Party)
    requires NetOk(bad, net) && NewKeys(net, p.s.priv, p.e) && p.e !in bad && p.s.pub == Pub(p.s.priv)
    requires p.role.Responder? && p.phase.Ready? && p.sent == [] && p.got == []
    requires Safe(bad, net.wire, p.input.ciphertext)
    ensures NetOk(bad, Responded(net, p))
  {
    hide ReadMessageA, WriteMessageB;
    if WasRead(p).Success? && Written(p).Success? {
      WrittenOnWire(p);
      JoinedOk(bad, net, p.(sess := End(p)), Written(p).value);
    }
  }

  lemma CompleteOk(bad: set<Scalar>, net: Net, i: nat, m: HandshakeMessage)
    requires NetOk(bad, net) && i < |net.parties| && net.parties[i].phase.Waiting?
    requires Safe(bad, net.wire, m.ciphertext)
    ensures NetOk(bad, Completed(net, i, net.parties[i].(input := m)))
  {
    hide WriteMessageA, ReadMessageB;
    var q := net.parties[i];
    var p := q.(input := m);
    assert PartyOk(bad, net.wire, q);
    assert Written(p) == Written(q) && Middle(p) == Middle(q);
    var p' := if WasRead(p).Success? then p.(phase := Ready, sess := End(p)) else p.(phase := Dead);
    assert Written(p') == Written(q);
    ReplacedOk(bad, net, i, p', net.wire);
    assert Replaced(net, i, p').(wire := net.wire) == Replaced(net, i, p');
  }

  lemma SendOk(bad: set<Scalar>, net: Net, i: nat, pt: seq<byte>)
    requires NetOk(bad, net) && i < |net.parties| && net.parties[i].phase.Ready?
    ensures NetOk(bad, Sent(net, i, pt))
  {
    hide Written, WasRead, End;
    var p := net.parties[i];
    assert PartyOk(bad, net.wire, p);
    match EncryptTransport(p.sess, Bytes(pt)) {
      case (sess, Success(f)) =>
        var p' := p.(sess := sess, sent := p.sent + [f]);
        SameParty(p, p');
        var wire := net.wire + {f.ciphertext};
        PartyOkMonotone(bad, net.wire, wire, p);
        forall t | Made(p, t) ensures Made(p', t) {
          if j :| 0 <= j < |p.sent| && p.sent[j].ciphertext == t {
            assert p'.sent[j].ciphertext == t;
          }
        }
        assert p'.sent[|p.sent|] == f;
        ReplacedOk(bad, net, i, p', wire);
      case (_, Failure(_)) =>
    }
  }

  /** The handshake of a party does not depend on what it did afterwards. */
  lemma SameParty(p: Party, q: Party)
    requires q == p.(phase := q.phase, sess := q.sess, sent := q.sent, got := q.got)
    ensures Written(q) == Written(p) && WasRead(q) == WasRead(p) && Middle(q) == Middle(p) && End(q) == End(p)
  {
    hide WriteHandshake, ReadHandshake;
  }

  lemma DeliverOk(bad: set<Scalar>, net: Net, i: nat, f: TransportMessage)
    requires NetOk(bad, net) && i < |net.parties| && net.parties[i].phase.Ready?
    requires Safe(bad, net.wire, f.ciphertext)
    ensures NetOk(bad, Delivered(net, i, f))
  {
    hide Written, WasRead, End, Middle;
    var p := net.parties[i];
    assert PartyOk(bad, net.wire, p);
    var (sess, r) := DecryptTransport(p.sess, f);
    var p' := if r.Success? then p.(sess := sess, got := p.got + [Delivery(f.nonce, r.value)]) else p.(sess := sess);
    SameParty(p, p');
    assert Tx(sess) == Tx(p.sess) && Rx(sess) == Rx(p.sess);
    if r.Success? {
      assert f.ciphertext == Seal(Rx(p.sess).k, f.nonce, EMPTY, r.value);
    }
    assert GotOk(bad, net.wire, p');
    ReplacedOk(bad, net, i, p', net.wire);
    assert Replaced(net, i, p').(wire := net.wire) == Replaced(net, i, p');
  }

  lemma MessageSafe(bad: set<Scalar>, net: Net, t: Term)
    requires NetOk(bad, net) && Derivable(bad, net.wire, t)
    ensures Safe(bad, net.wire, t)
  {
    var d :| Derive(bad, net.wire, d) == Some(t);
    DerivableIsSafe(bad, net.wire, d);
  }

  /** Every state that any run reaches is sound. */
  lemma {:induction false} RunOk(bad: set<Scalar>, events: seq<Event>)
    requires Legal(bad, events)
    ensures NetOk(bad, Reached(events))
  {
    hide NetOk, Initiated, Responded, Completed, Sent, Delivered;
    if events == [] {
      EmptyOk(bad);
    } else {
      var net := Reached(events[..|events| - 1]);
      RunOk(bad, events[..|events| - 1]);
      match events[|events| - 1] {
        case Initiate(prologue, s, pin, e, payload) =>
          InitiateOk(bad, net, NewInitiatorParty(prologue, s, pin, e, payload));
        case Respond(prologue, s, m, e, payload) =>
          MessageSafe(bad, net, m.ciphertext);
          RespondOk(bad, net, NewResponderParty(prologue, s, m, e, payload));
        case Complete(i, m) =>
          MessageSafe(bad, net, m.ciphertext);
          CompleteOk(bad, net, i, m);
        case Send(i, pt) => SendOk(bad, net, i, pt);
        case Deliver(i, f) =>
          MessageSafe(bad, net, f.ciphertext);
          DeliverOk(bad, net, i, f);
      }
    }
  }

  lemma EmptyOk(bad: set<Scalar>)
    ensures NetOk(bad, NEW_NET)
  {
  }
}
