/** What the handshake guarantees against the network adversary, for every run of the network. */
module Authentication {
  import opened Prelude
  import opened Crypto
  import opened NoiseIK
  import opened ReplayWindow
  import opened Network
  import Handshake

  /* The four key exchanges of a party, in the order in which both roles mix them. */

  function PeerEphemeral(p: Party): Term {
    if p.role.Initiator? then AcceptedEphemeral(ZERO_KEY, p.input.ephemeral) else Middle(p).hs.re
  }

  function PeerKey(p: Party): Term {
    if p.role.Initiator? then p.pin else PeerStatic(Middle(p))
  }

  function Es(p: Party): Term {
    if p.role.Initiator? then Dh(p.e, PeerKey(p)) else Dh(p.s.priv, PeerEphemeral(p))
  }

  function Ss(p: Party): Term {
    Dh(p.s.priv, PeerKey(p))
  }

  function Ee(p: Party): Term {
    Dh(p.e, PeerEphemeral(p))
  }

  function Se(p: Party): Term {
    if p.role.Initiator? then Dh(p.s.priv, PeerEphemeral(p)) else Dh(p.e, PeerKey(p))
  }

  function MiddleKey(p: Party): Term {
    Kdf1(Kdf1(PROTOCOL_HASH, Es(p)), Ss(p))
  }

  function FinalKey(p: Party): Term {
    Kdf1(Kdf1(MiddleKey(p), Ee(p)), Se(p))
  }

  predicate SealUnder(t: Term, k: Term) {
    t.Seal? && t.k == k && t.ad.Hash?
  }

  lemma InitiatorKeys(p: Party)
    requires p.role.Initiator? && Written(p).Success?
    ensures SealUnder(Written(p).value.staticEnc, Kdf2(PROTOCOL_HASH, Es(p)))
    ensures SealUnder(Written(p).value.ciphertext, Kdf2(Kdf1(PROTOCOL_HASH, Es(p)), Ss(p)))
    ensures WasRead(p).Success? ==>
            && SealUnder(p.input.ciphertext, Kdf2(Kdf1(MiddleKey(p), Ee(p)), Se(p)))
            && End(p).cs1.k == Kdf1(FinalKey(p), EMPTY) && End(p).cs2.k == Kdf2(FinalKey(p), EMPTY)
  {
    hide WriteMessageA, ReadMessageB, Dh;
    Handshake.WroteA(Start(p).hs, p.e, Bytes(p.payload));
    if WasRead(p).Success? {
      Handshake.ReadB(Middle(p).hs, p.input);
    }
  }

  lemma ResponderKeys(p: Party)
    requires p.role.Responder? && WasRead(p).Success? && Written(p).Success?
    ensures SealUnder(p.input.ciphertext, Kdf2(Kdf1(PROTOCOL_HASH, Es(p)), Ss(p)))
    ensures SealUnder(Written(p).value.ciphertext, Kdf2(Kdf1(MiddleKey(p), Ee(p)), Se(p)))
    ensures Written(p).value.staticEnc == EMPTY
    ensures End(p).cs1.k == Kdf1(FinalKey(p), EMPTY) && End(p).cs2.k == Kdf2(FinalKey(p), EMPTY)
  {
    hide ReadMessageA, WriteMessageB, Dh;
    Handshake.ReadA(Start(p).hs, p.input);
    Handshake.WroteB(Middle(p).hs, p.e, Bytes(p.payload));
  }

  /**
   * The peer's static key, pinned by the initiator or learned from message A by the responder, is an
   * uncorrupted one. The party's own static key may be corrupted.
   */
  predicate Trusting(bad: set<Scalar>, p: Party) {
    p.phase.Ready? && PeerKey(p).Pub? && PeerKey(p).x !in bad
  }

  /** What the initiator mixes first, the responder mixes last: a key exchange with the peer's static key. */
  lemma SecretKeys(bad: set<Scalar>, wire: set<Term>, p: Party)
    requires Trusting(bad, p) && p.e !in bad
    ensures !Safe(bad, wire, FinalKey(p))
    ensures !Safe(bad, wire, Kdf2(Kdf1(MiddleKey(p), Ee(p)), Se(p)))
    ensures p.role.Responder? && p.s.priv !in bad ==> !Safe(bad, wire, Kdf2(Kdf1(PROTOCOL_HASH, Es(p)), Ss(p)))
  {
    SharedKeySecret(bad, wire, p.e, PeerKey(p));
    if p.s.priv !in bad {
      SharedKeySecret(bad, wire, p.s.priv, PeerKey(p));
    }
    hide Safe, PeerKey, PeerEphemeral, Dh;
    var ck1 := Kdf1(PROTOCOL_HASH, Es(p));
    if p.role.Initiator? {
      DerivedSecret(bad, wire, PROTOCOL_HASH, Es(p));
      DerivedSecret(bad, wire, ck1, Ss(p));
      DerivedSecret(bad, wire, MiddleKey(p), Ee(p));
    } else if p.s.priv !in bad {
      DerivedSecret(bad, wire, ck1, Ss(p));
    }
    DerivedSecret(bad, wire, Kdf1(MiddleKey(p), Ee(p)), Se(p));
  }

  lemma SharedKeySecret(bad: set<Scalar>, wire: set<Term>, x: Scalar, p: Term)
    requires x !in bad && p.Pub? && p.x !in bad
    ensures !Safe(bad, wire, Dh(x, p))
  {
  }

  /** A derived key is secret as soon as one of its inputs is. */
  lemma DerivedSecret(bad: set<Scalar>, wire: set<Term>, ck: Term, ikm: Term)
    requires !Safe(bad, wire, ck) || !Safe(bad, wire, ikm)
    ensures !Safe(bad, wire, Kdf1(ck, ikm)) && !Safe(bad, wire, Kdf2(ck, ikm))
  {
  }

  /**
   * Neither transport key of a session with an uncorrupted peer can be computed by the adversary, also
   * when the session's own static key is corrupted.
   */
  lemma TransportKeysSecret(bad: set<Scalar>, events: seq<Event>, i: nat)
    requires Legal(bad, events) && i < |Reached(events).parties| && Trusting(bad, Reached(events).parties[i])
    ensures
      var net := Reached(events);
      !Derivable(bad, net.wire, net.parties[i].sess.cs1.k) && !Derivable(bad, net.wire, net.parties[i].sess.cs2.k)
  {
    hide Written, WasRead, End, MiddleKey, FinalKey, Es, Ss, Ee, Se, Safe;
    var net := Reached(events);
    var p := net.parties[i];
    RunOk(bad, events);
    assert PartyOk(bad, net.wire, p);
    if p.role.Initiator? { InitiatorKeys(p); } else { ResponderKeys(p); }
    SecretKeys(bad, net.wire, p);
    DerivedSecret(bad, net.wire, FinalKey(p), EMPTY);
    if Derivable(bad, net.wire, p.sess.cs1.k) { MessageSafe(bad, net, p.sess.cs1.k); }
    if Derivable(bad, net.wire, p.sess.cs2.k) { MessageSafe(bad, net, p.sess.cs2.k); }
  }

  /** What one party sealed, by the keys used. */
  lemma MadeForms(bad: set<Scalar>, wire: set<Term>, q: Party, t: Term)
    requires PartyOk(bad, wire, q) && Made(q, t) && t.Seal?
    ensures
      || (q.role.Initiator? && t == Written(q).value.staticEnc && SealUnder(t, Kdf2(PROTOCOL_HASH, Es(q))))
      || (q.role.Initiator? && t == Written(q).value.ciphertext &&
          SealUnder(t, Kdf2(Kdf1(PROTOCOL_HASH, Es(q)), Ss(q))))
      || (q.role.Responder? && q.phase.Ready? && t == Written(q).value.ciphertext &&
          SealUnder(t, Kdf2(Kdf1(MiddleKey(q), Ee(q)), Se(q))))
      || (q.phase.Ready? && t.n < |q.sent| && q.sent[t.n] == TransportMessage(t.n, t) &&
          t.k == Tx(q.sess).k && t.ad == EMPTY)
  {
    hide Written, WasRead, End, MiddleKey, Es, Ss, Ee, Se, Safe;
    if q.role.Initiator? {
      InitiatorKeys(q);
    } else {
      ResponderKeys(q);
    }
  }

  /** `b` is a responder that took part in exactly the handshake that initiator `a` completed. */
  predicate Agree(a: Party, b: Party) {
    && a.role.Initiator? && b.role.Responder? && a.phase.Ready? && b.phase.Ready?
    && SameStart(a, b)
    && a.input.ephemeral == Written(b).value.ephemeral == Pub(b.e)
    && a.input.ciphertext == Written(b).value.ciphertext && WasRead(a) == Success(Bytes(b.payload))
    && a.sess.h == b.sess.h && a.sess.cs1.k == b.sess.cs1.k && a.sess.cs2.k == b.sess.cs2.k
  }

  /** Responder `b` read the message A that initiator `a` wrote for it. */
  predicate SameStart(a: Party, b: Party) {
    && a.role.Initiator? && b.role.Responder? && Written(a).Success? && Written(b).Success?
    && a.prologue == b.prologue
    && a.pin == b.s.pub && a.s.pub == PeerKey(b)
    && Written(a).value == b.input && WasRead(b) == Success(Bytes(a.payload))
    && PeerEphemeral(b) == Pub(a.e)
  }

  lemma CompletedHandshake(a: Party, b: Party)
    requires a.role.Initiator? && b.role.Responder? && a.phase.Ready? && b.phase.Ready?
    requires a.s.pub.Pub? && Written(a).Success? && WasRead(a).Success? && Written(b).Success? && WasRead(b).Success?
    requires SameKeys(a.sess, End(a)) && SameKeys(b.sess, End(b))
    requires a.input.ciphertext == Written(b).value.ciphertext
    ensures Agree(a, b)
  {
    hide WriteHandshake, ReadHandshake;
    Handshake.Agreement(
      a.prologue, a.s, a.pin, a.e, Bytes(a.payload),
      b.prologue, b.s, b.input, b.e, Bytes(b.payload), a.input);
    WrittenEphemeral(b);
  }

  lemma WrittenEphemeral(b: Party)
    requires Written(b).Success?
    ensures Written(b).value.ephemeral == Pub(b.e)
  {
  }

  lemma StartedHandshake(a: Party, b: Party)
    requires a.role.Initiator? && b.role.Responder? && a.s.pub.Pub?
    requires Written(a).Success? && Written(b).Success? && WasRead(b).Success?
    requires b.input.ciphertext == Written(a).value.ciphertext
    ensures SameStart(a, b)
  {
    hide WriteMessageA, ReadMessageA, WriteMessageB;
    Handshake.AgreementA(Start(a).hs, a.e, Bytes(a.payload), Start(b).hs, b.input);
    assert Start(a).hs.ss.h == Start(b).hs.ss.h;
  }

  /** A seal under a key the adversary lacks came from some honest party. */
  lemma MadeIfSecret(bad: set<Scalar>, net: Net, t: Term) returns (j: nat)
    requires NetOk(bad, net) && t.Seal? && Safe(bad, net.wire, t) && !Safe(bad, net.wire, t.k)
    ensures j < |net.parties| && Made(net.parties[j], t) && PartyOk(bad, net.wire, net.parties[j])
  {
    hide Made, PartyOk;
    assert t in net.wire;
    j :| 0 <= j < |net.parties| && Made(net.parties[j], t);
  }

  /**
   * In every run, an initiator that completed a handshake with the pinned key of an uncorrupted
   * responder shares it with a responder session holding that key: same prologue, same keys, same
   * transcript, and each learned the other's identity and payload.
   */
  lemma ResponderAuthenticated(bad: set<Scalar>, events: seq<Event>, i: nat) returns (j: nat)
    requires Legal(bad, events) && i < |Reached(events).parties|
    requires Reached(events).parties[i].role.Initiator? && Trusting(bad, Reached(events).parties[i])
    ensures j < |Reached(events).parties| && Agree(Reached(events).parties[i], Reached(events).parties[j])
  {
    hide Written, WasRead, End, MiddleKey, FinalKey, Es, Ss, Ee, Se, Safe, Made, Agree;
    var net := Reached(events);
    var p := net.parties[i];
    RunOk(bad, events);
    assert PartyOk(bad, net.wire, p);
    InitiatorKeys(p);
    SecretKeys(bad, net.wire, p);
    var t := p.input.ciphertext;
    j := MadeIfSecret(bad, net, t);
    var q := net.parties[j];
    MadeForms(bad, net.wire, q, t);
    ChainShape(p, q);
    CompletedHandshake(p, q);
  }

  /** No key of one step of the handshake is a key of another step. */
  lemma ChainShape(p: Party, q: Party)
    ensures Kdf2(PROTOCOL_HASH, Es(q)) != Kdf2(Kdf1(PROTOCOL_HASH, Es(p)), Ss(p))
    ensures Kdf2(PROTOCOL_HASH, Es(q)) != Kdf2(Kdf1(MiddleKey(p), Ee(p)), Se(p))
    ensures Kdf2(Kdf1(PROTOCOL_HASH, Es(q)), Ss(q)) != Kdf2(Kdf1(MiddleKey(p), Ee(p)), Se(p))
  {
    hide Es, Ss, Ee, Se;
  }

  /**
   * In every run, a responder with an uncorrupted key that accepted message A from the static key of
   * an uncorrupted initiator read what an initiator session holding that key wrote for it.
   */
  lemma InitiatorAuthenticated(bad: set<Scalar>, events: seq<Event>, i: nat) returns (j: nat)
    requires Legal(bad, events) && i < |Reached(events).parties|
    requires Reached(events).parties[i].role.Responder? && Trusting(bad, Reached(events).parties[i])
    requires Reached(events).parties[i].s.priv !in bad
    ensures j < |Reached(events).parties| && SameStart(Reached(events).parties[j], Reached(events).parties[i])
  {
    hide Written, WasRead, End, MiddleKey, FinalKey, Es, Ss, Ee, Se, Safe, Made, SameStart;
    var net := Reached(events);
    var p := net.parties[i];
    RunOk(bad, events);
    assert PartyOk(bad, net.wire, p);
    ResponderKeys(p);
    SecretKeys(bad, net.wire, p);
    var t := p.input.ciphertext;
    j := MadeIfSecret(bad, net, t);
    var q := net.parties[j];
    MadeForms(bad, net.wire, q, t);
    ChainShape(p, q);
    ChainShape(q, p);
    StartedHandshake(q, p);
  }

  lemma SharedSecret(x: Scalar, y: Scalar, z: Scalar, w: Term)
    requires Dh(x, Pub(y)) == Dh(z, w)
    ensures z == x || z == y
  {
  }

  /** The accepted frame is the frame with that nonce that `q` sent, with the content it sealed. */
  predicate Carried(p: Party, q: Party, d: Delivery) {
    && d.nonce < |q.sent| && Tx(q.sess).k == Rx(p.sess).k
    && q.sent[d.nonce] == TransportMessage(d.nonce, Seal(Tx(q.sess).k, d.nonce, EMPTY, d.pt))
  }

  /** Every accepted frame is one of the peer's frames, and no frame is accepted twice. */
  predicate DeliveredFrom(p: Party, q: Party) {
    && (forall k | 0 <= k < |p.got| :: Carried(p, q, p.got[k]))
    && forall k, l | 0 <= k < l < |p.got| :: p.got[k].nonce != p.got[l].nonce
  }

  /** The sender of an accepted frame is the party whose ephemeral key the receiver used. */
  lemma FrameFrom(bad: set<Scalar>, net: Net, i: nat, j: nat, k: nat)
    requires NetOk(bad, net) && i < |net.parties| && j < |net.parties| && i != j
    requires Trusting(bad, net.parties[i]) && PeerEphemeral(net.parties[i]) == Pub(net.parties[j].e)
    requires k < |net.parties[i].got|
    ensures Carried(net.parties[i], net.parties[j], net.parties[i].got[k])
  {
    hide Written, WasRead, End, MiddleKey, FinalKey, Es, Ss, Ee, Se, Safe, Made, PeerEphemeral, PeerKey, Dh;
    var p, d := net.parties[i], net.parties[i].got[k];
    assert PartyOk(bad, net.wire, p);
    PartyKeys(p);
    SecretKeys(bad, net.wire, p);
    DerivedSecret(bad, net.wire, FinalKey(p), EMPTY);
    var t := Seal(Rx(p.sess).k, d.nonce, EMPTY, d.pt);
    var l := MadeIfSecret(bad, net, t);
    var q := net.parties[l];
    MadeForms(bad, net.wire, q, t);
    PartyKeys(q);
    SameFinalKey(p, q, net.parties[j].e);
    assert l == j;
  }

  lemma PartyKeys(p: Party)
    requires Written(p).Success? && WasRead(p).Success?
    ensures End(p).cs1.k == Kdf1(FinalKey(p), EMPTY) && End(p).cs2.k == Kdf2(FinalKey(p), EMPTY)
  {
    hide Written, WasRead, End, FinalKey;
    if p.role.Initiator? { InitiatorKeys(p); } else { ResponderKeys(p); }
  }

  lemma SameFinalKey(p: Party, q: Party, y: Scalar)
    requires FinalKey(p) == FinalKey(q) && PeerEphemeral(p) == Pub(y)
    ensures q.e == p.e || q.e == y
  {
    hide Es, Ss, Se, PeerEphemeral, Dh;
    SharedSecret(p.e, y, q.e, PeerEphemeral(q));
  }

  /**
   * The first frame that a responder accepts confirms the whole handshake, also when the responder's
   * own static key is corrupted: it comes from an initiator that completed with this very responder.
   */
  lemma FrameConfirms(bad: set<Scalar>, net: Net, i: nat) returns (j: nat)
    requires NetOk(bad, net) && i < |net.parties|
    requires net.parties[i].role.Responder? && Trusting(bad, net.parties[i]) && net.parties[i].got != []
    ensures j < |net.parties| && Agree(net.parties[j], net.parties[i])
  {
    hide Written, WasRead, End, MiddleKey, FinalKey, Es, Ss, Ee, Se, Safe, Made, Agree, PeerEphemeral, PeerKey, Dh;
    var p := net.parties[i];
    assert PartyOk(bad, net.wire, p);
    PartyKeys(p);
    SecretKeys(bad, net.wire, p);
    DerivedSecret(bad, net.wire, FinalKey(p), EMPTY);
    var frame := Seal(Rx(p.sess).k, p.got[0].nonce, EMPTY, p.got[0].pt);
    j := MadeIfSecret(bad, net, frame);
    var q := net.parties[j];
    MadeForms(bad, net.wire, q, frame);
    PartyKeys(q);
    EndRole(p);
    EndRole(q);
    assert q.role.Initiator? && FinalKey(q) == FinalKey(p);
    FinalKeyParts(p, q);
    InitiatorKeys(q);
    var k := MadeIfSecret(bad, net, q.input.ciphertext);
    MadeForms(bad, net.wire, net.parties[k], q.input.ciphertext);
    ChainShape(q, net.parties[k]);
    FinalExchange(p, q, net.parties[k]);
    assert k == i;
    CompletedHandshake(q, p);
  }

  lemma EndRole(p: Party)
    ensures End(p).i <==> p.role.Initiator?
  {
    hide WriteMessageA, ReadMessageA, WriteMessageB, ReadMessageB;
  }

  lemma FinalKeyParts(p: Party, q: Party)
    requires FinalKey(p) == FinalKey(q)
    ensures MiddleKey(p) == MiddleKey(q) && Ee(p) == Ee(q) && Se(p) == Se(q)
  {
    hide MiddleKey, Ee, Se;
  }

  /** The last exchange of responder `p` is between its ephemeral key and the static key of its initiator `q`. */
  lemma FinalExchange(p: Party, q: Party, r: Party)
    requires p.role.Responder? && q.role.Initiator? && r.role.Responder? && PeerKey(p).Pub?
    requires Se(p) == Se(q) == Se(r) && p.e != q.s.priv && r.e != q.s.priv
    ensures r.e == p.e
  {
    hide PeerKey, PeerEphemeral, Dh;
    SharedSecret(p.e, PeerKey(p).x, q.s.priv, PeerEphemeral(q));
    SharedSecret(p.e, PeerKey(p).x, r.e, PeerKey(r));
  }

  /**
   * What a party knows of its peer: an initiator agrees with it on everything, and so does a responder
   * that has accepted a frame; before that, a responder whose own key is uncorrupted knows that the
   * peer started this handshake.
   */
  predicate Authenticated(bad: set<Scalar>, p: Party, q: Party) {
    match p.role
    case Initiator => Agree(p, q)
    case Responder => (p.got != [] ==> Agree(q, p)) && (p.s.priv !in bad ==> SameStart(q, p))
  }

  /**
   * End to end. In every run, whatever is lost, duplicated, reordered or forged, the frames that a
   * session with an uncorrupted peer accepts are frames that its authenticated peer sent, with the
   * content it sealed, each at most once.
   */
  lemma EndToEnd(bad: set<Scalar>, events: seq<Event>, i: nat) returns (j: nat)
    requires Legal(bad, events) && i < |Reached(events).parties| && Trusting(bad, Reached(events).parties[i])
    ensures j < |Reached(events).parties|
    ensures
      var p, q := Reached(events).parties[i], Reached(events).parties[j];
      Authenticated(bad, p, q) && DeliveredFrom(p, q)
  {
    hide Agree, SameStart, Written, WasRead, End, Middle, Carried, PeerEphemeral;
    var net := Reached(events);
    var p := net.parties[i];
    RunOk(bad, events);
    assert PartyOk(bad, net.wire, p);
    if p.role.Initiator? {
      j := ResponderAuthenticated(bad, events, i);
    } else if p.got != [] {
      j := FrameConfirms(bad, net, i);
      AgreedStart(net.parties[j], p);
    } else if p.s.priv !in bad {
      j := InitiatorAuthenticated(bad, events, i);
    } else {
      j := i;
    }
    forall k | 0 <= k < |p.got| ensures Carried(p, net.parties[j], p.got[k]) {
      Peers(p, net.parties[j]);
      FrameFrom(bad, net, i, j, k);
    }
  }

  lemma AgreedStart(p: Party, q: Party)
    requires Agree(p, q)
    ensures SameStart(p, q)
  {
    hide SameStart;
  }

  lemma Peers(p: Party, q: Party)
    requires if p.role.Initiator? then Agree(p, q) else SameStart(q, p)
    ensures p.role != q.role && PeerEphemeral(p) == Pub(q.e)
  {
    hide Written, WasRead, Middle;
  }

  /** What later events leave as it was: the ephemeral key, and all of a finished handshake. */
  predicate Continues(p: Party, q: Party) {
    q.e == p.e && (p.phase.Ready? ==> q == p.(sess := q.sess, sent := q.sent, got := q.got))
  }

  lemma StepContinues(bad: set<Scalar>, net: Net, ev: Event, i: nat)
    requires Enabled(bad, net, ev) && i < |net.parties|
    ensures i < |Apply(net, ev).parties| && Continues(net.parties[i], Apply(net, ev).parties[i])
  {
    hide Written, WasRead, Middle, End, EncryptTransport, DecryptTransport;
  }

  lemma {:induction false} RunContinues(bad: set<Scalar>, events: seq<Event>, k: nat, i: nat)
    requires Legal(bad, events) && k <= |events| && i < |Reached(events[..k]).parties|
    ensures i < |Reached(events).parties| && Continues(Reached(events[..k]).parties[i], Reached(events).parties[i])
    decreases |events|
  {
    if k == |events| {
      assert events[..k] == events;
    } else {
      var before := events[..|events| - 1];
      assert before[..k] == events[..k];
      RunContinues(bad, before, k, i);
      StepContinues(bad, Reached(before), events[|events| - 1], i);
    }
  }

  lemma EphemeralKeysSecret(bad: set<Scalar>, wire: set<Term>, p: Party)
    requires p.e !in bad && PeerEphemeral(p).Pub? && PeerEphemeral(p).x !in bad
    ensures !Safe(bad, wire, Kdf1(FinalKey(p), EMPTY)) && !Safe(bad, wire, Kdf2(FinalKey(p), EMPTY))
  {
    SharedKeySecret(bad, wire, p.e, PeerEphemeral(p));
    hide Safe, PeerEphemeral, Dh, MiddleKey, Se;
    DerivedSecret(bad, wire, MiddleKey(p), Ee(p));
    DerivedSecret(bad, wire, Kdf1(MiddleKey(p), Ee(p)), Se(p));
    DerivedSecret(bad, wire, FinalKey(p), EMPTY);
  }

  /**
   * Forward secrecy. Once a session has completed with an uncorrupted peer, and, if it is a responder
   * whose own key is corrupted, has accepted a frame, the adversary may get hold of any static keys,
   * both parties' own included, and will still never compute the session's transport keys. `bad` are
   * the keys corrupted during the first k events, `bad'` those corrupted in the end.
   */
  lemma ForwardSecrecy(bad: set<Scalar>, bad': set<Scalar>, events: seq<Event>, k: nat, i: nat)
    requires k <= |events| && Legal(bad, events[..k]) && Legal(bad', events)
    requires i < |Reached(events[..k]).parties| && Trusting(bad, Reached(events[..k]).parties[i])
    requires
      var p := Reached(events[..k]).parties[i];
      p.role.Responder? ==> p.s.priv !in bad || p.got != []
    ensures i < |Reached(events).parties|
    ensures
      var net := Reached(events);
      !Derivable(bad', net.wire, net.parties[i].sess.cs1.k) && !Derivable(bad', net.wire, net.parties[i].sess.cs2.k)
  {
    hide Agree, SameStart, DeliveredFrom, Written, WasRead, End, Middle, FinalKey, Safe, Derivable, PeerKey;
    var j := EndToEnd(bad, events[..k], i);
    if Agree(Reached(events[..k]).parties[j], Reached(events[..k]).parties[i]) {
      AgreedStart(Reached(events[..k]).parties[j], Reached(events[..k]).parties[i]);
    }
    RunContinues(bad', events, k, i);
    RunContinues(bad', events, k, j);
    var before, net := Reached(events[..k]), Reached(events);
    Peers(before.parties[i], before.parties[j]);
    var p, p' := before.parties[i], net.parties[i];
    SameParty(p, p');
    RunOk(bad', events);
    assert PartyOk(bad', net.wire, p') && PartyOk(bad', net.wire, net.parties[j]);
    EphemeralKeysSecret(bad', net.wire, p');
    PartyKeys(p');
    if Derivable(bad', net.wire, p'.sess.cs1.k) { MessageSafe(bad', net, p'.sess.cs1.k); }
    if Derivable(bad', net.wire, p'.sess.cs2.k) { MessageSafe(bad', net, p'.sess.cs2.k); }
  }

  /** Two initiator sessions never share a responder session. */
  lemma AgreementIsInjective(bad: set<Scalar>, events: seq<Event>, i: nat, i': nat, j: nat)
    requires Legal(bad, events) && i < i' < |Reached(events).parties| && j < |Reached(events).parties|
    requires Agree(Reached(events).parties[i], Reached(events).parties[j])
    ensures !Agree(Reached(events).parties[i'], Reached(events).parties[j])
  {
    RunOk(bad, events);
  }

  /* A responder whose own key is corrupted cannot tell who wrote message A. */

  lemma Derives(bad: set<Scalar>, wire: set<Term>, a: Term, b: Term)
    requires Derivable(bad, wire, a) && Derivable(bad, wire, b)
    ensures Derivable(bad, wire, Hash(a, b))
    ensures Derivable(bad, wire, Kdf1(a, b)) && Derivable(bad, wire, Kdf2(a, b))
  {
    var c, d :| Derive(bad, wire, c) == Some(a) && Derive(bad, wire, d) == Some(b);
    assert Derive(bad, wire, Hashing(c, d)) == Some(Hash(a, b));
    assert Derive(bad, wire, Expanding1(c, d)) == Some(Kdf1(a, b));
    assert Derive(bad, wire, Expanding2(c, d)) == Some(Kdf2(a, b));
  }

  lemma DerivesSeal(bad: set<Scalar>, wire: set<Term>, k: Term, n: uint64, ad: Term, pt: Term)
    requires Derivable(bad, wire, k) && Derivable(bad, wire, ad) && Derivable(bad, wire, pt)
    ensures Derivable(bad, wire, Seal(k, n, ad, pt))
  {
    var a, b, c :|
      Derive(bad, wire, a) == Some(k) && Derive(bad, wire, b) == Some(ad) && Derive(bad, wire, c) == Some(pt);
    assert Derive(bad, wire, Sealing(a, n, b, c)) == Some(Seal(k, n, ad, pt));
  }

  lemma DerivesAtoms(bad: set<Scalar>, wire: set<Term>, b: seq<byte>, x: Scalar, y: Scalar)
    ensures Derivable(bad, wire, Bytes(b)) && Derivable(bad, wire, Pub(x))
    ensures y in bad ==> Derivable(bad, wire, Dh(y, Pub(x)))
  {
    assert Derive(bad, wire, Literal(b)) == Some(Bytes(b));
    assert Derive(bad, wire, Public(x)) == Some(Pub(x));
    assert y in bad ==> Derive(bad, wire, Exchanging(y, Public(x))) == Some(Dh(y, Pub(x)));
  }

  /** With the responder's private key y, anyone can write the message A that the owner of x would write. */
  lemma ForgedMessageA(bad: set<Scalar>, prologue: seq<byte>, x: Scalar, y: Scalar, z: Scalar, payload: seq<byte>)
    requires y in bad
    ensures
      var hs := InitializeInitiator(Bytes(prologue), GeneratedPair(x), Pub(y));
      DerivableMessage(bad, {}, WriteMessageA(hs, z, Bytes(payload)).1)
  {
    hide Derivable, Dh, WriteMessageA;
    var hs := InitializeInitiator(Bytes(prologue), GeneratedPair(x), Pub(y));
    Handshake.WroteA(hs, z, Bytes(payload));
    Handshake.DhCommutes(y, z);
    Handshake.DhCommutes(y, x);
    DerivesAtoms(bad, {}, prologue, z, y);
    DerivesAtoms(bad, {}, Ascii("Noise_IK_25519_ChaChaPoly_BLAKE2s"), x, y);
    DerivesAtoms(bad, {}, [], y, y);
    DerivesAtoms(bad, {}, payload, y, y);
    var es, ss := Dh(z, Pub(y)), Dh(x, Pub(y));
    Derives(bad, {}, Bytes(Ascii("Noise_IK_25519_ChaChaPoly_BLAKE2s")), EMPTY);
    Derives(bad, {}, PROTOCOL_HASH, Bytes(prologue));
    var h1 := Hash(PROTOCOL_HASH, Bytes(prologue));
    Derives(bad, {}, h1, Pub(y));
    var h2 := Hash(h1, Pub(y));
    Derives(bad, {}, h2, Pub(z));
    var h3 := Hash(h2, Pub(z));
    Derives(bad, {}, PROTOCOL_HASH, es);
    var k1 := Kdf2(PROTOCOL_HASH, es);
    DerivesSeal(bad, {}, k1, 0, h3, Pub(x));
    var ns := Seal(k1, 0, h3, Pub(x));
    Derives(bad, {}, h3, ns);
    Derives(bad, {}, Kdf1(PROTOCOL_HASH, es), ss);
    DerivesSeal(bad, {}, Kdf2(Kdf1(PROTOCOL_HASH, es), ss), 0, Hash(h3, ns), Bytes(payload));
  }

  /**
   * For every corrupted responder key y and every other key x, uncorrupted and used by nobody, there is
   * a run in which a responder with key y accepts message A from x although nobody wrote it: without an
   * uncorrupted key of its own, a responder is not sure of its peer before the first frame.
   */
  lemma Impersonation(
    bad: set<Scalar>, prologue: seq<byte>, x: Scalar, y: Scalar, z: Scalar, e: Scalar) returns (events: seq<Event>)
    requires y in bad && x !in bad && e !in bad
    ensures Legal(bad, events) && |Reached(events).parties| == 1
    ensures
      var p := Reached(events).parties[0];
      && p.role.Responder? && p.s == GeneratedPair(y) && p.e == e && Trusting(bad, p)
      && PeerKey(p) == Pub(x) && PeerEphemeral(p) == Pub(z) && p.got == []
      && !SameStart(p, p) && WasRead(p).Success? && Written(p).Success? && p.sess == End(p)
  {
    hide WriteMessageA, ReadMessageA, WriteMessageB, Derivable;
    Handshake.Completeness(Bytes(prologue), x, y, z, EMPTY, e, EMPTY);
    ForgedMessageA(bad, prologue, x, y, z, []);
    var m := WriteHandshake(NewInitiator(Bytes(prologue), GeneratedPair(x), Pub(y)), z, EMPTY).1.value;
    Handshake.CompletenessA(
      InitializeInitiator(Bytes(prologue), GeneratedPair(x), Pub(y)), z, EMPTY,
      InitializeResponder(Bytes(prologue), GeneratedPair(y)));
    var ev := Respond(Bytes(prologue), GeneratedPair(y), m, e, []);
    Extended(bad, [], ev);
    events := [] + [ev];
  }

  /**
   * If the impersonated key is corrupted afterwards, the transport keys of such a session are lost:
   * forward secrecy starts, for a responder whose own key is corrupted, with the first accepted frame.
   */
  lemma ImpersonationLosesKeys(bad: set<Scalar>, wire: set<Term>, p: Party, x: Scalar, y: Scalar, z: Scalar)
    requires x in bad && y in bad && z in bad
    requires p.role.Responder? && p.s == GeneratedPair(y) && PeerKey(p) == Pub(x) && PeerEphemeral(p) == Pub(z)
    requires WasRead(p).Success? && Written(p).Success? && p.sess == End(p)
    ensures Derivable(bad, wire, p.sess.cs1.k) && Derivable(bad, wire, p.sess.cs2.k)
  {
    ResponderKeys(p);
    hide Derivable, Dh, PeerKey, PeerEphemeral, Written, WasRead, End;
    Handshake.DhCommutes(z, p.e);
    Handshake.DhCommutes(x, p.e);
    DerivesAtoms(bad, wire, Ascii("Noise_IK_25519_ChaChaPoly_BLAKE2s"), z, y);
    DerivesAtoms(bad, wire, [], x, y);
    DerivesAtoms(bad, wire, [], p.e, x);
    DerivesAtoms(bad, wire, [], p.e, z);
    Derives(bad, wire, Bytes(Ascii("Noise_IK_25519_ChaChaPoly_BLAKE2s")), EMPTY);
    Derives(bad, wire, PROTOCOL_HASH, Es(p));
    Derives(bad, wire, Kdf1(PROTOCOL_HASH, Es(p)), Ss(p));
    Derives(bad, wire, MiddleKey(p), Ee(p));
    Derives(bad, wire, Kdf1(MiddleKey(p), Ee(p)), Se(p));
    Derives(bad, wire, FinalKey(p), EMPTY);
  }

  /* The guarantees are not empty: undisturbed runs complete and deliver. */

  lemma Extended(bad: set<Scalar>, events: seq<Event>, ev: Event)
    requires Legal(bad, events) && Enabled(bad, Reached(events), ev)
    ensures Legal(bad, events + [ev]) && Reached(events + [ev]) == Apply(Reached(events), ev)
  {
    assert (events + [ev])[..|events|] == events;
  }

  lemma OnWire(bad: set<Scalar>, wire: set<Term>, t: Term)
    requires t in wire
    ensures Derivable(bad, wire, t)
  {
    assert Derive(bad, wire, Seen(t)) == Some(t);
  }

  /** An initiator with key x and a responder with key y, with valid keys and the right pin. */
  datatype Conversation = Conversation(
    prologue: Term, x: Scalar, y: Scalar, eI: Scalar, eR: Scalar, payloadA: Payload, payloadB: Payload)

  /** What a handshake message can carry. */
  type Payload = p: seq<byte> | |p| <= Handshake.MAX_PAYLOAD

  predicate Proper(bad: set<Scalar>, c: Conversation) {
    c.eI != c.eR && c.eI !in bad && c.eR !in bad && c.eI !in {c.x, c.y} && c.eR !in {c.x, c.y}
  }

  function Caller(c: Conversation): Party {
    var p := NewInitiatorParty(c.prologue, GeneratedPair(c.x), Pub(c.y), c.eI, c.payloadA);
    p.(sess := Middle(p))
  }

  function MessageA(c: Conversation): HandshakeMessage {
    assert Len(Bytes(c.payloadA)) <= MAX_MESSAGE;
    WriteHandshake(NewInitiator(c.prologue, GeneratedPair(c.x), Pub(c.y)), c.eI, Bytes(c.payloadA)).1.value
  }

  function Callee(c: Conversation): Party {
    var p := NewResponderParty(c.prologue, GeneratedPair(c.y), MessageA(c), c.eR, c.payloadB);
    p.(sess := End(p))
  }

  function MessageB(c: Conversation): HandshakeMessage
    requires Written(Callee(c)).Success?
  {
    Written(Callee(c)).value
  }

  function CallerDone(c: Conversation): Party
    requires Written(Callee(c)).Success?
  {
    var p := Caller(c).(input := MessageB(c));
    p.(phase := Ready, sess := End(p))
  }

  lemma ConversationSucceeds(bad: set<Scalar>, c: Conversation)
    requires Proper(bad, c)
    ensures Written(Caller(c)) == Success(MessageA(c))
    ensures WasRead(Callee(c)).Success? && Written(Callee(c)).Success? && WasRead(CallerDone(c)).Success?
    ensures
      var i2, r2 := CallerDone(c).sess, Callee(c).sess;
      && i2.mc == r2.mc == 2 && i2.i && !r2.i
      && i2.cs1.n == 0 && i2.cs1.k == r2.cs1.k && r2.rx == NEW_RECEIVER
  {
    hide WriteMessageA, ReadMessageA, WriteMessageB, ReadMessageB;
    Handshake.Completeness(c.prologue, c.x, c.y, c.eI, Bytes(c.payloadA), c.eR, Bytes(c.payloadB));
  }

  /** What has been joined to the wire can be delivered. */
  lemma JoinedIsDerivable(bad: set<Scalar>, net: Net, p: Party, m: HandshakeMessage)
    ensures DerivableMessage(bad, Joined(net, p, m).wire, m)
  {
    var wire := Joined(net, p, m).wire;
    OnWire(bad, wire, m.ephemeral);
    OnWire(bad, wire, m.staticEnc);
    OnWire(bad, wire, m.ciphertext);
  }

  function Calls(c: Conversation): Event {
    Initiate(c.prologue, GeneratedPair(c.x), Pub(c.y), c.eI, c.payloadA)
  }

  lemma CallStep(bad: set<Scalar>, c: Conversation)
    requires Proper(bad, c)
    ensures Enabled(bad, NEW_NET, Calls(c))
    ensures Apply(NEW_NET, Calls(c)).parties == [Caller(c)]
    ensures DerivableMessage(bad, Apply(NEW_NET, Calls(c)).wire, MessageA(c))
  {
    ConversationSucceeds(bad, c);
    hide WriteHandshake, Middle, DerivableMessage;
    var p := NewInitiatorParty(c.prologue, GeneratedPair(c.x), Pub(c.y), c.eI, c.payloadA);
    SameParty(p, Caller(c));
    JoinedIsDerivable(bad, NEW_NET, Caller(c), MessageA(c));
  }

  function Answers(c: Conversation): Event {
    Respond(c.prologue, GeneratedPair(c.y), MessageA(c), c.eR, c.payloadB)
  }

  lemma Responds(net: Net, prologue: Term, s: KeyPair, m: HandshakeMessage, e: Scalar, payload: seq<byte>)
    requires
      var p := NewResponderParty(prologue, s, m, e, payload);
      WasRead(p).Success? && Written(p).Success?
    ensures
      var p := NewResponderParty(prologue, s, m, e, payload);
      Apply(net, Respond(prologue, s, m, e, payload)) == Joined(net, p.(sess := End(p)), Written(p).value)
  {
    hide WasRead, Written, End;
  }

  lemma AnswerIsEnabled(bad: set<Scalar>, c: Conversation, net: Net)
    requires Proper(bad, c) && net.parties == [Caller(c)] && DerivableMessage(bad, net.wire, MessageA(c))
    ensures Enabled(bad, net, Answers(c))
  {
    hide DerivableMessage, MessageA, Middle;
  }

  lemma AnswerStep(bad: set<Scalar>, c: Conversation, net: Net)
    requires Proper(bad, c) && net.parties == [Caller(c)] && DerivableMessage(bad, net.wire, MessageA(c))
    ensures Enabled(bad, net, Answers(c)) && Written(Callee(c)).Success?
    ensures
      var net' := Apply(net, Answers(c));
      net'.parties == [Caller(c), Callee(c)] && DerivableMessage(bad, net'.wire, MessageB(c))
  {
    hide Written, WasRead, End, Middle, DerivableMessage, Enabled, Apply, MessageA, Caller, WriteHandshake;
    AnswerIsEnabled(bad, c, net);
    ConversationSucceeds(bad, c);
    var p := NewResponderParty(c.prologue, GeneratedPair(c.y), MessageA(c), c.eR, c.payloadB);
    SameParty(p, Callee(c));
    Responds(net, c.prologue, GeneratedPair(c.y), MessageA(c), c.eR, c.payloadB);
    JoinedIsDerivable(bad, net, Callee(c), MessageB(c));
  }

  lemma CompleteStep(bad: set<Scalar>, c: Conversation, net: Net)
    requires Proper(bad, c) && Written(Callee(c)).Success?
    requires net.parties == [Caller(c), Callee(c)] && DerivableMessage(bad, net.wire, MessageB(c))
    ensures Enabled(bad, net, Complete(0, MessageB(c)))
    ensures Apply(net, Complete(0, MessageB(c))).parties == [CallerDone(c), Callee(c)]
  {
    hide Written, WasRead, Middle, End, DerivableMessage, MessageA, MessageB, Callee, WriteHandshake;
    CompletionIsRead(bad, c);
    Completes(net, MessageB(c));
  }

  lemma Completes(net: Net, m: HandshakeMessage)
    requires |net.parties| == 2
    requires WasRead(net.parties[0].(input := m)).Success?
    ensures
      var p := net.parties[0].(input := m);
      Apply(net, Complete(0, m)).parties == [p.(phase := Ready, sess := End(p)), net.parties[1]]
  {
    hide WasRead, End;
  }

  lemma CompletionIsRead(bad: set<Scalar>, c: Conversation)
    requires Proper(bad, c) && Written(Callee(c)).Success?
    ensures
      var p := Caller(c).(input := MessageB(c));
      WasRead(p).Success? && CallerDone(c) == p.(phase := Ready, sess := End(p))
  {
    ConversationSucceeds(bad, c);
    hide WriteHandshake, ReadHandshake, MessageA, MessageB;
  }

  lemma CompletionAgrees(bad: set<Scalar>, c: Conversation)
    requires Proper(bad, c) && Written(Callee(c)).Success?
    ensures Agree(CallerDone(c), Callee(c))
  {
    hide WriteHandshake, ReadHandshake, Agree;
    ConversationSucceeds(bad, c);
    CompletionIsRead(bad, c);
    hide Written, WasRead, End, Middle, MessageA, MessageB;
    var p, q := CallerDone(c), Callee(c);
    SameParty(Caller(c).(input := MessageB(c)), p);
    SameParty(NewResponderParty(c.prologue, GeneratedPair(c.y), MessageA(c), c.eR, c.payloadB), q);
    CompletedHandshake(p, q);
  }

  /** The packet, sealed by party 0 as its first, goes out. */
  lemma SendStep(bad: set<Scalar>, net: Net, packet: seq<byte>)
    requires |net.parties| == 2 && net.parties[0].phase.Ready?
    requires net.parties[0].sess.mc == 2 && net.parties[0].sess.i && net.parties[0].sess.cs1.n == 0
    ensures Enabled(bad, net, Send(0, packet))
    ensures
      var p, net' := net.parties[0], Apply(net, Send(0, packet));
      var f := TransportMessage(0, Seal(p.sess.cs1.k, 0, EMPTY, Bytes(packet)));
      && net'.parties ==
         [p.(sess := p.sess.(cs1 := CipherState(p.sess.cs1.k, 1)), sent := p.sent + [f]), net.parties[1]]
      && f.ciphertext in net'.wire
  {
  }

  lemma DeliverStep(bad: set<Scalar>, net: Net, k: Term, packet: seq<byte>)
    requires |net.parties| == 2 && net.parties[1].phase.Ready? && net.parties[1].got == []
    requires
      var s := net.parties[1].sess;
      s.mc == 2 && !s.i && s.cs1.k == k && !s.rx.any
    requires Seal(k, 0, EMPTY, Bytes(packet)) in net.wire
    ensures Enabled(bad, net, Deliver(1, TransportMessage(0, Seal(k, 0, EMPTY, Bytes(packet)))))
    ensures
      var q, net' := net.parties[1], Apply(net, Deliver(1, TransportMessage(0, Seal(k, 0, EMPTY, Bytes(packet)))));
      && net'.parties == [net.parties[0], q.(sess := net'.parties[1].sess, got := [Delivery(0, Bytes(packet))])]
      && net'.parties[1].sess == q.sess.(rx := net'.parties[1].sess.rx)
  {
    hide Derivable, Receive;
    var q, f := net.parties[1], TransportMessage(0, Seal(k, 0, EMPTY, Bytes(packet)));
    OnWire(bad, net.wire, f.ciphertext);
    assert DecryptTransport(q.sess, f) == (q.sess.(rx := Receive(q.sess.rx, 0, true)), Success(Bytes(packet)));
    assert q.got + [Delivery(0, Bytes(packet))] == [Delivery(0, Bytes(packet))];
  }

  lemma StillAgree(p: Party, q: Party, p': Party, q': Party)
    requires Agree(p, q)
    requires p' == p.(sess := p'.sess, sent := p'.sent, got := p'.got)
    requires q' == q.(sess := q'.sess, sent := q'.sent, got := q'.got)
    requires p'.sess.h == p.sess.h && p'.sess.cs1.k == p.sess.cs1.k && p'.sess.cs2.k == p.sess.cs2.k
    requires q'.sess.h == q.sess.h && q'.sess.cs1.k == q.sess.cs1.k && q'.sess.cs2.k == q.sess.cs2.k
    ensures Agree(p', q')
  {
    hide Written, WasRead, Middle;
    SameParty(p, p');
    SameParty(q, q');
  }

  function Parties(events: seq<Event>): seq<Party> {
    Reached(events).parties
  }

  /** When the network just passes the messages on, both parties complete and agree. */
  lemma UndisturbedHandshake(bad: set<Scalar>, c: Conversation) returns (events: seq<Event>)
    requires Proper(bad, c)
    ensures Legal(bad, events) && Written(Callee(c)).Success?
    ensures Parties(events) == [CallerDone(c), Callee(c)] && Agree(CallerDone(c), Callee(c))
  {
    hide Apply, Legal, Enabled, Reached, Agree, Proper, Written, DerivableMessage, Caller, Callee, CallerDone;
    NothingYet(bad);
    CallStep(bad, c);
    Extended(bad, [], Calls(c));
    events := [] + [Calls(c)];
    AnswerStep(bad, c, Reached(events));
    Extended(bad, events, Answers(c));
    events := events + [Answers(c)];
    CompleteStep(bad, c, Reached(events));
    CompletionAgrees(bad, c);
    Extended(bad, events, Complete(0, MessageB(c)));
    events := events + [Complete(0, MessageB(c))];
  }

  lemma NothingYet(bad: set<Scalar>)
    ensures Legal(bad, []) && Reached([]) == NEW_NET
  {
  }

  /** A packet sent then is delivered. */
  lemma UndisturbedRun(bad: set<Scalar>, c: Conversation, packet: seq<byte>) returns (events: seq<Event>)
    requires Proper(bad, c)
    ensures Legal(bad, events) && |Parties(events)| == 2 && Agree(Parties(events)[0], Parties(events)[1])
    ensures Parties(events)[1].got == [Delivery(0, Bytes(packet))]
  {
    events := UndisturbedHandshake(bad, c);
    ConversationSucceeds(bad, c);
    var p, q := CallerDone(c), Callee(c);
    assert p.phase.Ready? && q.phase.Ready? && q.got == [];
    hide Apply, Legal, Enabled, Reached, Agree, Proper, Written, WasRead, End, Middle, Caller, Callee, CallerDone;
    var f := TransportMessage(0, Seal(p.sess.cs1.k, 0, EMPTY, Bytes(packet)));
    SendStep(bad, Reached(events), packet);
    Extended(bad, events, Send(0, packet));
    events := events + [Send(0, packet)];
    DeliverStep(bad, Reached(events), p.sess.cs1.k, packet);
    Extended(bad, events, Deliver(1, f));
    events := events + [Deliver(1, f)];
    StillAgree(p, q, Parties(events)[0], Parties(events)[1]);
  }
}
