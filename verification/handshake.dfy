/** What the Noise IK handshake achieves: agreement and completeness. */
module Handshake {
  import opened Prelude
  import opened Crypto
  import opened NoiseIK
  import Wire

  /** The symmetric state and ciphertext after mixing `dh` and sealing `pt`. */
  function MixedAndSealed(ss: SymmetricState, dh: Term, pt: Term): (SymmetricState, Term) {
    var k := Kdf2(ss.ck, dh);
    var ct := Seal(k, 0, ss.h, pt);
    (SymmetricState(CipherState(k, 1), Kdf1(ss.ck, dh), Hash(ss.h, ct)), ct)
  }

  lemma SealStep(ss: SymmetricState, dh: Term, pt: Term)
    ensures EncryptAndHash(MixKey(ss, dh), pt) == Success(MixedAndSealed(ss, dh, pt))
  {
  }

  /** A ciphertext is authentic exactly when it is what the peer seals in the same state. */
  lemma OpenStep(ss: SymmetricState, dh: Term, ct: Term)
    ensures DecryptAndHash(MixKey(ss, dh), ct).Success?
    ensures
      var (ss', pt) := DecryptAndHash(MixKey(ss, dh), ct).value;
      && (pt.Some? <==> exists p :: MixedAndSealed(ss, dh, p).1 == ct)
      && (pt.Some? ==> MixedAndSealed(ss, dh, pt.value) == (ss', ct))
      && ss'.h == Hash(ss.h, ct) && ss'.ck == Kdf1(ss.ck, dh)
  {
    if ct.Seal? && ct.k == Kdf2(ss.ck, dh) && ct.n == 0 && ct.ad == ss.h {
      assert MixedAndSealed(ss, dh, ct.pt).1 == ct;
    }
  }

  /** Message A, written out. */
  lemma WroteA(hs: HandshakeState, e: Scalar, payload: Term)
    ensures
      var (ss2, ns) := MixedAndSealed(MixHash(hs.ss, Pub(e)), Dh(e, hs.rs), hs.s.pub);
      var (ss4, ct) := MixedAndSealed(ss2, Dh(hs.s.priv, hs.rs), payload);
      WriteMessageA(hs, e, payload) ==
        (hs.(e := GeneratedPair(e), ss := ss4), HandshakeMessage(Pub(e), ns, ct))
  {
    hide EncryptAndHash, MixedAndSealed, MixKey;
    var (ss2, ns) := MixedAndSealed(MixHash(hs.ss, Pub(e)), Dh(e, hs.rs), hs.s.pub);
    SealStep(MixHash(hs.ss, Pub(e)), Dh(e, hs.rs), hs.s.pub);
    SealStep(ss2, Dh(hs.s.priv, hs.rs), payload);
  }

  /** Message B, written out. */
  lemma WroteB(hs: HandshakeState, e: Scalar, payload: Term)
    ensures
      var ss1 := MixKey(MixHash(hs.ss, Pub(e)), Dh(e, hs.re));
      var (ss3, ct) := MixedAndSealed(ss1, Dh(e, hs.rs), payload);
      WriteMessageB(hs, e, payload) == (ss3, HandshakeMessage(Pub(e), EMPTY, ct))
  {
    hide EncryptAndHash, MixedAndSealed, MixKey;
    SealStep(MixKey(MixHash(hs.ss, Pub(e)), Dh(e, hs.re)), Dh(e, hs.rs), payload);
  }

  /** What a successful reading of message A says about the message. */
  lemma ReadA(hs: HandshakeState, m: HandshakeMessage)
    requires ReadMessageA(hs, m).1.Some?
    ensures m.staticEnc.Seal?
    ensures
      var (hs', pt) := ReadMessageA(hs, m);
      var re, key := AcceptedEphemeral(hs.re, m.ephemeral), m.staticEnc.pt;
      var rs := if Len(key) == KEY_LEN then key else hs.rs;
      var (ss2, ns) := MixedAndSealed(MixHash(hs.ss, re), Dh(hs.s.priv, re), key);
      && ns == m.staticEnc
      && MixedAndSealed(ss2, Dh(hs.s.priv, rs), pt.value) == (hs'.ss, m.ciphertext)
      && hs' == hs.(re := re, rs := rs, ss := hs'.ss)
  {
    hide MixKey, DecryptAndHash;
    var re := AcceptedEphemeral(hs.re, m.ephemeral);
    var ss1 := MixHash(hs.ss, re);
    OpenStep(ss1, Dh(hs.s.priv, re), m.staticEnc);
    var (ss2, key) := DecryptAndHash(MixKey(ss1, Dh(hs.s.priv, re)), m.staticEnc).value;
    var rs := if Len(key.value) == KEY_LEN then key.value else hs.rs;
    OpenStep(ss2, Dh(hs.s.priv, rs), m.ciphertext);
  }

  /** What a successful reading of message B says about the message. */
  lemma ReadB(hs: HandshakeState, m: HandshakeMessage)
    requires ReadMessageB(hs, m).1.Some?
    ensures
      var (ss3, pt) := ReadMessageB(hs, m);
      var re := AcceptedEphemeral(hs.re, m.ephemeral);
      var ss1 := MixKey(MixHash(hs.ss, re), Dh(hs.e.priv, re));
      MixedAndSealed(ss1, Dh(hs.s.priv, re), pt.value) == (ss3, m.ciphertext)
  {
    hide DecryptAndHash;
    var re := AcceptedEphemeral(hs.re, m.ephemeral);
    OpenStep(MixKey(MixHash(hs.ss, re), Dh(hs.e.priv, re)), Dh(hs.s.priv, re), m.ciphertext);
  }

  /** A message A whose sealed payload is the one an initiator wrote is that initiator's message. */
  lemma AgreementA(hsI: HandshakeState, e: Scalar, payload: Term, hsR: HandshakeState, m: HandshakeMessage)
    requires ReadMessageA(hsR, m).1.Some? && hsR.re == ZERO_KEY && Len(hsI.s.pub) == KEY_LEN
    requires m.ciphertext == WriteMessageA(hsI, e, payload).1.ciphertext
    ensures hsI.ss.h == hsR.ss.h && m == WriteMessageA(hsI, e, payload).1
    ensures ReadMessageA(hsR, m).1.value == payload
    ensures ReadMessageA(hsR, m).0.rs == hsI.s.pub
    ensures ReadMessageA(hsR, m).0.re == Pub(e)
  {
    hide WriteMessageA, ReadMessageA, Dh;
    WroteA(hsI, e, payload);
    ReadA(hsR, m);
  }

  /** The two ends of the handshake in the states in which it runs. */
  lemma AgreementB(
    hsI: HandshakeState, readB: HandshakeMessage, hsR: HandshakeState, eR: Scalar, payload: Term)
    requires ReadMessageB(hsI, readB).1.Some? && hsI.re == ZERO_KEY
    requires readB.ciphertext == WriteMessageB(hsR, eR, payload).1.ciphertext
    ensures ReadMessageB(hsI, readB).0 == WriteMessageB(hsR, eR, payload).0
    ensures ReadMessageB(hsI, readB).1.value == payload
    ensures readB.ephemeral == Pub(eR)
    ensures hsI.ss.h == hsR.ss.h && hsI.ss.ck == hsR.ss.ck
  {
    hide WriteMessageB, ReadMessageB, Dh;
    WroteB(hsR, eR, payload);
    ReadB(hsI, readB);
  }

  /**
   * Agreement. An initiator writes message A; a responder successfully reads some message A and
   * writes message B; the initiator successfully reads some message whose ciphertext is that of
   * message B. Then nothing was changed on the way, and both sides agree on everything.
   */
  lemma Agreement(
    prologueI: Term, sI: KeyPair, pin: Term, eI: Scalar, payloadA: Term,
    prologueR: Term, sR: KeyPair, readA: HandshakeMessage, eR: Scalar, payloadB: Term,
    readB: HandshakeMessage)
    requires Len(sI.pub) == KEY_LEN
    requires WriteHandshake(NewInitiator(prologueI, sI, pin), eI, payloadA).1.Success?
    requires ReadHandshake(NewResponder(prologueR, sR), readA).1.Success?
    requires WriteHandshake(ReadHandshake(NewResponder(prologueR, sR), readA).0, eR, payloadB).1.Success?
    requires readB.ciphertext ==
             WriteHandshake(ReadHandshake(NewResponder(prologueR, sR), readA).0, eR, payloadB).1.value.ciphertext
    requires ReadHandshake(WriteHandshake(NewInitiator(prologueI, sI, pin), eI, payloadA).0, readB).1.Success?
    ensures
      var (i1, msgA) := WriteHandshake(NewInitiator(prologueI, sI, pin), eI, payloadA);
      var (r1, gotA) := ReadHandshake(NewResponder(prologueR, sR), readA);
      var (r2, msgB) := WriteHandshake(r1, eR, payloadB);
      var (i2, gotB) := ReadHandshake(i1, readB);
      && prologueI == prologueR
      && pin == sR.pub
      && PeerStatic(r1) == sI.pub && r1.hs.re == Pub(eI)
      && readA == msgA.value
      && readB.ephemeral == msgB.value.ephemeral
      && gotA.value == payloadA && gotB.value == payloadB
      && i2.h == r2.h && i2.cs1 == r2.cs1 && i2.cs2 == r2.cs2
  {
    hide WriteMessageA, ReadMessageA, WriteMessageB, ReadMessageB, Dh, Len;
    var hsI, hsR := NewInitiator(prologueI, sI, pin).hs, NewResponder(prologueR, sR).hs;
    WroteA(hsI, eI, payloadA);
    ReadA(hsR, readA);
    var hsI1, hsR1 := WriteMessageA(hsI, eI, payloadA).0, ReadMessageA(hsR, readA).0;
    WroteB(hsR1, eR, payloadB);
    AgreementB(hsI1, readB, hsR1, eR, payloadB);
    AgreementA(hsI, eI, payloadA, hsR, readA);
  }

  const MAX_PAYLOAD := MAX_MESSAGE - TAG_LEN

  lemma DhCommutes(x: Scalar, y: Scalar)
    ensures Dh(x, Pub(y)) == Dh(y, Pub(x))
  {
  }

  /** A reader in the peer's state gets back what was sealed. */
  lemma Reopens(ss: SymmetricState, dh: Term, pt: Term)
    ensures
      var (ss', ct) := MixedAndSealed(ss, dh, pt);
      DecryptAndHash(MixKey(ss, dh), ct) == Success((ss', Some(pt)))
  {
  }

  /** A responder pinned by the initiator reads message A, in the initiator's own symmetric state. */
  lemma CompletenessA(hsI: HandshakeState, e: Scalar, payload: Term, hsR: HandshakeState)
    requires hsI.s.pub == Pub(hsI.s.priv) && hsR.s.pub == Pub(hsR.s.priv)
    requires hsI.rs == hsR.s.pub && hsI.ss == hsR.ss
    ensures
      var (hsI', m) := WriteMessageA(hsI, e, payload);
      ReadMessageA(hsR, m) == (hsR.(re := Pub(e), rs := hsI.s.pub, ss := hsI'.ss), Some(payload))
  {
    hide MixKey, DecryptAndHash, MixedAndSealed, WriteMessageA, Dh;
    WroteA(hsI, e, payload);
    DhCommutes(e, hsR.s.priv);
    DhCommutes(hsI.s.priv, hsR.s.priv);
    var ss1 := MixHash(hsI.ss, Pub(e));
    var (ss2, ns) := MixedAndSealed(ss1, Dh(e, hsI.rs), hsI.s.pub);
    SealedShape(ss1, Dh(e, hsI.rs), hsI.s.pub);
    Reopens(ss1, Dh(e, hsI.rs), hsI.s.pub);
    Reopens(ss2, Dh(hsI.s.priv, hsI.rs), payload);
  }

  lemma SealedShape(ss: SymmetricState, dh: Term, pt: Term)
    ensures MixedAndSealed(ss, dh, pt).1.Seal? && Len(MixedAndSealed(ss, dh, pt).1) == Len(pt) + TAG_LEN
  {
  }

  /** An initiator that has written message A reads the message B that answers it. */
  lemma CompletenessB(hsR: HandshakeState, e: Scalar, payload: Term, hsI: HandshakeState)
    requires hsI.s.pub == Pub(hsI.s.priv) && hsI.e == GeneratedPair(hsI.e.priv)
    requires hsR.re == hsI.e.pub && hsR.rs == hsI.s.pub && hsR.ss == hsI.ss
    ensures ReadMessageB(hsI, WriteMessageB(hsR, e, payload).1) == (WriteMessageB(hsR, e, payload).0, Some(payload))
  {
    hide DecryptAndHash, MixedAndSealed, WriteMessageB, Dh;
    WroteB(hsR, e, payload);
    DhCommutes(e, hsI.e.priv);
    DhCommutes(e, hsI.s.priv);
    Reopens(MixKey(MixHash(hsR.ss, Pub(e)), Dh(e, hsR.re)), Dh(e, hsR.rs), payload);
  }

  /** Message lengths: the tag makes the ciphertext 16 bytes longer than the payload, and the static blob 48. */
  lemma MessageLengths(s: SessionState, e: Scalar, payload: Term)
    requires s.mc < 2
    ensures WriteHandshake(s, e, payload).1.Success? <==> Len(payload) <= 65535
    ensures WriteHandshake(s, e, payload).1.Success? ==>
            var m := WriteHandshake(s, e, payload).1.value;
            && Len(m.ciphertext) == Len(payload) + 16
            && Len(m.ephemeral) == 32
            && Len(m.staticEnc) == if s.mc == 0 then Len(s.hs.s.pub) + 16 else 0
  {
    hide WriteMessageA, WriteMessageB;
    WroteA(s.hs, e, payload);
    WroteB(s.hs, e, payload);
  }

  /** The first message of an initiator always has the shape that the wire format demands, and the reply too. */
  lemma MessagesFitWire(
    prologue: Term, s: KeyPair, rs: Term, e: Scalar, payload: Term, r: SessionState, e': Scalar, reply: Term)
    requires Len(s.pub) == KEY_LEN && r.mc == 1
    requires WriteHandshake(NewInitiator(prologue, s, rs), e, payload).1.Success?
    requires WriteHandshake(r, e', reply).1.Success?
    ensures
      var a := WriteHandshake(NewInitiator(prologue, s, rs), e, payload).1.value;
      var b := WriteHandshake(r, e', reply).1.value;
      && Len(a.ephemeral) == Len(b.ephemeral) == Wire.EPHEMERAL_LEN
      && Len(a.staticEnc) == Wire.STATIC_LEN && Len(b.staticEnc) == 0
  {
    MessageLengths(NewInitiator(prologue, s, rs), e, payload);
    MessageLengths(r, e', reply);
    hide WriteHandshake;
  }

  /**
   * Completeness. With valid key pairs, equal prologues and the right pin, each written message is
   * read by the other side exactly when its payload leaves room for the tag; when both are, each
   * side gets the other's payload, the responder learns the initiator's key, and both end in the
   * same transport state.
   */
  lemma Completeness(
    prologue: Term, x: Scalar, y: Scalar, eI: Scalar, payloadA: Term, eR: Scalar, payloadB: Term)
    requires Len(payloadA) <= 65535 && Len(payloadB) <= 65535
    ensures
      var (i1, msgA) := WriteHandshake(NewInitiator(prologue, GeneratedPair(x), Pub(y)), eI, payloadA);
      && msgA.Success?
      && var (r1, gotA) := ReadHandshake(NewResponder(prologue, GeneratedPair(y)), msgA.value);
      && gotA == (if Len(payloadA) <= 65519 then Success(payloadA) else Failure(MessageTooLong))
      && (gotA.Success? ==>
        var (r2, msgB) := WriteHandshake(r1, eR, payloadB);
        && PeerStatic(r1) == Pub(x)
        && msgB.Success?
        && var (i2, gotB) := ReadHandshake(i1, msgB.value);
        && gotB == (if Len(payloadB) <= 65519 then Success(payloadB) else Failure(MessageTooLong))
        && (gotB.Success? ==>
          && HandshakeComplete(i2) && HandshakeComplete(r2)
          && i2.h == r2.h && i2.cs1 == r2.cs1 && i2.cs2 == r2.cs2
          && i2.cs1.n == 0 && i2.cs2.n == 0))
  {
    hide WriteMessageA, ReadMessageA, WriteMessageB, ReadMessageB;
    var i0, r0 := NewInitiator(prologue, GeneratedPair(x), Pub(y)), NewResponder(prologue, GeneratedPair(y));
    MessageLengths(i0, eI, payloadA);
    CompletenessA(i0.hs, eI, payloadA, r0.hs);
    WroteA(i0.hs, eI, payloadA);
    var (i1, msgA) := WriteHandshake(i0, eI, payloadA);
    var (r1, gotA) := ReadHandshake(r0, msgA.value);
    if gotA.Success? {
      MessageLengths(r1, eR, payloadB);
      CompletenessB(r1.hs, eR, payloadB, i1.hs);
    }
  }

  /* The whole handshake, written out */

  /** The protocol's name is hashed because it has more than 32 characters. */
  lemma ProtocolHash()
    ensures
      var name := "Noise_IK_25519_ChaChaPoly_BLAKE2s";
      |name| == 33 && exists b: seq<byte> ::
        PROTOCOL_HASH == Hash(Bytes(b), EMPTY) && |b| == 33 && forall i | 0 <= i < 33 :: b[i] == name[i] as int % 0x100
  {
    var name := "Noise_IK_25519_ChaChaPoly_BLAKE2s";
    AsciiIs(name);
    hide Ascii;
    assert PROTOCOL_HASH == Hash(Bytes(Ascii(name)), EMPTY);
  }

  lemma AsciiIs(s: string)
    ensures |Ascii(s)| == |s| && forall i | 0 <= i < |s| :: Ascii(s)[i] == s[i] as int % 0x100
  {
  }

  /** The transcript and the chaining keys of a handshake, step by step, and both messages. */
  datatype Script = Script(
    prologue: Term, x: Scalar, y: Scalar, eI: Scalar, eR: Scalar, payloadA: Term, payloadB: Term)
  {
    // e, es, s, ss
    function H0(): Term { Hash(Hash(PROTOCOL_HASH, prologue), Pub(y)) }
    function H1(): Term { Hash(H0(), Pub(eI)) }
    function Ck1(): Term { Kdf1(PROTOCOL_HASH, Dh(eI, Pub(y))) }
    function SealedStatic(): Term { Seal(Kdf2(PROTOCOL_HASH, Dh(eI, Pub(y))), 0, H1(), Pub(x)) }
    function H2(): Term { Hash(H1(), SealedStatic()) }
    function Ck2(): Term { Kdf1(Ck1(), Dh(x, Pub(y))) }
    function SealedA(): Term { Seal(Kdf2(Ck1(), Dh(x, Pub(y))), 0, H2(), payloadA) }
    function H3(): Term { Hash(H2(), SealedA()) }

    // e, ee, se
    function H4(): Term { Hash(H3(), Pub(eR)) }
    function Ck3(): Term { Kdf1(Ck2(), Dh(eI, Pub(eR))) }
    function Ck4(): Term { Kdf1(Ck3(), Dh(x, Pub(eR))) }
    function SealedB(): Term { Seal(Kdf2(Ck3(), Dh(x, Pub(eR))), 0, H4(), payloadB) }
    function H5(): Term { Hash(H4(), SealedB()) }
  }

  /**
   * Every honest handshake ends in these messages, this transcript and these transport keys: prologue
   * before responder key, ephemeral before static, and the four exchanges in the order es, ss, ee, se.
   */
  lemma Transcript(c: Script)
    requires Len(c.payloadA) <= 65519 && Len(c.payloadB) <= 65519
    ensures
      var (i1, msgA) := WriteHandshake(NewInitiator(c.prologue, GeneratedPair(c.x), Pub(c.y)), c.eI, c.payloadA);
      && msgA == Success(HandshakeMessage(Pub(c.eI), c.SealedStatic(), c.SealedA()))
      && var r1 := ReadHandshake(NewResponder(c.prologue, GeneratedPair(c.y)), msgA.value).0;
      && var (r2, msgB) := WriteHandshake(r1, c.eR, c.payloadB);
      && msgB == Success(HandshakeMessage(Pub(c.eR), EMPTY, c.SealedB()))
      && var i2 := ReadHandshake(i1, msgB.value).0;
      && i2.h == r2.h == c.H5()
      && i2.cs1 == r2.cs1 == CipherState(Kdf1(c.Ck4(), EMPTY), 0)
      && i2.cs2 == r2.cs2 == CipherState(Kdf2(c.Ck4(), EMPTY), 0)
  {
    hide WriteMessageA, ReadMessageA, WriteMessageB, ReadMessageB, Dh;
    Completeness(c.prologue, c.x, c.y, c.eI, c.payloadA, c.eR, c.payloadB);
    var i0, r0 := NewInitiator(c.prologue, GeneratedPair(c.x), Pub(c.y)), NewResponder(c.prologue, GeneratedPair(c.y));
    WroteA(i0.hs, c.eI, c.payloadA);
    CompletenessA(i0.hs, c.eI, c.payloadA, r0.hs);
    var r1 := ReadMessageA(r0.hs, WriteMessageA(i0.hs, c.eI, c.payloadA).1).0;
    WroteB(r1, c.eR, c.payloadB);
    DhCommutes(c.eI, c.eR);
    DhCommutes(c.x, c.eR);
  }

  /** Every handshake call that is not refused counts as a message, also a reading that fails. */
  lemma EveryMessageCounts(s: SessionState, e: Scalar, payload: Term, m: HandshakeMessage)
    requires s.mc <= 2
    ensures WriteHandshake(s, e, payload).0.mc == if s.mc < 2 && Len(payload) <= 65535 then s.mc + 1 else s.mc
    ensures ReadHandshake(s, m).0.mc == if s.mc < 2 && Len(m.ciphertext) <= 65535 then s.mc + 1 else s.mc
    ensures ReadHandshake(s, m).1 == Failure(HandshakeDone) <==> s.mc == 2
    ensures ReadHandshake(s, m).1 == Failure(MessageTooLong) <==> s.mc < 2 && Len(m.ciphertext) > 65535
    ensures WriteHandshake(s, e, payload).1 == Failure(HandshakeDone) <==> s.mc == 2
    ensures WriteHandshake(s, e, payload).1 == Failure(MessageTooLong) <==> s.mc < 2 && Len(payload) > 65535
  {
    hide WriteMessageA, ReadMessageA, WriteMessageB, ReadMessageB;
  }

  /** A new responder takes over the ephemeral key of message A unless it is one of the refused points. */
  lemma EphemeralIsChecked(prologue: Term, s: KeyPair, m: HandshakeMessage)
    ensures
      var r := ReadHandshake(NewResponder(prologue, s), m).0;
      r.hs.re == if Forbidden(m.ephemeral) || Len(m.ciphertext) > 65535 then ZERO_KEY else m.ephemeral
  {
    hide Forbidden, DecryptAndHash, MixKey, Len;
  }
}
