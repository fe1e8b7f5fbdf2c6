/**
 * The Noise IK state machine on values: sections 5.1 to 5.3 and 7.5 of the Noise Protocol
 * Framework, revision 34, as noise_ik.go and api.go carry them out. Each function maps the state
 * before a call to the state after it and the call's result. Key generation takes the fresh
 * private key as an argument.
 */
module NoiseIK {
  import opened Prelude
  import opened Crypto
  import opened ReplayWindow

  datatype Error = HandshakeDone | AEADFailure | NotReady | MessageTooLong | NonceExhausted

  datatype CipherState = CipherState(k: Term, n: uint64)

  datatype SymmetricState = SymmetricState(cs: CipherState, ck: Term, h: Term)

  datatype KeyPair = KeyPair(pub: Term, priv: Scalar)

  datatype HandshakeState = HandshakeState(ss: SymmetricState, s: KeyPair, e: KeyPair, rs: Term, re: Term)

  datatype HandshakeMessage = HandshakeMessage(ephemeral: Term, staticEnc: Term, ciphertext: Term)

  datatype TransportMessage = TransportMessage(nonce: uint64, ciphertext: Term)

  const MAX_MESSAGE := 65535

  function Ascii(s: string): seq<byte> {
    seq(|s|, i requires 0 <= i < |s| => (s[i] as int) % 0x100)
  }

  /** The protocol name has 33 characters, one too many to be its own hash. */
  const PROTOCOL_HASH: Term := Hash(Bytes(Ascii("Noise_IK_25519_ChaChaPoly_BLAKE2s")), EMPTY)

  const ZERO_CIPHER := CipherState(ZERO_KEY, 0)
  const ZERO_PAIR := KeyPair(ZERO_KEY, 0)
  const ZERO_HANDSHAKE :=
    HandshakeState(SymmetricState(ZERO_CIPHER, ZERO_KEY, ZERO_KEY), ZERO_PAIR, ZERO_PAIR, ZERO_KEY, ZERO_KEY)

  function GeneratedPair(e: Scalar): KeyPair {
    KeyPair(Pub(e), e)
  }

  /* CipherState */

  predicate HasKey(cs: CipherState) {
    cs.k != ZERO_KEY
  }

  function EncryptWithAd(cs: CipherState, ad: Term, pt: Term): Result<(CipherState, Term), Error> {
    if cs.n == MAX_UINT64 then Failure(NonceExhausted)
    else Success((cs.(n := cs.n + 1), AeadSeal(cs.k, cs.n, ad, pt)))
  }

  /** The nonce advances only when the ciphertext is authentic; None is an authentication failure. */
  function DecryptWithAd(cs: CipherState, ad: Term, ct: Term): Result<(CipherState, Option<Term>), Error> {
    if cs.n == MAX_UINT64 then Failure(NonceExhausted)
    else match AeadOpen(cs.k, cs.n, ad, ct)
      case Some(pt) => Success((cs.(n := cs.n + 1), Some(pt)))
      case None => Success((cs, None))
  }

  /* SymmetricState */

  function InitializeSymmetric(): SymmetricState {
    SymmetricState(ZERO_CIPHER, PROTOCOL_HASH, PROTOCOL_HASH)
  }

  function MixKey(ss: SymmetricState, ikm: Term): SymmetricState {
    ss.(cs := CipherState(Kdf2(ss.ck, ikm), 0), ck := Kdf1(ss.ck, ikm))
  }

  function MixHash(ss: SymmetricState, data: Term): SymmetricState {
    ss.(h := Hash(ss.h, data))
  }

  function EncryptAndHash(ss: SymmetricState, pt: Term): Result<(SymmetricState, Term), Error> {
    if HasKey(ss.cs) then
      var (cs, ct) :- EncryptWithAd(ss.cs, ss.h, pt);
      Success((MixHash(ss.(cs := cs), ct), ct))
    else
      Success((MixHash(ss, pt), pt))
  }

  /** The ciphertext is mixed in whether or not it is authentic. */
  function DecryptAndHash(ss: SymmetricState, ct: Term): Result<(SymmetricState, Option<Term>), Error> {
    if HasKey(ss.cs) then
      var (cs, pt) :- DecryptWithAd(ss.cs, ss.h, ct);
      Success((MixHash(ss.(cs := cs), ct), pt))
    else
      Success((MixHash(ss, ct), Some(ct)))
  }

  function Split(ss: SymmetricState): (CipherState, CipherState) {
    (CipherState(Kdf1(ss.ck, EMPTY), 0), CipherState(Kdf2(ss.ck, EMPTY), 0))
  }

  /* HandshakeState */

  function InitializeInitiator(prologue: Term, s: KeyPair, rs: Term): HandshakeState {
    var ss := MixHash(MixHash(InitializeSymmetric(), prologue), rs);
    HandshakeState(ss, s, ZERO_PAIR, rs, ZERO_KEY)
  }

  function InitializeResponder(prologue: Term, s: KeyPair): HandshakeState {
    var ss := MixHash(MixHash(InitializeSymmetric(), prologue), s.pub);
    HandshakeState(ss, s, ZERO_PAIR, ZERO_KEY, ZERO_KEY)
  }

  /*
   * Every encryption below follows a MixKey, which sets the nonce to 0, so the nonce is never
   * exhausted and taking the value of the result is well defined.
   */

  /** -> e, es, s, ss */
  function WriteMessageA(hs: HandshakeState, e: Scalar, payload: Term): (HandshakeState, HandshakeMessage)
  {
    var ss1 := MixKey(MixHash(hs.ss, Pub(e)), Dh(e, hs.rs));
    var (ss2, ns) := EncryptAndHash(ss1, hs.s.pub).value;
    var ss3 := MixKey(ss2, Dh(hs.s.priv, hs.rs));
    var (ss4, ct) := EncryptAndHash(ss3, payload).value;
    (hs.(e := GeneratedPair(e), ss := ss4), HandshakeMessage(Pub(e), ns, ct))
  }

  /** <- e, ee, se */
  function WriteMessageB(hs: HandshakeState, e: Scalar, payload: Term): (SymmetricState, HandshakeMessage)
  {
    var ss1 := MixKey(MixHash(hs.ss, Pub(e)), Dh(e, hs.re));
    var ss2 := MixKey(ss1, Dh(e, hs.rs));
    var (ss3, ct) := EncryptAndHash(ss2, payload).value;
    (ss3, HandshakeMessage(Pub(e), EMPTY, ct))
  }

  function AcceptedEphemeral(re: Term, ne: Term): Term {
    if ValidPublicKey(ne) then ne else re
  }

  /**
   * A rejected static key leaves `rs` as it was and the reading goes on, so that both checks are
   * always made. The third test looks at the encrypted key, not at the key.
   */
  function ReadMessageA(hs: HandshakeState, m: HandshakeMessage): (HandshakeState, Option<Term>)
  {
    var re := AcceptedEphemeral(hs.re, m.ephemeral);
    var ss1 := MixKey(MixHash(hs.ss, re), Dh(hs.s.priv, re));
    var (ss2, ns) := DecryptAndHash(ss1, m.staticEnc).value;
    var rs := if ns.Some? && Len(ns.value) == KEY_LEN && ValidPublicKey(m.staticEnc) then ns.value else hs.rs;
    var ss3 := MixKey(ss2, Dh(hs.s.priv, rs));
    var (ss4, pt) := DecryptAndHash(ss3, m.ciphertext).value;
    (hs.(re := re, rs := rs, ss := ss4), if ns.Some? then pt else None)
  }

  function ReadMessageB(hs: HandshakeState, m: HandshakeMessage): (SymmetricState, Option<Term>)
  {
    var re := AcceptedEphemeral(hs.re, m.ephemeral);
    var ss1 := MixKey(MixHash(hs.ss, re), Dh(hs.e.priv, re));
    var ss2 := MixKey(ss1, Dh(hs.s.priv, re));
    DecryptAndHash(ss2, m.ciphertext).value
  }

  /* Session */

  datatype SessionState = SessionState(
    i: bool, mc: nat, hs: HandshakeState, h: Term, cs1: CipherState, cs2: CipherState, rx: Receiver)

  function NewInitiator(prologue: Term, s: KeyPair, rs: Term): SessionState {
    SessionState(true, 0, InitializeInitiator(prologue, s, rs), ZERO_KEY, ZERO_CIPHER, ZERO_CIPHER, NEW_RECEIVER)
  }

  function NewResponder(prologue: Term, s: KeyPair): SessionState {
    SessionState(false, 0, InitializeResponder(prologue, s), ZERO_KEY, ZERO_CIPHER, ZERO_CIPHER, NEW_RECEIVER)
  }

  function PeerStatic(s: SessionState): Term {
    s.hs.rs
  }

  predicate HandshakeComplete(s: SessionState) {
    s.mc >= 2
  }

  /** The state after the second handshake message: transport keys derived, handshake state wiped. */
  function Finished(s: SessionState, ss: SymmetricState): SessionState {
    var (cs1, cs2) := Split(ss);
    s.(mc := 2, hs := ZERO_HANDSHAKE, h := ss.h, cs1 := cs1, cs2 := cs2)
  }

  function WriteHandshake(s: SessionState, e: Scalar, payload: Term): (SessionState, Result<HandshakeMessage, Error>) {
    if s.mc >= 2 then (s, Failure(HandshakeDone))
    else if Len(payload) > MAX_MESSAGE then (s, Failure(MessageTooLong))
    else if s.mc == 0 then
      var (hs, m) := WriteMessageA(s.hs, e, payload);
      (s.(hs := hs, mc := 1), Success(m))
    else
      var (ss, m) := WriteMessageB(s.hs, e, payload);
      (Finished(s, ss), Success(m))
  }

  /** A message that fails authentication still counts as read: `mc` advances. */
  function ReadHandshake(s: SessionState, m: HandshakeMessage): (SessionState, Result<Term, Error>) {
    if s.mc >= 2 then (s, Failure(HandshakeDone))
    else if Len(m.ciphertext) > MAX_MESSAGE then (s, Failure(MessageTooLong))
    else if s.mc == 0 then
      var (hs, pt) := ReadMessageA(s.hs, m);
      (s.(hs := hs, mc := 1), Authentic(pt))
    else
      var (ss, pt) := ReadMessageB(s.hs, m);
      (Finished(s, ss), Authentic(pt))
  }

  function Authentic(pt: Option<Term>): Result<Term, Error> {
    match pt
    case Some(p) => Success(p)
    case None => Failure(AEADFailure)
  }

  function Tx(s: SessionState): CipherState {
    if s.i then s.cs1 else s.cs2
  }

  function Rx(s: SessionState): CipherState {
    if s.i then s.cs2 else s.cs1
  }

  function EncryptTransport(s: SessionState, pt: Term): (SessionState, Result<TransportMessage, Error>) {
    if !HandshakeComplete(s) then (s, Failure(NotReady))
    else if Tx(s).n == MAX_UINT64 then (s, Failure(NonceExhausted))
    else
      var cs := Tx(s);
      var cs' := cs.(n := cs.n + 1);
      (if s.i then s.(cs1 := cs') else s.(cs2 := cs'),
       Success(TransportMessage(cs.n, AeadSeal(cs.k, cs.n, EMPTY, pt))))
  }

  function DecryptTransport(s: SessionState, m: TransportMessage): (SessionState, Result<Term, Error>) {
    if !HandshakeComplete(s) then (s, Failure(NotReady))
    else
      var plain := AeadOpen(Rx(s).k, m.nonce, EMPTY, m.ciphertext);
      (s.(rx := Receive(s.rx, m.nonce, plain.Some?)),
       if Fresh(s.rx, m.nonce) then Authentic(plain) else Failure(AEADFailure))
  }
}
