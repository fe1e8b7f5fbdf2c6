/**
 * Whole lives of one session: any sequence of calls of its interface, in any order, including
 * misuse, failed reads and repeated calls.
 */
module SessionRuns {
  import opened Prelude
  import opened Crypto
  import opened ReplayWindow
  import opened NoiseIK
  import Handshake
  import ReceiverRuns

  datatype Call =
    | Write(e: Scalar, payload: Term)
    | Read(msg: HandshakeMessage)
    | Enc(pt: Term)
    | Dec(frame: TransportMessage)

  function Step(s: SessionState, c: Call): SessionState {
    match c
    case Write(e, payload) => WriteHandshake(s, e, payload).0
    case Read(m) => ReadHandshake(s, m).0
    case Enc(pt) => EncryptTransport(s, pt).0
    case Dec(m) => DecryptTransport(s, m).0
  }

  /** What a call seals and hands out. */
  function SealedBy(s: SessionState, c: Call): seq<Term> {
    match c
    case Write(e, payload) =>
      (match WriteHandshake(s, e, payload).1
       case Success(m) => if s.mc == 0 then [m.staticEnc, m.ciphertext] else [m.ciphertext]
       case Failure(_) => [])
    case Enc(pt) =>
      (match EncryptTransport(s, pt).1
       case Success(m) => [m.ciphertext]
       case Failure(_) => [])
    case _ => []
  }

  function Run(s: SessionState, calls: seq<Call>): SessionState {
    if calls == [] then s else Step(Run(s, calls[..|calls| - 1]), calls[|calls| - 1])
  }

  function Sealed(s: SessionState, calls: seq<Call>): seq<Term> {
    if calls == [] then []
    else
      var before := calls[..|calls| - 1];
      Sealed(s, before) + SealedBy(Run(s, before), calls[|calls| - 1])
  }

  ghost predicate Initial(s: SessionState) {
    exists prologue: Term, k: KeyPair, rs: Term :: s == NewInitiator(prologue, k, rs) || s == NewResponder(prologue, k)
  }

  /* The state machine */

  predicate Shape(s: SessionState) {
    && s.mc <= 2
    && (s.mc == 2 ==> s.hs == ZERO_HANDSHAKE && Separated(s))
    && (s.mc < 2 ==> s.rx == NEW_RECEIVER)
  }

  /** Both transport keys come from one chaining key, one by each half of the key derivation. */
  predicate Separated(s: SessionState) {
    s.cs1.k.Kdf1? && s.cs2.k == Kdf2(s.cs1.k.ck, EMPTY)
  }

  lemma ShapeStep(s: SessionState, c: Call)
    requires Shape(s)
    ensures Shape(Step(s, c))
    ensures s.mc == 2 ==>
            var t := Step(s, c);
            t.mc == 2 && t.i == s.i && t.h == s.h && t.cs1.k == s.cs1.k && t.cs2.k == s.cs2.k && Rx(t) == Rx(s)
  {
    hide WriteMessageA, WriteMessageB, ReadMessageA, ReadMessageB;
  }

  /** In every reachable state the handshake counter is at most 2, and at 2 every handshake secret is gone. */
  lemma {:induction false} RunShape(s: SessionState, calls: seq<Call>)
    requires Initial(s)
    ensures Shape(Run(s, calls))
  {
    if calls == [] {
    } else {
      RunShape(s, calls[..|calls| - 1]);
      ShapeStep(Run(s, calls[..|calls| - 1]), calls[|calls| - 1]);
    }
  }

  predicate IsZero(t: Term) {
    t.Bytes? && |t.b| == 32 && forall i | 0 <= i < 32 :: t.b[i] == 0
  }

  /** After the second message every private key is zero, and so is everything else of the handshake. */
  lemma NothingIsLeft(s: SessionState, calls: seq<Call>)
    requires Initial(s) && Run(s, calls).mc == 2
    ensures
      var hs := Run(s, calls).hs;
      && hs.s.priv == 0 && hs.e.priv == 0 && IsZero(hs.s.pub) && IsZero(hs.e.pub) && IsZero(hs.rs) && IsZero(hs.re)
      && IsZero(hs.ss.cs.k) && hs.ss.cs.n == 0 && IsZero(hs.ss.ck) && IsZero(hs.ss.h)
  {
    RunShape(s, calls);
    hide Run, Initial;
    assert IsZero(ZERO_KEY);
    hide IsZero;
  }

  /** Once complete, a session keeps its transport keys whatever is called on it. */
  lemma {:induction false} KeysNeverChange(s: SessionState, calls: seq<Call>, k: nat)
    requires Initial(s) && k <= |calls| && HandshakeComplete(Run(s, calls[..k]))
    ensures
      var a, b := Run(s, calls[..k]), Run(s, calls);
      && b.mc == 2 && b.hs == ZERO_HANDSHAKE && b.h == a.h
      && b.cs1.k == a.cs1.k && b.cs2.k == a.cs2.k && a.cs1.k != a.cs2.k
    decreases |calls|
  {
    RunShape(s, calls[..k]);
    if k == |calls| {
      assert calls[..k] == calls;
    } else {
      var before := calls[..|calls| - 1];
      assert before[..k] == calls[..k];
      KeysNeverChange(s, before, k);
      RunShape(s, before);
      ShapeStep(Run(s, before), calls[|calls| - 1]);
    }
  }

  /** Transport calls are refused exactly before the second message, handshake calls exactly after it. */
  lemma CallsByPhase(
    s: SessionState, calls: seq<Call>, e: Scalar, payload: Term, m: HandshakeMessage, pt: Term, t: TransportMessage)
    requires Initial(s)
    ensures
      var r := Run(s, calls);
      if r.mc == 2 then
        && WriteHandshake(r, e, payload) == (r, Failure(HandshakeDone))
        && ReadHandshake(r, m) == (r, Failure(HandshakeDone))
        && EncryptTransport(r, pt).1 != Failure(NotReady) && DecryptTransport(r, t).1 != Failure(NotReady)
      else
        && EncryptTransport(r, pt) == (r, Failure(NotReady)) && DecryptTransport(r, t) == (r, Failure(NotReady))
        && WriteHandshake(r, e, payload).1 != Failure(HandshakeDone)
        && ReadHandshake(r, m).1 != Failure(HandshakeDone)
  {
    RunPhase(s, calls);
    hide Run, WriteHandshake, ReadHandshake, EncryptTransport, DecryptTransport;
    var r := Run(s, calls);
    if r.mc == 2 {
      AfterHandshake(r, e, payload, m, pt, t);
    } else {
      BeforeTransport(r, e, payload, m, pt, t);
    }
  }

  lemma AfterHandshake(r: SessionState, e: Scalar, payload: Term, m: HandshakeMessage, pt: Term, t: TransportMessage)
    requires r.mc == 2
    ensures WriteHandshake(r, e, payload) == (r, Failure(HandshakeDone))
    ensures ReadHandshake(r, m) == (r, Failure(HandshakeDone))
    ensures EncryptTransport(r, pt).1 != Failure(NotReady) && DecryptTransport(r, t).1 != Failure(NotReady)
  {
    hide WriteMessageA, WriteMessageB, ReadMessageA, ReadMessageB, Receive, Fresh, AeadOpen, Len;
  }

  lemma BeforeTransport(r: SessionState, e: Scalar, payload: Term, m: HandshakeMessage, pt: Term, t: TransportMessage)
    requires r.mc < 2
    ensures EncryptTransport(r, pt) == (r, Failure(NotReady)) && DecryptTransport(r, t) == (r, Failure(NotReady))
    ensures WriteHandshake(r, e, payload).1 != Failure(HandshakeDone)
    ensures ReadHandshake(r, m).1 != Failure(HandshakeDone)
  {
    hide WriteMessageA, WriteMessageB, ReadMessageA, ReadMessageB, Receive, Fresh, AeadOpen, Len;
  }

  lemma RunPhase(s: SessionState, calls: seq<Call>)
    requires Initial(s)
    ensures Run(s, calls).mc <= 2
  {
    RunShape(s, calls);
  }

  /* Keys and nonces */

  predicate SamePair(t: Term, u: Term) {
    t.Seal? && u.Seal? && t.k == u.k && t.n == u.n
  }

  /** A handshake seal: nonce 0 under a key derived before the chaining key reached depth d. */
  predicate HandshakeSeal(t: Term, d: nat) {
    t.Seal? && t.n == 0 && t.k.Kdf2? && Depth(t.k.ck) < d
  }

  predicate TransportSeal(t: Term, cs: CipherState) {
    t.Seal? && t.k == cs.k && t.n < cs.n
  }

  /** Every key sealed under so far is out of reach of the keys that are still to come. */
  predicate Bounded(s: SessionState, out: seq<Term>) {
    if s.mc < 2 then forall t | t in out :: HandshakeSeal(t, Depth(s.hs.ss.ck))
    else Separated(s) && forall t | t in out :: HandshakeSeal(t, Depth(s.cs1.k.ck)) || TransportSeal(t, Tx(s))
  }

  predicate AllDistinct(out: seq<Term>) {
    forall i, j | 0 <= i < j < |out| :: !SamePair(out[i], out[j])
  }

  lemma AppendDistinct(out: seq<Term>, more: seq<Term>)
    requires AllDistinct(out) && AllDistinct(more)
    requires forall t, u | t in out && u in more :: !SamePair(t, u)
    ensures AllDistinct(out + more)
  {
    forall i, j | 0 <= i < j < |out + more| ensures !SamePair((out + more)[i], (out + more)[j]) {
      if i < |out| <= j {
        assert out[i] in out && more[j - |out|] in more;
      }
    }
  }

  lemma WriteBounded(s: SessionState, out: seq<Term>, e: Scalar, payload: Term)
    requires Shape(s) && Bounded(s, out) && AllDistinct(out)
    ensures
      var more := SealedBy(s, Write(e, payload));
      Bounded(Step(s, Write(e, payload)), out + more) && AllDistinct(out + more)
  {
    hide WriteMessageA, WriteMessageB;
    var c := Write(e, payload);
    var more := SealedBy(s, c);
    if s.mc < 2 && WriteHandshake(s, e, payload).1.Success? {
      var ck := s.hs.ss.ck;
      if s.mc == 0 {
        Handshake.WroteA(s.hs, e, payload);
        var ck1 := Kdf1(ck, Dh(e, s.hs.rs));
        assert Depth(ck1) == 1 + Depth(ck);
        assert Depth(Step(s, c).hs.ss.ck) == 1 + Depth(ck1);
        assert more[0].k.ck == ck && more[1].k.ck == ck1;
      } else {
        Handshake.WroteB(s.hs, e, payload);
        var ck1 := Kdf1(ck, Dh(e, s.hs.re));
        assert Depth(ck1) == 1 + Depth(ck);
        assert Depth(Step(s, c).cs1.k.ck) == 1 + Depth(ck1);
        assert more[0].k.ck == ck1;
      }
      AppendDistinct(out, more);
    } else {
      assert out + more == out;
    }
  }

  lemma ReadBounded(s: SessionState, out: seq<Term>, m: HandshakeMessage)
    requires Shape(s) && Bounded(s, out)
    ensures Bounded(Step(s, Read(m)), out)
  {
  }

  lemma EncBounded(s: SessionState, out: seq<Term>, pt: Term)
    requires Shape(s) && Bounded(s, out) && AllDistinct(out)
    ensures
      var more := SealedBy(s, Enc(pt));
      Bounded(Step(s, Enc(pt)), out + more) && AllDistinct(out + more)
  {
    var more := SealedBy(s, Enc(pt));
    if EncryptTransport(s, pt).1.Success? {
      AppendDistinct(out, more);
    } else {
      assert out + more == out;
    }
  }

  lemma DecBounded(s: SessionState, out: seq<Term>, frame: TransportMessage)
    requires Bounded(s, out)
    ensures Bounded(Step(s, Dec(frame)), out)
  {
    hide Receive, Fresh, AeadOpen;
  }

  lemma NothingSealed(s: SessionState)
    requires Initial(s)
    ensures Bounded(s, []) && AllDistinct([])
  {
    var prologue: Term, k: KeyPair, rs: Term :| s == NewInitiator(prologue, k, rs) || s == NewResponder(prologue, k);
    assert NewInitiator(prologue, k, rs).mc == 0 && NewResponder(prologue, k).mc == 0;
  }

  lemma {:induction false} RunBounded(s: SessionState, calls: seq<Call>)
    requires Initial(s)
    ensures Bounded(Run(s, calls), Sealed(s, calls)) && AllDistinct(Sealed(s, calls))
  {
    if calls == [] {
      NothingSealed(s);
    } else {
      hide Initial, Bounded, AllDistinct, Step, Shape;
      var before, c := calls[..|calls| - 1], calls[|calls| - 1];
      RunBounded(s, before);
      RunShape(s, before);
      var r, out := Run(s, before), Sealed(s, before);
      match c {
        case Write(e, payload) => WriteBounded(r, out, e, payload);
        case Read(m) => ReadBounded(r, out, m);
        case Enc(pt) => EncBounded(r, out, pt);
        case Dec(frame) => DecBounded(r, out, frame);
      }
      if !c.Write? && !c.Enc? {
        assert out + SealedBy(r, c) == out;
      }
    }
  }

  /**
   * Over the whole life of a session, handshake and transport, however it is driven, the largest nonce
   * is never used, and no two seals share a key and a nonce.
   */
  lemma NoKeyNonceReuse(s: SessionState, calls: seq<Call>)
    requires Initial(s)
    ensures
      var out := Sealed(s, calls);
      && (forall i | 0 <= i < |out| :: out[i].Seal? && out[i].n != MAX_UINT64)
      && forall i, j | 0 <= i < j < |out| :: out[i].k != out[j].k || out[i].n != out[j].n
  {
    RunBounded(s, calls);
    var out := Sealed(s, calls);
    forall i | 0 <= i < |out| ensures out[i].Seal? && out[i].n != MAX_UINT64 {
      assert out[i] in out;
    }
    forall i, j | 0 <= i < j < |out| ensures out[i].k != out[j].k || out[i].n != out[j].n {
      assert !SamePair(out[i], out[j]);
    }
  }

  /* The receiver over a run */

  /** The frames a run presents to the receiver, each with the verdict of the final receiving key. */
  function Arrivals(s: SessionState, calls: seq<Call>): seq<ReceiverRuns.Arrival> {
    if calls == [] then []
    else
      var before, c := calls[..|calls| - 1], calls[|calls| - 1];
      var r := Run(s, before);
      Arrivals(s, before) +
      if c.Dec? && HandshakeComplete(r)
      then [ReceiverRuns.Arrival(c.frame.nonce, AeadOpen(Rx(r).k, c.frame.nonce, EMPTY, c.frame.ciphertext).Some?)]
      else []
  }

  lemma RunExtended(arrivals: seq<ReceiverRuns.Arrival>, last: ReceiverRuns.Arrival)
    ensures ReceiverRuns.Run(arrivals + [last]) == Receive(ReceiverRuns.Run(arrivals), last.n, last.authentic)
  {
    assert (arrivals + [last])[..|arrivals|] == arrivals;
  }

  lemma ReceiverStep(s: SessionState, c: Call)
    ensures Step(s, c).rx ==
            if c.Dec? && HandshakeComplete(s)
            then Receive(s.rx, c.frame.nonce, AeadOpen(Rx(s).k, c.frame.nonce, EMPTY, c.frame.ciphertext).Some?)
            else s.rx
  {
    hide WriteMessageA, WriteMessageB, ReadMessageA, ReadMessageB, Receive, AeadOpen;
  }

  /** The session's receiver is the plain receiver run over exactly those frames. */
  lemma {:induction false} ReceiverOfRun(s: SessionState, calls: seq<Call>)
    requires Initial(s)
    ensures Run(s, calls).rx == ReceiverRuns.Run(Arrivals(s, calls))
  {
    hide Step, Receive, AeadOpen;
    if calls != [] {
      var before, c := calls[..|calls| - 1], calls[|calls| - 1];
      var r, sofar := Run(s, before), Arrivals(s, before);
      ReceiverOfRun(s, before);
      ReceiverStep(r, c);
      if c.Dec? && HandshakeComplete(r) {
        var authentic := AeadOpen(Rx(r).k, c.frame.nonce, EMPTY, c.frame.ciphertext).Some?;
        RunExtended(sofar, ReceiverRuns.Arrival(c.frame.nonce, authentic));
      } else {
        assert Arrivals(s, calls) == sofar;
      }
    } else {
      InitialReceiver(s);
    }
  }

  lemma InitialReceiver(s: SessionState)
    requires Initial(s)
    ensures s.rx == NEW_RECEIVER
  {
  }

  /** A complete session seals with the next nonce, in order, until only the last nonce is left. */
  lemma EncryptsExactly(s: SessionState, pt: Term)
    requires HandshakeComplete(s)
    ensures
      var (s', r) := EncryptTransport(s, pt);
      if Tx(s).n < 0xFFFF_FFFF_FFFF_FFFF then
        && r == Success(TransportMessage(Tx(s).n, Seal(Tx(s).k, Tx(s).n, EMPTY, pt)))
        && Tx(s') == CipherState(Tx(s).k, Tx(s).n + 1) && Rx(s') == Rx(s) && s'.rx == s.rx
      else
        s' == s && r == Failure(NonceExhausted)
  {
  }

  /**
   * In every reachable complete state a frame is delivered exactly when it is genuine, no nonce 64 or more
   * ahead was presented before it, and no frame with its nonce was accepted before it.
   */
  lemma DecryptsExactly(s: SessionState, calls: seq<Call>, frame: TransportMessage, pt: Term)
    requires Initial(s) && HandshakeComplete(Run(s, calls))
    ensures
      var r, arrivals := Run(s, calls), Arrivals(s, calls);
      var got := DecryptTransport(r, frame).1;
      && (got == Success(pt) <==>
        && frame.ciphertext == Seal(Rx(r).k, frame.nonce, EMPTY, pt)
        && (forall j: nat | j < |arrivals| :: arrivals[j].n < frame.nonce + 64)
        && !ReceiverRuns.Accepted(arrivals, frame.nonce))
      && (got.Failure? ==> got == Failure(AEADFailure))
  {
    ReceiverOfRun(s, calls);
    ReceiverRuns.FreshExactly(Arrivals(s, calls), frame.nonce);
    hide Run, Arrivals, ReceiverRuns.Run, ReceiverRuns.Accepted, Fresh, Receive;
  }

  /**
   * A genuine frame is delivered with its plaintext exactly when no nonce 64 or more ahead was
   * presented before it and no frame with its nonce was accepted before it.
   */
  lemma DeliveredExactly(s: SessionState, calls: seq<Call>, n: uint64, pt: Term)
    requires Initial(s) && HandshakeComplete(Run(s, calls))
    ensures
      var r, arrivals := Run(s, calls), Arrivals(s, calls);
      var frame := TransportMessage(n, AeadSeal(Rx(r).k, n, EMPTY, pt));
      DecryptTransport(r, frame).1 ==
        if (forall j: nat | j < |arrivals| :: arrivals[j].n < n + WINDOW) && !ReceiverRuns.Accepted(arrivals, n)
        then Success(pt) else Failure(AEADFailure)
  {
    ReceiverOfRun(s, calls);
    ReceiverRuns.FreshExactly(Arrivals(s, calls), n);
  }
}
