/**
 * The session object of api.go together with the handshake state it embeds. Every method updates
 * the fields in place and is proved against the value-level machine of `NoiseIK`; the 64-bit replay
 * window is proved against the plain set of accepted nonces.
 */
module NoiseSession {
  import opened Prelude
  import opened Crypto
  import opened ReplayWindow
  import opened NoiseIK

  class Session {
    const i: bool
    var mc: nat

    // Handshake state.
    var ss: SymmetricState
    var s: KeyPair
    var e: KeyPair
    var rs: Term
    var re: Term

    // Transport state.
    var h: Term
    var cs1: CipherState
    var cs2: CipherState

    // Replay window.
    var recvAny: bool
    var recvLast: uint64
    var recvWindow: Word
    ghost var accepted: set<uint64>

    ghost function Handshake(): HandshakeState
      reads this
    {
      HandshakeState(ss, s, e, rs, re)
    }

    ghost function Received(): Receiver
      reads this
    {
      Receiver(recvAny, recvLast, accepted)
    }

    ghost function State(): SessionState
      reads this
    {
      SessionState(i, mc, Handshake(), h, cs1, cs2, Received())
    }

    /** The window word is exactly the set of accepted nonces that are not too old. */
    ghost predicate Valid()
      reads this
    {
      Represents(recvAny, recvLast, recvWindow, Received())
    }

    constructor Initiator(prologue: Term, s: KeyPair, rs: Term)
      ensures Valid() && State() == NewInitiator(prologue, s, rs)
    {
      i, mc := true, 0;
      ss, this.s, e, this.rs, re := InitializeSymmetric(), s, ZERO_PAIR, rs, ZERO_KEY;
      h, cs1, cs2 := ZERO_KEY, ZERO_CIPHER, ZERO_CIPHER;
      recvAny, recvLast, recvWindow, accepted := false, 0, 0, {};
      new;
      MixHash(prologue);
      MixHash(rs);
    }

    constructor Responder(prologue: Term, s: KeyPair)
      ensures Valid() && State() == NewResponder(prologue, s)
    {
      i, mc := false, 0;
      ss, this.s, e, rs, re := InitializeSymmetric(), s, ZERO_PAIR, ZERO_KEY, ZERO_KEY;
      h, cs1, cs2 := ZERO_KEY, ZERO_CIPHER, ZERO_CIPHER;
      recvAny, recvLast, recvWindow, accepted := false, 0, 0, {};
      new;
      MixHash(prologue);
      MixHash(s.pub);
    }

    /* Symmetric state */

    method MixKey(ikm: Term)
      modifies this`ss
      ensures ss == NoiseIK.MixKey(old(ss), ikm)
    {
      var ck, tempK := Kdf1(ss.ck, ikm), Kdf2(ss.ck, ikm);
      ss := ss.(cs := CipherState(tempK, 0));
      ss := ss.(ck := ck);
    }

    method MixHash(data: Term)
      modifies this`ss
      ensures ss == NoiseIK.MixHash(old(ss), data)
    {
      ss := ss.(h := Hash(ss.h, data));
    }

    /** On an exhausted nonce the state stays as it was. */
    method EncryptAndHash(pt: Term) returns (r: Result<Term, Error>)
      modifies this`ss
      ensures match NoiseIK.EncryptAndHash(old(ss), pt)
              case Success(p) => ss == p.0 && r == Success(p.1)
              case Failure(err) => ss == old(ss) && r == Failure(err)
    {
      var ct := pt;
      if HasKey(ss.cs) {
        if ss.cs.n == MAX_UINT64 {
          return Failure(NonceExhausted);
        }
        ct := AeadSeal(ss.cs.k, ss.cs.n, ss.h, pt);
        ss := ss.(cs := ss.cs.(n := ss.cs.n + 1));
      }
      MixHash(ct);
      return Success(ct);
    }

    /** On an exhausted nonce the state stays as it was; a forged ciphertext is mixed in. */
    method DecryptAndHash(ct: Term) returns (r: Result<Option<Term>, Error>)
      modifies this`ss
      ensures match NoiseIK.DecryptAndHash(old(ss), ct)
              case Success(p) => ss == p.0 && r == Success(p.1)
              case Failure(err) => ss == old(ss) && r == Failure(err)
    {
      var pt := Some(ct);
      if HasKey(ss.cs) {
        if ss.cs.n == MAX_UINT64 {
          return Failure(NonceExhausted);
        }
        pt := AeadOpen(ss.cs.k, ss.cs.n, ss.h, ct);
        if pt.Some? {
          ss := ss.(cs := ss.cs.(n := ss.cs.n + 1));
        }
      }
      MixHash(ct);
      return Success(pt);
    }

    /* Handshake messages */

    method WriteMessageA(generated: Scalar, payload: Term) returns (m: HandshakeMessage)
      modifies this`ss, this`e
      ensures (Handshake(), m) == NoiseIK.WriteMessageA(old(Handshake()), generated, payload)
    {
      e := GeneratedPair(generated);
      MixHash(e.pub);
      MixKey(Dh(e.priv, rs));
      var ns := EncryptAndHash(s.pub);
      MixKey(Dh(s.priv, rs));
      var ct := EncryptAndHash(payload);
      return HandshakeMessage(e.pub, ns.value, ct.value);
    }

    method WriteMessageB(generated: Scalar, payload: Term) returns (m: HandshakeMessage)
      modifies this`ss, this`e
      ensures (ss, m) == NoiseIK.WriteMessageB(old(Handshake()), generated, payload)
    {
      e := GeneratedPair(generated);
      MixHash(e.pub);
      MixKey(Dh(e.priv, re));
      MixKey(Dh(e.priv, rs));
      var ct := EncryptAndHash(payload);
      return HandshakeMessage(e.pub, EMPTY, ct.value);
    }

    method ReadMessageA(m: HandshakeMessage) returns (pt: Option<Term>)
      modifies this`ss, this`re, this`rs
      ensures (Handshake(), pt) == NoiseIK.ReadMessageA(old(Handshake()), m)
    {
      if ValidPublicKey(m.ephemeral) {
        re := m.ephemeral;
      }
      MixHash(re);
      MixKey(Dh(s.priv, re));
      var ns := DecryptAndHash(m.staticEnc);
      if ns.value.Some? && Len(ns.value.value) == KEY_LEN && ValidPublicKey(m.staticEnc) {
        rs := ns.value.value;
      }
      MixKey(Dh(s.priv, rs));
      var payload := DecryptAndHash(m.ciphertext);
      return if ns.value.Some? then payload.value else None;
    }

    method ReadMessageB(m: HandshakeMessage) returns (pt: Option<Term>)
      modifies this`ss, this`re
      ensures (ss, pt) == NoiseIK.ReadMessageB(old(Handshake()), m)
    {
      if ValidPublicKey(m.ephemeral) {
        re := m.ephemeral;
      }
      MixHash(re);
      MixKey(Dh(e.priv, re));
      MixKey(Dh(s.priv, re));
      var payload := DecryptAndHash(m.ciphertext);
      return payload.value;
    }

    /** Derives the transport keys and wipes the handshake state. */
    method Finish()
      modifies this`mc, this`ss, this`s, this`e, this`rs, this`re, this`h, this`cs1, this`cs2
      ensures State() == Finished(old(State()), old(ss))
    {
      h := ss.h;
      cs1 := CipherState(Kdf1(ss.ck, EMPTY), 0);
      cs2 := CipherState(Kdf2(ss.ck, EMPTY), 0);
      ss, s, e, rs, re := ZERO_HANDSHAKE.ss, ZERO_PAIR, ZERO_PAIR, ZERO_KEY, ZERO_KEY;
      mc := 2;
    }

    /* Session interface */

    method WriteHandshake(generated: Scalar, payload: Term) returns (r: Result<HandshakeMessage, Error>)
      requires Valid()
      modifies this
      ensures Valid() && (State(), r) == NoiseIK.WriteHandshake(old(State()), generated, payload)
    {
      hide NoiseIK.WriteMessageA, NoiseIK.WriteMessageB, Marked;
      if mc >= 2 {
        return Failure(HandshakeDone);
      }
      if Len(payload) > MAX_MESSAGE {
        return Failure(MessageTooLong);
      }
      if mc == 0 {
        var m := WriteMessageA(generated, payload);
        mc := mc + 1;
        return Success(m);
      } else {
        var m := WriteMessageB(generated, payload);
        Finish();
        return Success(m);
      }
    }

    method ReadHandshake(m: HandshakeMessage) returns (r: Result<Term, Error>)
      requires Valid()
      modifies this
      ensures Valid() && (State(), r) == NoiseIK.ReadHandshake(old(State()), m)
    {
      hide NoiseIK.ReadMessageA, NoiseIK.ReadMessageB, Marked;
      if mc >= 2 {
        return Failure(HandshakeDone);
      }
      if Len(m.ciphertext) > MAX_MESSAGE {
        return Failure(MessageTooLong);
      }
      var pt: Option<Term>;
      if mc == 0 {
        pt := ReadMessageA(m);
        mc := mc + 1;
      } else {
        pt := ReadMessageB(m);
        Finish();
      }
      return if pt.Some? then Success(pt.value) else Failure(AEADFailure);
    }

    method Encrypt(pt: Term) returns (r: Result<TransportMessage, Error>)
      requires Valid()
      modifies this`cs1, this`cs2
      ensures Valid() && (State(), r) == EncryptTransport(old(State()), pt)
    {
      if mc < 2 {
        return Failure(NotReady);
      }
      var cs := if i then cs1 else cs2;
      if cs.n == MAX_UINT64 {
        return Failure(NonceExhausted);
      }
      var ct := AeadSeal(cs.k, cs.n, EMPTY, pt);
      if i {
        cs1 := cs1.(n := cs1.n + 1);
      } else {
        cs2 := cs2.(n := cs2.n + 1);
      }
      return Success(TransportMessage(cs.n, ct));
    }

    method Decrypt(m: TransportMessage) returns (r: Result<Term, Error>)
      requires Valid()
      modifies this`recvAny, this`recvLast, this`recvWindow, this`accepted
      ensures Valid() && (State(), r) == DecryptTransport(old(State()), m)
    {
      if mc < 2 {
        return Failure(NotReady);
      }
      ghost var before := Received();
      var acceptable := ReplayCheck(m.nonce);
      if !acceptable {
        return Failure(AEADFailure);
      }
      var cs := if i then cs2 else cs1;
      var pt := AeadOpen(cs.k, m.nonce, EMPTY, m.ciphertext);
      if pt.None? {
        WithdrawUndoes(before, m.nonce);
        ReplayUndo(m.nonce);
        return Failure(AEADFailure);
      }
      return Success(pt.value);
    }

    /** Marks the nonce as accepted if it is fresh. */
    method ReplayCheck(n: uint64) returns (ok: bool)
      requires Valid()
      modifies this`recvAny, this`recvLast, this`recvWindow, this`accepted
      ensures Valid() && Received() == Receive(old(Received()), n, true)
      ensures ok == Fresh(old(Received()), n)
    {
      hide Marked, At, Shl, SetLow, SetBit, ClearBit, TestBit;
      ghost var before := Received();
      accepted := Receive(before, n, true).accepted;
      if !recvAny {
        recvAny, recvLast, recvWindow := true, n, 1;
        WindowOpens(before, n);
        return true;
      }
      if n > recvLast {
        var shift := n - recvLast;
        if shift >= 64 {
          WindowJumps(recvLast, recvWindow, before, n);
          recvWindow := 1;
        } else {
          WindowSlides(recvLast, recvWindow, before, n);
          recvWindow := SetLow(Shl(recvWindow, At(shift)));
        }
        recvLast := n;
        return true;
      }
      var diff := recvLast - n;
      if diff >= 64 {
        return false;
      }
      WindowTests(recvLast, recvWindow, before, n);
      if TestBit(recvWindow, At(diff)) {
        return false;
      }
      WindowMarks(recvLast, recvWindow, before, n);
      recvWindow := SetBit(recvWindow, At(diff));
      return true;
    }

    method ReplayUndo(n: uint64)
      requires Valid()
      modifies this`recvWindow, this`accepted
      ensures Valid() && Received() == Withdraw(old(Received()), n)
    {
      hide Marked, At, Shl, SetLow, SetBit, ClearBit, TestBit;
      if !recvAny {
        return;
      }
      if n > recvLast {
        return;
      }
      var diff := recvLast - n;
      if diff >= 64 {
        return;
      }
      WindowUnmarks(recvLast, recvWindow, Received(), n);
      accepted := accepted - {n};
      recvWindow := ClearBit(recvWindow, At(diff));
    }
  }
}
