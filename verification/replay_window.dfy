/**
 * The anti-replay window of api.go. A receiver is a plain value: the largest nonce presented to it
 * and the set of nonces it accepted. The code keeps the largest nonce and one 64-bit word instead;
 * `Represents` ties the two together, and the `Window` lemmas show that each word operation of the
 * code carries out the corresponding step of the plain receiver.
 */
module ReplayWindow {
  import opened Prelude

  const WINDOW := 64

  /** `max` is meaningful once `any` is set: some nonce has been presented. */
  datatype Receiver = Receiver(any: bool, max: uint64, accepted: set<uint64>)

  const NEW_RECEIVER := Receiver(false, 0, {})

  predicate Fresh(r: Receiver, n: uint64) {
    !r.any || n > r.max || (r.max - n < WINDOW && n !in r.accepted)
  }

  /** Every presented nonce counts for the maximum, also one whose frame proves to be forged. */
  function Receive(r: Receiver, n: uint64, authentic: bool): Receiver {
    Receiver(
      true,
      if !r.any || n > r.max then n else r.max,
      if Fresh(r, n) && authentic then r.accepted + {n} else r.accepted)
  }

  /** Takes back the acceptance of a nonce that is still inside the window. */
  function Withdraw(r: Receiver, n: uint64): Receiver {
    if r.any && n <= r.max < n + WINDOW then r.(accepted := r.accepted - {n}) else r
  }

  /** Accepting first and withdrawing on a forgery leaves no trace but the maximum. */
  lemma WithdrawUndoes(r: Receiver, n: uint64)
    requires Sound(r) && Fresh(r, n)
    ensures Withdraw(Receive(r, n, true), n) == Receive(r, n, false)
  {
    assert n !in r.accepted;
    assert r.accepted + {n} - {n} == r.accepted;
  }

  predicate Sound(r: Receiver) {
    && (!r.any ==> r.accepted == {})
    && forall n | n in r.accepted :: n <= r.max
  }

  /* The word. Offsets are bit positions; At and Dist convert to and from integers. */

  type Word = bv64
  type Offset = d: bv7 | d < 64

  function At(k: nat): Offset
    requires k < WINDOW
  {
    k as bv7
  }

  function Dist(d: Offset): nat {
    d as int
  }

  function Bit(w: Word, d: Offset): Word {
    (w >> d) & 1
  }

  function Shl(w: Word, s: Offset): Word {
    w << s
  }

  function SetLow(w: Word): Word {
    w | 1
  }

  function SetBit(w: Word, e: Offset): Word {
    w | (1 << e)
  }

  function ClearBit(w: Word, e: Offset): Word {
    w & !(1 << e)
  }

  predicate TestBit(w: Word, e: Offset) {
    w & (1 << e) != 0
  }

  predicate Marked(w: Word, d: nat)
    requires d < WINDOW
  {
    Bit(w, At(d)) == 1
  }

  lemma ShlRaw(w: Word, s: Offset, e: Offset)
    requires s < 64 - e
    ensures ((w << s) >> (s + e)) & 1 == (w >> e) & 1
  {
  }

  lemma ShlMoves(w: Word, s: Offset, e: Offset)
    requires s < 64 - e
    ensures s + e < 64 && Bit(Shl(w, s), s + e) == Bit(w, e)
  {
    calc {
      Bit(Shl(w, s), s + e);
      ((w << s) >> (s + e)) & 1;
      { ShlRaw(w, s, e); }
      (w >> e) & 1;
      Bit(w, e);
    }
  }

  lemma ShlKeeps(w: Word, s: Offset, d: Offset)
    requires s <= d
    ensures Bit(Shl(w, s), d) == Bit(w, d - s)
  {
    hide Bit, Shl;
    ShlMoves(w, s, d - s);
    assert s + (d - s) == d;
  }

  lemma ShlClears(w: Word, s: Offset, d: Offset)
    requires d < s
    ensures Bit(Shl(w, s), d) == 0
  {
  }

  lemma OrOne(w: Word, d: Offset)
    ensures Bit(SetLow(w), d) == if d == 0 then 1 else Bit(w, d)
  {
  }

  lemma BitSet(w: Word, e: Offset, d: Offset)
    ensures Bit(SetBit(w, e), d) == if d == e then 1 else Bit(w, d)
  {
    if d == e {
    } else {
      assert (((1 as Word) << e) >> d) & 1 == 0;
    }
  }

  lemma BitCleared(w: Word, e: Offset, d: Offset)
    ensures Bit(ClearBit(w, e), d) == if d == e then 0 else Bit(w, d)
  {
  }

  lemma BitTested(w: Word, e: Offset)
    ensures TestBit(w, e) <==> Bit(w, e) == 1
  {
  }

  lemma DistZero()
    ensures Dist(0) == 0
  {
  }

  lemma DistNext(d: Offset)
    requires d < 63
    ensures Dist(d + 1) == Dist(d) + 1
  {
  }

  lemma AtDist(d: Offset)
    ensures Dist(d) < WINDOW && At(Dist(d)) == d
  {
  }

  lemma DistOrder(d: Offset, s: Offset)
    ensures s <= d <==> Dist(s) <= Dist(d)
  {
  }

  lemma DistLast()
    ensures Dist(63) == 63
  {
  }

  /** Every distance inside the window is that of an offset. */
  lemma {:induction false} Reaches(k: nat) returns (d: Offset)
    requires k < WINDOW
    ensures Dist(d) == k
  {
    hide Dist;
    if k == 0 {
      DistZero();
      d := 0;
    } else {
      var before := Reaches(k - 1);
      DistLast();
      DistOrder(before, 63);
      assert before != 63;
      DistNext(before);
      d := before + 1;
    }
  }

  lemma DistAt(k: nat)
    requires k < WINDOW
    ensures Dist(At(k)) == k
  {
    hide Dist, At;
    var d := Reaches(k);
    AtDist(d);
  }

  lemma {:induction false} DistSub(d: Offset, s: Offset)
    requires s <= d
    ensures Dist(d - s) == Dist(d) - Dist(s)
    decreases s
  {
    hide Dist;
    if s == 0 {
      DistZero();
      assert d - s == d;
    } else {
      DistNext(d - 1);
      DistNext(s - 1);
      assert d - 1 + 1 == d && s - 1 + 1 == s && (d - 1) - (s - 1) == d - s;
      DistSub(d - 1, s - 1);
    }
  }

  lemma AtZero()
    ensures At(0) == 0 && Dist(0) == 0
  {
  }

  lemma AtSub(d: nat, s: nat)
    requires s <= d < WINDOW
    ensures At(s) <= At(d) && At(d - s) == At(d) - At(s)
  {
    hide *;
    DistAt(d);
    DistAt(s);
    DistOrder(At(d), At(s));
    DistSub(At(d), At(s));
    AtDist(At(d) - At(s));
  }

  lemma AtOrder(d: nat, s: nat)
    requires d < WINDOW && s < WINDOW
    ensures At(s) <= At(d) <==> s <= d
    ensures At(s) == At(d) <==> s == d
  {
    hide *;
    DistAt(d);
    DistAt(s);
    DistOrder(At(d), At(s));
  }

  lemma MarkedAfterShift(w: Word, s: nat, d: nat)
    requires 0 < s < WINDOW && d < WINDOW
    ensures Marked(SetLow(Shl(w, At(s))), d) <==> d == 0 || (s <= d && Marked(w, d - s))
  {
    hide Bit, Shl, SetLow, At, Dist;
    AtZero();
    AtOrder(d, 0);
    AtOrder(s, 0);
    AtOrder(d, s);
    OrOne(Shl(w, At(s)), At(d));
    if s <= d {
      AtSub(d, s);
      ShlKeeps(w, At(s), At(d));
    } else {
      ShlClears(w, At(s), At(d));
    }
  }

  lemma MarkedAfterSet(w: Word, e: nat, d: nat)
    requires e < WINDOW && d < WINDOW
    ensures Marked(SetBit(w, At(e)), d) <==> d == e || Marked(w, d)
  {
    hide Bit, SetBit, At, Dist;
    AtOrder(d, e);
    BitSet(w, At(e), At(d));
  }

  lemma MarkedAfterClear(w: Word, e: nat, d: nat)
    requires e < WINDOW && d < WINDOW
    ensures Marked(ClearBit(w, At(e)), d) <==> d != e && Marked(w, d)
  {
    hide Bit, ClearBit, At, Dist;
    AtOrder(d, e);
    BitCleared(w, At(e), At(d));
  }

  lemma MarkedOne(d: nat)
    requires d < WINDOW
    ensures Marked(1, d) <==> d == 0
  {
    DistAt(d);
    OrOne(0, At(d));
  }

  /* Refinement */

  /** Bit d is set exactly when nonce last - d was accepted. */
  ghost predicate Represents(any: bool, last: uint64, w: Word, r: Receiver) {
    && Sound(r)
    && any == r.any
    && (any ==> last == r.max && forall d: nat | d < WINDOW :: Marked(w, d) <==> last - d in r.accepted)
  }

  /** The first frame. */
  lemma WindowOpens(r: Receiver, n: uint64)
    requires Sound(r) && !r.any
    ensures Represents(true, n, 1, Receive(r, n, true))
  {
    hide Marked;
    forall d: nat | d < WINDOW ensures Marked(1, d) <==> n - d in {n} {
      MarkedOne(d);
    }
  }

  /** A frame ahead of the window by less than its width. */
  lemma WindowSlides(last: uint64, w: Word, r: Receiver, n: uint64)
    requires r.any && Represents(true, last, w, r) && last < n < last + WINDOW
    ensures Represents(true, n, SetLow(Shl(w, At(n - last))), Receive(r, n, true))
  {
    hide Marked, Shl, SetLow, At;
    var w' := SetLow(Shl(w, At(n - last)));
    forall d: nat | d < WINDOW ensures Marked(w', d) <==> n - d in r.accepted + {n} {
      MarkedAfterShift(w, n - last, d);
      assert n - last <= d ==> last - (d - (n - last)) == n - d;
    }
  }

  /** A frame ahead of the window by its width or more. */
  lemma WindowJumps(last: uint64, w: Word, r: Receiver, n: uint64)
    requires r.any && Represents(true, last, w, r) && last + WINDOW <= n
    ensures Represents(true, n, 1, Receive(r, n, true))
  {
    hide Marked;
    forall d: nat | d < WINDOW ensures Marked(1, d) <==> n - d in r.accepted + {n} {
      MarkedOne(d);
    }
  }

  /** A frame inside the window that was not accepted before. */
  lemma WindowMarks(last: uint64, w: Word, r: Receiver, n: uint64)
    requires r.any && Represents(true, last, w, r) && n <= last < n + WINDOW && n !in r.accepted
    ensures Represents(true, last, SetBit(w, At(last - n)), Receive(r, n, true))
  {
    hide Marked, SetBit, At;
    var w' := SetBit(w, At(last - n));
    forall d: nat | d < WINDOW ensures Marked(w', d) <==> last - d in r.accepted + {n} {
      MarkedAfterSet(w, last - n, d);
    }
  }

  /** Withdrawing an acceptance clears one bit. */
  lemma WindowUnmarks(last: uint64, w: Word, r: Receiver, n: uint64)
    requires r.any && Represents(true, last, w, r) && n <= last < n + WINDOW
    ensures Represents(true, last, ClearBit(w, At(last - n)), Withdraw(r, n))
  {
    hide Marked, ClearBit, At;
    var w' := ClearBit(w, At(last - n));
    forall d: nat | d < WINDOW ensures Marked(w', d) <==> last - d in r.accepted - {n} {
      MarkedAfterClear(w, last - n, d);
    }
  }

  /** The code's test of the word decides acceptance for a nonce that is not ahead. */
  lemma WindowTests(last: uint64, w: Word, r: Receiver, n: uint64)
    requires r.any && Represents(true, last, w, r) && n <= last < n + WINDOW
    ensures TestBit(w, At(last - n)) <==> n in r.accepted
  {
    assert Marked(w, last - n) <==> last - (last - n) in r.accepted;
    hide At, Bit, TestBit;
    BitTested(w, At(last - n));
  }
}
