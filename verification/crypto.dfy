/**
 * Symbolic cryptography: a free term algebra in which a term stands for the byte string that the
 * primitive would compute. Two terms are equal only when they were built the same way, so
 * collision freedom of BLAKE2s and HKDF and the integrity of ChaCha20-Poly1305 are constructor
 * injectivity. X25519 is the one primitive with an equation of its own (see `Dh`).
 */
module Crypto {
  import opened Prelude

  /** An X25519 private key, read as a number up to clamping; 0 is the zeroized key. */
  type Scalar = nat

  datatype Term =
    | Bytes(b: seq<byte>)                               // literal bytes
    | Hash(a: Term, d: Term)                            // BLAKE2s(a || d), a of fixed length
    | Kdf1(ck: Term, ikm: Term)                         // first HKDF output
    | Kdf2(ck: Term, ikm: Term)                         // second HKDF output
    | Seal(k: Term, n: uint64, ad: Term, pt: Term)      // ChaCha20-Poly1305 with nonce n
    | Pub(x: Scalar)                                    // x * basepoint
    | Shared(lo: Scalar, hi: Scalar)                    // lo * hi * basepoint, lo <= hi
    | Point(x: Scalar, p: Term)                         // x * p for a p that is no known public key

  const TAG_LEN := 16
  const KEY_LEN := 32

  const EMPTY: Term := Bytes([])

  /** The all-zero 32 bytes: an unset key, and the output of X25519 on a low-order point. */
  const ZERO_KEY: Term := Bytes([
    0, 0, 0, 0, 0, 0, 0, 0, 0, 0, 0, 0, 0, 0, 0, 0,
    0, 0, 0, 0, 0, 0, 0, 0, 0, 0, 0, 0, 0, 0, 0, 0])

  /** The number of bytes a term stands for. */
  function Len(t: Term): nat {
    match t
    case Bytes(b) => |b|
    case Seal(_, _, _, pt) => Len(pt) + TAG_LEN
    case _ => KEY_LEN
  }

  /** The twelve public-key encodings that the code refuses to accept. */
  predicate Forbidden(t: Term) {
    t.Bytes? && |t.b| == KEY_LEN &&
    LeNat(t.b) in {
      0, 1,
      0xb8495f16056286fdb1329ceb8d09da6ac49ff1fae35616aeb8413b7c7aebe0,
      0x57119fd0dd4e22d8868e1c58c45c44045bef839c55b1d0b1248c50a3bc959c5f,
      0x7fffffffffffffffffffffffffffffffffffffffffffffffffffffffffffffec,
      0x7fffffffffffffffffffffffffffffffffffffffffffffffffffffffffffffed,
      0x7fffffffffffffffffffffffffffffffffffffffffffffffffffffffffffffee,
      0x80b8495f16056286fdb1329ceb8d09da6ac49ff1fae35616aeb8413b7c7aebcd,
      0xd7119fd0dd4e22d8868e1c58c45c44045bef839c55b1d0b1248c50a3bc959c4c,
      0xffffffffffffffffffffffffffffffffffffffffffffffffffffffffffffffd9,
      0xffffffffffffffffffffffffffffffffffffffffffffffffffffffffffffffda,
      0xffffffffffffffffffffffffffffffffffffffffffffffffffffffffffffffdb
    }
  }

  /** 2^255 - 19 and the coordinates of the points of order 8 on the curve and its twist. */
  const P := 0x8000000000000000000000000000000000000000000000000000000000000000 - 19
  const ORDER8A := 325606250916557431795983626356110631294008115727848805560023387167927233504
  const ORDER8B := 39382357235489614581723060781553021112529911719440698176882885853963445705823

  /** The refused encodings are exactly those of the coordinates 0, 1, -1 and the two of order 8, reduced or not. */
  lemma ForbiddenExactly(b: seq<byte>)
    requires |b| == 32
    ensures Forbidden(Bytes(b)) <==> LeNat(b) % P in {0, 1, P - 1, ORDER8A, ORDER8B}
  {
    LeNatThenBytes(b);
    KeyRange();
    hide LeNat, LeBytes, LeRange;
    ReducedThrice(LeNat(b));
  }

  lemma ReducedThrice(n: nat)
    requires n < 0x1_0000000000000000000000000000000000000000000000000000000000000000
    ensures n % P == if n < P then n else if n < 2 * P then n - P else n - 2 * P
  {
  }

  lemma KeyRange()
    ensures LeRange(32) == 0x1_0000000000000000000000000000000000000000000000000000000000000000
  {
    assert LeRange(8) == 0x1_0000_0000_0000_0000;
    assert LeRange(16) == 0x1_0000_0000_0000_0000_0000_0000_0000_0000;
    assert LeRange(24) == 0x1_0000_0000_0000_0000_0000_0000_0000_0000_0000_0000_0000_0000;
  }

  predicate ValidPublicKey(t: Term) {
    !Forbidden(t)
  }

  /** The encodings, top bit ignored, of the points whose multiples all encode as zero. */
  predicate LowOrder(t: Term) {
    t.Bytes? && |t.b| == KEY_LEN &&
    LeNat(t.b) % 0x8000000000000000000000000000000000000000000000000000000000000000 in {
      0, 1,
      0xb8495f16056286fdb1329ceb8d09da6ac49ff1fae35616aeb8413b7c7aebe0,
      0x57119fd0dd4e22d8868e1c58c45c44045bef839c55b1d0b1248c50a3bc959c5f,
      0x7fffffffffffffffffffffffffffffffffffffffffffffffffffffffffffffec,
      0x7fffffffffffffffffffffffffffffffffffffffffffffffffffffffffffffed,
      0x7fffffffffffffffffffffffffffffffffffffffffffffffffffffffffffffee
    }
  }

  /** X25519. The two parties of an exchange reach one term: Dh(x, Pub(y)) == Dh(y, Pub(x)). */
  function Dh(x: Scalar, p: Term): Term {
    if LowOrder(p) then ZERO_KEY
    else if p.Pub? then if x <= p.x then Shared(x, p.x) else Shared(p.x, x)
    else Point(x, p)
  }

  function AeadSeal(k: Term, n: uint64, ad: Term, pt: Term): Term {
    Seal(k, n, ad, pt)
  }

  /** None is an authentication failure. */
  function AeadOpen(k: Term, n: uint64, ad: Term, ct: Term): Option<Term> {
    if ct.Seal? && ct.k == k && ct.n == n && ct.ad == ad then Some(ct.pt) else None
  }

  /** The number of key-mixing steps that led to a chaining key. */
  function Depth(ck: Term): nat {
    if ck.Kdf1? then 1 + Depth(ck.ck) else 0
  }
}
