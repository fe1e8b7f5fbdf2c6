/** Types shared by every component: machine integers and failure values. */
module Prelude {
  type byte = b: int | 0 <= b < 0x100

  /** Go's `uint64`. */
  type uint64 = n: int | 0 <= n < 0x1_0000_0000_0000_0000

  const MAX_UINT64: uint64 := 0xFFFF_FFFF_FFFF_FFFF

  datatype Option<+T> = None | Some(value: T)

  datatype Result<+T, +E> = Success(value: T) | Failure(error: E) {
    predicate IsFailure() {
      Failure?
    }

    function PropagateFailure<U>(): Result<U, E>
      requires Failure?
    {
      Failure(error)
    }

    function Extract(): T
      requires Success?
    {
      value
    }
  }

  /** The number that little-endian bytes stand for. */
  function LeNat(b: seq<byte>): nat {
    if b == [] then 0 else b[0] + 0x100 * LeNat(b[1..])
  }

  /** The k low-order bytes of a number, little-endian. */
  function LeBytes(n: nat, k: nat): seq<byte> {
    if k == 0 then [] else [n % 0x100] + LeBytes(n / 0x100, k - 1)
  }

  /** The number of values that k bytes can hold. */
  function LeRange(k: nat): nat {
    if k == 0 then 1 else 0x100 * LeRange(k - 1)
  }

  lemma {:induction false} LeBytesThenNat(n: nat, k: nat)
    requires n < LeRange(k)
    ensures |LeBytes(n, k)| == k && LeNat(LeBytes(n, k)) == n
  {
    if k == 0 {
    } else {
      LeBytesThenNat(n / 0x100, k - 1);
      assert LeBytes(n, k)[1..] == LeBytes(n / 0x100, k - 1);
    }
  }

  lemma {:induction false} LeNatThenBytes(b: seq<byte>)
    ensures LeNat(b) < LeRange(|b|) && LeBytes(LeNat(b), |b|) == b
  {
    if b == [] {
    } else {
      LeNatThenBytes(b[1..]);
      ConsDivides(b[0], LeNat(b[1..]));
      assert b == [b[0]] + b[1..];
    }
  }

  lemma ConsDivides(low: byte, high: nat)
    ensures (low + 0x100 * high) % 0x100 == low && (low + 0x100 * high) / 0x100 == high
  {
  }

  type digit = d: int | 0 <= d < 10

  /** The decimal digits of a number, most significant first, without leading zeros. */
  function Digits(n: nat): (ds: seq<digit>)
    ensures |ds| > 0
  {
    if n < 10 then [n] else Digits(n / 10) + [n % 10]
  }

  function FromDigits(ds: seq<digit>): nat {
    if ds == [] then 0 else 10 * FromDigits(ds[..|ds| - 1]) + ds[|ds| - 1]
  }

  lemma {:induction false} DigitsDetermine(n: nat)
    ensures FromDigits(Digits(n)) == n
  {
    if n < 10 {
      assert FromDigits([]) == 0;
    } else {
      DigitsDetermine(n / 10);
      assert Digits(n)[..|Digits(n)| - 1] == Digits(n / 10);
    }
  }
}
