/** The datagram codec of wire.go, on bytes. */
module Wire {
  import opened Prelude

  datatype HandshakeBytes = HandshakeBytes(ephemeral: seq<byte>, staticEnc: seq<byte>, ciphertext: seq<byte>)

  datatype TransportBytes = TransportBytes(nonce: uint64, ciphertext: seq<byte>)

  datatype WireError = ShortFrame | UnknownVersion | UnknownType

  /** ParseFrame's three results. */
  datatype Frame = Frame(version: byte, kind: byte, body: seq<byte>)

  const PV1: byte := 1
  const HANDSHAKE_A: byte := 0
  const HANDSHAKE_B: byte := 1
  const TRANSPORT: byte := 2

  const EPHEMERAL_LEN := 32
  const STATIC_LEN := 48
  const NONCE_LEN := 8

  function PutUint64(n: uint64): seq<byte> {
    LeBytes(n, NONCE_LEN)
  }

  function GetUint64(b: seq<byte>): uint64
    requires |b| == NONCE_LEN
  {
    Uint64Range();
    LeNatThenBytes(b);
    LeNat(b)
  }

  lemma Uint64Range()
    ensures LeRange(NONCE_LEN) == 0x1_0000_0000_0000_0000
  {
    assert LeRange(4) == 0x1_0000_0000;
  }

  /** None where the code panics. */
  function MarshalHandshakeA(m: HandshakeBytes): Option<seq<byte>> {
    if |m.staticEnc| != STATIC_LEN then None
    else Some([PV1, HANDSHAKE_A] + m.ephemeral + m.staticEnc + m.ciphertext)
  }

  function MarshalHandshakeB(m: HandshakeBytes): seq<byte> {
    [PV1, HANDSHAKE_B] + m.ephemeral + m.ciphertext
  }

  function MarshalTransport(m: TransportBytes): seq<byte> {
    [PV1, TRANSPORT] + PutUint64(m.nonce) + m.ciphertext
  }

  function ParseFrame(buf: seq<byte>): Result<Frame, WireError> {
    if |buf| < 2 then Failure(ShortFrame) else Success(Frame(buf[0], buf[1], buf[2..]))
  }

  function ParseHandshakeA(body: seq<byte>): Result<HandshakeBytes, WireError> {
    if |body| < EPHEMERAL_LEN + STATIC_LEN then Failure(ShortFrame)
    else
      Success(HandshakeBytes(
        body[..EPHEMERAL_LEN], body[EPHEMERAL_LEN..EPHEMERAL_LEN + STATIC_LEN], body[EPHEMERAL_LEN + STATIC_LEN..]))
  }

  function ParseHandshakeB(body: seq<byte>): Result<HandshakeBytes, WireError> {
    if |body| < EPHEMERAL_LEN then Failure(ShortFrame)
    else Success(HandshakeBytes(body[..EPHEMERAL_LEN], [], body[EPHEMERAL_LEN..]))
  }

  function ParseTransport(body: seq<byte>): Result<TransportBytes, WireError> {
    if |body| < NONCE_LEN then Failure(ShortFrame)
    else Success(TransportBytes(GetUint64(body[..NONCE_LEN]), body[NONCE_LEN..]))
  }

  /* The codec as a whole */

  datatype Datagram = A(a: HandshakeBytes) | B(b: HandshakeBytes) | T(t: TransportBytes)

  function Marshal(d: Datagram): Option<seq<byte>> {
    match d
    case A(m) => MarshalHandshakeA(m)
    case B(m) => Some(MarshalHandshakeB(m))
    case T(m) => Some(MarshalTransport(m))
  }

  /** The reading side: the frame, its version, its type, its body. */
  function Parse(buf: seq<byte>): Result<Datagram, WireError> {
    var f :- ParseFrame(buf);
    if f.version != PV1 then Failure(UnknownVersion)
    else if f.kind == HANDSHAKE_A then
      var m :- ParseHandshakeA(f.body);
      Success(A(m))
    else if f.kind == HANDSHAKE_B then
      var m :- ParseHandshakeB(f.body);
      Success(B(m))
    else if f.kind == TRANSPORT then
      var m :- ParseTransport(f.body);
      Success(T(m))
    else Failure(UnknownType)
  }

  /** The shape of the messages that Noise IK produces. */
  predicate Shaped(d: Datagram) {
    match d
    case A(m) => |m.ephemeral| == EPHEMERAL_LEN && |m.staticEnc| == STATIC_LEN
    case B(m) => |m.ephemeral| == EPHEMERAL_LEN && m.staticEnc == []
    case T(_) => true
  }

  /** Reading back a message of IK shape gives the same message, of the same type. */
  lemma ParseAfterMarshal(d: Datagram)
    requires Shaped(d)
    ensures Marshal(d).Some? && Parse(Marshal(d).value) == Success(d)
  {
    var buf := Marshal(d).value;
    match d
    case A(m) =>
      var body := buf[2..];
      assert body == m.ephemeral + m.staticEnc + m.ciphertext;
      assert body[..EPHEMERAL_LEN] == m.ephemeral;
      assert body[EPHEMERAL_LEN..EPHEMERAL_LEN + STATIC_LEN] == m.staticEnc;
      assert body[EPHEMERAL_LEN + STATIC_LEN..] == m.ciphertext;
    case B(m) =>
      assert buf[2..] == m.ephemeral + m.ciphertext;
    case T(m) =>
      Uint64Range();
      LeBytesThenNat(m.nonce, NONCE_LEN);
      assert buf[2..] == PutUint64(m.nonce) + m.ciphertext;
  }

  /** Every buffer that parses is what its message marshals to, and the message has IK shape. */
  lemma MarshalAfterParse(buf: seq<byte>)
    requires Parse(buf).Success?
    ensures Shaped(Parse(buf).value) && Marshal(Parse(buf).value) == Some(buf)
  {
    var body := buf[2..];
    match Parse(buf).value
    case A(m) =>
      assert body == m.ephemeral + m.staticEnc + m.ciphertext;
      assert buf == [PV1, HANDSHAKE_A] + m.ephemeral + m.staticEnc + m.ciphertext;
    case B(m) =>
      assert body == m.ephemeral + m.ciphertext;
      assert buf == [PV1, HANDSHAKE_B] + m.ephemeral + m.ciphertext;
    case T(m) =>
      LeNatThenBytes(body[..NONCE_LEN]);
      assert body == PutUint64(m.nonce) + m.ciphertext;
      assert buf == [PV1, TRANSPORT] + PutUint64(m.nonce) + m.ciphertext;
  }

  /** The codec is a bijection between the buffers that parse and the messages of IK shape. */
  lemma CodecIsBijective(buf: seq<byte>, d: Datagram)
    ensures Parse(buf) == Success(d) <==> Shaped(d) && Marshal(d) == Some(buf)
  {
    if Parse(buf).Success? {
      MarshalAfterParse(buf);
    }
    if Shaped(d) {
      ParseAfterMarshal(d);
    }
  }

  /** A message that can be marshalled survives the wire exactly when it has IK shape. */
  lemma SurvivesExactly(d: Datagram)
    requires Marshal(d).Some?
    ensures Parse(Marshal(d).value) == Success(d) <==> Shaped(d)
  {
    CodecIsBijective(Marshal(d).value, d);
  }

  /* The layout, byte by byte */

  function Power256(i: nat): nat {
    if i == 0 then 1 else 0x100 * Power256(i - 1)
  }

  lemma DivideTwice(n: nat, b: nat)
    requires b > 0
    ensures n / 0x100 / b == n / (0x100 * b)
  {
    var m := n / 0x100;
    var p, s := m / b, m % b;
    var z := b * p;
    assert m == z + s && 0x100 * b * p == 0x100 * z;
    QuotientIs(n, 0x100 * b, p, 0x100 * s + n % 0x100);
  }

  lemma QuotientIs(n: nat, d: nat, q: nat, r: nat)
    requires d > 0 && n == d * q + r && r < d
    ensures n / d == q
  {
    var q' := n / d;
    if q' < q {
      Scaled(d, q' + 1, q);
      assert false;
    } else if q' > q {
      Scaled(d, q + 1, q');
      assert false;
    }
  }

  lemma Scaled(d: nat, a: nat, b: nat)
    requires a <= b
    ensures d * a <= d * b
  {
  }

  lemma {:induction false} ByteAt(n: nat, k: nat, i: nat)
    requires i < k
    ensures |LeBytes(n, k)| == k && Power256(i) > 0 && LeBytes(n, k)[i] == n / Power256(i) % 0x100
    decreases k
  {
    LeLength(n, k);
    if i == 0 {
    } else {
      ByteAt(n / 0x100, k - 1, i - 1);
      DivideTwice(n, Power256(i - 1));
    }
  }

  lemma {:induction false} LeLength(n: nat, k: nat)
    ensures |LeBytes(n, k)| == k
    decreases k
  {
    if k == 0 {
    } else {
      LeLength(n / 0x100, k - 1);
    }
  }

  /** Every part of a datagram by position: version, type, and then the parts of the message. */
  lemma Layout(d: Datagram)
    requires Shaped(d)
    ensures
      var buf := Marshal(d);
      && buf.Some? && |buf.value| >= 2 && buf.value[0] == 1
      && match d
         case A(m) =>
           && |buf.value| == 2 + 32 + 48 + |m.ciphertext| && buf.value[1] == 0
           && buf.value[2..34] == m.ephemeral && buf.value[34..82] == m.staticEnc && buf.value[82..] == m.ciphertext
         case B(m) =>
           && |buf.value| == 2 + 32 + |m.ciphertext| && buf.value[1] == 1
           && buf.value[2..34] == m.ephemeral && buf.value[34..] == m.ciphertext
         case T(m) =>
           && |buf.value| == 2 + 8 + |m.ciphertext| && buf.value[1] == 2
           && (forall i: nat | i < 8 :: Power256(i) > 0 && buf.value[2 + i] == m.nonce / Power256(i) % 0x100)
           && buf.value[10..] == m.ciphertext
  {
    match d
    case A(m) =>
    case B(m) =>
    case T(m) =>
      LeLength(m.nonce, 8);
      forall i: nat | i < 8
        ensures Power256(i) > 0 && Marshal(d).value[2 + i] == m.nonce / Power256(i) % 0x100
      {
        ByteAt(m.nonce, 8, i);
      }
  }

  /** Which buffers are refused, and why. */
  lemma RefusedExactly(buf: seq<byte>)
    ensures Parse(buf) == Failure(ShortFrame) <==>
            || |buf| < 2
            || (buf[0] == 1 && buf[1] == 0 && |buf| < 82)
            || (buf[0] == 1 && buf[1] == 1 && |buf| < 34)
            || (buf[0] == 1 && buf[1] == 2 && |buf| < 10)
    ensures Parse(buf) == Failure(UnknownVersion) <==> |buf| >= 2 && buf[0] != 1
    ensures Parse(buf) == Failure(UnknownType) <==> |buf| >= 2 && buf[0] == 1 && buf[1] > 2
  {
  }

  /** A message A is marshalled exactly when its static part has 48 bytes. */
  lemma MarshalledExactly(m: HandshakeBytes)
    ensures MarshalHandshakeA(m).Some? <==> |m.staticEnc| == 48
  {
  }
}
