/** L2 messages and the byte string their deduplication hash is taken of
    (primitives/src/precompiles.rs, primitives/src/message_queue.rs). */
module Messages {
  import opened Positional

  const TWO_256: nat := 0x1_0000_0000_0000_0000_0000_0000_0000_0000_0000_0000_0000_0000_0000_0000_0000_0000

  type U64 = n: nat | n < TWO_64
  type U256 = n: nat | n < TWO_256
  type Address = s: seq<Byte> | |s| == 20 witness Repeat<Byte>(0, 20)

  // keccak256 as an idealised hash.
  type Digest = nat
  type HashFunction = seq<Byte> -> Digest

  ghost predicate Unshared(h: HashFunction, x: seq<Byte>) {
    forall y :: h(y) == h(x) ==> y == x
  }

  ghost predicate CollisionFree(h: HashFunction) {
    forall x :: Unshared(h, x)
  }

  datatype MessageType = Deposit | Withdrawal | StateRoot | CrossLayerCall

  datatype L2Message = L2Message(
    msgType: MessageType, sender: Address, recipient: Address, value: U256,
    data: seq<Byte>, nonce: U64, timestamp: U64)

  function TypeByte(t: MessageType): Byte {
    match t
    case Deposit => 0
    case Withdrawal => 1
    case StateRoot => 2
    case CrossLayerCall => 3
  }

  /** `to_be_bytes` at a fixed width. */
  function BigEndian(n: nat, width: nat): (s: seq<Byte>)
    ensures |s| == width
  {
    CanonicalDenotes(n, 256);
    var c: seq<Byte> := Canonical(n, 256);
    if |c| <= width then Repeat<Byte>(0, width - |c|) + c else c[|c| - width..]
  }

  lemma BigEndianDenotes(n: nat, width: nat)
    requires n < Pow(256, width)
    ensures Value(BigEndian(n, width), 256) == n
  {
    CanonicalDenotes(n, 256);
    CanonicalLength(n, 256, width);
    var c := Canonical(n, 256);
    assert BigEndian(n, width) == Repeat<nat>(0, width - |c|) + c;
    ValueAfterZeros(width - |c|, c, 256);
  }

  lemma WidthsFit()
    ensures Pow(256, 8) == TWO_64 && Pow(256, 32) == TWO_256
  {
    assert Pow(256, 8) == TWO_64;
    PowAdd(256, 8, 8);
    PowAdd(256, 16, 16);
  }

  function Preimage(m: L2Message): seq<Byte> {
    [TypeByte(m.msgType)] + m.sender + m.recipient + BigEndian(m.value, 32)
    + m.data + BigEndian(m.nonce, 8) + BigEndian(m.timestamp, 8)
  }

  /** Where each field of a message is found in the byte string: one byte for the kind (0 deposit,
      1 withdrawal, 2 state root, 3 cross-layer call), two addresses of 20 bytes, 32 bytes of value,
      the data, and eight bytes each of nonce and timestamp, numbers most significant byte first. */
  lemma PreimageLayout(m: L2Message)
    ensures var p, n := Preimage(m), |m.data|;
      && |p| == 89 + n
      && p[0] == (match m.msgType case Deposit => 0 case Withdrawal => 1 case StateRoot => 2 case CrossLayerCall => 3)
      && p[1..21] == m.sender && p[21..41] == m.recipient && Value(p[41..73], 256) == m.value
      && p[73..73 + n] == m.data && Value(p[73 + n..81 + n], 256) == m.nonce && Value(p[81 + n..], 256) == m.timestamp
  {
    WidthsFit();
    BigEndianDenotes(m.value, 32);
    BigEndianDenotes(m.nonce, 8);
    BigEndianDenotes(m.timestamp, 8);
    var p, n := Preimage(m), |m.data|;
    assert p[1..21] == m.sender && p[21..41] == m.recipient && p[41..73] == BigEndian(m.value, 32);
    assert p[73..73 + n] == m.data;
    assert p[73 + n..81 + n] == BigEndian(m.nonce, 8);
    assert p[81 + n..] == BigEndian(m.timestamp, 8);
  }

  lemma SplitFront<T>(a: seq<T>, b: seq<T>, c: seq<T>, d: seq<T>)
    requires a + b == c + d && (|a| == |c| || |b| == |d|)
    ensures a == c && b == d
  {
    assert |a| == |c|;
    assert a == (a + b)[..|a|] && b == (a + b)[|a|..];
    assert c == (c + d)[..|a|] && d == (c + d)[|a|..];
  }

  lemma BigEndianInjective(x: nat, y: nat, width: nat)
    requires x < Pow(256, width) && y < Pow(256, width) && BigEndian(x, width) == BigEndian(y, width)
    ensures x == y
  {
    BigEndianDenotes(x, width);
    BigEndianDenotes(y, width);
  }

  function Head(m: L2Message): (s: seq<Byte>)
    ensures |s| == 41
  {
    [TypeByte(m.msgType)] + m.sender + m.recipient
  }

  lemma HeadInjective(a: L2Message, b: L2Message)
    requires Head(a) == Head(b)
    ensures a.msgType == b.msgType && a.sender == b.sender && a.recipient == b.recipient
  {
    SplitFront([TypeByte(a.msgType)] + a.sender, a.recipient, [TypeByte(b.msgType)] + b.sender, b.recipient);
    SplitFront([TypeByte(a.msgType)], a.sender, [TypeByte(b.msgType)], b.sender);
  }

  /** The unpadded variable-length field sits between fixed-width ones, so no two messages
      share a preimage. */
  lemma PreimageInjective(a: L2Message, b: L2Message)
    requires Preimage(a) == Preimage(b)
    ensures a == b
  {
    var (ta, tb) := (BigEndian(a.timestamp, 8), BigEndian(b.timestamp, 8));
    var (na, nb) := (BigEndian(a.nonce, 8), BigEndian(b.nonce, 8));
    var (va, vb) := (BigEndian(a.value, 32), BigEndian(b.value, 32));
    SplitFront(Head(a) + va + a.data + na, ta, Head(b) + vb + b.data + nb, tb);
    SplitFront(Head(a) + va + a.data, na, Head(b) + vb + b.data, nb);
    SplitFront(Head(a) + va, a.data, Head(b) + vb, b.data);
    SplitFront(Head(a), va, Head(b), vb);
    HeadInjective(a, b);
    WidthsFit();
    BigEndianInjective(a.value, b.value, 32);
    BigEndianInjective(a.nonce, b.nonce, 8);
    BigEndianInjective(a.timestamp, b.timestamp, 8);
  }
}
