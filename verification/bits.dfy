// Fixed-width integers, bytes and their most-significant-bit-first bit strings.
// Every other module works on these: the PER engine packs and unpacks them, the
// NAS channel and the sponge combine them with exclusive or.
module Bits {
  type byte = x: int | 0 <= x < 0x100
  type u16 = x: int | 0 <= x < 0x1_0000
  type u32 = x: int | 0 <= x < 0x1_0000_0000
  type u64 = x: int | 0 <= x < 0x1_0000_0000_0000_0000
  type Bytes = seq<byte>
  type Octets4 = s: Bytes | |s| == 4 witness [0, 0, 0, 0]

  datatype Option<+T> = None | Some(value: T) {
    predicate IsFailure() {
      None?
    }

    function PropagateFailure<U>(): Option<U>
      requires None?
    {
      None
    }

    function Extract(): T
      requires Some?
    {
      value
    }
  }

  datatype Result<+T, +E> = Ok(value: T) | Err(error: E)

  function Pow2(n: nat): (r: nat)
    ensures r > 0
  {
    if n == 0 then 1 else 2 * Pow2(n - 1)
  }

  lemma Pow2Values()
    ensures Pow2(3) == 8 && Pow2(7) == 0x80 && Pow2(8) == 0x100 && Pow2(14) == 0x4000
    ensures Pow2(16) == 0x1_0000 && Pow2(24) == 0x100_0000 && Pow2(32) == 0x1_0000_0000
    ensures Pow2(64) == 0x1_0000_0000_0000_0000
  {
    Pow2Add(8, 8);
    Pow2Add(16, 8);
    Pow2Add(16, 16);
    Pow2Add(32, 32);
    assert Pow2(4) == 16;
    assert Pow2(8) == 256;
    assert Pow2(10) == 1024;
  }

  lemma {:induction false} Pow2Add(a: nat, b: nat)
    ensures Pow2(a + b) == Pow2(a) * Pow2(b)
  {
    if b == 0 {
      assert Pow2(0) == 1;
    } else {
      Pow2Add(a, b - 1);
      Pow2Step(b);
      Pow2Step(a + b);
      MulDouble(Pow2(a), Pow2(b - 1));
    }
  }

  lemma Pow2Step(n: nat)
    requires n > 0
    ensures Pow2(n) == 2 * Pow2(n - 1)
  {
  }

  lemma MulDouble(x: nat, y: nat)
    ensures x * (2 * y) == 2 * (x * y)
  {
  }

  lemma {:induction false} Pow2Monotone(a: nat, b: nat)
    requires a <= b
    ensures Pow2(a) <= Pow2(b)
  {
    if a < b {
      Pow2Monotone(a, b - 1);
    }
  }

  // The low `n` bits of `v`, most significant first.
  function BitsOf(v: nat, n: nat): (r: seq<bool>)
    ensures |r| == n
  {
    if n == 0 then [] else BitsOf(v / 2, n - 1) + [v % 2 == 1]
  }

  // The number a bit string denotes, most significant bit first.
  function Value(b: seq<bool>): nat {
    if b == [] then 0 else 2 * Value(b[..|b| - 1]) + (if b[|b| - 1] then 1 else 0)
  }

  lemma {:induction false} ValueBound(b: seq<bool>)
    ensures Value(b) < Pow2(|b|)
  {
    if b != [] {
      ValueBound(b[..|b| - 1]);
    }
  }

  lemma {:induction false} ValueOfBitsOf(v: nat, n: nat)
    requires v < Pow2(n)
    ensures Value(BitsOf(v, n)) == v
  {
    if n > 0 {
      ValueOfBitsOf(v / 2, n - 1);
      assert BitsOf(v, n)[..n - 1] == BitsOf(v / 2, n - 1);
    }
  }

  lemma {:induction false} BitsOfValue(b: seq<bool>)
    ensures BitsOf(Value(b), |b|) == b
  {
    if b != [] {
      BitsOfValue(b[..|b| - 1]);
      assert b == b[..|b| - 1] + [b[|b| - 1]];
    }
  }

  // `v >> k`
  function Shr(v: nat, k: nat): nat {
    if k == 0 then v else Shr(v / 2, k - 1)
  }

  lemma {:induction false} ShrStep(v: nat, k: nat)
    ensures Shr(v, k + 1) == Shr(v, k) / 2
  {
    if k > 0 {
      ShrStep(v / 2, k - 1);
    }
  }

  lemma {:induction false} ShrAdd(v: nat, a: nat, b: nat)
    ensures Shr(Shr(v, a), b) == Shr(v, a + b)
  {
    if a > 0 {
      ShrAdd(v / 2, a - 1, b);
    }
  }

  // Splitting a field: the high bits are those of the shifted value.
  lemma {:induction false} BitsOfSplit(v: nat, n: nat, m: nat)
    ensures BitsOf(v, n + m) == BitsOf(Shr(v, m), n) + BitsOf(v, m)
  {
    if m > 0 {
      BitsOfSplit(v / 2, n, m - 1);
    }
  }

  // Writing the low bits ignores anything a mask would remove.
  lemma {:induction false} BitsOfAddHigh(q: nat, r: nat, n: nat)
    ensures BitsOf(q * Pow2(n) + r, n) == BitsOf(r, n)
  {
    if n > 0 {
      var h := q * Pow2(n - 1);
      assert q * Pow2(n) == 2 * h;
      BitsOfAddHigh(q, r / 2, n - 1);
      assert (2 * h + r) / 2 == h + r / 2;
    }
  }

  lemma BitsOfMask8(v: nat)
    ensures BitsOf(v % 0x100, 8) == BitsOf(v, 8)
  {
    Pow2Values();
    BitsOfAddHigh(v / 0x100, v % 0x100, 8);
  }

  // Eight bits make a byte and a byte makes eight bits.
  function ByteBits(b: byte): (r: seq<bool>)
    ensures |r| == 8
  {
    BitsOf(b, 8)
  }

  function ByteOf(bits: seq<bool>): byte
    requires |bits| == 8
  {
    ValueBound(bits);
    Pow2Values();
    Value(bits)
  }

  lemma ByteRoundTrip(b: byte)
    ensures ByteOf(ByteBits(b)) == b
  {
    Pow2Values();
    ValueOfBitsOf(b, 8);
  }

  // Bit `i` (counted from the most significant) of an n-bit field is bit n-1-i of the value.
  lemma {:induction false} BitsOfAt(v: nat, n: nat, i: nat)
    requires i < n
    ensures BitsOf(v, n)[i] == (Shr(v, n - 1 - i) % 2 == 1)
  {
    if i < n - 1 {
      BitsOfAt(v / 2, n - 1, i);
    }
  }

  // The bits of a byte string, and the byte string of a whole number of octets.
  function BytesBits(data: Bytes): (r: seq<bool>)
    ensures |r| == 8 * |data|
  {
    if data == [] then [] else ByteBits(data[0]) + BytesBits(data[1..])
  }

  function PackBytes(bits: seq<bool>): (r: Bytes)
    requires |bits| % 8 == 0
    ensures 8 * |r| == |bits|
  {
    if bits == [] then [] else [ByteOf(bits[..8])] + PackBytes(bits[8..])
  }

  lemma {:induction false} BytesBitsOfPackBytes(bits: seq<bool>)
    requires |bits| % 8 == 0
    ensures BytesBits(PackBytes(bits)) == bits
  {
    if bits != [] {
      BytesBitsOfPackBytes(bits[8..]);
      BitsOfValue(bits[..8]);
      assert bits == bits[..8] + bits[8..];
    }
  }

  lemma {:induction false} PackBytesOfBytesBits(data: Bytes)
    ensures PackBytes(BytesBits(data)) == data
  {
    if data != [] {
      PackBytesOfBytesBits(data[1..]);
      ByteRoundTrip(data[0]);
      assert BytesBits(data)[..8] == ByteBits(data[0]);
      assert BytesBits(data)[8..] == BytesBits(data[1..]);
    }
  }

  lemma {:induction false} BytesBitsAppend(a: Bytes, b: Bytes)
    ensures BytesBits(a + b) == BytesBits(a) + BytesBits(b)
  {
    hide ByteBits;
    if a == [] {
      assert a + b == b;
    } else {
      var rest := a[1..];
      BytesBitsAppend(rest, b);
      assert (a + b)[1..] == rest + b && (a + b)[0] == a[0];
      calc {
        BytesBits(a + b);
        ByteBits(a[0]) + BytesBits(rest + b);
        ByteBits(a[0]) + (BytesBits(rest) + BytesBits(b));
        (ByteBits(a[0]) + BytesBits(rest)) + BytesBits(b);
      }
    }
  }

  lemma {:induction false} PackBytesAppend(a: seq<bool>, b: seq<bool>)
    requires |a| % 8 == 0 && |b| % 8 == 0
    ensures PackBytes(a + b) == PackBytes(a) + PackBytes(b)
  {
    hide ByteOf;
    if a == [] {
      assert a + b == b;
    } else {
      var first, rest := a[..8], a[8..];
      PackBytesAppend(rest, b);
      assert (a + b)[..8] == first && (a + b)[8..] == rest + b;
      calc {
        PackBytes(a + b);
        [ByteOf(first)] + PackBytes(rest + b);
        [ByteOf(first)] + (PackBytes(rest) + PackBytes(b));
        ([ByteOf(first)] + PackBytes(rest)) + PackBytes(b);
      }
    }
  }

  // A run of whole octets inside the bits of a byte string is the corresponding slice.
  lemma {:induction false} BytesBitsSlice(data: Bytes, k: nat, n: nat)
    requires k + n <= |data|
    ensures BytesBits(data)[8 * k..8 * (k + n)] == BytesBits(data[k..k + n])
  {
    assert data == data[..k] + data[k..k + n] + data[k + n..];
    BytesBitsAppend(data[..k], data[k..k + n]);
    BytesBitsAppend(data[..k] + data[k..k + n], data[k + n..]);
  }

  function ZeroBytes(n: nat): (r: Bytes)
    ensures |r| == n
    ensures forall i :: 0 <= i < n ==> r[i] == 0
  {
    seq<byte>(n, _ => 0)
  }

  // Exclusive or, bit by bit.
  function XorBits(a: seq<bool>, b: seq<bool>): (r: seq<bool>)
    requires |a| == |b|
    ensures |r| == |a|
    ensures forall i :: 0 <= i < |a| ==> r[i] == (a[i] != b[i])
  {
    seq(|a|, i requires 0 <= i < |a| => a[i] != b[i])
  }

  function XorByte(a: byte, b: byte): byte {
    ByteOf(XorBits(ByteBits(a), ByteBits(b)))
  }

  lemma XorByteInvolution(a: byte, b: byte)
    ensures XorByte(XorByte(a, b), b) == a
  {
    var x := XorBits(ByteBits(a), ByteBits(b));
    BitsOfValue(x);
    assert XorBits(x, ByteBits(b)) == ByteBits(a);
    ByteRoundTrip(a);
  }

  function XorBytes(a: Bytes, b: Bytes): (r: Bytes)
    requires |a| == |b|
    ensures |r| == |a|
  {
    seq<byte>(|a|, i requires 0 <= i < |a| => XorByte(a[i], b[i]))
  }

  // Big-endian fields.
  function BE16(v: u16): (r: Bytes)
    ensures |r| == 2
  {
    var n: int := v;
    var hi: byte, lo: byte := n / 0x100, n % 0x100;
    [hi, lo]
  }

  function FromBE16(s: Bytes): u16
    requires |s| == 2
  {
    var hi: int := s[0];
    hi * 0x100 + s[1]
  }

  function BE32(v: u32): Octets4 {
    var n: int := v;
    var b0: byte, b1: byte := n / 0x100_0000, (n / 0x1_0000) % 0x100;
    var b2: byte, b3: byte := (n / 0x100) % 0x100, n % 0x100;
    [b0, b1, b2, b3]
  }

  function FromBE32(s: Octets4): u32 {
    var b0: int, b1: int, b2: int := s[0], s[1], s[2];
    b0 * 0x100_0000 + b1 * 0x1_0000 + b2 * 0x100 + s[3]
  }

  // Most significant octet first.
  lemma NetworkOrder(s: Octets4, t: Bytes)
    requires |t| == 2
    ensures var b0: int, b1: int, b2: int, b3: int := s[0], s[1], s[2], s[3];
            FromBE32(s) == 16777216 * b0 + 65536 * b1 + 256 * b2 + b3
    ensures var b0: int, b1: int := t[0], t[1];
            FromBE16(t) == 256 * b0 + b1
  {
  }

  lemma BE16RoundTrip(v: u16)
    ensures FromBE16(BE16(v)) == v
  {
  }

  lemma BE32RoundTrip(v: u32)
    ensures FromBE32(BE32(v)) == v
  {
    var n: int := v;
    assert n == (n / 0x100) * 0x100 + n % 0x100;
    assert n / 0x100 == (n / 0x1_0000) * 0x100 + (n / 0x100) % 0x100;
    assert n / 0x1_0000 == (n / 0x100_0000) * 0x100 + (n / 0x1_0000) % 0x100;
  }

  lemma BE16OfFrom(s: Bytes)
    requires |s| == 2
    ensures BE16(FromBE16(s)) == s
  {
  }

  lemma BE32OfFrom(s: Octets4)
    ensures BE32(FromBE32(s)) == s
  {
    var b0: int, b1: int, b2: int, b3: int := s[0], s[1], s[2], s[3];
    var v: int := FromBE32(s);
    DivOnce(b0 * 0x1_0000 + b1 * 0x100 + b2, b3, v);
    DivOnce(b0 * 0x100 + b1, b2, v / 0x100);
    DivOnce(b0, b1, v / 0x1_0000);
  }

  lemma DivOnce(q: int, r: int, v: int)
    requires 0 <= r < 0x100 && v == q * 0x100 + r
    ensures v / 0x100 == q && v % 0x100 == r
  {
  }
}
