// The Keccak sponge over 64-bit lanes at an arbitrary byte rate, for any permutation of
// the state. The reference it is held to works on a plain string of 200 octets.
module Sponge {
  import opened Bits

  const STATE_LANES := 25
  const STATE_BYTES := 200

  type Lanes = s: seq<u64> | |s| == 25
    witness [0, 0, 0, 0, 0, 0, 0, 0, 0, 0, 0, 0, 0, 0, 0, 0, 0, 0, 0, 0, 0, 0, 0, 0, 0]
  type Permutation = Lanes -> Lanes

  // ---- Little-endian lanes -------------------------------------------------------------------

  function FromLe(b: Bytes): nat {
    if b == [] then 0 else b[0] + 0x100 * FromLe(b[1..])
  }

  function ToLe(v: nat, n: nat): (r: Bytes)
    ensures |r| == n
  {
    if n == 0 then [] else [v % 0x100] + ToLe(v / 0x100, n - 1)
  }

  lemma {:induction false} ToLeOfFromLe(b: Bytes)
    ensures ToLe(FromLe(b), |b|) == b
  {
    if b != [] {
      ToLeOfFromLe(b[1..]);
      assert FromLe(b) % 0x100 == b[0] && FromLe(b) / 0x100 == FromLe(b[1..]);
    }
  }

  lemma {:induction false} FromLeOfToLe(v: nat, n: nat)
    requires v < Pow2(8 * n)
    ensures FromLe(ToLe(v, n)) == v
  {
    if n > 0 {
      Pow2Add(8 * (n - 1), 8);
      Pow2Values();
      FromLeOfToLe(v / 0x100, n - 1);
    }
  }

  lemma {:induction false} FromLeBound(b: Bytes)
    ensures FromLe(b) < Pow2(8 * |b|)
  {
    if b != [] {
      FromLeBound(b[1..]);
      Pow2Add(8 * |b[1..]|, 8);
      Pow2Values();
    }
  }

  function Lane(b: Bytes): u64
    requires |b| == 8
  {
    FromLeBound(b);
    Pow2Values();
    FromLe(b)
  }

  // Exclusive or of two 64-bit words, bit by bit.
  function Xor64(a: u64, b: u64): u64 {
    var x := XorBits(BitsOf(a, 64), BitsOf(b, 64));
    ValueBound(x);
    Pow2Values();
    Value(x)
  }

  // The bits of a little-endian integer: the last octet first.
  function LeBits(b: Bytes): (r: seq<bool>)
    ensures |r| == 8 * |b|
  {
    if b == [] then [] else LeBits(b[1..]) + ByteBits(b[0])
  }

  lemma Shr8(v: nat)
    ensures Shr(v, 8) == v / 0x100
  {
    ShrAdd(v, 4, 4);
    Shr4(v);
    Shr4(v / 16);
  }

  lemma Shr4(v: nat)
    ensures Shr(v, 4) == v / 16
  {
    ShrStep(v, 3);
    ShrStep(v, 2);
    ShrStep(v, 1);
    ShrStep(v, 0);
  }

  lemma {:induction false} BitsOfFromLe(b: Bytes)
    ensures BitsOf(FromLe(b), 8 * |b|) == LeBits(b)
  {
    if b != [] {
      var v, n := FromLe(b), 8 * |b[1..]|;
      BitsOfFromLe(b[1..]);
      BitsOfSplit(v, n, 8);
      Shr8(v);
      BitsOfMask8(v);
      assert v / 0x100 == FromLe(b[1..]) && v % 0x100 == b[0];
    }
  }

  lemma ByteBitsOfXor(a: byte, b: byte)
    ensures ByteBits(XorByte(a, b)) == XorBits(ByteBits(a), ByteBits(b))
  {
    BitsOfValue(XorBits(ByteBits(a), ByteBits(b)));
  }

  lemma {:induction false} LeBitsOfXor(a: Bytes, b: Bytes)
    requires |a| == |b|
    ensures LeBits(XorBytes(a, b)) == XorBits(LeBits(a), LeBits(b))
  {
    hide ByteBits, XorByte;
    if a != [] {
      assert XorBytes(a, b)[1..] == XorBytes(a[1..], b[1..]);
      LeBitsOfXor(a[1..], b[1..]);
      ByteBitsOfXor(a[0], b[0]);
    }
  }

  // Exclusive or of lanes is exclusive or of their octets.
  lemma LaneXor(a: Bytes, b: Bytes)
    requires |a| == |b| == 8
    ensures Xor64(Lane(a), Lane(b)) == Lane(XorBytes(a, b))
  {
    hide BitsOf, LeBits, FromLe, XorBytes, Value;
    BitsOfFromLe(a);
    BitsOfFromLe(b);
    LeBitsOfXor(a, b);
    var c := XorBytes(a, b);
    BitsOfFromLe(c);
    FromLeBound(c);
    ValueOfBitsOf(FromLe(c), 64);
  }

  // ---- The state as octets ---------------------------------------------------------------------

  function StateBytes(s: Lanes): (r: Bytes)
    ensures |r| == STATE_BYTES
  {
    seq<byte>(STATE_BYTES, i requires 0 <= i < STATE_BYTES => ToLe(s[i / 8], 8)[i % 8])
  }

  function LanesOf(b: Bytes): Lanes
    requires |b| == STATE_BYTES
  {
    seq<u64>(STATE_LANES, i requires 0 <= i < STATE_LANES => Lane(b[8 * i..8 * i + 8]))
  }

  lemma StateBytesSlice(s: Lanes, i: nat)
    requires i < STATE_LANES
    ensures StateBytes(s)[8 * i..8 * i + 8] == ToLe(s[i], 8)
  {
    forall j | 0 <= j < 8
      ensures StateBytes(s)[8 * i..8 * i + 8][j] == ToLe(s[i], 8)[j]
    {
      assert (8 * i + j) / 8 == i && (8 * i + j) % 8 == j;
    }
  }

  lemma LanesOfStateBytes(s: Lanes)
    ensures LanesOf(StateBytes(s)) == s
  {
    hide StateBytes, ToLe, FromLe;
    Pow2Values();
    forall i | 0 <= i < STATE_LANES
      ensures LanesOf(StateBytes(s))[i] == s[i]
    {
      StateBytesSlice(s, i);
      FromLeOfToLe(s[i], 8);
    }
  }

  // ---- Absorbing --------------------------------------------------------------------------------

  function Min(a: nat, b: nat): nat {
    if a < b then a else b
  }

  // The `i`-th group of eight octets of a block, zero-extended when the block ends inside it.
  function Chunk(block: Bytes, i: nat): (r: Bytes)
    requires 8 * i < |block|
    ensures |r| == 8
  {
    var chunk := block[8 * i..Min(8 * i + 8, |block|)];
    chunk + ZeroBytes(8 - |chunk|)
  }

  function XorBlock(s: Lanes, block: Bytes): Lanes
    requires |block| <= STATE_BYTES
  {
    seq<u64>(STATE_LANES, i requires 0 <= i < STATE_LANES =>
      if 8 * i < |block| then Xor64(s[i], Lane(Chunk(block, i))) else s[i])
  }

  function AbsorbBlocks(f: Permutation, rate: nat, s: Lanes, padded: Bytes): Lanes
    requires 1 <= rate <= STATE_BYTES && |padded| % rate == 0
    decreases |padded|
  {
    if padded == [] then s
    else
      DropBlock(|padded|, rate);
      AbsorbBlocks(f, rate, f(XorBlock(s, padded[..rate])), padded[rate..])
  }

  lemma DropBlock(n: nat, rate: nat)
    requires rate > 0 && n > 0 && n % rate == 0
    ensures n >= rate && (n - rate) % rate == 0
  {
    var q := n / rate;
    assert n == rate * q;
    assert q >= 1;
    ModProduct(rate, q - 1);
    assert n - rate == rate * (q - 1);
  }

  lemma {:induction false} ModProduct(r: nat, q: nat)
    requires r > 0
    ensures (r * q) % r == 0 && (r * q) / r == q
  {
    DivMod(r * q, r, q, 0);
  }

  lemma DivMod(t: nat, r: nat, q: nat, rem: nat)
    requires r > 0 && t == r * q + rem && rem < r
    ensures t / r == q && t % r == rem
  {
    QuotientUnique(r, q, rem, t / r, t % r);
  }

  lemma QuotientUnique(r: nat, q: nat, rem: nat, q0: nat, rem0: nat)
    requires rem < r && rem0 < r && r * q + rem == r * q0 + rem0
    ensures q == q0 && rem == rem0
  {
    if q < q0 {
      MulGap(r, q, q0);
    } else if q0 < q {
      MulGap(r, q0, q);
    }
  }

  lemma {:induction false} MulGap(r: nat, a: nat, b: nat)
    requires a < b
    ensures r * b >= r * a + r
  {
    if b > a + 1 {
      MulGap(r, a, b - 1);
    }
    assert r * b == r * (b - 1) + r;
  }

  // Exclusive or with the zero-extended block, octet by octet.
  function XorPrefix(state: Bytes, block: Bytes): (r: Bytes)
    requires |block| <= |state|
    ensures |r| == |state|
  {
    XorBytes(state, block + ZeroBytes(|state| - |block|))
  }

  lemma XorZero(a: byte)
    ensures XorByte(a, 0) == a
  {
    ZeroBits(8);
    assert XorBits(ByteBits(a), ByteBits(0)) == ByteBits(a);
    ByteRoundTrip(a);
  }

  lemma {:induction false} ZeroBits(n: nat)
    ensures forall i :: 0 <= i < n ==> !BitsOf(0, n)[i]
  {
    if n > 0 {
      ZeroBits(n - 1);
    }
  }

  // Lane-wise exclusive or is octet-wise exclusive or of the zero-extended block.
  lemma XorBlockIsBytewise(s: Lanes, block: Bytes)
    requires |block| <= STATE_BYTES
    ensures StateBytes(XorBlock(s, block)) == XorPrefix(StateBytes(s), block)
  {
    forall i: nat | i < STATE_LANES
      ensures ToLe(XorBlock(s, block)[i], 8) == XorPrefix(StateBytes(s), block)[8 * i..8 * i + 8]
    {
      XorLaneIsBytewise(s, block, i);
    }
    hide XorBlock, XorPrefix, ToLe;
    var left, right := StateBytes(XorBlock(s, block)), XorPrefix(StateBytes(s), block);
    forall i | 0 <= i < STATE_BYTES
      ensures left[i] == right[i]
    {
      assert right[i] == right[8 * (i / 8)..8 * (i / 8) + 8][i % 8];
    }
  }

  lemma XorLaneIsBytewise(s: Lanes, block: Bytes, i: nat)
    requires |block| <= STATE_BYTES && i < STATE_LANES
    ensures ToLe(XorBlock(s, block)[i], 8) == XorPrefix(StateBytes(s), block)[8 * i..8 * i + 8]
  {
    hide StateBytes, ToLe, FromLe, XorByte, Xor64, Lane, Chunk;
    var state := StateBytes(s);
    var own := ToLe(s[i], 8);
    var extended := block + ZeroBytes(STATE_BYTES - |block|);
    var group := extended[8 * i..8 * i + 8];
    StateBytesSlice(s, i);
    assert XorPrefix(state, block)[8 * i..8 * i + 8] == XorBytes(own, group);
    if 8 * i < |block| {
      ChunkOfExtended(block, i);
      XorWordIsBytewise(s[i], group);
    } else {
      forall j | 0 <= j < 8
        ensures XorBytes(own, group)[j] == own[j]
      {
        XorZero(own[j]);
      }
      assert XorBytes(own, group) == own;
    }
  }

  lemma ChunkOfExtended(block: Bytes, i: nat)
    requires 8 * i < |block| <= STATE_BYTES && i < STATE_LANES
    ensures Chunk(block, i) == (block + ZeroBytes(STATE_BYTES - |block|))[8 * i..8 * i + 8]
  {
  }

  lemma XorWordIsBytewise(w: u64, group: Bytes)
    requires |group| == 8
    ensures ToLe(Xor64(w, Lane(group)), 8) == XorBytes(ToLe(w, 8), group)
  {
    hide ToLe, FromLe, XorBytes, Xor64;
    Pow2Values();
    FromLeOfToLe(w, 8);
    LaneXor(ToLe(w, 8), group);
    ToLeOfFromLe(XorBytes(ToLe(w, 8), group));
  }

  // The reference: a sponge whose state is a string of octets (FIPS 202, section 4).
  function OnBytes(f: Permutation, b: Bytes): (r: Bytes)
    requires |b| == STATE_BYTES
    ensures |r| == STATE_BYTES
  {
    StateBytes(f(LanesOf(b)))
  }

  function ByteSponge(f: Permutation, rate: nat, state: Bytes, padded: Bytes): (r: Bytes)
    requires 1 <= rate <= STATE_BYTES && |padded| % rate == 0 && |state| == STATE_BYTES
    ensures |r| == STATE_BYTES
    decreases |padded|
  {
    if padded == [] then state
    else
      DropBlock(|padded|, rate);
      ByteSponge(f, rate, OnBytes(f, XorPrefix(state, padded[..rate])), padded[rate..])
  }

  lemma {:induction false} AbsorbIsByteSponge(f: Permutation, rate: nat, s: Lanes, padded: Bytes)
    requires 1 <= rate <= STATE_BYTES && |padded| % rate == 0
    ensures StateBytes(AbsorbBlocks(f, rate, s, padded)) == ByteSponge(f, rate, StateBytes(s), padded)
    decreases |padded|
  {
    hide StateBytes, XorBlock, XorPrefix, LanesOf;
    if padded != [] {
      DropBlock(|padded|, rate);
      XorBlockIsBytewise(s, padded[..rate]);
      LanesOfStateBytes(XorBlock(s, padded[..rate]));
      AbsorbIsByteSponge(f, rate, f(XorBlock(s, padded[..rate])), padded[rate..]);
    }
  }

  // ---- Padding ------------------------------------------------------------------------------------

  function PadLen(n: nat, rate: nat): (r: nat)
    requires rate > 0
    ensures 1 <= r <= rate
  {
    rate - n % rate
  }

  function PadTail(padLen: nat): (r: Bytes)
    requires padLen >= 1
    ensures |r| == padLen
  {
    if padLen == 1 then [0x81] else [0x01] + ZeroBytes(padLen - 2) + [0x80]
  }

  // Whole blocks, and never more than one of padding.
  lemma PadFillsBlocks(n: nat, rate: nat)
    requires rate > 0
    ensures (n + PadLen(n, rate)) % rate == 0
  {
    var q := n / rate;
    assert n + PadLen(n, rate) == rate * q + rate == rate * (q + 1);
    ModProduct(rate, q + 1);
  }

  function Pad(input: Bytes, rate: nat): (r: Bytes)
    requires rate > 0
    ensures |r| % rate == 0 && |input| < |r| <= |input| + rate
  {
    PadFillsBlocks(|input|, rate);
    input + PadTail(PadLen(|input|, rate))
  }

  // The message can be read back off its padding.
  lemma PadInjective(a: Bytes, b: Bytes, rate: nat)
    requires rate > 0 && Pad(a, rate) == Pad(b, rate)
    ensures a == b
  {
    var p := Pad(a, rate);
    if |a| < |b| {
      PadMarksEnd(a, b, rate);
    } else if |b| < |a| {
      PadMarksEnd(b, a, rate);
    } else {
      assert a == p[..|a|] == b;
    }
  }

  // Where the longer message ends, its padding puts an octet that the shorter one's padding
  // does not have there.
  lemma PadMarksEnd(a: Bytes, b: Bytes, rate: nat)
    requires rate > 0 && |a| < |b|
    ensures Pad(a, rate) != Pad(b, rate)
  {
    var pa, pb := Pad(a, rate), Pad(b, rate);
    var n := |pa|;
    if n == |pb| {
      if |b| == n - 1 {
        assert pb[n - 1] == 0x81;
        assert pa[n - 1] == PadTail(PadLen(|a|, rate))[n - 1 - |a|] == 0x80;
      } else {
        assert pb[|b|] == PadTail(PadLen(|b|, rate))[0] == 0x01;
        assert pa[|b|] == PadTail(PadLen(|a|, rate))[|b| - |a|] == 0;
      }
    }
  }

  // Bits least significant first, as FIPS 202 reads octets.
  function LsbBits(b: Bytes): (r: seq<bool>)
    ensures |r| == 8 * |b|
    ensures forall i :: 0 <= i < |r| ==> r[i] == (Shr(b[i / 8], i % 8) % 2 == 1)
  {
    seq(8 * |b|, i requires 0 <= i < 8 * |b| => Shr(b[i / 8], i % 8) % 2 == 1)
  }

  // One, zeros, one: the shortest such string that fills whole blocks (FIPS 202, section 5.1).
  lemma PadIsTenStarOne(input: Bytes, rate: nat)
    requires rate > 0
    ensures var zeros := 8 * PadLen(|input|, rate) - 2;
            && zeros < 8 * rate
            && (8 * |input| + zeros + 2) % (8 * rate) == 0
            && LsbBits(Pad(input, rate)) == LsbBits(input) + [true] + seq(zeros, _ => false) + [true]
  {
    var padLen := PadLen(|input|, rate);
    var zeros := 8 * padLen - 2;
    var q := |input| / rate;
    assert |input| + padLen == rate * (q + 1);
    assert 8 * |input| + zeros + 2 == (8 * rate) * (q + 1);
    ModProduct(8 * rate, q + 1);
    LsbBitsAppend(input, PadTail(padLen));
    TailBits(padLen);
    assert LsbBits(input) + ([true] + seq(zeros, _ => false) + [true])
        == LsbBits(input) + [true] + seq(zeros, _ => false) + [true];
  }

  lemma LsbBitsAppend(a: Bytes, b: Bytes)
    ensures LsbBits(a + b) == LsbBits(a) + LsbBits(b)
  {
    hide LsbBits;
    var both := LsbBits(a + b);
    forall i | 0 <= i < 8 * |a| + 8 * |b|
      ensures both[i] == (LsbBits(a) + LsbBits(b))[i]
    {
      LsbBitAppend(a, b, i);
    }
  }

  lemma LsbBitAppend(a: Bytes, b: Bytes, i: nat)
    requires i < 8 * |a| + 8 * |b|
    ensures LsbBits(a + b)[i] == if i < 8 * |a| then LsbBits(a)[i] else LsbBits(b)[i - 8 * |a|]
  {
    hide Shr;
    if i < 8 * |a| {
      assert (a + b)[i / 8] == a[i / 8];
    } else {
      var k := i - 8 * |a|;
      assert i / 8 == |a| + k / 8 && i % 8 == k % 8;
      assert (a + b)[i / 8] == b[k / 8];
    }
  }

  lemma TailBits(padLen: nat)
    requires padLen >= 1
    ensures LsbBits(PadTail(padLen)) == [true] + seq(8 * padLen - 2, _ => false) + [true]
  {
    hide Shr;
    var tail := PadTail(padLen);
    var bits := LsbBits(tail);
    MarkerBits();
    forall i | 0 <= i < 8 * padLen
      ensures bits[i] == (i == 0 || i == 8 * padLen - 1)
    {
      assert bits[i] == (Shr(tail[i / 8], i % 8) % 2 == 1);
    }
  }

  lemma MarkerBits()
    ensures forall j: nat :: j < 8 ==> (Shr(0x01, j) % 2 == 1) == (j == 0)
    ensures forall j: nat :: j < 8 ==> (Shr(0x80, j) % 2 == 1) == (j == 7)
    ensures forall j: nat :: j < 8 ==> (Shr(0x81, j) % 2 == 1) == (j == 0 || j == 7)
    ensures forall j: nat :: j < 8 ==> Shr(0, j) == 0
  {
    forall v: nat, j: nat | v < 0x100 && j < 8
      ensures Shr(v, j + 1) == Shr(v, j) / 2
    {
      ShrStep(v, j);
    }
    forall v: nat | v < 0x100
      ensures Shr(v, 0) == v && Shr(v, 1) == v / 2 && Shr(v, 2) == v / 4 && Shr(v, 3) == v / 8
      ensures Shr(v, 4) == v / 16 && Shr(v, 5) == v / 32 && Shr(v, 6) == v / 64 && Shr(v, 7) == v / 128
    {
      assert Shr(v, 0 + 1) == Shr(v, 0) / 2;
      assert Shr(v, 1 + 1) == Shr(v, 1) / 2;
      assert Shr(v, 2 + 1) == Shr(v, 2) / 2;
      assert Shr(v, 3 + 1) == Shr(v, 3) / 2;
      assert Shr(v, 4 + 1) == Shr(v, 4) / 2;
      assert Shr(v, 5 + 1) == Shr(v, 5) / 2;
      assert Shr(v, 6 + 1) == Shr(v, 6) / 2;
    }
  }

  // ---- Squeezing ----------------------------------------------------------------------------------

  datatype SpongeState = SpongeState(lanes: Lanes, pos: nat, squeezing: bool)

  function Iter(f: Permutation, n: nat, s: Lanes): Lanes {
    if n == 0 then s else f(Iter(f, n - 1, s))
  }

  lemma {:induction false} IterAdd(f: Permutation, a: nat, b: nat, s: Lanes)
    ensures Iter(f, a + b, s) == Iter(f, a, Iter(f, b, s))
  {
    if a > 0 {
      IterAdd(f, a - 1, b, s);
    }
  }

  // The output stream of a state: octet `k` is octet k mod rate after k / rate permutations.
  function StreamAt(f: Permutation, rate: nat, s: Lanes, k: nat): byte
    requires 1 <= rate <= STATE_BYTES
  {
    StateBytes(Iter(f, k / rate, s))[k % rate]
  }

  // How many permutations reading on to position `end` takes: the last one is lazy.
  function Blocks(end: nat, rate: nat): nat
    requires rate > 0
  {
    if end == 0 then 0 else (end - 1) / rate
  }

  lemma BlocksBound(end: nat, rate: nat)
    requires rate > 0
    ensures 0 <= end - rate * Blocks(end, rate) <= rate
  {
  }

  function Squeeze(f: Permutation, rate: nat, s: SpongeState, len: nat): (SpongeState, Bytes)
    requires 1 <= rate <= STATE_BYTES
  {
    var blocks := Blocks(s.pos + len, rate);
    BlocksBound(s.pos + len, rate);
    (SpongeState(Iter(f, blocks, s.lanes), s.pos + len - rate * blocks, true),
     seq<byte>(len, i requires 0 <= i < len => StreamAt(f, rate, s.lanes, s.pos + i)))
  }

  lemma StreamShift(f: Permutation, rate: nat, s: Lanes, blocks: nat, k: nat)
    requires 1 <= rate <= STATE_BYTES
    ensures StreamAt(f, rate, Iter(f, blocks, s), k) == StreamAt(f, rate, s, rate * blocks + k)
  {
    hide StateBytes;
    ShiftDivMod(rate, blocks, k);
    IterAdd(f, k / rate, blocks, s);
  }

  lemma ShiftDivMod(rate: nat, blocks: nat, k: nat)
    requires rate > 0
    ensures (rate * blocks + k) / rate == blocks + k / rate
    ensures (rate * blocks + k) % rate == k % rate
  {
    var q, rem := k / rate, k % rate;
    Distribute(rate, blocks, q);
    DivMod(rate * blocks + k, rate, blocks + q, rem);
  }

  lemma Distribute(r: nat, a: nat, b: nat)
    ensures r * (a + b) == r * a + r * b
  {
  }

  lemma BlocksAdd(pos: nat, a: nat, b: nat, rate: nat)
    requires rate > 0 && pos <= rate
    ensures var p1 := pos + a - rate * Blocks(pos + a, rate);
            0 <= p1 && Blocks(pos + a + b, rate) == Blocks(pos + a, rate) + Blocks(p1 + b, rate)
  {
    var m := Blocks(pos + a, rate);
    BlocksBound(pos + a, rate);
    var p1 := pos + a - rate * m;
    if p1 + b > 0 {
      var q, rem := (p1 + b - 1) / rate, (p1 + b - 1) % rate;
      assert pos + a + b - 1 == rate * m + rate * q + rem;
      Distribute(rate, m, q);
      DivMod(pos + a + b - 1, rate, m + q, rem);
    }
  }

  lemma SqueezeSplitState(f: Permutation, rate: nat, s: SpongeState, a: nat, b: nat)
    requires 1 <= rate <= STATE_BYTES && s.pos <= rate
    ensures Squeeze(f, rate, s, a + b).0 == Squeeze(f, rate, Squeeze(f, rate, s, a).0, b).0
  {
    hide StreamAt, Blocks;
    var first := Squeeze(f, rate, s, a).0;
    var m, m2 := Blocks(s.pos + a, rate), Blocks(first.pos + b, rate);
    BlocksAdd(s.pos, a, b, rate);
    Distribute(rate, m, m2);
    IterAdd(f, m2, m, s.lanes);
  }

  // Squeezing twice is squeezing once: the same octets and the same state.
  lemma SqueezeSplit(f: Permutation, rate: nat, s: SpongeState, a: nat, b: nat)
    requires 1 <= rate <= STATE_BYTES && s.pos <= rate
    ensures var first := Squeeze(f, rate, s, a);
            var second := Squeeze(f, rate, first.0, b);
            Squeeze(f, rate, s, a + b) == (second.0, first.1 + second.1)
  {
    hide StreamAt, Blocks;
    var first := Squeeze(f, rate, s, a);
    var second := Squeeze(f, rate, first.0, b);
    var m := Blocks(s.pos + a, rate);
    SqueezeSplitState(f, rate, s, a, b);
    var whole := Squeeze(f, rate, s, a + b);
    forall i | 0 <= i < b
      ensures second.1[i] == whole.1[a + i]
    {
      StreamShift(f, rate, s.lanes, m, first.0.pos + i);
    }
    assert whole.1 == first.1 + second.1;
  }

  // ---- The sponge object --------------------------------------------------------------------------

  class KeccakSponge {
    const f: Permutation
    const rateBytes: nat
    const state: array<u64>
    var squeezePos: nat
    var squeezing: bool

    ghost predicate Valid()
      reads this
    {
      1 <= rateBytes <= STATE_BYTES && state.Length == STATE_LANES && squeezePos <= rateBytes
    }

    function State(): SpongeState
      requires Valid()
      reads this, state
    {
      SpongeState(state[..], squeezePos, squeezing)
    }

    constructor (f: Permutation, rateBytes: nat)
      requires 1 <= rateBytes <= STATE_BYTES
      ensures Valid() && fresh(state)
      ensures this.f == f && this.rateBytes == rateBytes
      ensures State() == SpongeState(ZeroState(), 0, false)
    {
      this.f, this.rateBytes := f, rateBytes;
      state := new u64[STATE_LANES](_ => 0);
      squeezePos, squeezing := 0, false;
      new;
      assert state[..] == ZeroState();
    }

    method Permute()
      requires Valid()
      modifies state
      ensures state[..] == f(old(state[..]))
    {
      var next := f(state[..]);
      forall i | 0 <= i < STATE_LANES {
        state[i] := next[i];
      }
    }

    method XorBlockIntoState(block: Bytes)
      requires Valid() && |block| <= rateBytes
      modifies state
      ensures state[..] == XorBlock(old(state[..]), block)
    {
      hide Xor64, Lane;
      ghost var target := XorBlock(state[..], block);
      var i := 0;
      while 8 * i < |block|
        invariant i <= STATE_LANES
        invariant forall k :: 0 <= k < i ==> state[k] == target[k]
        invariant forall k :: i <= k < STATE_LANES ==> state[k] == old(state[k])
        invariant 8 * i < |block| + 8
      {
        state[i] := Xor64(state[i], Lane(Chunk(block, i)));
        i := i + 1;
      }
    }

    method PadTenStarOne(input: Bytes) returns (out: Bytes)
      requires Valid()
      ensures out == Pad(input, rateBytes)
    {
      out := input;
      var rem := |out| % rateBytes;
      var padLen := rateBytes - rem;
      if padLen == 1 {
        out := out + [0x81];
      } else {
        out := out + [0x01];
        out := out + ZeroBytes(padLen - 2);
        out := out + [0x80];
        assert out == input + ([0x01] + ZeroBytes(padLen - 2) + [0x80]);
      }
    }

    // The caller must not have squeezed yet.
    method Absorb(input: Bytes)
      requires Valid() && !squeezing
      modifies state
      ensures state[..] == AbsorbBlocks(f, rateBytes, old(state[..]), Pad(input, rateBytes))
    {
      hide XorBlock, Pad;
      var padded := PadTenStarOne(input);
      var rest := padded;
      while rest != []
        invariant |rest| % rateBytes == 0
        invariant AbsorbBlocks(f, rateBytes, state[..], rest) ==
                  AbsorbBlocks(f, rateBytes, old(state[..]), padded)
        decreases |rest|
      {
        DropBlock(|rest|, rateBytes);
        XorBlockIntoState(rest[..rateBytes]);
        Permute();
        rest := rest[rateBytes..];
      }
    }

    method StateAsBytes() returns (out: array<byte>)
      requires Valid()
      ensures fresh(out) && out[..] == StateBytes(state[..])
    {
      hide ToLe;
      out := new byte[STATE_BYTES](_ => 0);
      var i := 0;
      while i < STATE_LANES
        invariant 0 <= i <= STATE_LANES
        invariant forall k :: 0 <= k < 8 * i ==> out[k] == StateBytes(state[..])[k]
      {
        var lane := ToLe(state[i], 8);
        forall j | 0 <= j < 8 {
          out[8 * i + j] := lane[j];
        }
        StateBytesSlice(state[..], i);
        assert forall k :: 8 * i <= k < 8 * i + 8 ==>
          out[k] == StateBytes(state[..])[8 * i..8 * i + 8][k - 8 * i];
        i := i + 1;
      }
    }

    method SqueezeBytes(len: nat) returns (out: Bytes)
      requires Valid()
      modifies this`squeezePos, this`squeezing, state
      ensures Valid()
      ensures (State(), out) == Squeeze(f, rateBytes, old(State()), len)
    {
      hide Squeeze, StateBytes;
      ghost var start := old(State()).(squeezing := true);
      squeezing := true;
      out := [];
      SqueezeNothing(f, rateBytes, start);
      while |out| < len
        invariant Valid() && squeezing && |out| <= len
        invariant (State(), out) == Squeeze(f, rateBytes, start, |out|)
        decreases len - |out|
      {
        ghost var before, had := State(), out;
        if squeezePos == rateBytes {
          Permute();
          squeezePos := 0;
        }
        var stateBytes := StateAsBytes();
        var available := rateBytes - squeezePos;
        var take := Min(available, len - |out|);
        out := out + stateBytes[squeezePos..squeezePos + take];
        squeezePos := squeezePos + take;
        SqueezeWithinBlock(f, rateBytes, before, take);
        SqueezeSplit(f, rateBytes, start, |had|, take);
      }
      SqueezeIgnoresFlag(f, rateBytes, old(State()), len);
    }
  }

  lemma SqueezeNothing(f: Permutation, rate: nat, s: SpongeState)
    requires 1 <= rate <= STATE_BYTES && s.pos <= rate && s.squeezing
    ensures Squeeze(f, rate, s, 0) == (s, [])
  {
    if s.pos > 0 {
      DivMod(s.pos - 1, rate, 0, s.pos - 1);
    }
    assert Blocks(s.pos + 0, rate) == 0;
    assert rate * 0 == 0;
    assert Squeeze(f, rate, s, 0).1 == [];
  }

  lemma SqueezeIgnoresFlag(f: Permutation, rate: nat, s: SpongeState, len: nat)
    requires 1 <= rate <= STATE_BYTES
    ensures Squeeze(f, rate, s, len) == Squeeze(f, rate, s.(squeezing := true), len)
  {
  }

  // What one pass of the squeezing loop does: permute if the block is used up, then copy.
  lemma SqueezeWithinBlock(f: Permutation, rate: nat, s: SpongeState, take: nat)
    requires 1 <= rate <= STATE_BYTES && s.pos <= rate && take > 0
    requires take <= if s.pos == rate then rate else rate - s.pos
    ensures var lanes := if s.pos == rate then f(s.lanes) else s.lanes;
            var pos := if s.pos == rate then 0 else s.pos;
            Squeeze(f, rate, s, take) == (SpongeState(lanes, pos + take, true), StateBytes(lanes)[pos..pos + take])
  {
    hide StateBytes, StreamAt;
    var lanes := if s.pos == rate then f(s.lanes) else s.lanes;
    var pos := if s.pos == rate then 0 else s.pos;
    var m := if s.pos == rate then 1 else 0;
    IterOnce(f, s.lanes);
    DivMod(s.pos + take - 1, rate, m, pos + take - 1);
    assert rate * m == if s.pos == rate then rate else 0;
    var out := Squeeze(f, rate, s, take).1;
    forall i | 0 <= i < take
      ensures out[i] == StateBytes(lanes)[pos..pos + take][i]
    {
      StreamInBlock(f, rate, s.lanes, m, pos + i);
    }
    assert out == StateBytes(lanes)[pos..pos + take];
  }

  lemma IterOnce(f: Permutation, s: Lanes)
    ensures Iter(f, 0, s) == s && Iter(f, 1, s) == f(s)
  {
    assert Iter(f, 1, s) == f(Iter(f, 0, s));
  }

  lemma StreamInBlock(f: Permutation, rate: nat, s: Lanes, m: nat, k: nat)
    requires 1 <= rate <= STATE_BYTES && k < rate
    ensures StreamAt(f, rate, s, rate * m + k) == StateBytes(Iter(f, m, s))[k]
  {
    hide StateBytes;
    DivMod(rate * m + k, rate, m, k);
  }

  // ---- One shot, against the octet-string reference --------------------------------------------

  function ZeroState(): (s: Lanes)
    ensures forall i :: 0 <= i < STATE_LANES ==> s[i] == 0
  {
    seq<u64>(STATE_LANES, _ => 0)
  }

  method AbsorbAndSqueeze(f: Permutation, rate: nat, input: Bytes, len: nat) returns (out: Bytes)
    requires 1 <= rate <= STATE_BYTES
    ensures out == OneShot(f, rate, input, len)
  {
    var sponge := new KeccakSponge(f, rate);
    sponge.Absorb(input);
    out := sponge.SqueezeBytes(len);
  }

  function OneShot(f: Permutation, rate: nat, input: Bytes, len: nat): (r: Bytes)
    requires 1 <= rate <= STATE_BYTES
    ensures |r| == len
  {
    Squeeze(f, rate, SpongeState(AbsorbBlocks(f, rate, ZeroState(), Pad(input, rate)), 0, false), len).1
  }

  function ByteIter(f: Permutation, n: nat, b: Bytes): (r: Bytes)
    requires |b| == STATE_BYTES
    ensures |r| == STATE_BYTES
  {
    if n == 0 then b else OnBytes(f, ByteIter(f, n - 1, b))
  }

  function ByteStreamAt(f: Permutation, rate: nat, b: Bytes, i: nat): byte
    requires 1 <= rate <= STATE_BYTES && |b| == STATE_BYTES
  {
    ByteIter(f, i / rate, b)[i % rate]
  }

  lemma {:induction false} IterIsByteIter(f: Permutation, n: nat, s: Lanes)
    ensures StateBytes(Iter(f, n, s)) == ByteIter(f, n, StateBytes(s))
  {
    hide StateBytes, LanesOf;
    if n > 0 {
      IterIsByteIter(f, n - 1, s);
      LanesOfStateBytes(Iter(f, n - 1, s));
    }
  }

  // Octet `i` of the output is octet i mod rate of the reference state after absorbing the
  // padded input from all zeros and permuting i / rate times more.
  lemma OneShotIsByteSponge(f: Permutation, rate: nat, input: Bytes, len: nat, i: nat)
    requires 1 <= rate <= STATE_BYTES && i < len
    ensures OneShot(f, rate, input, len)[i] ==
            ByteStreamAt(f, rate, ByteSponge(f, rate, ZeroBytes(STATE_BYTES), Pad(input, rate)), i)
  {
    hide StateBytes, AbsorbBlocks, ByteSponge, Pad, ZeroBytes, OneShot, Iter, ByteIter;
    var absorbed := AbsorbBlocks(f, rate, ZeroState(), Pad(input, rate));
    AbsorbIsByteSponge(f, rate, ZeroState(), Pad(input, rate));
    IterIsByteIter(f, i / rate, absorbed);
    ZeroStateBytes();
    OneShotAt(f, rate, input, len, i);
  }

  lemma OneShotAt(f: Permutation, rate: nat, input: Bytes, len: nat, i: nat)
    requires 1 <= rate <= STATE_BYTES && i < len
    ensures OneShot(f, rate, input, len)[i] ==
            StreamAt(f, rate, AbsorbBlocks(f, rate, ZeroState(), Pad(input, rate)), i)
  {
    hide StreamAt, AbsorbBlocks, Pad;
  }

  lemma ZeroStateBytes()
    ensures StateBytes(ZeroState()) == ZeroBytes(STATE_BYTES)
  {
    hide ToLe;
    ZeroLe(8);
    var s := StateBytes(ZeroState());
    forall i | 0 <= i < STATE_BYTES
      ensures s[i] == 0
    {
      assert s[i] == ToLe(ZeroState()[i / 8], 8)[i % 8];
    }
  }

  lemma {:induction false} ZeroLe(n: nat)
    ensures forall i :: 0 <= i < n ==> ToLe(0, n)[i] == 0
  {
    if n > 0 {
      ZeroLe(n - 1);
    }
  }
}
