// The PER writer and reader as the source runs them: a growing bit vector, and a byte
// string with an advancing bit position. Each method is tied to its function in Per.
module PerEngine {
  import opened Bits
  import Per

  class PerWriter {
    var bits: seq<bool>

    constructor ()
      ensures bits == []
    {
      bits := [];
    }

    method WriteBit(bit: bool)
      modifies this
      ensures bits == old(bits) + [bit]
    {
      bits := bits + [bit];
    }

    // Writes the low `n` bits of `value`, whatever lies above them.
    method WriteBits(value: u64, n: nat)
      requires n <= 64
      modifies this
      ensures bits == old(bits) + BitsOf(value, n)
    {
      var i := n;
      BitsOfNone(value, n);
      while i > 0
        invariant 0 <= i <= n
        invariant bits == old(bits) + BitsOf(Shr(value, i), n - i)
      {
        i := i - 1;
        ShrStep(value, i);
        bits := bits + [Shr(value, i) % 2 == 1];
      }
    }

    method Align()
      modifies this
      ensures bits == Per.Align(old(bits))
    {
      var rem := |bits| % 8;
      if rem != 0 {
        var k := 0;
        while k < 8 - rem
          invariant 0 <= k <= 8 - rem
          invariant bits == old(bits) + Per.Zeros(k)
        {
          bits := bits + [false];
          k := k + 1;
        }
      }
    }

    // No alignment: the caller stands on an octet boundary already.
    method WriteOctets(data: Bytes)
      modifies this
      ensures bits == Per.WriteOctets(old(bits), data)
    {
      hide BytesBits, BitsOf;
      var k := 0;
      BytesBitsNone();
      assert data[..0] == [];
      while k < |data|
        invariant 0 <= k <= |data|
        invariant bits == old(bits) + BytesBits(data[..k])
      {
        WriteBits(data[k], 8);
        BytesBitsAppend(data[..k], [data[k]]);
        BytesBitsOne(data[k]);
        assert data[..k] + [data[k]] == data[..k + 1];
        k := k + 1;
      }
      assert data[..|data|] == data;
    }

    // The source panics on a value outside the range.
    method WriteConstrainedInt(value: u64, min: u64, max: u64)
      requires min <= value <= max
      requires max - min + 1 < 0x1_0000_0000_0000_0000
      modifies this
      ensures bits == Per.WriteInt(old(bits), value, min, max)
    {
      var range := max - min + 1;
      var v: u64 := value - min;
      if range <= 1 {
        return;
      }
      var numBits := Per.BitsForRange(range);
      if numBits <= 8 {
        WriteBits(v, numBits);
      } else {
        Align();
        WriteIntOctets(v, (numBits + 7) / 8);
      }
    }

    // The octets of a wide constrained integer, most significant first.
    method WriteIntOctets(v: u64, numOctets: nat)
      modifies this
      ensures bits == old(bits) + BitsOf(v, 8 * numOctets)
    {
      hide Shr, BitsOf;
      var i := numOctets;
      BitsOfNone(v, 8 * numOctets);
      ShrNone(v);
      while i > 0
        invariant 0 <= i <= numOctets
        invariant bits == old(bits) + BitsOf(Shr(v, 8 * i), 8 * (numOctets - i))
      {
        i := i - 1;
        OctetStep(v, i, numOctets);
        WriteBits(Shr(v, 8 * i) % 0x100, 8);
      }
      assert Shr(v, 8 * 0) == v;
    }

    // The source panics at 16384 and above: fragmentation is not implemented.
    method WriteLengthDeterminant(len: nat)
      requires len < Per.LENGTH_LIMIT
      modifies this
      ensures bits == Per.WriteLength(old(bits), len)
    {
      Align();
      if len < 128 {
        WriteBit(false);
        WriteBits(len, 7);
      } else {
        WriteBit(true);
        WriteBit(false);
        WriteBits(len, 14);
      }
    }

    method WriteOctetString(data: Bytes)
      requires |data| < Per.LENGTH_LIMIT
      modifies this
      ensures bits == Per.WriteString(old(bits), data)
    {
      WriteLengthDeterminant(|data|);
      WriteOctets(data);
    }

    method IntoBytes() returns (out: Bytes)
      modifies this
      ensures out == Per.IntoBytes(old(bits))
    {
      Align();
      out := [];
      var k := 0;
      while 8 * k < |bits|
        invariant 8 * k <= |bits|
        invariant bits == Per.Align(old(bits))
        invariant out == PackBytes(bits[..8 * k])
      {
        var chunk := bits[8 * k..8 * k + 8];
        var b := PackChunk(chunk);
        PackBytesAppend(bits[..8 * k], chunk);
        PackBytesOne(chunk);
        assert bits[..8 * k] + chunk == bits[..8 * (k + 1)];
        out := out + [b];
        k := k + 1;
      }
      assert bits[..8 * k] == bits;
    }

    static method PackChunk(chunk: seq<bool>) returns (b: byte)
      requires |chunk| == 8
      ensures b == ByteOf(chunk)
    {
      var acc, i := 0, 0;
      assert chunk[..0] == [];
      while i < 8
        invariant 0 <= i <= 8
        invariant acc == Weight(chunk, i)
      {
        WeightStep(chunk, i);
        if chunk[i] {
          acc := acc + Pow2(7 - i);
        }
        i := i + 1;
      }
      assert chunk[..8] == chunk;
      ghost var whole := ByteOf(chunk);
      assert acc == whole;
      b := acc;
    }
  }

  class PerReader {
    const data: Bytes
    var bitPos: nat

    constructor (data: Bytes)
      ensures this.data == data && bitPos == 0
    {
      this.data := data;
      bitPos := 0;
    }

    predicate Valid()
      reads this
    {
      bitPos <= 8 * |data|
    }

    function AllBits(): (r: seq<bool>)
      ensures |r| == 8 * |data|
    {
      BytesBits(data)
    }

    method ReadBit() returns (r: Option<bool>)
      requires Valid()
      modifies this
      ensures Valid()
      ensures old(bitPos) < |AllBits()| ==> r == Some(AllBits()[old(bitPos)]) && bitPos == old(bitPos) + 1
      ensures old(bitPos) == |AllBits()| ==> r == None && bitPos == old(bitPos)
    {
      var byteIdx, bitIdx := bitPos / 8, bitPos % 8;
      if byteIdx >= |data| {
        return None;
      }
      BytesBitsAt(data, byteIdx, bitIdx);
      var bit := Shr(data[byteIdx], 7 - bitIdx) % 2 == 1;
      bitPos := bitPos + 1;
      return Some(bit);
    }

    // Running out of bits leaves the position at the end.
    method ReadBits(n: nat) returns (r: Option<nat>)
      requires Valid()
      modifies this
      ensures Valid()
      ensures Matches(r, bitPos, Per.ReadBits(AllBits(), old(bitPos), n))
      ensures r.None? ==> bitPos == |AllBits()|
    {
      hide Value, BytesBits;
      ghost var all, start := AllBits(), bitPos;
      var v, k := 0, 0;
      ValueNone(all, start);
      while k < n
        invariant 0 <= k <= n
        invariant Valid() && bitPos == start + k
        invariant v == Value(all[start..start + k])
      {
        var b := ReadBit();
        if b.None? {
          return None;
        }
        ValueSnoc(all, start, k);
        v := 2 * v + (if b.value then 1 else 0);
        k := k + 1;
      }
      return Some(v);
    }

    method Align()
      requires Valid()
      modifies this
      ensures Valid() && bitPos == Per.AlignUp(old(bitPos))
    {
      var rem := bitPos % 8;
      if rem != 0 {
        bitPos := bitPos + (8 - rem);
      }
    }

    method ReadConstrainedInt(min: u64, max: u64) returns (r: Option<nat>)
      requires Valid() && min <= max
      requires max - min + 1 < 0x1_0000_0000_0000_0000
      modifies this
      ensures Valid()
      ensures Matches(r, bitPos, Per.ReadInt(AllBits(), old(bitPos), min, max))
    {
      hide Value, BytesBits, Per.BitsForRange;
      var range := max - min + 1;
      if range <= 1 {
        return Some(min);
      }
      var numBits := Per.BitsForRange(range);
      var v;
      if numBits <= 8 {
        v := ReadBits(numBits);
      } else {
        Align();
        var numOctets := (numBits + 7) / 8;
        v := ReadBits(numOctets * 8);
      }
      if v.None? {
        return None;
      }
      return Some(min + v.value);
    }

    method ReadLengthDeterminant() returns (r: Option<nat>)
      requires Valid()
      modifies this
      ensures Valid()
      ensures Matches(r, bitPos, Per.ReadLength(AllBits(), old(bitPos)))
    {
      Align();
      var b0 := ReadBit();
      if b0.None? {
        return None;
      }
      if !b0.value {
        r := ReadBits(7);
      } else {
        var b1 := ReadBit();
        if b1.None? || b1.value {
          return None;
        }
        r := ReadBits(14);
      }
    }

    method ReadOctets(n: nat) returns (r: Option<Bytes>)
      requires Valid()
      modifies this
      ensures Valid()
      ensures Matches(r, bitPos, Per.ReadOctets(AllBits(), old(bitPos), n))
    {
      hide BytesBits, PackBytes, Value, Pow2;
      Align();
      ghost var p := bitPos;
      PackBytesNone();
      assert AllBits()[p..p] == [];
      var out: Bytes, k := [], 0;
      while k < n
        invariant 0 <= k <= n
        invariant Valid() && bitPos == p + 8 * k
        invariant out == PackBytes(AllBits()[p..bitPos])
      {
        ghost var q := bitPos;
        var v := ReadBits(8);
        if v.None? {
          return None;
        }
        ghost var chunk := AllBits()[q..q + 8];
        ValueBound(chunk);
        Pow2Values();
        PackBytesAppend(AllBits()[p..q], chunk);
        PackBytesOne(chunk);
        assert AllBits()[p..q] + chunk == AllBits()[p..bitPos];
        out := out + [v.value];
        k := k + 1;
      }
      return Some(out);
    }

    method ReadOctetString() returns (r: Option<Bytes>)
      requires Valid()
      modifies this
      ensures Valid()
      ensures Matches(r, bitPos, Per.ReadString(AllBits(), old(bitPos)))
    {
      var len := ReadLengthDeterminant();
      if len.None? {
        return None;
      }
      r := ReadOctets(len.value);
    }
  }

  // A reader method's result and final position are those of the function.
  ghost predicate Matches<T>(r: Option<T>, pos: nat, spec: Per.Read<T>) {
    if spec.Fail? then r.None? else r == Some(spec.value) && pos == spec.pos
  }

  lemma OctetStep(v: nat, i: nat, n: nat)
    requires i < n
    ensures BitsOf(Shr(v, 8 * i), 8 * (n - i)) ==
            BitsOf(Shr(v, 8 * (i + 1)), 8 * (n - i - 1)) + BitsOf(Shr(v, 8 * i) % 0x100, 8)
  {
    BitsOfMask8(Shr(v, 8 * i));
    ShrAdd(v, 8 * i, 8);
    BitsOfSplit(Shr(v, 8 * i), 8 * (n - i - 1), 8);
  }

  // What the first `i` bits of a chunk contribute to its byte.
  ghost function Weight(chunk: seq<bool>, i: nat): nat
    requires |chunk| == 8 && i <= 8
  {
    Value(chunk[..i]) * Pow2(8 - i)
  }

  lemma WeightStep(chunk: seq<bool>, i: nat)
    requires |chunk| == 8 && i < 8
    ensures Weight(chunk, i + 1) == Weight(chunk, i) + (if chunk[i] then Pow2(7 - i) else 0)
  {
    hide Value, Pow2;
    var v, b, p := Value(chunk[..i]), if chunk[i] then 1 else 0, Pow2(7 - i);
    assert chunk[..i] == chunk[0..0 + i] && chunk[..i + 1] == chunk[0..0 + i + 1];
    ValueSnoc(chunk, 0, i);
    Pow2Step(8 - i);
    DoubleAdd(v, b, p);
  }

  lemma DoubleAdd(v: nat, b: nat, p: nat)
    ensures (2 * v + b) * p == v * (2 * p) + b * p
  {
  }

  lemma BytesBitsNone()
    ensures BytesBits([]) == []
  {
  }

  lemma PackBytesNone()
    ensures PackBytes([]) == []
  {
  }

  lemma ShrNone(v: nat)
    ensures Shr(v, 0) == v
  {
  }

  lemma BitsOfNone(v: nat, n: nat)
    ensures BitsOf(Shr(v, n), 0) == []
  {
  }

  lemma BytesBitsOne(b: byte)
    ensures BytesBits([b]) == BitsOf(b, 8)
  {
    assert [b][1..] == [];
  }

  lemma PackBytesOne(chunk: seq<bool>)
    requires |chunk| == 8
    ensures PackBytes(chunk) == [ByteOf(chunk)]
  {
    assert chunk[..8] == chunk && chunk[8..] == [];
  }

  lemma ValueNone(b: seq<bool>, pos: nat)
    requires pos <= |b|
    ensures Value(b[pos..pos + 0]) == 0
  {
  }

  // One more bit doubles the number and adds the bit.
  lemma ValueSnoc(b: seq<bool>, pos: nat, k: nat)
    requires pos + k < |b|
    ensures Value(b[pos..pos + k + 1]) == 2 * Value(b[pos..pos + k]) + (if b[pos + k] then 1 else 0)
  {
    var more := b[pos..pos + k + 1];
    assert more[..k] == b[pos..pos + k];
    assert more[k] == b[pos + k];
  }

  lemma BytesBitsAt(data: Bytes, k: nat, j: nat)
    requires k < |data| && j < 8
    ensures BytesBits(data)[8 * k + j] == (Shr(data[k], 7 - j) % 2 == 1)
  {
    BytesBitsSlice(data, k, 1);
    BytesBitsOne(data[k]);
    assert data[k..k + 1] == [data[k]];
    assert BytesBits(data)[8 * k..8 * (k + 1)][j] == BitsOf(data[k], 8)[j];
    BitsOfAt(data[k], 8, j);
  }
}
