// The ALIGNED PER rules as functions on bit strings: what the writer appends and
// what the reader makes of a position. The engine's two classes (per_engine.dfy)
// are proved against these functions; the round trips are proved about them.
module Per {
  import opened Bits

  const LENGTH_LIMIT: nat := 16_384

  // 64 - leading_zeros(v)
  function BitLength(v: nat): nat {
    if v == 0 then 0 else 1 + BitLength(v / 2)
  }

  function BitsForRange(range: nat): nat {
    if range <= 1 then 0 else BitLength(range - 1)
  }

  lemma {:induction false} BitLengthBounds(v: nat)
    ensures v < Pow2(BitLength(v))
    ensures v > 0 ==> BitLength(v) > 0 && Pow2(BitLength(v) - 1) <= v
  {
    if v > 1 {
      BitLengthBounds(v / 2);
    }
  }

  lemma BitsForRangeIsLeast(range: nat, n: nat)
    requires range >= 1
    ensures range <= Pow2(BitsForRange(range))
    ensures range <= Pow2(n) ==> BitsForRange(range) <= n
  {
    if range > 1 {
      BitLengthBounds(range - 1);
      if n < BitsForRange(range) {
        Pow2Monotone(n, BitsForRange(range) - 1);
      }
    }
  }

  lemma BitsForRangeIs(range: nat, n: nat)
    requires n > 0 && Pow2(n - 1) < range <= Pow2(n)
    ensures BitsForRange(range) == n
  {
    BitsForRangeIsLeast(range, n);
    if BitsForRange(range) < n {
      Pow2Monotone(BitsForRange(range), n - 1);
    }
  }

  // ---- Writing -------------------------------------------------------------

  function AlignUp(n: nat): (r: nat)
    ensures n <= r < n + 8 && r % 8 == 0
    ensures n % 8 == 0 ==> r == n
  {
    if n % 8 == 0 then n else n + (8 - n % 8)
  }

  function Zeros(n: nat): (r: seq<bool>)
    ensures |r| == n
  {
    seq(n, _ => false)
  }

  function Align(w: seq<bool>): (r: seq<bool>)
    ensures w <= r && |r| == AlignUp(|w|)
  {
    w + Zeros(AlignUp(|w|) - |w|)
  }

  function IntOctets(range: nat): nat {
    (BitsForRange(range) + 7) / 8
  }

  function WriteInt(w: seq<bool>, v: nat, min: nat, max: nat): (r: seq<bool>)
    requires min <= v <= max
    ensures w <= r
  {
    var range := max - min + 1;
    if range <= 1 then w
    else if BitsForRange(range) <= 8 then w + BitsOf(v - min, BitsForRange(range))
    else Align(w) + BitsOf(v - min, 8 * IntOctets(range))
  }

  function WriteLength(w: seq<bool>, len: nat): (r: seq<bool>)
    requires len < LENGTH_LIMIT
    ensures w <= r && |r| % 8 == 0
  {
    if len < 128 then Align(w) + [false] + BitsOf(len, 7)
    else Align(w) + [true, false] + BitsOf(len, 14)
  }

  // How many octets the length determinant takes.
  function LengthOctets(len: nat): nat { if len < 128 then 1 else 2 }

  lemma LengthWritten(w: seq<bool>, len: nat)
    requires len < LENGTH_LIMIT
    ensures |WriteLength(w, len)| == AlignUp(|w|) + 8 * LengthOctets(len)
  {
  }

  lemma StringWritten(w: seq<bool>, data: Bytes)
    requires |data| < LENGTH_LIMIT
    ensures |WriteString(w, data)| == AlignUp(|w|) + 8 * (LengthOctets(|data|) + |data|)
  {
    hide WriteLength;
    LengthWritten(w, |data|);
  }

  // Values up to `max` take `n` bits.
  predicate Width(max: nat, n: nat) {
    n > 0 && Pow2(n - 1) <= max < Pow2(n)
  }

  // A packed field takes its width, a wider one whole octets from the next boundary on.
  lemma IntWritten(w: seq<bool>, v: nat, max: nat, n: nat)
    requires v <= max && Width(max, n)
    ensures |WriteInt(w, v, 0, max)| == if n <= 8 then |w| + n else AlignUp(|w|) + 8 * ((n + 7) / 8)
  {
    BitsForRangeIs(max + 1, n);
    assert max + 1 > 1 by { assert Pow2(n - 1) >= 1; }
  }

  function WriteOctets(w: seq<bool>, data: Bytes): (r: seq<bool>)
    ensures w <= r
  {
    w + BytesBits(data)
  }

  function WriteString(w: seq<bool>, data: Bytes): (r: seq<bool>)
    requires |data| < LENGTH_LIMIT
    ensures w <= r
  {
    WriteOctets(WriteLength(w, |data|), data)
  }

  function IntoBytes(w: seq<bool>): (r: Bytes)
    ensures 8 * |r| == AlignUp(|w|)
  {
    PackBytes(Align(w))
  }

  // ---- Reading -------------------------------------------------------------

  datatype Read<+T> = Fail | Got(value: T, pos: nat)

  function ReadBits(b: seq<bool>, pos: nat, n: nat): Read<nat> {
    if pos + n <= |b| then Got(Value(b[pos..pos + n]), pos + n) else Fail
  }

  function ReadInt(b: seq<bool>, pos: nat, min: nat, max: nat): Read<nat>
    requires min <= max
  {
    var range := max - min + 1;
    if range <= 1 then Got(min, pos)
    else
      var r := if BitsForRange(range) <= 8 then ReadBits(b, pos, BitsForRange(range))
               else ReadBits(b, AlignUp(pos), 8 * IntOctets(range));
      if r.Fail? then Fail else Got(min + r.value, r.pos)
  }

  // None of the four-octet (fragmented) forms is understood.
  function ReadLength(b: seq<bool>, pos: nat): Read<nat> {
    var p := AlignUp(pos);
    if p >= |b| then Fail
    else if !b[p] then ReadBits(b, p + 1, 7)
    else if p + 1 >= |b| || b[p + 1] then Fail
    else ReadBits(b, p + 2, 14)
  }

  function ReadOctets(b: seq<bool>, pos: nat, n: nat): (r: Read<Bytes>)
    ensures r.Got? ==> |r.value| == n
  {
    var p := AlignUp(pos);
    if p + 8 * n <= |b| then Got(PackBytes(b[p..p + 8 * n]), p + 8 * n) else Fail
  }

  function ReadString(b: seq<bool>, pos: nat): Read<Bytes> {
    var len := ReadLength(b, pos);
    if len.Fail? then Fail else ReadOctets(b, len.pos, len.value)
  }

  // ---- One field ------------------------------------------------------------

  lemma Appended(w: seq<bool>, x: seq<bool>, b: seq<bool>)
    requires w + x <= b
    ensures b[|w|..|w| + |x|] == x
  {
  }

  lemma BitsRoundTrip(w: seq<bool>, v: nat, n: nat, b: seq<bool>)
    requires v < Pow2(n) && w + BitsOf(v, n) <= b
    ensures ReadBits(b, |w|, n) == Got(v, |w| + n)
  {
    hide BitsOf, Value, Pow2;
    ValueOfBitsOf(v, n);
    Appended(w, BitsOf(v, n), b);
  }

  // `b` is what the reader holds and begins with everything written so far. The reader
  // is where the writer was before the field.
  lemma IntRoundTrip(w: seq<bool>, v: nat, min: nat, max: nat, b: seq<bool>)
    requires min <= v <= max && WriteInt(w, v, min, max) <= b
    ensures ReadInt(b, |w|, min, max) == Got(v, |WriteInt(w, v, min, max)|)
  {
    hide BitsOf, Value, Pow2, BitsForRange, ReadBits, Align;
    var range := max - min + 1;
    if range > 1 {
      var n := BitsForRange(range);
      BitsForRangeIsLeast(range, n);
      if n <= 8 {
        BitsRoundTrip(w, v - min, n, b);
      } else {
        var m := 8 * IntOctets(range);
        Pow2Monotone(n, m);
        BitsRoundTrip(Align(w), v - min, m, b);
      }
    }
  }

  lemma LengthRoundTrip(w: seq<bool>, len: nat, b: seq<bool>)
    requires len < LENGTH_LIMIT && WriteLength(w, len) <= b
    ensures ReadLength(b, |w|) == Got(len, |WriteLength(w, len)|)
  {
    hide BitsOf, Value, Pow2, ReadBits, Align;
    Pow2Values();
    var a, w' := Align(w), WriteLength(w, len);
    if len < 128 {
      BitsRoundTrip(a + [false], len, 7, b);
      assert b[|a|] == w'[|a|] == (a + [false])[|a|];
    } else {
      BitsRoundTrip(a + [true, false], len, 14, b);
      assert b[|a|] == w'[|a|] == (a + [true, false])[|a|];
      assert b[|a| + 1] == w'[|a| + 1] == (a + [true, false])[|a| + 1];
    }
  }

  lemma OctetsRoundTrip(w: seq<bool>, data: Bytes, b: seq<bool>)
    requires |w| % 8 == 0 && WriteOctets(w, data) <= b
    ensures ReadOctets(b, |w|, |data|) == Got(data, |WriteOctets(w, data)|)
  {
    hide BytesBits, PackBytes;
    Appended(w, BytesBits(data), b);
    PackBytesOfBytesBits(data);
  }

  lemma StringRoundTrip(w: seq<bool>, data: Bytes, b: seq<bool>)
    requires |data| < LENGTH_LIMIT && WriteString(w, data) <= b
    ensures ReadString(b, |w|) == Got(data, |WriteString(w, data)|)
  {
    LengthRoundTrip(w, |data|, b);
    OctetsRoundTrip(WriteLength(w, |data|), data, b);
  }

  // The writer does not align before raw octets and the reader always does: the two
  // stay in step exactly when the writer stood on an octet boundary.
  lemma RawOctetsInStep(w: seq<bool>, data: Bytes, b: seq<bool>)
    requires WriteOctets(w, data) <= b
    ensures |w| % 8 == 0 <==>
            ReadOctets(b, |w|, |data|).Got? && ReadOctets(b, |w|, |data|).pos == |WriteOctets(w, data)|
  {
    if |w| % 8 == 0 {
      OctetsRoundTrip(w, data, b);
    }
  }

  // A PDU-session item prefix (8 + 6 bits) without the alignment step: the first
  // octet after it comes back wrong.
  lemma UnalignedOctetsMisread(id: byte, qfi: nat)
    requires qfi <= 63
    ensures var w := WriteInt(WriteInt([], id, 0, 255), qfi, 0, 63);
            ReadOctets(WriteOctets(w, [0xC0, 0]), |w|, 1) == Got([0], 24)
  {
    Pow2Values();
    assert Pow2(6) == 64;
    BitsForRangeIs(256, 8);
    BitsForRangeIs(64, 6);
    ShiftedOctet(WriteInt(WriteInt([], id, 0, 255), qfi, 0, 63));
  }

  lemma ShiftedOctet(w: seq<bool>)
    requires |w| == 14
    ensures ReadOctets(WriteOctets(w, [0xC0, 0]), 14, 1) == Got([0], 24)
  {
    var b := WriteOctets(w, [0xC0, 0]);
    TwoOctets();
    assert b[16..24] == BytesBits([0xC0, 0])[2..10] == Zeros(8);
    ValueZeros(8);
    assert Zeros(8)[..8] == Zeros(8);
    assert PackBytes(Zeros(8)) == [0];
  }

  lemma TwoOctets()
    ensures BytesBits([0xC0, 0])[2..10] == Zeros(8)
  {
    assert [0xC0, 0][1..] == [0];
    assert BytesBits([0]) == ByteBits(0) + BytesBits([0][1..]);
    assert BytesBits([0xC0, 0]) == ByteBits(0xC0) + BytesBits([0]);
    forall i | 2 <= i < 8
      ensures !ByteBits(0xC0)[i]
    {
      BitsOfAt(0xC0, 8, i);
    }
    forall i | 0 <= i < 8
      ensures !ByteBits(0)[i]
    {
      BitsOfAt(0, 8, i);
      ShrZero(7 - i);
    }
  }

  lemma {:induction false} ShrZero(k: nat)
    ensures Shr(0, k) == 0
  {
    if k > 0 {
      ShrZero(k - 1);
    }
  }

  lemma {:induction false} ValueZeros(n: nat)
    ensures Value(Zeros(n)) == 0
  {
    if n > 0 {
      ValueZeros(n - 1);
      assert Zeros(n)[..n - 1] == Zeros(n - 1);
    }
  }

  // ---- Any list of fields -----------------------------------------------------

  datatype Field =
    | FBits(v: nat, n: nat)
    | FInt(v: nat, min: nat, max: nat)
    | FLength(len: nat)
    | FAlign
    | FOctets(data: Bytes)
    | FString(data: Bytes)

  // What the reader has to know in advance.
  datatype Shape =
    | SBits(n: nat)
    | SInt(min: nat, max: nat)
    | SLength
    | SAlign
    | SOctets(n: nat)
    | SString

  function ShapeOf(f: Field): Shape {
    match f
    case FBits(_, n) => SBits(n)
    case FInt(_, min, max) => SInt(min, max)
    case FLength(_) => SLength
    case FAlign => SAlign
    case FOctets(data) => SOctets(|data|)
    case FString(_) => SString
  }

  predicate ValidField(f: Field) {
    match f
    case FBits(v, n) => n <= 64 && v < Pow2(n)
    case FInt(v, min, max) => min <= v <= max
    case FLength(len) => len < LENGTH_LIMIT
    case FAlign => true
    case FOctets(_) => true
    case FString(data) => |data| < LENGTH_LIMIT
  }

  function WriteField(w: seq<bool>, f: Field): (r: seq<bool>)
    requires ValidField(f)
    ensures w <= r
  {
    match f
    case FBits(v, n) => w + BitsOf(v, n)
    case FInt(v, min, max) => WriteInt(w, v, min, max)
    case FLength(len) => WriteLength(w, len)
    case FAlign => Align(w)
    case FOctets(data) => WriteOctets(w, data)
    case FString(data) => WriteString(w, data)
  }

  predicate ValidFields(w: seq<bool>, fs: seq<Field>)
    decreases |fs|
  {
    fs != [] ==>
      && ValidField(fs[0])
      && (fs[0].FOctets? ==> |w| % 8 == 0)
      && ValidFields(WriteField(w, fs[0]), fs[1..])
  }

  function WriteFields(w: seq<bool>, fs: seq<Field>): (r: seq<bool>)
    requires ValidFields(w, fs)
    ensures w <= r
    decreases |fs|
  {
    if fs == [] then w else WriteFields(WriteField(w, fs[0]), fs[1..])
  }

  function Lift<T, U>(r: Read<T>, f: T -> U): Read<U> {
    if r.Fail? then Fail else Got(f(r.value), r.pos)
  }

  function ReadField(b: seq<bool>, pos: nat, s: Shape): Read<Field>
    requires s.SInt? ==> s.min <= s.max
  {
    match s
    case SBits(n) => Lift(ReadBits(b, pos, n), v => FBits(v, n))
    case SInt(min, max) => Lift(ReadInt(b, pos, min, max), v => FInt(v, min, max))
    case SLength => Lift(ReadLength(b, pos), v => FLength(v))
    case SAlign => Got(FAlign, AlignUp(pos))
    case SOctets(n) => Lift(ReadOctets(b, pos, n), v => FOctets(v))
    case SString => Lift(ReadString(b, pos), v => FString(v))
  }

  // Reads field after field; each value comes with the position reached after it.
  function ReadFields(b: seq<bool>, pos: nat, shapes: seq<Shape>): Option<seq<(Field, nat)>>
    requires forall s :: s in shapes && s.SInt? ==> s.min <= s.max
    decreases |shapes|
  {
    if shapes == [] then Some([])
    else
      var r := ReadField(b, pos, shapes[0]);
      if r.Fail? then None
      else
        var rest := ReadFields(b, r.pos, shapes[1..]);
        if rest.None? then None else Some([(r.value, r.pos)] + rest.value)
  }

  function Shapes(fs: seq<Field>): (r: seq<Shape>)
    ensures |r| == |fs| && forall i :: 0 <= i < |fs| ==> r[i] == ShapeOf(fs[i])
  {
    seq(|fs|, i requires 0 <= i < |fs| => ShapeOf(fs[i]))
  }

  // Each field with the writer's bit length after it.
  function Written(w: seq<bool>, fs: seq<Field>): seq<(Field, nat)>
    requires ValidFields(w, fs)
    decreases |fs|
  {
    if fs == [] then []
    else [(fs[0], |WriteField(w, fs[0])|)] + Written(WriteField(w, fs[0]), fs[1..])
  }

  lemma FieldRoundTrip(w: seq<bool>, f: Field, b: seq<bool>)
    requires ValidField(f) && (f.FOctets? ==> |w| % 8 == 0) && WriteField(w, f) <= b
    ensures ReadField(b, |w|, ShapeOf(f)) == Got(f, |WriteField(w, f)|)
  {
    hide BitsOf, Pow2, WriteInt, WriteLength, WriteString, WriteOctets;
    hide ReadBits, ReadInt, ReadLength, ReadString, ReadOctets;
    match f {
      case FBits(v, n) => BitsRoundTrip(w, v, n, b);
      case FInt(v, min, max) => IntRoundTrip(w, v, min, max, b);
      case FLength(len) => LengthRoundTrip(w, len, b);
      case FAlign =>
      case FOctets(data) => OctetsRoundTrip(w, data, b);
      case FString(data) => StringRoundTrip(w, data, b);
    }
  }

  lemma {:induction false} ValidShapes(w: seq<bool>, fs: seq<Field>)
    requires ValidFields(w, fs)
    ensures forall s :: s in Shapes(fs) && s.SInt? ==> s.min <= s.max
    decreases |fs|
  {
    if fs != [] {
      ValidShapes(WriteField(w, fs[0]), fs[1..]);
      assert Shapes(fs) == [ShapeOf(fs[0])] + Shapes(fs[1..]);
    }
  }

  lemma {:induction false} FieldsRoundTripFrom(w: seq<bool>, fs: seq<Field>, b: seq<bool>)
    requires ValidFields(w, fs) && WriteFields(w, fs) <= b
    requires forall s :: s in Shapes(fs) && s.SInt? ==> s.min <= s.max
    ensures ReadFields(b, |w|, Shapes(fs)) == Some(Written(w, fs))
    decreases |fs|
  {
    if fs != [] {
      var w' := WriteField(w, fs[0]);
      assert Shapes(fs)[1..] == Shapes(fs[1..]);
      FieldsRoundTripFrom(w', fs[1..], b);
      FieldRoundTrip(w, fs[0], b);
    }
  }

  // Whatever list of fields is written, the mirrored reads over the finished bytes give
  // the same values, and after every field the reader's bit position is the bit length
  // the writer had reached.
  lemma FieldsRoundTrip(fs: seq<Field>)
    requires ValidFields([], fs)
    ensures forall s :: s in Shapes(fs) && s.SInt? ==> s.min <= s.max
    ensures ReadFields(BytesBits(IntoBytes(WriteFields([], fs))), 0, Shapes(fs)) == Some(Written([], fs))
  {
    ValidShapes([], fs);
    var w := WriteFields([], fs);
    BytesBitsOfPackBytes(Align(w));
    FieldsRoundTripFrom([], fs, Align(w));
  }
}
