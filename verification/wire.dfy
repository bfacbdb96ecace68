// What the bit-level writers put on the wire, octet by octet: every field of a container, of
// the PDU around it and of the bearer lists inside it, as numbers at fixed places.
module Wire {
  import opened Bits
  import Per
  import opened IeContainer
  import opened BearerLists

  // The low `n` octets of a number, most significant first.
  function BE(v: nat, n: nat): (r: Bytes)
    ensures |r| == n
  {
    if n == 0 then [] else BE(v / 0x100, n - 1) + [v % 0x100]
  }

  lemma EightShifts(v: nat)
    ensures Shr(v, 8) == v / 0x100
  {
    var v1 := v / 2;
    var v2 := v1 / 2;
    var v3 := v2 / 2;
    var v4 := v3 / 2;
    var v5 := v4 / 2;
    var v6 := v5 / 2;
    var v7 := v6 / 2;
    var v8 := v7 / 2;
    assert Shr(v4, 4) == v8 by {
      assert Shr(v8, 0) == v8 && Shr(v7, 1) == v8 && Shr(v6, 2) == v8 && Shr(v5, 3) == v8;
    }
    assert Shr(v1, 7) == v8 by {
      assert Shr(v3, 5) == v8 && Shr(v2, 6) == v8;
    }
    assert v4 == v / 16 && v8 == v4 / 16;
  }

  // A field of whole octets is those octets.
  lemma {:induction false} WholeOctets(v: nat, n: nat)
    ensures BitsOf(v, 8 * n) == BytesBits(BE(v, n))
  {
    if n > 0 {
      BitsOfSplit(v, 8 * (n - 1), 8);
      EightShifts(v);
      WholeOctets(v / 0x100, n - 1);
      BytesBitsAppend(BE(v / 0x100, n - 1), [v % 0x100]);
      BitsOfMask8(v);
      OneOctet(v % 0x100);
    }
  }

  lemma OneOctet(b: byte)
    ensures BytesBits([b]) == ByteBits(b) == BitsOf(b, 8)
  {
    assert [b][1..] == [];
  }

  // Two fields side by side are one field.
  lemma {:induction false} Join(x: nat, a: nat, y: nat, b: nat)
    requires y < Pow2(b)
    ensures BitsOf(x, a) + BitsOf(y, b) == BitsOf(x * Pow2(b) + y, a + b)
  {
    if b > 0 {
      Join(x, a, y / 2, b - 1);
      var h := x * Pow2(b - 1);
      MulDouble(x, Pow2(b - 1));
      assert (x * Pow2(b) + y) / 2 == h + y / 2 && (x * Pow2(b) + y) % 2 == y % 2;
    }
  }

  lemma {:induction false} ZeroBits(n: nat)
    ensures Per.Zeros(n) == BitsOf(0, n)
  {
    if n > 0 {
      ZeroBits(n - 1);
      assert Per.Zeros(n) == Per.Zeros(n - 1) + [false];
    }
  }

  // ---- Fields -------------------------------------------------------------------------------

  // One octet below 128, two with the top bit set up to 16383.
  function Determinant(n: nat): (r: Bytes)
    requires n < 0x4000
    ensures |r| == Per.LengthOctets(n)
  {
    if n < 0x80 then [n] else [0x80 + n / 0x100, n % 0x100]
  }

  lemma {:induction false} DeterminantImage(w: seq<bool>, n: nat)
    requires n < 0x4000
    ensures Per.WriteLength(w, n) == Per.Align(w) + BytesBits(Determinant(n))
  {
    hide BytesBits, BitsOf, Per.Align;
    Pow2Values();
    if n < 0x80 {
      Join(0, 1, n, 7);
      OneOctet(n);
      TagBits();
      Assoc(Per.Align(w), [false], BitsOf(n, 7));
    } else {
      Join(2, 2, n, 14);
      TagBits();
      WholeOctets(0x8000 + n, 2);
      TwoOctets(0x8000 + n);
      Assoc(Per.Align(w), [true, false], BitsOf(n, 14));
    }
  }

  lemma TagBits()
    ensures BitsOf(0, 1) == [false] && BitsOf(2, 2) == [true, false]
  {
    assert BitsOf(2, 2) == BitsOf(1, 1) + [false];
  }

  lemma TwoOctets(v: nat)
    requires v < 0x1_0000
    ensures BE(v, 2) == [v / 0x100, v % 0x100]
  {
    assert BE(v / 0x100, 1) == BE(v / 0x100 / 0x100, 0) + [v / 0x100 % 0x100];
  }

  lemma StringImage(w: seq<bool>, data: Bytes)
    requires |data| < 0x4000
    ensures Per.WriteString(w, data) == Per.Align(w) + BytesBits(Determinant(|data|) + data)
  {
    hide BytesBits, Per.WriteLength, Determinant, Per.Align;
    DeterminantImage(w, |data|);
    BytesBitsAppend(Determinant(|data|), data);
    Assoc(Per.Align(w), BytesBits(Determinant(|data|)), BytesBits(data));
  }

  lemma Assoc<T>(a: seq<T>, b: seq<T>, c: seq<T>)
    ensures a + b + c == a + (b + c)
  {
  }

  // A number wider than eight bits starts on an octet and takes whole octets.
  lemma WideImage(w: seq<bool>, v: nat, max: nat, n: nat)
    requires v <= max && Per.Width(max, n) && n > 8
    ensures Per.WriteInt(w, v, 0, max) == Per.Align(w) + BytesBits(BE(v, (n + 7) / 8))
  {
    Per.BitsForRangeIs(max + 1, n);
    WholeOctets(v, (n + 7) / 8);
    assert max >= 1 by { assert Pow2(n - 1) >= 1; }
  }

  // A narrower one takes its bits where it stands.
  lemma NarrowImage(w: seq<bool>, v: nat, max: nat, n: nat)
    requires v <= max && Per.Width(max, n) && n <= 8
    ensures Per.WriteInt(w, v, 0, max) == w + BitsOf(v, n)
  {
    Per.BitsForRangeIs(max + 1, n);
    assert max >= 1 by { assert Pow2(n - 1) >= 1; }
  }

  lemma IntoBytesImage(data: Bytes)
    ensures Per.IntoBytes(BytesBits(data)) == data
  {
    PackBytesOfBytesBits(data);
    assert Per.Align(BytesBits(data)) == BytesBits(data);
  }

  lemma StaysAligned(w: seq<bool>, data: Bytes)
    requires |w| % 8 == 0
    ensures |w + BytesBits(data)| % 8 == 0
  {
  }

  lemma AlignedIs(w: seq<bool>)
    requires |w| % 8 == 0
    ensures Per.Align(w) == w
  {
  }

  // A narrow field at the top of an octet, followed by padding.
  lemma PaddedImage(w: seq<bool>, v: nat, n: nat, m: byte)
    requires |w| % 8 == 0 && 0 < n <= 8 && m == v * Pow2(8 - n)
    ensures Per.Align(w + BitsOf(v, n)) == w + BytesBits([m])
  {
    TopOfOctet(v, n);
    OneOctet(m);
    hide *;
    AlignPads(w, BitsOf(v, n), 8 - n);
  }

  lemma TopOfOctet(v: nat, n: nat)
    requires n <= 8
    ensures BitsOf(v, n) + Per.Zeros(8 - n) == BitsOf(v * Pow2(8 - n), 8)
  {
    ZeroBits(8 - n);
    Join(v, n, 0, 8 - n);
    hide BitsOf, Per.Zeros, Pow2;
    assert n + (8 - n) == 8;
  }

  lemma AlignPads(w: seq<bool>, bits: seq<bool>, k: nat)
    requires |w| % 8 == 0 && |bits| + k == 8 && k < 8
    ensures Per.Align(w + bits) == w + (bits + Per.Zeros(k))
  {
    PadTo(|w|, |bits|);
    hide Per.AlignUp, Per.Zeros;
    Assoc(w, bits, Per.Zeros(k));
  }

  lemma PadTo(pos: nat, n: nat)
    requires pos % 8 == 0 && 0 < n <= 8
    ensures Per.AlignUp(pos + n) - (pos + n) == 8 - n
  {
  }

  // ---- Containers and PDUs --------------------------------------------------------------------

  // Two octets of id, criticality in the top two bits of the third, then the value.
  function IeImage(e: Ie): Bytes
    requires e.id < 0x1_0000 && e.crit < 3 && |e.value| < 0x4000
  {
    [e.id / 0x100, e.id % 0x100, 64 * e.crit] + Determinant(|e.value|) + e.value
  }

  predicate Representable(es: seq<Ie>) {
    |es| < 0x4000 && forall e :: e in es ==> e.id < 0x1_0000 && e.crit < 3 && |e.value| < 0x4000
  }

  function IesImage(es: seq<Ie>): Bytes
    requires forall e :: e in es ==> e.id < 0x1_0000 && e.crit < 3 && |e.value| < 0x4000
  {
    if es == [] then [] else IesImage(es[..|es| - 1]) + IeImage(es[|es| - 1])
  }

  function ContainerImage(es: seq<Ie>): Bytes
    requires Representable(es)
  {
    Determinant(|es|) + IesImage(es)
  }

  lemma {:induction false} IeWrites(w: seq<bool>, e: Ie)
    requires ValidIe(e) && |w| % 8 == 0
    ensures WriteIe(w, e) == w + BytesBits(IeImage(e))
  {
    hide Per.WriteInt, Per.WriteString, BytesBits, BE, Determinant, Per.Width;
    IdWidths();
    var w1 := Per.WriteInt(w, e.id, 0, PROTOCOL_IE_ID_MAX);
    var w2 := Per.WriteInt(w1, e.crit, 0, CRITICALITY_MAX);
    WideImage(w, e.id, PROTOCOL_IE_ID_MAX, 16);
    TwoOctets(e.id);
    AlignedIs(w);
    var id := [e.id / 0x100, e.id % 0x100];
    assert w1 == w + BytesBits(id);
    NarrowImage(w1, e.crit, CRITICALITY_MAX, 2);
    CritImage(w1, e.crit);
    var crit: Bytes := [64 * e.crit];
    var value := Determinant(|e.value|) + e.value;
    StringImage(w2, e.value);
    BytesBitsAppend(id, crit);
    BytesBitsAppend(id + crit, value);
    assert IeImage(e) == id + crit + value;
    assert w + BytesBits(id) + BytesBits(crit) + BytesBits(value)
        == w + (BytesBits(id) + BytesBits(crit) + BytesBits(value));
  }

  lemma IdWidths()
    ensures Per.Width(PROTOCOL_IE_ID_MAX, 16) && Per.Width(CRITICALITY_MAX, 2)
  {
    Pow2Values();
    Pow2Small();
  }

  lemma CritImage(w: seq<bool>, crit: byte)
    requires |w| % 8 == 0 && crit < 3
    ensures Per.Align(w + BitsOf(crit, 2)) == w + BytesBits([64 * crit])
  {
    Pow2Small();
    assert Pow2(6) == 64 by { assert Pow2(3) == 8 && Pow2(4) == 16 && Pow2(5) == 32; }
    PaddedImage(w, crit, 2, 64 * crit);
  }

  lemma {:induction false} IesWrite(w: seq<bool>, es: seq<Ie>)
    requires (forall e :: e in es ==> ValidIe(e)) && |w| % 8 == 0
    ensures WriteIes(w, es) == w + BytesBits(IesImage(es))
  {
    hide WriteIe, IeImage;
    if es == [] {
      assert w + BytesBits([]) == w;
    } else {
      var front, last := es[..|es| - 1], es[|es| - 1];
      IesWrite(w, front);
      IeWrites(WriteIes(w, front), last);
      BytesBitsAppend(IesImage(front), IeImage(last));
    }
  }

  lemma ContainerWrites(es: seq<Ie>)
    requires |es| < Per.LENGTH_LIMIT && forall e :: e in es ==> ValidIe(e)
    ensures Per.IntoBytes(WriteContainer([], es)) == ContainerImage(es)
  {
    hide WriteIes, IesImage, BytesBits, Per.WriteLength, Per.IntoBytes, Determinant;
    DeterminantImage([], |es|);
    AlignedIs([]);
    assert [] + BytesBits(Determinant(|es|)) == BytesBits(Determinant(|es|));
    IesWrite(BytesBits(Determinant(|es|)), es);
    BytesBitsAppend(Determinant(|es|), IesImage(es));
    IntoBytesImage(ContainerImage(es));
  }

  // Choice in two bits, procedure code in eight, criticality in two, then the container.
  function PduImage(p: Pdu): Bytes
    requires p.choice < 3 && p.procedure < 0x100 && p.crit < 3
    requires Representable(p.entries) && |ContainerImage(p.entries)| < 0x4000
  {
    var c := ContainerImage(p.entries);
    [64 * p.choice + p.procedure / 4, 64 * (p.procedure % 4) + 16 * p.crit] + Determinant(|c|) + c
  }

  // The encoded PDU, octet for octet.
  lemma PduWrites(p: Pdu)
    requires ValidPdu(p)
    ensures |ContainerImage(p.entries)| < 0x4000
    ensures EncodePdu(p) == PduImage(p)
  {
    hide ContainerImage, WriteContainer, Per.IntoBytes, BytesBits, Determinant, Per.WriteString, WrapperHead;
    var c := ContainerImage(p.entries);
    ContainerWrites(p.entries);
    ContainerWritten(p.entries);
    HeadImage(p);
    StringImage(WrapperHead(p), c);
    var head: Bytes := [64 * p.choice + p.procedure / 4, 64 * (p.procedure % 4) + 16 * p.crit];
    BytesBitsAppend(head, Determinant(|c|) + c);
    assert head + (Determinant(|c|) + c) == PduImage(p);
    IntoBytesImage(PduImage(p));
  }

  // The PDUs that can be encoded, by number.
  lemma EncodablePdus(p: Pdu)
    ensures ValidPdu(p) <==>
            && p.choice < 3 && p.procedure < 0x100 && p.crit < 3
            && Representable(p.entries) && |ContainerImage(p.entries)| < 0x4000
  {
    if Representable(p.entries) {
      assert forall e :: e in p.entries ==> ValidIe(e);
      ContainerWrites(p.entries);
      ContainerWritten(p.entries);
    }
    hide ContainerImage, ContainerOctets, WriteContainer, Per.IntoBytes;
  }

  lemma HeadImage(p: Pdu)
    requires ValidPdu(p)
    ensures Per.Align(WrapperHead(p)) ==
            BytesBits([64 * p.choice + p.procedure / 4, 64 * (p.procedure % 4) + 16 * p.crit])
  {
    hide Per.WriteInt, BytesBits, Per.Width, Fits, BitsOf, Per.Zeros;
    HeadWidths();
    HeadPow2();
    hide Pow2;
    NarrowImage([], p.choice, 2, 2);
    NarrowImage(BitsOf(p.choice, 2), p.procedure, PROCEDURE_CODE_MAX, 8);
    NarrowImage(BitsOf(p.choice, 2) + BitsOf(p.procedure, 8), p.crit, CRITICALITY_MAX, 2);
    assert [] + BitsOf(p.choice, 2) == BitsOf(p.choice, 2);
    Join(p.choice, 2, p.procedure, 8);
    var v := 0x100 * p.choice + p.procedure;
    Join(v, 10, p.crit, 2);
    ZeroBits(4);
    Join(4 * v + p.crit, 12, 0, 4);
    var all := 16 * (4 * v + p.crit);
    WholeOctets(all, 2);
    TwoOctets(all);
    HeadNumbers(p.choice, p.procedure, p.crit);
    assert |WrapperHead(p)| == 12;
    assert Per.Align(WrapperHead(p)) == WrapperHead(p) + Per.Zeros(4);
  }

  lemma HeadPow2()
    ensures Pow2(2) == 4 && Pow2(4) == 16 && Pow2(8) == 0x100
  {
    Pow2Values();
    Pow2Small();
    assert Pow2(4) == 16;
  }

  lemma HeadNumbers(choice: nat, procedure: nat, crit: nat)
    requires choice < 3 && procedure < 0x100 && crit < 3
    ensures var all := 16 * (4 * (0x100 * choice + procedure) + crit);
            all / 0x100 == 64 * choice + procedure / 4 && all % 0x100 == 64 * (procedure % 4) + 16 * crit
  {
    var q, r := procedure / 4, procedure % 4;
    assert procedure == 4 * q + r;
    assert 16 * (4 * (0x100 * choice + procedure) + crit) == 0x100 * (64 * choice + q) + (64 * r + 16 * crit);
  }

  lemma HeadWidths()
    ensures Per.Width(2, 2) && Per.Width(PROCEDURE_CODE_MAX, 8) && Per.Width(CRITICALITY_MAX, 2)
  {
    Pow2Values();
    Pow2Small();
  }

  // ---- Element values ---------------------------------------------------------------------------

  lemma WideValue(v: nat, max: nat, n: nat)
    requires v <= max && Per.Width(max, n) && n > 8
    ensures Per.IntoBytes(Per.WriteInt([], v, 0, max)) == BE(v, (n + 7) / 8)
  {
    hide Per.WriteInt, BytesBits, Per.IntoBytes, BE;
    WideImage([], v, max, n);
    AlignedIs([]);
    assert [] + BytesBits(BE(v, (n + 7) / 8)) == BytesBits(BE(v, (n + 7) / 8));
    IntoBytesImage(BE(v, (n + 7) / 8));
  }

  lemma NarrowValue(v: nat, max: nat, n: nat, m: byte)
    requires v <= max && Per.Width(max, n) && n <= 8 && m == v * Pow2(8 - n)
    ensures Per.IntoBytes(Per.WriteInt([], v, 0, max)) == [m]
  {
    NarrowImage([], v, max, n);
    assert n > 0;
    PaddedImage([], v, n, m);
    PackBytesOfBytesBits([m]);
    hide *;
    assert [] + BitsOf(v, n) == BitsOf(v, n);
    assert [] + BytesBits([m]) == BytesBits([m]);
    IntoBytesIs(Per.WriteInt([], v, 0, max));
  }

  lemma IntoBytesIs(w: seq<bool>)
    ensures Per.IntoBytes(w) == PackBytes(Per.Align(w))
  {
  }

  lemma StringValue(data: Bytes)
    requires |data| < 0x4000
    ensures Per.IntoBytes(Per.WriteString([], data)) == Determinant(|data|) + data
  {
    hide Per.WriteString, BytesBits, Per.IntoBytes, Determinant;
    StringImage([], data);
    AlignedIs([]);
    assert [] + BytesBits(Determinant(|data|) + data) == BytesBits(Determinant(|data|) + data);
    IntoBytesImage(Determinant(|data|) + data);
  }

  lemma OctetsValue(a: Bytes, b: Bytes)
    ensures Per.IntoBytes(Per.WriteOctets([], a)) == a
    ensures Per.IntoBytes(Per.WriteOctets(Per.WriteOctets([], a), b)) == a + b
  {
    hide BytesBits, Per.IntoBytes;
    assert [] + BytesBits(a) == BytesBits(a);
    IntoBytesImage(a);
    BytesBitsAppend(a, b);
    IntoBytesImage(a + b);
  }

  // ---- Bearer lists -------------------------------------------------------------------------------

  // An id and a QoS label at the top of two octets, then TEID and address.
  lemma ToSetupItemWrites(
    w: seq<bool>, it: BearerToSetup, idMax: nat, qosMax: nat, n: nat, m: nat, head: Bytes)
    requires it.id <= idMax && it.qos <= qosMax && |w| % 8 == 0
    requires Per.Width(idMax, n) && Per.Width(qosMax, m) && n <= 8 && m <= 8 && n + m > 8
    requires BitsOf(it.id, n) + BitsOf(it.qos, m) + Per.Zeros(16 - n - m) == BytesBits(head)
    ensures WriteToSetupItem(w, it, idMax, qosMax) == w + BytesBits(head + it.gtpTeid + it.transportAddr)
  {
    NarrowImage(w, it.id, idMax, n);
    NarrowImage(w + BitsOf(it.id, n), it.qos, qosMax, m);
    AlignTo16(w, BitsOf(it.id, n), BitsOf(it.qos, m), 16 - n - m);
    BytesBitsAppend(head, it.gtpTeid);
    BytesBitsAppend(head + it.gtpTeid, it.transportAddr);
    WritesOctets(w + BytesBits(head), it.gtpTeid, it.transportAddr);
    hide *;
    ToSetupItemIs(w, it, idMax, qosMax);
    Assoc(w, BytesBits(head), BytesBits(it.gtpTeid));
    Assoc(w, BytesBits(head) + BytesBits(it.gtpTeid), BytesBits(it.transportAddr));
  }

  // Eight bits of id and six of label.
  lemma WideItemHead(id: byte, qos: byte)
    requires qos < 64
    ensures BitsOf(id, 8) + BitsOf(qos, 6) + Per.Zeros(2) == BytesBits([id, 4 * qos])
  {
    hide BytesBits, BitsOf, Per.Zeros;
    SmallPow2();
    hide Pow2;
    Join(id, 8, qos, 6);
    ZeroBits(2);
    Join(64 * id + qos, 14, 0, 2);
    WholeOctets(4 * (64 * id + qos), 2);
    TwoOctets(4 * (64 * id + qos));
  }

  // Four bits of id and eight of label.
  lemma NarrowItemHead(id: byte, qos: byte)
    requires id < 16
    ensures BitsOf(id, 4) + BitsOf(qos, 8) + Per.Zeros(4) == BytesBits([16 * id + qos / 16, 16 * (qos % 16)])
  {
    hide BytesBits, BitsOf, Per.Zeros;
    SmallPow2();
    hide Pow2;
    Join(id, 4, qos, 8);
    ZeroBits(4);
    Join(0x100 * id + qos, 12, 0, 4);
    var all := 16 * (0x100 * id + qos);
    WholeOctets(all, 2);
    TwoOctets(all);
    SplitAt16(id, qos);
  }

  lemma SplitAt16(id: nat, qos: nat)
    requires id < 16 && qos < 0x100
    ensures var all := 16 * (0x100 * id + qos);
            all / 0x100 == 16 * id + qos / 16 && all % 0x100 == 16 * (qos % 16)
  {
    var q, r := qos / 16, qos % 16;
    assert qos == 16 * q + r;
    assert 16 * (0x100 * id + qos) == 0x100 * (16 * id + q) + 16 * r;
  }

  lemma SmallPow2()
    ensures Pow2(2) == 4 && Pow2(4) == 16 && Pow2(6) == 64 && Pow2(8) == 0x100
  {
    Pow2Values();
    Pow2Small();
    assert Pow2(4) == 16 && Pow2(5) == 32;
  }

  lemma ToSetupItemIs(w: seq<bool>, it: BearerToSetup, idMax: nat, qosMax: nat)
    requires it.id <= idMax && it.qos <= qosMax
    ensures WriteToSetupItem(w, it, idMax, qosMax) ==
            var head := Per.Align(Per.WriteInt(Per.WriteInt(w, it.id, 0, idMax), it.qos, 0, qosMax));
            Per.WriteOctets(Per.WriteOctets(head, it.gtpTeid), it.transportAddr)
  {
  }

  lemma WritesOctets(w: seq<bool>, a: Bytes, b: Bytes)
    ensures Per.WriteOctets(Per.WriteOctets(w, a), b) == w + BytesBits(a) + BytesBits(b)
  {
  }

  lemma AlignTo16(w: seq<bool>, a: seq<bool>, b: seq<bool>, k: nat)
    requires |w| % 8 == 0 && |a| + |b| + k == 16 && k < 8
    ensures Per.Align(w + a + b) == w + (a + b + Per.Zeros(k))
  {
    hide Per.Zeros;
    assert Per.AlignUp(|w + a + b|) == |w| + 16;
    assert w + a + b + Per.Zeros(k) == w + (a + b + Per.Zeros(k));
  }

  // An id at the top of an octet, then address and TEID.
  lemma SetupItemWrites(w: seq<bool>, it: BearerSetup, idMax: nat, n: nat, m: byte)
    requires it.id <= idMax && |w| % 8 == 0 && Per.Width(idMax, n) && n <= 8 && m == it.id * Pow2(8 - n)
    ensures WriteSetupItem(w, it, idMax) == w + BytesBits([m] + it.transportAddr + it.gtpTeid)
  {
    NarrowImage(w, it.id, idMax, n);
    assert n > 0;
    PaddedImage(w, it.id, n, m);
    BytesBitsAppend([m], it.transportAddr);
    BytesBitsAppend([m] + it.transportAddr, it.gtpTeid);
    WritesOctets(w + BytesBits([m]), it.transportAddr, it.gtpTeid);
    SetupItemIs(w, it, idMax);
    hide *;
    Assoc(w, BytesBits([m]), BytesBits(it.transportAddr));
    Assoc(w, BytesBits([m]) + BytesBits(it.transportAddr), BytesBits(it.gtpTeid));
  }

  lemma SetupItemIs(w: seq<bool>, it: BearerSetup, idMax: nat)
    requires it.id <= idMax
    ensures WriteSetupItem(w, it, idMax) ==
            Per.WriteOctets(Per.WriteOctets(Per.Align(Per.WriteInt(w, it.id, 0, idMax)), it.transportAddr), it.gtpTeid)
  {
  }

  // Ids eight bits wide are octets.
  lemma {:induction false} IdItemsWrite(w: seq<bool>, ids: seq<byte>)
    requires Per.Width(0xFF, 8)
    ensures WriteIdItems(w, ids, 0xFF) == w + BytesBits(ids)
  {
    hide Per.WriteInt, Per.Width;
    if ids == [] {
      assert w + BytesBits([]) == w;
    } else {
      var front, last := ids[..|ids| - 1], ids[|ids| - 1];
      IdItemsWrite(w, front);
      NarrowImage(w + BytesBits(front), last, 0xFF, 8);
      OneOctet(last);
      assert ids == front + [last];
      BytesBitsAppend(front, [last]);
      Assoc(w, BytesBits(front), BytesBits([last]));
    }
  }

  // Ids four bits wide, two to an octet.
  function Nibbles(ids: seq<byte>): seq<bool> {
    if ids == [] then [] else BitsOf(ids[0], 4) + Nibbles(ids[1..])
  }

  function NibbleImage(ids: seq<byte>): Bytes
    requires forall i :: 0 <= i < |ids| ==> ids[i] < 16
  {
    if ids == [] then []
    else if |ids| == 1 then [16 * ids[0]]
    else [16 * ids[0] + ids[1]] + NibbleImage(ids[2..])
  }

  lemma {:induction false} NibblesSnoc(ids: seq<byte>, last: byte)
    ensures Nibbles(ids + [last]) == Nibbles(ids) + BitsOf(last, 4)
  {
    hide BitsOf;
    if ids == [] {
      assert [last][1..] == [];
      assert [] + [last] == [last];
    } else {
      NibblesSnoc(ids[1..], last);
      assert (ids + [last])[1..] == ids[1..] + [last];
      Assoc(BitsOf(ids[0], 4), Nibbles(ids[1..]), BitsOf(last, 4));
    }
  }

  lemma {:induction false} NibbleItemsWrite(w: seq<bool>, ids: seq<byte>)
    requires Per.Width(15, 4) && IdsInRange(ids, 15)
    ensures WriteIdItems(w, ids, 15) == w + Nibbles(ids)
  {
    hide Per.WriteInt, Per.Width, BitsOf;
    if ids == [] {
      assert w + Nibbles([]) == w;
    } else {
      var front, last := ids[..|ids| - 1], ids[|ids| - 1];
      NibbleItemsWrite(w, front);
      NarrowImage(w + Nibbles(front), last, 15, 4);
      assert ids == front + [last];
      NibblesSnoc(front, last);
      Assoc(w, Nibbles(front), BitsOf(last, 4));
    }
  }

  lemma {:induction false} NibblesPack(w: seq<bool>, ids: seq<byte>)
    requires |w| % 8 == 0 && forall i :: 0 <= i < |ids| ==> ids[i] < 16
    ensures Per.Align(w + Nibbles(ids)) == w + BytesBits(NibbleImage(ids))
    decreases |ids|
  {
    hide BitsOf, Per.Zeros;
    assert Pow2(4) == 16;
    if ids == [] {
      assert w + Nibbles(ids) == w && w + BytesBits(NibbleImage(ids)) == w;
      AlignedIs(w);
    } else if |ids| == 1 {
      assert ids[1..] == [];
      assert Nibbles(ids) == BitsOf(ids[0], 4);
      PaddedImage(w, ids[0], 4, 16 * ids[0]);
    } else {
      var b: byte := 16 * ids[0] + ids[1];
      assert ids[1..][1..] == ids[2..];
      Join(ids[0], 4, ids[1], 4);
      OneOctet(b);
      NibblesPack(w + ByteBits(b), ids[2..]);
      BytesBitsAppend([b], NibbleImage(ids[2..]));
      NibblePair(w, BitsOf(ids[0], 4), BitsOf(ids[1], 4), Nibbles(ids[2..]));
      Assoc(w, ByteBits(b), BytesBits(NibbleImage(ids[2..])));
    }
  }

  lemma NibblePair(w: seq<bool>, a: seq<bool>, b: seq<bool>, c: seq<bool>)
    ensures w + (a + b) + c == w + (a + (b + c))
  {
  }
}
