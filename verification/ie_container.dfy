// The framing NGAP and S1AP share: a PDU wrapper around a container of information
// elements, each an open type. Functions first, then the methods that produce and
// consume the same bytes with the engine.
module IeContainer {
  import opened Bits
  import Per
  import opened PerEngine

  const PROTOCOL_IE_ID_MAX: nat := 65_535
  const PROCEDURE_CODE_MAX: nat := 255
  const CRITICALITY_REJECT: byte := 0
  const CRITICALITY_IGNORE: byte := 1
  const CRITICALITY_MAX: nat := 2
  const INITIATING_MESSAGE: nat := 0
  const SUCCESSFUL_OUTCOME: nat := 1

  datatype Ie = Ie(id: u32, crit: byte, value: Bytes)

  datatype Pdu = Pdu(choice: nat, procedure: u32, crit: byte, entries: seq<Ie>)

  // ---- Container ---------------------------------------------------------------

  predicate ValidIe(e: Ie) {
    e.id <= PROTOCOL_IE_ID_MAX && e.crit <= CRITICALITY_MAX && |e.value| < Per.LENGTH_LIMIT
  }

  function WriteIe(w: seq<bool>, e: Ie): (r: seq<bool>)
    requires ValidIe(e)
    ensures w <= r
  {
    Per.WriteString(Per.WriteInt(Per.WriteInt(w, e.id, 0, PROTOCOL_IE_ID_MAX), e.crit, 0, CRITICALITY_MAX), e.value)
  }

  // Recursion on the last entry, as the writing loop appends.
  function WriteIes(w: seq<bool>, es: seq<Ie>): (r: seq<bool>)
    requires forall e :: e in es ==> ValidIe(e)
    ensures w <= r
  {
    if es == [] then w else WriteIe(WriteIes(w, es[..|es| - 1]), es[|es| - 1])
  }

  function WriteContainer(w: seq<bool>, es: seq<Ie>): (r: seq<bool>)
    requires |es| < Per.LENGTH_LIMIT && forall e :: e in es ==> ValidIe(e)
    ensures w <= r
  {
    WriteIes(Per.WriteLength(w, |es|), es)
  }

  function ReadIe(b: seq<bool>, pos: nat): Per.Read<Ie> {
    var id := Per.ReadInt(b, pos, 0, PROTOCOL_IE_ID_MAX);
    if id.Fail? then Per.Fail
    else
      var crit := Per.ReadInt(b, id.pos, 0, CRITICALITY_MAX);
      if crit.Fail? then Per.Fail
      else
        var value := Per.ReadString(b, crit.pos);
        if value.Fail? then Per.Fail
        else Per.Got(Ie(id.value % 0x1_0000_0000, crit.value % 0x100, value.value), value.pos)
  }

  function ReadIes(b: seq<bool>, pos: nat, count: nat): Per.Read<seq<Ie>> {
    if count == 0 then Per.Got([], pos)
    else
      var front := ReadIes(b, pos, count - 1);
      if front.Fail? then Per.Fail
      else
        var e := ReadIe(b, front.pos);
        if e.Fail? then Per.Fail else Per.Got(front.value + [e.value], e.pos)
  }

  function ReadContainer(b: seq<bool>, pos: nat): Per.Read<seq<Ie>> {
    var count := Per.ReadLength(b, pos);
    if count.Fail? then Per.Fail else ReadIes(b, count.pos, count.value)
  }

  lemma IeRoundTrip(w: seq<bool>, e: Ie, b: seq<bool>)
    requires ValidIe(e) && WriteIe(w, e) <= b
    ensures ReadIe(b, |w|) == Per.Got(e, |WriteIe(w, e)|)
  {
    hide Per.WriteInt, Per.WriteString, Per.ReadInt, Per.ReadString;
    var w1 := Per.WriteInt(w, e.id, 0, PROTOCOL_IE_ID_MAX);
    var w2 := Per.WriteInt(w1, e.crit, 0, CRITICALITY_MAX);
    Per.IntRoundTrip(w, e.id, 0, PROTOCOL_IE_ID_MAX, b);
    Per.IntRoundTrip(w1, e.crit, 0, CRITICALITY_MAX, b);
    Per.StringRoundTrip(w2, e.value, b);
  }

  lemma {:induction false} IesRoundTrip(w: seq<bool>, es: seq<Ie>, b: seq<bool>)
    requires forall e :: e in es ==> ValidIe(e)
    requires WriteIes(w, es) <= b
    ensures ReadIes(b, |w|, |es|) == Per.Got(es, |WriteIes(w, es)|)
  {
    hide WriteIe, ReadIe;
    if es != [] {
      var front := es[..|es| - 1];
      IesRoundTrip(w, front, b);
      IeRoundTrip(WriteIes(w, front), es[|es| - 1], b);
      assert es == front + [es[|es| - 1]];
    }
  }

  lemma ContainerRoundTrip(w: seq<bool>, es: seq<Ie>, b: seq<bool>)
    requires |es| < Per.LENGTH_LIMIT && forall e :: e in es ==> ValidIe(e)
    requires WriteContainer(w, es) <= b
    ensures ReadContainer(b, |w|) == Per.Got(es, |WriteContainer(w, es)|)
  {
    Per.LengthRoundTrip(w, |es|, b);
    IesRoundTrip(Per.WriteLength(w, |es|), es, b);
  }

  // ---- How long it gets --------------------------------------------------------------

  // Id, criticality and length determinant, then the value.
  function IeOctets(e: Ie): nat {
    3 + Per.LengthOctets(|e.value|) + |e.value|
  }

  function IesOctets(es: seq<Ie>): nat {
    if es == [] then 0 else IesOctets(es[..|es| - 1]) + IeOctets(es[|es| - 1])
  }

  function ContainerOctets(es: seq<Ie>): nat {
    Per.LengthOctets(|es|) + IesOctets(es)
  }

  lemma IeWritten(w: seq<bool>, e: Ie)
    requires ValidIe(e) && |w| % 8 == 0
    ensures |WriteIe(w, e)| == |w| + 8 * IeOctets(e)
  {
    hide Per.WriteInt, Per.WriteString;
    var w1 := Per.WriteInt(w, e.id, 0, PROTOCOL_IE_ID_MAX);
    var w2 := Per.WriteInt(w1, e.crit, 0, CRITICALITY_MAX);
    Pow2Values();
    Pow2Small();
    Per.IntWritten(w, e.id, PROTOCOL_IE_ID_MAX, 16);
    Per.IntWritten(w1, e.crit, CRITICALITY_MAX, 2);
    Per.StringWritten(w2, e.value);
  }

  lemma Pow2Small()
    ensures Pow2(1) == 2 && Pow2(2) == 4 && Pow2(15) == 0x8000
  {
    Pow2Values();
    Pow2Add(8, 7);
  }

  lemma {:induction false} IesWritten(w: seq<bool>, es: seq<Ie>)
    requires (forall e :: e in es ==> ValidIe(e)) && |w| % 8 == 0
    ensures |WriteIes(w, es)| == |w| + 8 * IesOctets(es)
  {
    hide WriteIe, IeOctets;
    if es != [] {
      IesWritten(w, es[..|es| - 1]);
      IeWritten(WriteIes(w, es[..|es| - 1]), es[|es| - 1]);
    }
  }

  // The encoded container has exactly that many octets, whatever the entries' order.
  lemma ContainerWritten(es: seq<Ie>)
    requires |es| < Per.LENGTH_LIMIT && forall e :: e in es ==> ValidIe(e)
    ensures |Per.IntoBytes(WriteContainer([], es))| == ContainerOctets(es)
  {
    hide WriteIes, IesOctets, Per.WriteLength;
    Per.LengthWritten([], |es|);
    IesWritten(Per.WriteLength([], |es|), es);
  }

  lemma {:induction false} IesOctetsAppend(a: seq<Ie>, b: seq<Ie>)
    ensures IesOctets(a + b) == IesOctets(a) + IesOctets(b)
  {
    hide IeOctets;
    if b == [] {
      assert a + b == a;
    } else {
      IesOctetsAppend(a, b[..|b| - 1]);
      assert (a + b)[..|a + b| - 1] == a + b[..|b| - 1];
    }
  }

  lemma IesOctetsOne(e: Ie)
    ensures IesOctets([e]) == IeOctets(e)
  {
    assert [e][..0] == [];
  }

  lemma IesOctetsTwo(a: Ie, b: Ie)
    ensures IesOctets([a, b]) == IeOctets(a) + IeOctets(b)
  {
    hide IeOctets, IesOctets;
    assert [a, b] == [a] + [b];
    IesOctetsAppend([a], [b]);
    IesOctetsOne(a);
    IesOctetsOne(b);
  }

  lemma IesOctetsThree(a: Ie, b: Ie, c: Ie)
    ensures IesOctets([a, b, c]) == IeOctets(a) + IeOctets(b) + IeOctets(c)
  {
    hide IeOctets, IesOctets;
    assert [a, b, c] == [a, b] + [c];
    IesOctetsAppend([a, b], [c]);
    IesOctetsTwo(a, b);
    IesOctetsOne(c);
  }

  lemma IesOctetsFour(a: Ie, b: Ie, c: Ie, d: Ie)
    ensures IesOctets([a, b, c, d]) == IeOctets(a) + IeOctets(b) + IeOctets(c) + IeOctets(d)
  {
    hide IeOctets, IesOctets;
    assert [a, b, c, d] == [a, b] + [c, d];
    IesOctetsAppend([a, b], [c, d]);
    IesOctetsTwo(a, b);
    IesOctetsTwo(c, d);
  }

  lemma IesOctetsFive(a: Ie, b: Ie, c: Ie, d: Ie, e: Ie)
    ensures IesOctets([a, b, c, d, e]) == IeOctets(a) + IeOctets(b) + IeOctets(c) + IeOctets(d) + IeOctets(e)
  {
    hide IeOctets, IesOctets;
    assert [a, b, c, d, e] == [a, b] + [c, d, e];
    IesOctetsAppend([a, b], [c, d, e]);
    IesOctetsTwo(a, b);
    IesOctetsThree(c, d, e);
  }

  // A message's mandatory entries followed by up to two optional ones.
  lemma IesOctetsTail(base: seq<Ie>, a: seq<Ie>, b: seq<Ie>)
    ensures IesOctets(base + a + b) == IesOctets(base) + IesOctets(a) + IesOctets(b)
  {
    hide IesOctets;
    IesOctetsAppend(base + a, b);
    IesOctetsAppend(base, a);
  }

  lemma {:induction false} IesOctetsPermute(a: seq<Ie>, b: seq<Ie>)
    requires multiset(a) == multiset(b)
    ensures IesOctets(a) == IesOctets(b)
    decreases |a|
  {
    hide IeOctets;
    if a == [] {
      assert |b| == |multiset(b)|;
    } else {
      var e, front := a[|a| - 1], a[..|a| - 1];
      assert a == front + [e] && e in multiset(b);
      var k :| 0 <= k < |b| && b[k] == e;
      var before, after := b[..k], b[k + 1..];
      assert b == before + [e] + after;
      TakenOut(front, e, before, after);
      IesOctetsPermute(front, before + after);
      IesOctetsInsert(before, e, after);
    }
  }

  lemma TakenOut<T>(front: seq<T>, e: T, before: seq<T>, after: seq<T>)
    requires multiset(front + [e]) == multiset(before + [e] + after)
    ensures multiset(front) == multiset(before + after)
  {
    assert multiset(front) == multiset(front + [e]) - multiset{e};
    assert multiset(before + after) == multiset(before + [e] + after) - multiset{e};
  }

  lemma IesOctetsInsert(before: seq<Ie>, e: Ie, after: seq<Ie>)
    ensures IesOctets(before + [e] + after) == IesOctets(before + after) + IeOctets(e)
  {
    hide IeOctets, IesOctets;
    IesOctetsAppend(before + [e], after);
    IesOctetsAppend(before, [e]);
    IesOctetsAppend(before, after);
    IesOctetsOne(e);
  }

  lemma FitsPermuted(a: seq<Ie>, b: seq<Ie>)
    requires Fits(a) && multiset(a) == multiset(b)
    ensures Fits(b)
  {
    hide IesOctets, ValidIe;
    IesOctetsPermute(a, b);
    assert |a| == |multiset(a)| && |b| == |multiset(b)|;
    forall e | e in b
      ensures ValidIe(e)
    {
      assert e in multiset(a);
    }
  }

  lemma FitsWithout(a: seq<Ie>, e: Ie, b: seq<Ie>)
    requires Fits(a + [e] + b)
    ensures Fits(a + b)
  {
    hide IesOctets, ValidIe;
    IesOctetsInsert(a, e, b);
    forall x | x in a + b
      ensures ValidIe(x)
    {
      assert x in a + [e] + b;
    }
  }

  // Short enough altogether is short enough everywhere.
  lemma ShortFits(es: seq<Ie>)
    requires ContainerOctets(es) < Per.LENGTH_LIMIT
    requires forall e :: e in es ==> e.id <= PROTOCOL_IE_ID_MAX && e.crit <= CRITICALITY_MAX
    ensures Fits(es)
  {
    hide IesOctets;
    ShortCount(es);
    forall e | e in es
      ensures ValidIe(e)
    {
      var k :| 0 <= k < |es| && es[k] == e;
      assert es == es[..k] + [e] + es[k + 1..];
      IesOctetsInsert(es[..k], e, es[k + 1..]);
    }
  }

  lemma {:induction false} ShortCount(es: seq<Ie>)
    ensures |es| <= IesOctets(es)
  {
    if es != [] {
      ShortCount(es[..|es| - 1]);
    }
  }

  // ---- PDU wrapper -----------------------------------------------------------------

  // Everything that gets a length determinant is short enough for one.
  predicate Fits(es: seq<Ie>) {
    && |es| < Per.LENGTH_LIMIT
    && (forall e :: e in es ==> ValidIe(e))
    && ContainerOctets(es) < Per.LENGTH_LIMIT
  }

  predicate ValidPdu(p: Pdu) {
    p.choice <= 2 && p.procedure <= PROCEDURE_CODE_MAX && p.crit <= CRITICALITY_MAX && Fits(p.entries)
  }

  function WrapperHead(p: Pdu): seq<bool>
    requires ValidPdu(p)
  {
    Per.WriteInt(Per.WriteInt(Per.WriteInt([], p.choice, 0, 2), p.procedure, 0, PROCEDURE_CODE_MAX),
                 p.crit, 0, CRITICALITY_MAX)
  }

  function EncodePdu(p: Pdu): Bytes
    requires ValidPdu(p)
  {
    ContainerWritten(p.entries);
    Per.IntoBytes(WriteWrapper(p, Per.IntoBytes(WriteContainer([], p.entries))))
  }

  datatype Wrapper = Wrapper(choice: nat, procedure: u32, crit: byte, value: Bytes)

  function DecodeWrapper(buf: Bytes): Option<Wrapper> {
    var b := BytesBits(buf);
    var choice := Per.ReadInt(b, 0, 0, 2);
    if choice.Fail? then None
    else
      var procedure := Per.ReadInt(b, choice.pos, 0, PROCEDURE_CODE_MAX);
      if procedure.Fail? then None
      else
        var crit := Per.ReadInt(b, procedure.pos, 0, CRITICALITY_MAX);
        if crit.Fail? then None
        else
          var value := Per.ReadString(b, crit.pos);
          if value.Fail? then None
          else Some(Wrapper(choice.value, procedure.value % 0x1_0000_0000, crit.value % 0x100, value.value))
  }

  datatype PduError = BadWrapper | BadContainer

  function DecodePdu(buf: Bytes): Result<Pdu, PduError> {
    var w := DecodeWrapper(buf);
    if w.None? then Err(BadWrapper)
    else
      var es := ReadContainer(BytesBits(w.value.value), 0);
      if es.Fail? then Err(BadContainer)
      else Ok(Pdu(w.value.choice, w.value.procedure, w.value.crit, es.value))
  }

  // The bits a reader sees over finished bytes: everything written, then padding.
  lemma FinishedBits(w: seq<bool>)
    ensures BytesBits(Per.IntoBytes(w)) == Per.Align(w)
    ensures w <= BytesBits(Per.IntoBytes(w))
  {
    BytesBitsOfPackBytes(Per.Align(w));
  }

  function WriteWrapper(p: Pdu, value: Bytes): seq<bool>
    requires ValidPdu(p) && |value| < Per.LENGTH_LIMIT
  {
    Per.WriteString(WrapperHead(p), value)
  }

  lemma WrapperRoundTrip(p: Pdu, value: Bytes)
    requires ValidPdu(p) && |value| < Per.LENGTH_LIMIT
    ensures DecodeWrapper(Per.IntoBytes(WriteWrapper(p, value))) ==
            Some(Wrapper(p.choice, p.procedure, p.crit, value))
  {
    hide Per.WriteInt, Per.WriteString, Per.ReadInt, Per.ReadString, Per.IntoBytes, BytesBits, Fits;
    var w1 := Per.WriteInt([], p.choice, 0, 2);
    var w2 := Per.WriteInt(w1, p.procedure, 0, PROCEDURE_CODE_MAX);
    var w := WriteWrapper(p, value);
    var b := BytesBits(Per.IntoBytes(w));
    FinishedBits(w);
    Per.IntRoundTrip([], p.choice, 0, 2, b);
    Per.IntRoundTrip(w1, p.procedure, 0, PROCEDURE_CODE_MAX, b);
    Per.IntRoundTrip(w2, p.crit, 0, CRITICALITY_MAX, b);
    Per.StringRoundTrip(WrapperHead(p), value, b);
  }

  lemma PduRoundTrip(p: Pdu)
    requires ValidPdu(p)
    ensures DecodePdu(EncodePdu(p)) == Ok(p)
  {
    hide DecodeWrapper, WriteContainer, ReadContainer, BytesBits, Per.IntoBytes;
    var container := WriteContainer([], p.entries);
    ContainerWritten(p.entries);
    WrapperRoundTrip(p, Per.IntoBytes(container));
    FinishedBits(container);
    ContainerRoundTrip([], p.entries, BytesBits(Per.IntoBytes(container)));
  }

  // ---- What a decoder sees of a container --------------------------------------------

  // The values carried under one id, in order.
  function Values(es: seq<Ie>, id: u32): seq<Bytes> {
    if es == [] then []
    else Values(es[..|es| - 1], id) + (if es[|es| - 1].id == id then [es[|es| - 1].value] else [])
  }

  // A local assigned at every matching entry ends with the last one's parse.
  function Last<T>(vs: seq<Bytes>, parse: Bytes -> Option<T>): Option<T> {
    if vs == [] then None else parse(vs[|vs| - 1])
  }

  // A local assigned only on success ends with the last successful parse.
  function LastGood<T>(vs: seq<Bytes>, parse: Bytes -> Option<T>): Option<T> {
    if vs == [] then None
    else if parse(vs[|vs| - 1]).Some? then parse(vs[|vs| - 1])
    else LastGood(vs[..|vs| - 1], parse)
  }

  function GetOr<T>(o: Option<T>, default: T): T {
    if o.Some? then o.value else default
  }

  lemma ValuesStep(es: seq<Ie>, i: nat, id: u32)
    requires i < |es|
    ensures Values(es[..i + 1], id) == Values(es[..i], id) + (if es[i].id == id then [es[i].value] else [])
  {
    assert es[..i + 1][..i] == es[..i];
  }

  // The form in which a decoding loop uses it: how one more entry moves each kind of local.
  lemma LastStep<T>(es: seq<Ie>, i: nat, id: u32, parse: Bytes -> Option<T>)
    requires i < |es|
    ensures Last(Values(es[..i + 1], id), parse) ==
            if es[i].id == id then parse(es[i].value) else Last(Values(es[..i], id), parse)
    ensures LastGood(Values(es[..i + 1], id), parse) ==
            if es[i].id == id && parse(es[i].value).Some? then parse(es[i].value)
            else LastGood(Values(es[..i], id), parse)
  {
    ValuesStep(es, i, id);
    var vs := Values(es[..i], id);
    if es[i].id == id {
      LastGoodSnoc(vs, es[i].value, parse);
    } else {
      assert vs + [] == vs;
    }
  }

  lemma LastGoodSnoc<T>(vs: seq<Bytes>, v: Bytes, parse: Bytes -> Option<T>)
    ensures LastGood(vs + [v], parse) == if parse(v).Some? then parse(v) else LastGood(vs, parse)
  {
    var all := vs + [v];
    assert all != [] && all[|all| - 1] == v && all[..|all| - 1] == vs;
  }

  lemma {:induction false} ValuesAppend(a: seq<Ie>, b: seq<Ie>, id: u32)
    ensures Values(a + b, id) == Values(a, id) + Values(b, id)
  {
    if b == [] {
      assert a + b == a;
    } else {
      ValuesAppend(a, b[..|b| - 1], id);
      assert (a + b)[..|a + b| - 1] == a + b[..|b| - 1];
    }
  }

  lemma ValuesOne(e: Ie, id: u32)
    ensures Values([e], id) == if e.id == id then [e.value] else []
  {
    assert [e][..0] == [];
  }

  predicate DistinctIds(es: seq<Ie>) {
    forall i, j :: 0 <= i < j < |es| ==> es[i].id != es[j].id
  }

  lemma {:induction false} ValuesDistinct(es: seq<Ie>, id: u32)
    requires DistinctIds(es)
    ensures forall i :: 0 <= i < |es| && es[i].id == id ==> Values(es, id) == [es[i].value]
    ensures (forall i :: 0 <= i < |es| ==> es[i].id != id) ==> Values(es, id) == []
  {
    if es != [] {
      ValuesDistinct(es[..|es| - 1], id);
    }
  }

  // With distinct ids a decoder's local ends with the parse of the one entry, if there is one.
  lemma Found<T>(es: seq<Ie>, i: nat, parse: Bytes -> Option<T>)
    requires DistinctIds(es) && i < |es| && parse(es[i].value).Some?
    ensures Last(Values(es, es[i].id), parse) == parse(es[i].value)
    ensures LastGood(Values(es, es[i].id), parse) == parse(es[i].value)
  {
    ValuesDistinct(es, es[i].id);
  }

  lemma Absent<T>(es: seq<Ie>, id: u32, parse: Bytes -> Option<T>)
    requires DistinctIds(es) && forall i :: 0 <= i < |es| ==> es[i].id != id
    ensures Last(Values(es, id), parse) == None && LastGood(Values(es, id), parse) == None
  {
    ValuesDistinct(es, id);
  }

  // A message's mandatory entries followed by up to two optional ones.
  lemma OptionalTail(base: seq<Ie>, a: seq<Ie>, b: seq<Ie>)
    requires |a| <= 1 && |b| <= 1
    ensures var es := base + a + b;
            && (forall k :: 0 <= k < |base| ==> es[k] == base[k])
            && (a != [] ==> |base| < |es| && a == [es[|base|]])
            && (b != [] ==> 0 < |es| && b == [es[|es| - 1]])
            && (forall k :: |base| <= k < |es| ==> (a != [] && es[k] == a[0]) || (b != [] && es[k] == b[0]))
  {
  }

  // Two containers that no decoder knowing only `known` can tell apart.
  predicate Agree(known: set<u32>, a: seq<Ie>, b: seq<Ie>) {
    forall id :: id in known ==> Values(a, id) == Values(b, id)
  }

  lemma InsertUnknown(known: set<u32>, a: seq<Ie>, e: Ie, b: seq<Ie>)
    requires e.id !in known
    ensures Agree(known, a + [e] + b, a + b)
  {
    forall id | id in known
      ensures Values(a + [e] + b, id) == Values(a + b, id)
    {
      ValuesAppend(a + [e], b, id);
      ValuesAppend(a, [e], id);
      ValuesAppend(a, b, id);
      ValuesOne(e, id);
    }
  }

  lemma Permute(known: set<u32>, a: seq<Ie>, b: seq<Ie>)
    requires DistinctIds(a) && multiset(a) == multiset(b)
    ensures DistinctIds(b) && Agree(known, a, b)
  {
    PermutationDistinct(a, b);
    forall id | id in known
      ensures Values(a, id) == Values(b, id)
    {
      ValuesDistinct(a, id);
      ValuesDistinct(b, id);
      if i :| 0 <= i < |a| && a[i].id == id {
        assert a[i] in multiset(b);
      } else {
        forall j | 0 <= j < |b|
          ensures b[j].id != id
        {
          assert b[j] in multiset(a);
        }
      }
    }
  }

  // Distinctness of ids is a property of the multiset: no id occurs twice.
  lemma {:induction false} PermutationDistinct(a: seq<Ie>, b: seq<Ie>)
    requires DistinctIds(a) && multiset(a) == multiset(b)
    ensures DistinctIds(b)
  {
    forall i, j | 0 <= i < j < |b|
      ensures b[i].id != b[j].id
    {
      if b[i].id == b[j].id {
        assert b[i] in multiset(a) && b[j] in multiset(a);
        assert b[i] == b[j];
        TwiceInMultiset(b, i, j);
        var k :| 0 <= k < |a| && a[k] == b[i];
        OnceInMultiset(a, k);
      }
    }
  }

  lemma TwiceInMultiset(b: seq<Ie>, i: nat, j: nat)
    requires i < j < |b| && b[i] == b[j]
    ensures multiset(b)[b[i]] >= 2
  {
    assert b == b[..i] + [b[i]] + b[i + 1..j] + [b[j]] + b[j + 1..];
  }

  lemma OnceInMultiset(a: seq<Ie>, k: nat)
    requires DistinctIds(a) && k < |a|
    ensures multiset(a)[a[k]] == 1
  {
    assert a == a[..k] + [a[k]] + a[k + 1..];
    assert a[k] !in a[..k] && a[k] !in a[k + 1..];
  }

  // ---- Entry builders and their parsers -----------------------------------------------

  function IntIe(id: u32, crit: byte, v: nat, max: nat): (e: Ie)
    requires v <= max
    ensures e.id == id && e.crit == crit
  {
    Ie(id, crit, Per.IntoBytes(Per.WriteInt([], v, 0, max)))
  }

  function StringIe(id: u32, crit: byte, data: Bytes): (e: Ie)
    requires |data| < Per.LENGTH_LIMIT
    ensures e.id == id && e.crit == crit
  {
    Ie(id, crit, Per.IntoBytes(Per.WriteString([], data)))
  }

  function OctetsIe(id: u32, crit: byte, data: Bytes): (e: Ie)
    ensures e.id == id && e.crit == crit
  {
    Ie(id, crit, Per.IntoBytes(Per.WriteOctets([], data)))
  }

  function ParseInt(v: Bytes, max: nat): Option<nat> {
    var r := Per.ReadInt(BytesBits(v), 0, 0, max);
    if r.Fail? then None else Some(r.value)
  }

  function ParseString(v: Bytes): Option<Bytes> {
    var r := Per.ReadString(BytesBits(v), 0);
    if r.Fail? then None else Some(r.value)
  }

  function ParseOctets(v: Bytes, n: nat): (r: Option<Bytes>)
    ensures r.Some? ==> |r.value| == n
  {
    var r := Per.ReadOctets(BytesBits(v), 0, n);
    if r.Fail? then None else Some(r.value)
  }

  // How many octets each kind of entry takes.
  lemma IntIeOctets(id: u32, crit: byte, v: nat, max: nat, n: nat)
    requires v <= max && Per.Width(max, n) && n <= 64
    ensures IeOctets(IntIe(id, crit, v, max)) == 4 + (n + 7) / 8
  {
    hide Per.WriteInt;
    Per.IntWritten([], v, max, n);
  }

  lemma StringIeOctets(id: u32, crit: byte, data: Bytes)
    requires |data| < Per.LENGTH_LIMIT
    ensures IeOctets(StringIe(id, crit, data)) == StringOctets(|data|)
  {
    hide Per.WriteString;
    Per.StringWritten([], data);
  }

  // An octet string inside an open type: two length determinants.
  function StringOctets(len: nat): nat {
    var n := Per.LengthOctets(len) + len;
    3 + Per.LengthOctets(n) + n
  }

  // A list inside an open type, left out when it is empty; `octets` counts its own length.
  function ListOctets(count: nat, octets: nat): nat {
    if count == 0 then 0 else 3 + Per.LengthOctets(octets) + octets
  }

  lemma OctetsIeOctets(id: u32, crit: byte, data: Bytes)
    ensures IeOctets(OctetsIe(id, crit, data)) == 3 + Per.LengthOctets(|data|) + |data|
  {
  }

  lemma IntIeParses(id: u32, crit: byte, v: nat, max: nat)
    requires v <= max
    ensures ParseInt(IntIe(id, crit, v, max).value, max) == Some(v)
  {
    var w := Per.WriteInt([], v, 0, max);
    FinishedBits(w);
    Per.IntRoundTrip([], v, 0, max, BytesBits(Per.IntoBytes(w)));
  }

  lemma StringIeParses(id: u32, crit: byte, data: Bytes)
    requires |data| < Per.LENGTH_LIMIT
    ensures ParseString(StringIe(id, crit, data).value) == Some(data)
  {
    var w := Per.WriteString([], data);
    FinishedBits(w);
    Per.StringRoundTrip([], data, BytesBits(Per.IntoBytes(w)));
  }

  lemma OctetsIeParses(id: u32, crit: byte, data: Bytes)
    ensures ParseOctets(OctetsIe(id, crit, data).value, |data|) == Some(data)
  {
    var w := Per.WriteOctets([], data);
    FinishedBits(w);
    Per.OctetsRoundTrip([], data, BytesBits(Per.IntoBytes(w)));
  }

  // ---- The same, as the source runs it --------------------------------------------------

  method WriteIeContainer(w: PerWriter, entries: seq<Ie>)
    requires |entries| < Per.LENGTH_LIMIT && forall e :: e in entries ==> ValidIe(e)
    modifies w
    ensures w.bits == WriteContainer(old(w.bits), entries)
  {
    hide Per.WriteInt, Per.WriteString, Per.WriteLength;
    w.WriteLengthDeterminant(|entries|);
    var i := 0;
    while i < |entries|
      invariant 0 <= i <= |entries|
      invariant w.bits == WriteIes(Per.WriteLength(old(w.bits), |entries|), entries[..i])
    {
      var e := entries[i];
      assert ValidIe(e);
      w.WriteConstrainedInt(e.id, 0, PROTOCOL_IE_ID_MAX);
      w.WriteConstrainedInt(e.crit, 0, CRITICALITY_MAX);
      w.WriteOctetString(e.value);
      assert entries[..i + 1][..i] == entries[..i];
      i := i + 1;
    }
    assert entries[..|entries|] == entries;
  }

  method ReadIeContainer(r: PerReader) returns (out: Option<seq<Ie>>)
    requires r.Valid()
    modifies r
    ensures r.Valid()
    ensures Matches(out, r.bitPos, ReadContainer(r.AllBits(), old(r.bitPos)))
  {
    hide Per.ReadInt, Per.ReadString, Per.ReadLength;
    var count := r.ReadLengthDeterminant();
    if count.None? {
      return None;
    }
    ghost var start := r.bitPos;
    var es := [];
    var i := 0;
    while i < count.value
      invariant 0 <= i <= count.value && r.Valid()
      invariant ReadIes(r.AllBits(), start, i) == Per.Got(es, r.bitPos)
    {
      ReadIesFailsOn(r.AllBits(), start, i, count.value);
      var id := r.ReadConstrainedInt(0, PROTOCOL_IE_ID_MAX);
      if id.None? {
        return None;
      }
      var crit := r.ReadConstrainedInt(0, CRITICALITY_MAX);
      if crit.None? {
        return None;
      }
      var val := r.ReadOctetString();
      if val.None? {
        return None;
      }
      es := es + [Ie(id.value % 0x1_0000_0000, crit.value % 0x100, val.value)];
      i := i + 1;
    }
    return Some(es);
  }

  // Once an entry cannot be read, nothing after it is.
  lemma {:induction false} ReadIesFailsOn(b: seq<bool>, pos: nat, i: nat, count: nat)
    requires i < count
    ensures ReadIes(b, pos, i + 1).Fail? ==> ReadIes(b, pos, count).Fail?
    decreases count
  {
    hide ReadIe;
    if i + 1 < count {
      ReadIesFailsOn(b, pos, i, count - 1);
    }
  }

  method EncodePduWrapper(choice: nat, procedure: u32, crit: byte, entries: seq<Ie>) returns (out: Bytes)
    requires ValidPdu(Pdu(choice, procedure, crit, entries))
    ensures out == EncodePdu(Pdu(choice, procedure, crit, entries))
  {
    ContainerWritten(entries);
    var valueW := new PerWriter();
    WriteIeContainer(valueW, entries);
    var value := valueW.IntoBytes();
    var w := new PerWriter();
    w.WriteConstrainedInt(choice, 0, 2);
    w.WriteConstrainedInt(procedure, 0, PROCEDURE_CODE_MAX);
    w.WriteConstrainedInt(crit, 0, CRITICALITY_MAX);
    w.WriteOctetString(value);
    out := w.IntoBytes();
  }

  method DecodePduWrapper(buf: Bytes) returns (out: Option<Wrapper>)
    ensures out == DecodeWrapper(buf)
  {
    var r := new PerReader(buf);
    var choice := r.ReadConstrainedInt(0, 2);
    if choice.None? {
      return None;
    }
    var procedure := r.ReadConstrainedInt(0, PROCEDURE_CODE_MAX);
    if procedure.None? {
      return None;
    }
    var crit := r.ReadConstrainedInt(0, CRITICALITY_MAX);
    if crit.None? {
      return None;
    }
    var val := r.ReadOctetString();
    if val.None? {
      return None;
    }
    return Some(Wrapper(choice.value, procedure.value % 0x1_0000_0000, crit.value % 0x100, val.value));
  }

  method DecodePduEntries(buf: Bytes) returns (out: Result<Pdu, PduError>)
    ensures out == DecodePdu(buf)
  {
    var w := DecodePduWrapper(buf);
    if w.None? {
      return Err(BadWrapper);
    }
    var r := new PerReader(w.value.value);
    var es := ReadIeContainer(r);
    if es.None? {
      return Err(BadContainer);
    }
    return Ok(Pdu(w.value.choice, w.value.procedure, w.value.crit, es.value));
  }

  method EncodeIntIe(id: u32, crit: byte, v: u64, max: u64) returns (e: Ie)
    requires v <= max && max + 1 < 0x1_0000_0000_0000_0000
    ensures e == IntIe(id, crit, v, max)
  {
    var w := new PerWriter();
    w.WriteConstrainedInt(v, 0, max);
    var b := w.IntoBytes();
    e := Ie(id, crit, b);
  }

  method EncodeStringIe(id: u32, crit: byte, data: Bytes) returns (e: Ie)
    requires |data| < Per.LENGTH_LIMIT
    ensures e == StringIe(id, crit, data)
  {
    var w := new PerWriter();
    w.WriteOctetString(data);
    var b := w.IntoBytes();
    e := Ie(id, crit, b);
  }

  method EncodeOctetsIe(id: u32, crit: byte, data: Bytes) returns (e: Ie)
    ensures e == OctetsIe(id, crit, data)
  {
    var w := new PerWriter();
    w.WriteOctets(data);
    var b := w.IntoBytes();
    e := Ie(id, crit, b);
  }
}
