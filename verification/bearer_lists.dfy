// The bearer lists inside InitialContextSetup messages. S1AP (E-RABs) and NGAP (PDU
// sessions) write them field for field alike; only the ranges of the id and of the QoS
// label differ, so both are parameters here. Widths below a full octet leave the writer
// off the octet boundary, which is what the align step before the octets is for.
module BearerLists {
  import opened Bits
  import Per
  import opened PerEngine

  datatype BearerToSetup = BearerToSetup(id: byte, qos: byte, gtpTeid: Octets4, transportAddr: Octets4)

  datatype BearerSetup = BearerSetup(id: byte, transportAddr: Octets4, gtpTeid: Octets4)

  // ---- Bearers to set up: id, QoS label, then TEID and address on octet boundaries ----

  predicate ToSetupInRange(items: seq<BearerToSetup>, idMax: nat, qosMax: nat) {
    forall it :: it in items ==> it.id <= idMax && it.qos <= qosMax
  }

  function WriteToSetupItem(w: seq<bool>, it: BearerToSetup, idMax: nat, qosMax: nat): (r: seq<bool>)
    requires it.id <= idMax && it.qos <= qosMax
    ensures w <= r
  {
    var head := Per.Align(Per.WriteInt(Per.WriteInt(w, it.id, 0, idMax), it.qos, 0, qosMax));
    Per.WriteOctets(Per.WriteOctets(head, it.gtpTeid), it.transportAddr)
  }

  function WriteToSetupItems(w: seq<bool>, items: seq<BearerToSetup>, idMax: nat, qosMax: nat): (r: seq<bool>)
    requires ToSetupInRange(items, idMax, qosMax)
    ensures w <= r
  {
    if items == [] then w
    else WriteToSetupItem(WriteToSetupItems(w, items[..|items| - 1], idMax, qosMax), items[|items| - 1], idMax, qosMax)
  }

  function WriteToSetup(items: seq<BearerToSetup>, idMax: nat, qosMax: nat): seq<bool>
    requires |items| < Per.LENGTH_LIMIT && ToSetupInRange(items, idMax, qosMax)
  {
    WriteToSetupItems(Per.WriteLength([], |items|), items, idMax, qosMax)
  }

  function ReadToSetupItem(b: seq<bool>, pos: nat, idMax: nat, qosMax: nat): Per.Read<BearerToSetup> {
    var id := Per.ReadInt(b, pos, 0, idMax);
    if id.Fail? then Per.Fail
    else
      var qos := Per.ReadInt(b, id.pos, 0, qosMax);
      if qos.Fail? then Per.Fail
      else
        var teid := Per.ReadOctets(b, qos.pos, 4);
        if teid.Fail? then Per.Fail
        else
          var addr := Per.ReadOctets(b, teid.pos, 4);
          if addr.Fail? then Per.Fail
          else Per.Got(BearerToSetup(id.value % 0x100, qos.value % 0x100, teid.value, addr.value), addr.pos)
  }

  function ReadToSetupItems(b: seq<bool>, pos: nat, n: nat, idMax: nat, qosMax: nat): Per.Read<seq<BearerToSetup>> {
    if n == 0 then Per.Got([], pos)
    else
      var front := ReadToSetupItems(b, pos, n - 1, idMax, qosMax);
      if front.Fail? then Per.Fail
      else
        var it := ReadToSetupItem(b, front.pos, idMax, qosMax);
        if it.Fail? then Per.Fail else Per.Got(front.value + [it.value], it.pos)
  }

  function ParseToSetup(v: Bytes, idMax: nat, qosMax: nat): Option<seq<BearerToSetup>> {
    var n := Per.ReadLength(BytesBits(v), 0);
    if n.Fail? then None
    else
      var r := ReadToSetupItems(BytesBits(v), n.pos, n.value, idMax, qosMax);
      if r.Fail? then None else Some(r.value)
  }

  lemma AlignedOctets(w: seq<bool>, data: Bytes, b: seq<bool>)
    requires Per.WriteOctets(Per.Align(w), data) <= b
    ensures Per.ReadOctets(b, |w|, |data|) == Per.Got(data, |Per.WriteOctets(Per.Align(w), data)|)
  {
    Per.OctetsRoundTrip(Per.Align(w), data, b);
  }

  lemma ToSetupItemRoundTrip(w: seq<bool>, it: BearerToSetup, idMax: nat, qosMax: nat, b: seq<bool>)
    requires it.id <= idMax && it.qos <= qosMax && WriteToSetupItem(w, it, idMax, qosMax) <= b
    ensures ReadToSetupItem(b, |w|, idMax, qosMax) == Per.Got(it, |WriteToSetupItem(w, it, idMax, qosMax)|)
  {
    hide Per.WriteInt, Per.ReadInt, Per.ReadOctets, BytesBits;
    var w1 := Per.WriteInt(w, it.id, 0, idMax);
    var w2 := Per.WriteInt(w1, it.qos, 0, qosMax);
    var w3 := Per.WriteOctets(Per.Align(w2), it.gtpTeid);
    Per.IntRoundTrip(w, it.id, 0, idMax, b);
    Per.IntRoundTrip(w1, it.qos, 0, qosMax, b);
    AlignedOctets(w2, it.gtpTeid, b);
    Per.OctetsRoundTrip(w3, it.transportAddr, b);
  }

  lemma {:induction false} ToSetupItemsRoundTrip(
    w: seq<bool>, items: seq<BearerToSetup>, idMax: nat, qosMax: nat, b: seq<bool>)
    requires ToSetupInRange(items, idMax, qosMax) && WriteToSetupItems(w, items, idMax, qosMax) <= b
    ensures ReadToSetupItems(b, |w|, |items|, idMax, qosMax) ==
            Per.Got(items, |WriteToSetupItems(w, items, idMax, qosMax)|)
  {
    hide WriteToSetupItem, ReadToSetupItem;
    if items != [] {
      var front := items[..|items| - 1];
      ToSetupItemsRoundTrip(w, front, idMax, qosMax, b);
      ToSetupItemRoundTrip(WriteToSetupItems(w, front, idMax, qosMax), items[|items| - 1], idMax, qosMax, b);
      assert items == front + [items[|items| - 1]];
    }
  }

  lemma ToSetupRoundTrip(items: seq<BearerToSetup>, idMax: nat, qosMax: nat)
    requires |items| < Per.LENGTH_LIMIT && ToSetupInRange(items, idMax, qosMax)
    ensures ParseToSetup(Per.IntoBytes(WriteToSetup(items, idMax, qosMax)), idMax, qosMax) == Some(items)
  {
    hide Per.WriteLength, Per.ReadLength, ReadToSetupItems, WriteToSetupItems;
    var w := WriteToSetup(items, idMax, qosMax);
    BytesBitsOfPackBytes(Per.Align(w));
    var b := BytesBits(Per.IntoBytes(w));
    Per.LengthRoundTrip([], |items|, b);
    ToSetupItemsRoundTrip(Per.WriteLength([], |items|), items, idMax, qosMax, b);
  }

  // ---- Bearers that were set up: id, then address and TEID on octet boundaries ----

  predicate SetupInRange(items: seq<BearerSetup>, idMax: nat) {
    forall it :: it in items ==> it.id <= idMax
  }

  function WriteSetupItem(w: seq<bool>, it: BearerSetup, idMax: nat): (r: seq<bool>)
    requires it.id <= idMax
    ensures w <= r
  {
    var head := Per.Align(Per.WriteInt(w, it.id, 0, idMax));
    Per.WriteOctets(Per.WriteOctets(head, it.transportAddr), it.gtpTeid)
  }

  function WriteSetupItems(w: seq<bool>, items: seq<BearerSetup>, idMax: nat): (r: seq<bool>)
    requires SetupInRange(items, idMax)
    ensures w <= r
  {
    if items == [] then w
    else WriteSetupItem(WriteSetupItems(w, items[..|items| - 1], idMax), items[|items| - 1], idMax)
  }

  function WriteSetup(items: seq<BearerSetup>, idMax: nat): seq<bool>
    requires |items| < Per.LENGTH_LIMIT && SetupInRange(items, idMax)
  {
    WriteSetupItems(Per.WriteLength([], |items|), items, idMax)
  }

  function ReadSetupItem(b: seq<bool>, pos: nat, idMax: nat): Per.Read<BearerSetup> {
    var id := Per.ReadInt(b, pos, 0, idMax);
    if id.Fail? then Per.Fail
    else
      var addr := Per.ReadOctets(b, id.pos, 4);
      if addr.Fail? then Per.Fail
      else
        var teid := Per.ReadOctets(b, addr.pos, 4);
        if teid.Fail? then Per.Fail
        else Per.Got(BearerSetup(id.value % 0x100, addr.value, teid.value), teid.pos)
  }

  function ReadSetupItems(b: seq<bool>, pos: nat, n: nat, idMax: nat): Per.Read<seq<BearerSetup>> {
    if n == 0 then Per.Got([], pos)
    else
      var front := ReadSetupItems(b, pos, n - 1, idMax);
      if front.Fail? then Per.Fail
      else
        var it := ReadSetupItem(b, front.pos, idMax);
        if it.Fail? then Per.Fail else Per.Got(front.value + [it.value], it.pos)
  }

  function ParseSetup(v: Bytes, idMax: nat): Option<seq<BearerSetup>> {
    var n := Per.ReadLength(BytesBits(v), 0);
    if n.Fail? then None
    else
      var r := ReadSetupItems(BytesBits(v), n.pos, n.value, idMax);
      if r.Fail? then None else Some(r.value)
  }

  lemma SetupItemRoundTrip(w: seq<bool>, it: BearerSetup, idMax: nat, b: seq<bool>)
    requires it.id <= idMax && WriteSetupItem(w, it, idMax) <= b
    ensures ReadSetupItem(b, |w|, idMax) == Per.Got(it, |WriteSetupItem(w, it, idMax)|)
  {
    hide Per.WriteInt, Per.ReadInt, Per.ReadOctets, BytesBits;
    var w1 := Per.WriteInt(w, it.id, 0, idMax);
    var w2 := Per.WriteOctets(Per.Align(w1), it.transportAddr);
    Per.IntRoundTrip(w, it.id, 0, idMax, b);
    AlignedOctets(w1, it.transportAddr, b);
    Per.OctetsRoundTrip(w2, it.gtpTeid, b);
  }

  lemma {:induction false} SetupItemsRoundTrip(w: seq<bool>, items: seq<BearerSetup>, idMax: nat, b: seq<bool>)
    requires SetupInRange(items, idMax) && WriteSetupItems(w, items, idMax) <= b
    ensures ReadSetupItems(b, |w|, |items|, idMax) == Per.Got(items, |WriteSetupItems(w, items, idMax)|)
  {
    hide WriteSetupItem, ReadSetupItem;
    if items != [] {
      var front := items[..|items| - 1];
      SetupItemsRoundTrip(w, front, idMax, b);
      SetupItemRoundTrip(WriteSetupItems(w, front, idMax), items[|items| - 1], idMax, b);
      assert items == front + [items[|items| - 1]];
    }
  }

  lemma SetupRoundTrip(items: seq<BearerSetup>, idMax: nat)
    requires |items| < Per.LENGTH_LIMIT && SetupInRange(items, idMax)
    ensures ParseSetup(Per.IntoBytes(WriteSetup(items, idMax)), idMax) == Some(items)
  {
    hide Per.WriteLength, Per.ReadLength, ReadSetupItems, WriteSetupItems;
    var w := WriteSetup(items, idMax);
    BytesBitsOfPackBytes(Per.Align(w));
    var b := BytesBits(Per.IntoBytes(w));
    Per.LengthRoundTrip([], |items|, b);
    SetupItemsRoundTrip(Per.WriteLength([], |items|), items, idMax, b);
  }

  // ---- Bearers that failed: ids packed without alignment (two to an octet at 4 bits) ----

  predicate IdsInRange(ids: seq<byte>, idMax: nat) {
    forall i :: 0 <= i < |ids| ==> ids[i] <= idMax
  }

  function WriteIdItems(w: seq<bool>, ids: seq<byte>, idMax: nat): (r: seq<bool>)
    requires IdsInRange(ids, idMax)
    ensures w <= r
  {
    if ids == [] then w else Per.WriteInt(WriteIdItems(w, ids[..|ids| - 1], idMax), ids[|ids| - 1], 0, idMax)
  }

  function WriteIds(ids: seq<byte>, idMax: nat): seq<bool>
    requires |ids| < Per.LENGTH_LIMIT && IdsInRange(ids, idMax)
  {
    WriteIdItems(Per.WriteLength([], |ids|), ids, idMax)
  }

  function ReadIdItems(b: seq<bool>, pos: nat, n: nat, idMax: nat): Per.Read<seq<byte>> {
    if n == 0 then Per.Got([], pos)
    else
      var front := ReadIdItems(b, pos, n - 1, idMax);
      if front.Fail? then Per.Fail
      else
        var id := Per.ReadInt(b, front.pos, 0, idMax);
        if id.Fail? then Per.Fail else Per.Got(front.value + [id.value % 0x100], id.pos)
  }

  function ParseIds(v: Bytes, idMax: nat): Option<seq<byte>> {
    var n := Per.ReadLength(BytesBits(v), 0);
    if n.Fail? then None
    else
      var r := ReadIdItems(BytesBits(v), n.pos, n.value, idMax);
      if r.Fail? then None else Some(r.value)
  }

  lemma {:induction false} IdItemsRoundTrip(w: seq<bool>, ids: seq<byte>, idMax: nat, b: seq<bool>)
    requires IdsInRange(ids, idMax) && WriteIdItems(w, ids, idMax) <= b
    ensures ReadIdItems(b, |w|, |ids|, idMax) == Per.Got(ids, |WriteIdItems(w, ids, idMax)|)
  {
    hide Per.WriteInt, Per.ReadInt;
    if ids != [] {
      var front := ids[..|ids| - 1];
      IdItemsRoundTrip(w, front, idMax, b);
      Per.IntRoundTrip(WriteIdItems(w, front, idMax), ids[|ids| - 1], 0, idMax, b);
      assert ids == front + [ids[|ids| - 1]];
    }
  }

  lemma IdsRoundTrip(ids: seq<byte>, idMax: nat)
    requires |ids| < Per.LENGTH_LIMIT && IdsInRange(ids, idMax)
    ensures ParseIds(Per.IntoBytes(WriteIds(ids, idMax)), idMax) == Some(ids)
  {
    hide Per.WriteLength, Per.ReadLength, ReadIdItems, WriteIdItems;
    var w := WriteIds(ids, idMax);
    BytesBitsOfPackBytes(Per.Align(w));
    var b := BytesBits(Per.IntoBytes(w));
    Per.LengthRoundTrip([], |ids|, b);
    IdItemsRoundTrip(Per.WriteLength([], |ids|), ids, idMax, b);
  }

  // ---- How long the lists get -------------------------------------------------------------

  lemma ToSetupItemWritten(w: seq<bool>, it: BearerToSetup, idMax: nat, qosMax: nat, n: nat, m: nat)
    requires it.id <= idMax && it.qos <= qosMax && |w| % 8 == 0
    requires Per.Width(idMax, n) && Per.Width(qosMax, m) && n <= 8 && m <= 8 && n + m > 8
    ensures |WriteToSetupItem(w, it, idMax, qosMax)| == |w| + 80
  {
    hide Per.WriteInt, Per.Width, Per.AlignUp;
    Per.IntWritten(w, it.id, idMax, n);
    Per.IntWritten(Per.WriteInt(w, it.id, 0, idMax), it.qos, qosMax, m);
    NextBoundary(|w|, n + m);
  }

  lemma NextBoundary(pos: nat, n: nat)
    requires pos % 8 == 0 && 0 < n <= 16
    ensures Per.AlignUp(pos + n) == if n <= 8 then pos + 8 else pos + 16
  {
  }

  lemma {:induction false} ToSetupItemsWritten(
    w: seq<bool>, items: seq<BearerToSetup>, idMax: nat, qosMax: nat, n: nat, m: nat)
    requires ToSetupInRange(items, idMax, qosMax) && |w| % 8 == 0
    requires Per.Width(idMax, n) && Per.Width(qosMax, m) && n <= 8 && m <= 8 && n + m > 8
    ensures |WriteToSetupItems(w, items, idMax, qosMax)| == |w| + 80 * |items|
  {
    hide WriteToSetupItem, Per.Width;
    if items != [] {
      var front := items[..|items| - 1];
      ToSetupItemsWritten(w, front, idMax, qosMax, n, m);
      ToSetupItemWritten(WriteToSetupItems(w, front, idMax, qosMax), items[|items| - 1], idMax, qosMax, n, m);
    }
  }

  // Ten octets an item: an id and a QoS label too wide for one octet together, TEID, address.
  lemma ToSetupWritten(items: seq<BearerToSetup>, idMax: nat, qosMax: nat, n: nat, m: nat)
    requires |items| < Per.LENGTH_LIMIT && ToSetupInRange(items, idMax, qosMax)
    requires Per.Width(idMax, n) && Per.Width(qosMax, m) && n <= 8 && m <= 8 && n + m > 8
    ensures |Per.IntoBytes(WriteToSetup(items, idMax, qosMax))| == Per.LengthOctets(|items|) + 10 * |items|
  {
    hide WriteToSetupItems, Per.WriteLength, Per.Width;
    Per.LengthWritten([], |items|);
    ToSetupItemsWritten(Per.WriteLength([], |items|), items, idMax, qosMax, n, m);
  }

  lemma SetupItemWritten(w: seq<bool>, it: BearerSetup, idMax: nat, n: nat)
    requires it.id <= idMax && |w| % 8 == 0 && Per.Width(idMax, n) && n <= 8
    ensures |WriteSetupItem(w, it, idMax)| == |w| + 72
  {
    hide Per.WriteInt, Per.Width, Per.AlignUp;
    Per.IntWritten(w, it.id, idMax, n);
    assert n > 0 by { WidthPositive(idMax, n); }
    NextBoundary(|w|, n);
  }

  lemma WidthPositive(max: nat, n: nat)
    requires Per.Width(max, n)
    ensures n > 0
  {
  }

  lemma {:induction false} SetupItemsWritten(w: seq<bool>, items: seq<BearerSetup>, idMax: nat, n: nat)
    requires SetupInRange(items, idMax) && |w| % 8 == 0 && Per.Width(idMax, n) && n <= 8
    ensures |WriteSetupItems(w, items, idMax)| == |w| + 72 * |items|
  {
    hide WriteSetupItem, Per.Width;
    if items != [] {
      var front := items[..|items| - 1];
      SetupItemsWritten(w, front, idMax, n);
      SetupItemWritten(WriteSetupItems(w, front, idMax), items[|items| - 1], idMax, n);
    }
  }

  // Nine octets an item.
  lemma SetupWritten(items: seq<BearerSetup>, idMax: nat, n: nat)
    requires |items| < Per.LENGTH_LIMIT && SetupInRange(items, idMax) && Per.Width(idMax, n) && n <= 8
    ensures |Per.IntoBytes(WriteSetup(items, idMax))| == Per.LengthOctets(|items|) + 9 * |items|
  {
    hide WriteSetupItems, Per.WriteLength, Per.Width;
    Per.LengthWritten([], |items|);
    SetupItemsWritten(Per.WriteLength([], |items|), items, idMax, n);
  }

  lemma {:induction false} IdItemsWritten(w: seq<bool>, ids: seq<byte>, idMax: nat, n: nat)
    requires IdsInRange(ids, idMax) && Per.Width(idMax, n) && (n == 4 || n == 8)
    ensures |WriteIdItems(w, ids, idMax)| == |w| + (if n == 4 then 4 * |ids| else 8 * |ids|)
  {
    hide Per.WriteInt, Per.Width;
    if ids != [] {
      var front := ids[..|ids| - 1];
      IdItemsWritten(w, front, idMax, n);
      Per.IntWritten(WriteIdItems(w, front, idMax), ids[|ids| - 1], idMax, n);
    }
  }

  // An octet an id, or two ids to the octet with the last one padded.
  lemma IdsWritten(ids: seq<byte>, idMax: nat, n: nat)
    requires |ids| < Per.LENGTH_LIMIT && IdsInRange(ids, idMax) && Per.Width(idMax, n) && (n == 4 || n == 8)
    ensures |Per.IntoBytes(WriteIds(ids, idMax))| ==
            Per.LengthOctets(|ids|) + (if n == 4 then (|ids| + 1) / 2 else |ids|)
  {
    hide WriteIdItems, Per.WriteLength, Per.Width;
    Per.LengthWritten([], |ids|);
    IdItemsWritten(Per.WriteLength([], |ids|), ids, idMax, n);
  }

  // ---- The writing and reading loops ----------------------------------------------------

  method WriteBearersToSetup(w: PerWriter, items: seq<BearerToSetup>, idMax: byte, qosMax: byte)
    requires |items| < Per.LENGTH_LIMIT && ToSetupInRange(items, idMax, qosMax)
    modifies w
    ensures w.bits == WriteToSetupItems(Per.WriteLength(old(w.bits), |items|), items, idMax, qosMax)
  {
    hide Per.WriteLength, Per.WriteInt, Per.WriteOctets;
    w.WriteLengthDeterminant(|items|);
    var i := 0;
    while i < |items|
      invariant 0 <= i <= |items|
      invariant w.bits == WriteToSetupItems(Per.WriteLength(old(w.bits), |items|), items[..i], idMax, qosMax)
    {
      var it := items[i];
      w.WriteConstrainedInt(it.id, 0, idMax);
      w.WriteConstrainedInt(it.qos, 0, qosMax);
      w.Align();
      w.WriteOctets(it.gtpTeid);
      w.WriteOctets(it.transportAddr);
      assert items[..i + 1][..i] == items[..i];
      i := i + 1;
    }
    assert items[..|items|] == items;
  }

  method ReadBearersToSetup(r: PerReader, idMax: byte, qosMax: byte) returns (out: Option<seq<BearerToSetup>>)
    requires r.Valid() && r.bitPos == 0
    modifies r
    ensures out == ParseToSetup(r.data, idMax, qosMax)
  {
    hide Per.ReadInt, Per.ReadOctets, Per.ReadLength;
    var count := r.ReadLengthDeterminant();
    if count.None? {
      return None;
    }
    ghost var start := r.bitPos;
    var items := [];
    var i := 0;
    while i < count.value
      invariant 0 <= i <= count.value && r.Valid()
      invariant ReadToSetupItems(r.AllBits(), start, i, idMax, qosMax) == Per.Got(items, r.bitPos)
    {
      ToSetupFailsOn(r.AllBits(), start, i, count.value, idMax, qosMax);
      var id := r.ReadConstrainedInt(0, idMax);
      if id.None? {
        return None;
      }
      var qos := r.ReadConstrainedInt(0, qosMax);
      if qos.None? {
        return None;
      }
      var teid := r.ReadOctets(4);
      if teid.None? {
        return None;
      }
      var addr := r.ReadOctets(4);
      if addr.None? {
        return None;
      }
      items := items + [BearerToSetup(id.value % 0x100, qos.value % 0x100, teid.value, addr.value)];
      i := i + 1;
    }
    return Some(items);
  }

  method WriteBearersSetup(w: PerWriter, items: seq<BearerSetup>, idMax: byte)
    requires |items| < Per.LENGTH_LIMIT && SetupInRange(items, idMax)
    modifies w
    ensures w.bits == WriteSetupItems(Per.WriteLength(old(w.bits), |items|), items, idMax)
  {
    hide Per.WriteLength, Per.WriteInt, Per.WriteOctets;
    w.WriteLengthDeterminant(|items|);
    var i := 0;
    while i < |items|
      invariant 0 <= i <= |items|
      invariant w.bits == WriteSetupItems(Per.WriteLength(old(w.bits), |items|), items[..i], idMax)
    {
      var it := items[i];
      w.WriteConstrainedInt(it.id, 0, idMax);
      w.Align();
      w.WriteOctets(it.transportAddr);
      w.WriteOctets(it.gtpTeid);
      assert items[..i + 1][..i] == items[..i];
      i := i + 1;
    }
    assert items[..|items|] == items;
  }

  method ReadBearersSetup(r: PerReader, idMax: byte) returns (out: Option<seq<BearerSetup>>)
    requires r.Valid() && r.bitPos == 0
    modifies r
    ensures out == ParseSetup(r.data, idMax)
  {
    hide Per.ReadInt, Per.ReadOctets, Per.ReadLength;
    var count := r.ReadLengthDeterminant();
    if count.None? {
      return None;
    }
    ghost var start := r.bitPos;
    var items := [];
    var i := 0;
    while i < count.value
      invariant 0 <= i <= count.value && r.Valid()
      invariant ReadSetupItems(r.AllBits(), start, i, idMax) == Per.Got(items, r.bitPos)
    {
      SetupFailsOn(r.AllBits(), start, i, count.value, idMax);
      var id := r.ReadConstrainedInt(0, idMax);
      if id.None? {
        return None;
      }
      var addr := r.ReadOctets(4);
      if addr.None? {
        return None;
      }
      var teid := r.ReadOctets(4);
      if teid.None? {
        return None;
      }
      items := items + [BearerSetup(id.value % 0x100, addr.value, teid.value)];
      i := i + 1;
    }
    return Some(items);
  }

  method WriteBearerIds(w: PerWriter, ids: seq<byte>, idMax: byte)
    requires |ids| < Per.LENGTH_LIMIT && IdsInRange(ids, idMax)
    modifies w
    ensures w.bits == WriteIdItems(Per.WriteLength(old(w.bits), |ids|), ids, idMax)
  {
    hide Per.WriteLength, Per.WriteInt;
    w.WriteLengthDeterminant(|ids|);
    var i := 0;
    while i < |ids|
      invariant 0 <= i <= |ids|
      invariant w.bits == WriteIdItems(Per.WriteLength(old(w.bits), |ids|), ids[..i], idMax)
    {
      w.WriteConstrainedInt(ids[i], 0, idMax);
      assert ids[..i + 1][..i] == ids[..i];
      i := i + 1;
    }
    assert ids[..|ids|] == ids;
  }

  method ReadBearerIds(r: PerReader, idMax: byte) returns (out: Option<seq<byte>>)
    requires r.Valid() && r.bitPos == 0
    modifies r
    ensures out == ParseIds(r.data, idMax)
  {
    hide Per.ReadInt, Per.ReadLength;
    var count := r.ReadLengthDeterminant();
    if count.None? {
      return None;
    }
    ghost var start := r.bitPos;
    var ids := [];
    var i := 0;
    while i < count.value
      invariant 0 <= i <= count.value && r.Valid()
      invariant ReadIdItems(r.AllBits(), start, i, idMax) == Per.Got(ids, r.bitPos)
    {
      IdsFailOn(r.AllBits(), start, i, count.value, idMax);
      var id := r.ReadConstrainedInt(0, idMax);
      if id.None? {
        return None;
      }
      ids := ids + [id.value % 0x100];
      i := i + 1;
    }
    return Some(ids);
  }

  // Once an item cannot be read, the list cannot.
  lemma {:induction false} ToSetupFailsOn(b: seq<bool>, pos: nat, i: nat, n: nat, idMax: nat, qosMax: nat)
    requires i < n
    ensures ReadToSetupItems(b, pos, i + 1, idMax, qosMax).Fail? ==> ReadToSetupItems(b, pos, n, idMax, qosMax).Fail?
    decreases n
  {
    hide ReadToSetupItem;
    if i + 1 < n {
      ToSetupFailsOn(b, pos, i, n - 1, idMax, qosMax);
    }
  }

  lemma {:induction false} SetupFailsOn(b: seq<bool>, pos: nat, i: nat, n: nat, idMax: nat)
    requires i < n
    ensures ReadSetupItems(b, pos, i + 1, idMax).Fail? ==> ReadSetupItems(b, pos, n, idMax).Fail?
    decreases n
  {
    hide ReadSetupItem;
    if i + 1 < n {
      SetupFailsOn(b, pos, i, n - 1, idMax);
    }
  }

  lemma {:induction false} IdsFailOn(b: seq<bool>, pos: nat, i: nat, n: nat, idMax: nat)
    requires i < n
    ensures ReadIdItems(b, pos, i + 1, idMax).Fail? ==> ReadIdItems(b, pos, n, idMax).Fail?
    decreases n
  {
    hide Per.ReadInt;
    if i + 1 < n {
      IdsFailOn(b, pos, i, n - 1, idMax);
    }
  }
}
