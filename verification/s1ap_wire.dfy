// S1AP on the wire (TS 36.413): for each supported message the procedure, the elements in the
// order they are sent, and the octets of each, as numbers.
module S1apWire {
  import opened Bits
  import Per
  import opened IeContainer
  import opened BearerLists
  import opened S1apCodec
  import opened Wire

  // The ranges of the fields.
  predicate WithinLimits(m: S1apMessage) {
    match m
    case InitialUeMessage(enb, nas, _, _, cause) => enb < 0x100_0000 && |nas| < 16384 && cause < 16
    case DownlinkNasTransport(_, enb, nas) => enb < 0x100_0000 && |nas| < 16384
    case UplinkNasTransport(_, enb, nas, _, _) => enb < 0x100_0000 && |nas| < 16384
    case InitialContextSetupRequest(_, enb, erabs, nas, dl, ul, _) =>
      && enb < 0x100_0000
      && |erabs| < 16384 && (forall it :: it in erabs ==> it.id < 16)
      && (nas.Some? ==> |nas.value| < 16384) && dl <= 10000000000 && ul <= 10000000000
    case InitialContextSetupResponse(_, enb, setup, failed) =>
      && enb < 0x100_0000
      && |setup| < 16384 && (forall it :: it in setup ==> it.id < 16)
      && |failed| < 16384 && (forall i :: 0 <= i < |failed| ==> failed[i] < 16)
    case UeContextReleaseCommand(_, enb, _) => enb < 0x100_0000
    case UeContextReleaseComplete(_, enb) => enb < 0x100_0000
    case _ => true
  }

  lemma LimitsAreBounds(m: S1apMessage)
    requires Supported(m)
    ensures WithinLimits(m) <==> InBounds(m)
  {
  }

  function CauseNumber(c: S1apCause): nat {
    match c
    case RadioNetworkUnspecified => 0
    case TransportUnspecified => 1
    case NasNormalRelease => 2
    case NasDetach => 3
    case NasAuthFailure => 4
    case ProtocolUnspecified => 5
    case MiscUnspecified => 6
  }

  function UeIds(mme: u32, enb: u32, crit: byte): seq<Ie> {
    [Ie(0, crit, BE(mme, 4)), Ie(8, crit, BE(enb, 3))]
  }

  function Nas(nas: Bytes): Ie
    requires |nas| < 16384
  {
    Ie(26, 0, Determinant(|nas|) + nas)
  }

  function ErabsImage(items: seq<BearerToSetup>): Bytes
    requires forall it :: it in items ==> it.id < 16
  {
    if items == [] then []
    else
      var it := items[|items| - 1];
      ErabsImage(items[..|items| - 1]) + (Prefix(it.id, it.qos) + it.gtpTeid + it.transportAddr)
  }

  // Four bits of id and eight of QCI at the top of two octets.
  function Prefix(id: byte, qci: byte): (r: Bytes)
    requires id < 16
    ensures |r| == 2
  {
    [16 * id + qci / 16, 16 * (qci % 16)]
  }

  function SetupImage(items: seq<BearerSetup>): Bytes
    requires forall it :: it in items ==> it.id < 16
  {
    if items == [] then []
    else
      var it := items[|items| - 1];
      SetupImage(items[..|items| - 1]) + ([16 * it.id] + it.transportAddr + it.gtpTeid)
  }

  // An element that is sent only when its list is not empty.
  function ListIe(id: u32, crit: byte, count: nat, items: Bytes): seq<Ie>
    requires count < 16384
  {
    if count == 0 then [] else [Ie(id, crit, Determinant(count) + items)]
  }

  function Elements(m: S1apMessage): seq<Ie>
    requires Supported(m) && WithinLimits(m)
  {
    match m
    case InitialUeMessage(enb, nas, tai, cgi, cause) =>
      [Ie(8, 0, BE(enb, 3)), Nas(nas), Ie(67, 1, tai), Ie(100, 1, cgi), Ie(134, 1, [16 * cause])]
    case UplinkNasTransport(mme, enb, nas, tai, cgi) =>
      UeIds(mme, enb, 0) + [Nas(nas), Ie(67, 1, tai), Ie(100, 1, cgi)]
    case DownlinkNasTransport(mme, enb, nas) => UeIds(mme, enb, 0) + [Nas(nas)]
    case InitialContextSetupRequest(mme, enb, erabs, nas, dl, ul, key) =>
      UeIds(mme, enb, 0) + [Ie(66, 0, BE(dl, 5) + BE(ul, 5)), Ie(73, 0, key)]
      + ListIe(24, 0, |erabs|, ErabsImage(erabs)) + (if nas.Some? then [Nas(nas.value)] else [])
    case InitialContextSetupResponse(mme, enb, setup, failed) =>
      UeIds(mme, enb, 0) + ListIe(51, 0, |setup|, SetupImage(setup)) + ListIe(48, 1, |failed|, NibbleImage(failed))
    case UeContextReleaseCommand(mme, enb, cause) => UeIds(mme, enb, 0) + [Ie(2, 1, [32 * CauseNumber(cause)])]
    case UeContextReleaseComplete(mme, enb) => UeIds(mme, enb, 1)
  }

  // Initiating message 0 or successful outcome 1, the procedure code, and its criticality.
  function Message(m: S1apMessage): Pdu
    requires Supported(m) && WithinLimits(m)
  {
    match m
    case InitialUeMessage(_, _, _, _, _) => Pdu(0, 12, 1, Elements(m))
    case UplinkNasTransport(_, _, _, _, _) => Pdu(0, 13, 1, Elements(m))
    case DownlinkNasTransport(_, _, _) => Pdu(0, 11, 1, Elements(m))
    case InitialContextSetupRequest(_, _, _, _, _, _, _) => Pdu(0, 9, 0, Elements(m))
    case InitialContextSetupResponse(_, _, _, _) => Pdu(1, 9, 0, Elements(m))
    case UeContextReleaseCommand(_, _, _) => Pdu(0, 23, 1, Elements(m))
    case UeContextReleaseComplete(_, _) => Pdu(1, 23, 1, Elements(m))
  }

  // ---- The encoder's elements are these ---------------------------------------------------------

  lemma UeIdsAre(mme: u32, enb: u32, crit: byte)
    requires enb < 0x100_0000
    ensures [MmeIe(mme, crit), EnbIe(enb, crit)] == UeIds(mme, enb, crit)
  {
    hide Per.IntoBytes, Per.WriteInt, BE, Per.Width;
    Widths();
    WideValue(mme, MME_UE_S1AP_ID_MAX, 32);
    WideValue(enb, ENB_UE_S1AP_ID_MAX, 24);
  }

  lemma NasIs(nas: Bytes)
    requires |nas| < 16384
    ensures NasIe(nas) == Nas(nas)
  {
    StringValue(nas);
  }

  lemma PlaceIs(tai: Octets5, cgi: Octets7)
    ensures TaiIe(tai) == Ie(67, 1, tai) && CgiIe(cgi) == Ie(100, 1, cgi)
  {
    OctetsValue(tai, []);
    OctetsValue(cgi, []);
  }

  lemma RrcCauseIs(cause: byte)
    requires cause < 16
    ensures IntIe(ID_RRC_ESTABLISHMENT_CAUSE, CRITICALITY_IGNORE, cause, RRC_ESTABLISHMENT_CAUSE_MAX) ==
            Ie(134, 1, [16 * cause])
  {
    hide Per.IntoBytes, Per.WriteInt, Per.Width;
    Widths();
    assert Pow2(4) == 16;
    NarrowValue(cause, RRC_ESTABLISHMENT_CAUSE_MAX, 4, 16 * cause);
  }

  lemma CauseIs(c: S1apCause)
    ensures IntIe(ID_CAUSE, CRITICALITY_IGNORE, CauseToInt(c), CAUSE_MAX) == Ie(2, 1, [32 * CauseNumber(c)])
  {
    hide Per.IntoBytes, Per.WriteInt, Per.Width;
    Widths();
    assert Pow2(5) == 32 by { assert Pow2(4) == 16; }
    NarrowValue(CauseToInt(c), CAUSE_MAX, 3, 32 * CauseToInt(c));
  }

  lemma KeyIs(key: Octets32)
    ensures OctetsIe(ID_SECURITY_KEY, CRITICALITY_REJECT, key) == Ie(73, 0, key)
  {
    OctetsValue(key, []);
  }

  lemma AmbrIs(dl: u64, ul: u64)
    requires dl <= 10000000000 && ul <= 10000000000
    ensures AmbrIe(CRITICALITY_REJECT, dl, ul) == Ie(66, 0, BE(dl, 5) + BE(ul, 5))
  {
    hide Per.IntoBytes, Per.WriteInt, BE, BytesBits, Per.Width;
    Widths();
    var w := Per.WriteInt([], dl, 0, BIT_RATE_MAX);
    WideImage([], dl, BIT_RATE_MAX, 34);
    AlignedIs([]);
    assert w == BytesBits(BE(dl, 5));
    WideImage(w, ul, BIT_RATE_MAX, 34);
    AlignedIs(w);
    BytesBitsAppend(BE(dl, 5), BE(ul, 5));
    IntoBytesImage(BE(dl, 5) + BE(ul, 5));
  }

  lemma {:induction false} ErabItemsWrite(w: seq<bool>, items: seq<BearerToSetup>)
    requires |w| % 8 == 0 && (forall it :: it in items ==> it.id < 16)
    ensures WriteToSetupItems(w, items, ERAB_ID_MAX, QCI_MAX) == w + BytesBits(ErabsImage(items))
  {
    hide WriteToSetupItem, BytesBits, Per.Width;
    if items == [] {
      assert BytesBits([]) == [] by { NoBits(); }
      assert w + [] == w;
    } else {
      var front, it := items[..|items| - 1], items[|items| - 1];
      ErabItemsWrite(w, front);
      ErabItemWrites(w, ErabsImage(front), it);
    }
  }

  lemma ErabItemWrites(w: seq<bool>, front: Bytes, it: BearerToSetup)
    requires |w| % 8 == 0 && it.id < 16
    ensures var item := Prefix(it.id, it.qos) + it.gtpTeid + it.transportAddr;
            WriteToSetupItem(w + BytesBits(front), it, ERAB_ID_MAX, QCI_MAX) == w + BytesBits(front + item)
  {
    Widths();
    PrefixBits(it.id, it.qos);
    hide *;
    var item := Prefix(it.id, it.qos) + it.gtpTeid + it.transportAddr;
    StaysAligned(w, front);
    var at := w + BytesBits(front);
    ToSetupItemWrites(at, it, ERAB_ID_MAX, QCI_MAX, 4, 8, Prefix(it.id, it.qos));
    BytesBitsAppend(front, item);
    Assoc(w, BytesBits(front), BytesBits(item));
  }

  lemma PrefixBits(id: byte, qci: byte)
    requires id < 16
    ensures BitsOf(id, 4) + BitsOf(qci, 8) + Per.Zeros(4) == BytesBits(Prefix(id, qci))
  {
    NarrowItemHead(id, qci);
  }

  lemma NoBits()
    ensures BytesBits([]) == []
  {
  }

  lemma ErabsAre(items: seq<BearerToSetup>)
    requires |items| < 16384 && (forall it :: it in items ==> it.id < 16)
    ensures ToSetupIes(items) == ListIe(24, 0, |items|, ErabsImage(items))
  {
    hide WriteToSetupItems, ErabsImage, BytesBits, Per.WriteLength, Per.IntoBytes, Determinant;
    DeterminantImage([], |items|);
    AlignedIs([]);
    assert [] + BytesBits(Determinant(|items|)) == BytesBits(Determinant(|items|));
    ErabItemsWrite(BytesBits(Determinant(|items|)), items);
    BytesBitsAppend(Determinant(|items|), ErabsImage(items));
    IntoBytesImage(Determinant(|items|) + ErabsImage(items));
  }

  lemma {:induction false} SetupItemsWrite(w: seq<bool>, items: seq<BearerSetup>)
    requires |w| % 8 == 0 && (forall it :: it in items ==> it.id < 16)
    ensures WriteSetupItems(w, items, ERAB_ID_MAX) == w + BytesBits(SetupImage(items))
  {
    hide WriteSetupItem, BytesBits, Per.Width;
    if items == [] {
      assert BytesBits([]) == [] by { NoBits(); }
      assert w + [] == w;
    } else {
      var front, it := items[..|items| - 1], items[|items| - 1];
      Widths();
      SetupItemsWrite(w, front);
      SmallPow2();
      SetupItemWrites(w + BytesBits(SetupImage(front)), it, ERAB_ID_MAX, 4, 16 * it.id);
      BytesBitsAppend(SetupImage(front), [16 * it.id] + it.transportAddr + it.gtpTeid);
      Assoc(w, BytesBits(SetupImage(front)), BytesBits([16 * it.id] + it.transportAddr + it.gtpTeid));
    }
  }

  lemma SetupIs(items: seq<BearerSetup>)
    requires |items| < 16384 && (forall it :: it in items ==> it.id < 16)
    ensures SetupIes(items) == ListIe(51, 0, |items|, SetupImage(items))
  {
    hide WriteSetupItems, SetupImage, BytesBits, Per.WriteLength, Per.IntoBytes, Determinant;
    DeterminantImage([], |items|);
    AlignedIs([]);
    assert [] + BytesBits(Determinant(|items|)) == BytesBits(Determinant(|items|));
    SetupItemsWrite(BytesBits(Determinant(|items|)), items);
    BytesBitsAppend(Determinant(|items|), SetupImage(items));
    IntoBytesImage(Determinant(|items|) + SetupImage(items));
  }

  lemma FailedIs(ids: seq<byte>)
    requires |ids| < 16384 && forall i :: 0 <= i < |ids| ==> ids[i] < 16
    ensures FailedIes(ids) == ListIe(48, 1, |ids|, NibbleImage(ids))
  {
    hide WriteIdItems, BytesBits, Per.WriteLength, Determinant, Per.Width, NibbleImage;
    Widths();
    DeterminantImage([], |ids|);
    AlignedIs([]);
    var count := BytesBits(Determinant(|ids|));
    assert [] + count == count;
    NibbleItemsWrite(count, ids);
    NibblesPack(count, ids);
    BytesBitsAppend(Determinant(|ids|), NibbleImage(ids));
    PackBytesOfBytesBits(Determinant(|ids|) + NibbleImage(ids));
  }

  lemma EntriesAre(m: S1apMessage)
    requires Supported(m) && WithinLimits(m)
    ensures InBounds(m) && ToPdu(m) == Message(m)
  {
    hide MmeIe, EnbIe, NasIe, TaiIe, CgiIe, IntIe, OctetsIe, AmbrIe, ToSetupIes, SetupIes, FailedIes;
    hide BE, Determinant, ErabsImage, SetupImage, NibbleImage;
    LimitsAreBounds(m);
    match m {
      case InitialUeMessage(enb, nas, tai, cgi, cause) =>
        UeIdsAre(0, enb, 0);
        assert EnbIe(enb, 0) == [MmeIe(0, 0), EnbIe(enb, 0)][1] == UeIds(0, enb, 0)[1];
        NasIs(nas);
        PlaceIs(tai, cgi);
        RrcCauseIs(cause);
      case UplinkNasTransport(mme, enb, nas, tai, cgi) =>
        UeIdsAre(mme, enb, 0);
        NasIs(nas);
        PlaceIs(tai, cgi);
        assert Entries(m) == [MmeIe(mme, 0), EnbIe(enb, 0)] + [NasIe(nas), TaiIe(tai), CgiIe(cgi)];
      case DownlinkNasTransport(mme, enb, nas) =>
        UeIdsAre(mme, enb, 0);
        NasIs(nas);
        assert Entries(m) == [MmeIe(mme, 0), EnbIe(enb, 0)] + [NasIe(nas)];
      case InitialContextSetupRequest(mme, enb, erabs, nas, dl, ul, key) =>
        UeIdsAre(mme, enb, 0);
        KeyIs(key);
        AmbrIs(dl, ul);
        ErabsAre(erabs);
        if nas.Some? {
          NasIs(nas.value);
        }
        var ambrIe, keyIe := AmbrIe(CRITICALITY_REJECT, dl, ul), OctetsIe(ID_SECURITY_KEY, CRITICALITY_REJECT, key);
        assert Entries(m) == [MmeIe(mme, 0), EnbIe(enb, 0)] + [ambrIe, keyIe] + ToSetupIes(erabs) + NasOptIes(nas);
      case InitialContextSetupResponse(mme, enb, setup, failed) =>
        UeIdsAre(mme, enb, 0);
        SetupIs(setup);
        FailedIs(failed);
      case UeContextReleaseCommand(mme, enb, cause) =>
        UeIdsAre(mme, enb, 0);
        CauseIs(cause);
        assert Entries(m) == [MmeIe(mme, 0), EnbIe(enb, 0)]
            + [IntIe(ID_CAUSE, CRITICALITY_IGNORE, CauseToInt(cause), CAUSE_MAX)];
      case UeContextReleaseComplete(mme, enb) =>
        UeIdsAre(mme, enb, 1);
    }
  }

  // Main result. Every supported message whose fields are in range and add up to less than
  // 16384 octets is encoded as exactly these octets, and they decode to it.
  lemma WireImage(m: S1apMessage)
    requires Supported(m) && WithinLimits(m) && WireOctets(m) < 16384
    ensures Representable(Elements(m)) && |ContainerImage(Elements(m))| < 16384
    ensures Encodable(m) && Encode(m) == Ok(PduImage(Message(m))) && Decode(PduImage(Message(m))) == Ok(m)
  {
    hide EncodePdu, DecodePdu, Entries, Elements, WireOctets, PduImage, ContainerImage;
    EntriesAre(m);
    EncodableIsValidPdu(m);
    PduWrites(ToPdu(m));
    RoundTrip(m);
  }

  // ---- What the decoder asks for ----------------------------------------------------------------

  // The elements a message must have, in the order in which a missing one is reported.
  function Mandatory(choice: nat, procedure: u32): seq<u32> {
    if procedure == 12 then [8, 26, 67, 100, 134]
    else if procedure == 13 then [0, 8, 26, 67, 100]
    else if procedure == 11 then [0, 8, 26]
    else if procedure == 9 && choice == 0 then [0, 8, 66, 73]
    else if procedure == 9 && choice == 1 then [0, 8]
    else if procedure == 23 && choice == 0 then [0, 8, 2]
    else if procedure == 23 && choice == 1 then [0, 8]
    else []
  }

  // The element is there and its value can be read.
  predicate Readable(es: seq<Ie>, id: u32) {
    if id == 0 then MmeOf(es).Some?
    else if id == 8 then EnbOf(es).Some?
    else if id == 26 then NasOf(es).Some?
    else if id == 67 then TaiOf(es).Some?
    else if id == 100 then CgiOf(es).Some?
    else if id == 134 then RrcCauseOf(es).Some?
    else if id == 2 then CauseOf(es).Some?
    else if id == 73 then KeyOf(es).Some?
    else if id == 66 then AmbrOf(es).Some?
    else false
  }

  function FirstUnreadable(es: seq<Ie>, ids: seq<u32>): Option<u32> {
    if ids == [] then None
    else if !Readable(es, ids[0]) then Some(ids[0])
    else FirstUnreadable(es, ids[1..])
  }

  // Whatever the entries: an unknown procedure is refused, otherwise the first mandatory element
  // that cannot be read is reported, and a message comes out exactly when there is none.
  lemma DecodesOrReports(choice: nat, procedure: u32, es: seq<Ie>)
    ensures var r := DecodeEntries(choice, procedure, es);
            var ids := Mandatory(choice, procedure);
            if ids == [] then r == Err(UnsupportedProcedure)
            else match FirstUnreadable(es, ids)
                 case Some(id) => r == Err(Missing(id))
                 case None => r.Ok?
  {
    hide MmeOf, EnbOf, NasOf, TaiOf, CgiOf, RrcCauseOf, CauseOf, KeyOf, AmbrOf, ErabsOf, SetupOf, FailedOf;
    var ids := Mandatory(choice, procedure);
    if |ids| > 1 {
      UnreadableStep(es, ids);
      UnreadableStep(es, ids[1..]);
      if |ids| > 2 {
        UnreadableStep(es, ids[1..][1..]);
        if |ids| > 3 {
          UnreadableStep(es, ids[1..][1..][1..]);
          if |ids| > 4 {
            UnreadableStep(es, ids[1..][1..][1..][1..]);
          }
        }
      }
    }
  }

  lemma UnreadableStep(es: seq<Ie>, ids: seq<u32>)
    requires ids != []
    ensures FirstUnreadable(es, ids) == if !Readable(es, ids[0]) then Some(ids[0]) else FirstUnreadable(es, ids[1..])
  {
  }

  // Element 0 is the MME's id and element 8 the eNodeB's, wherever they stand.
  lemma UeIdsDecode(es: seq<Ie>, i: nat, j: nat, mme: u32, enb: u32, crit: byte)
    requires DistinctIds(es) && i < |es| && j < |es| && enb < 0x100_0000
    requires es[i] == Ie(0, crit, BE(mme, 4)) && es[j] == Ie(8, crit, BE(enb, 3))
    ensures DecodeEntries(1, 23, es) == Ok(UeContextReleaseComplete(mme, enb))
  {
    hide Values, Last, ParseMmeId, ParseEnbId, IntIe, BE;
    UeIdsAre(mme, enb, crit);
    assert es[i] == UeIds(mme, enb, crit)[0] && es[j] == UeIds(mme, enb, crit)[1];
    FoundUeIds(es, i, j, mme, enb, crit);
  }
}
