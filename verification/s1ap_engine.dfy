// The S1AP codec as the source runs it: writers per information element, a loop over the
// received entries updating locals, and the dispatch. Each is proved equal to its function
// in S1apCodec.
module S1apEngine {
  import opened Bits
  import Per
  import opened PerEngine
  import opened IeContainer
  import opened BearerLists
  import opened S1apCodec

  method EncodeUeIds(mme: u32, enb: u32, crit: byte) returns (entries: seq<Ie>)
    requires enb <= ENB_UE_S1AP_ID_MAX
    ensures entries == [MmeIe(mme, crit), EnbIe(enb, crit)]
  {
    var a := EncodeIntIe(ID_MME_UE_S1AP_ID, crit, mme, MME_UE_S1AP_ID_MAX);
    var r := EncodeIntIe(ID_ENB_UE_S1AP_ID, crit, enb, ENB_UE_S1AP_ID_MAX);
    entries := [a, r];
  }

  method EncodeInitialUeMessage(m: S1apMessage) returns (out: Bytes)
    requires m.InitialUeMessage? && Encodable(m)
    ensures Encode(m) == Ok(out)
  {
    hide IntIe, StringIe, OctetsIe, EncodePdu, Fits, WireOctets;
    EncodableIsValidPdu(m);
    var enb := EncodeIntIe(ID_ENB_UE_S1AP_ID, CRITICALITY_REJECT, m.enbId, ENB_UE_S1AP_ID_MAX);
    var nas := EncodeStringIe(ID_NAS_PDU, CRITICALITY_REJECT, m.nasPdu);
    var tai := EncodeOctetsIe(ID_TAI, CRITICALITY_IGNORE, m.tai);
    var cgi := EncodeOctetsIe(ID_EUTRAN_CGI, CRITICALITY_IGNORE, m.cgi);
    var cause := EncodeIntIe(ID_RRC_ESTABLISHMENT_CAUSE, CRITICALITY_IGNORE, m.rrcCause, RRC_ESTABLISHMENT_CAUSE_MAX);
    var entries := [enb, nas, tai, cgi, cause];
    assert entries == Entries(m);
    out := EncodePduWrapper(INITIATING_MESSAGE, PROC_INITIAL_UE_MESSAGE, CRITICALITY_IGNORE, entries);
  }

  method EncodeUplinkNasTransport(m: S1apMessage) returns (out: Bytes)
    requires m.UplinkNasTransport? && Encodable(m)
    ensures Encode(m) == Ok(out)
  {
    hide IntIe, StringIe, OctetsIe, EncodePdu, Fits, WireOctets;
    EncodableIsValidPdu(m);
    var entries := EncodeUeIds(m.mmeId, m.enbId, CRITICALITY_REJECT);
    var nas := EncodeStringIe(ID_NAS_PDU, CRITICALITY_REJECT, m.nasPdu);
    var tai := EncodeOctetsIe(ID_TAI, CRITICALITY_IGNORE, m.tai);
    var cgi := EncodeOctetsIe(ID_EUTRAN_CGI, CRITICALITY_IGNORE, m.cgi);
    entries := entries + [nas, tai, cgi];
    assert entries == Entries(m);
    out := EncodePduWrapper(INITIATING_MESSAGE, PROC_UPLINK_NAS_TRANSPORT, CRITICALITY_IGNORE, entries);
  }

  method EncodeDownlinkNasTransport(m: S1apMessage) returns (out: Bytes)
    requires m.DownlinkNasTransport? && Encodable(m)
    ensures Encode(m) == Ok(out)
  {
    hide IntIe, StringIe, EncodePdu, Fits, WireOctets;
    EncodableIsValidPdu(m);
    var entries := EncodeUeIds(m.mmeId, m.enbId, CRITICALITY_REJECT);
    var nas := EncodeStringIe(ID_NAS_PDU, CRITICALITY_REJECT, m.nasPdu);
    entries := entries + [nas];
    assert entries == Entries(m);
    out := EncodePduWrapper(INITIATING_MESSAGE, PROC_DOWNLINK_NAS_TRANSPORT, CRITICALITY_IGNORE, entries);
  }

  method EncodeAmbrIe(crit: byte, dl: u64, ul: u64) returns (e: Ie)
    requires dl <= BIT_RATE_MAX && ul <= BIT_RATE_MAX
    ensures e == AmbrIe(crit, dl, ul)
  {
    var w := new PerWriter();
    w.WriteConstrainedInt(dl, 0, BIT_RATE_MAX);
    w.WriteConstrainedInt(ul, 0, BIT_RATE_MAX);
    var b := w.IntoBytes();
    e := Ie(ID_UE_AGGREGATE_MAX_BIT_RATE, crit, b);
  }

  method EncodeInitialContextSetupRequest(m: S1apMessage) returns (out: Bytes)
    requires m.InitialContextSetupRequest? && Encodable(m)
    ensures Encode(m) == Ok(out)
  {
    hide IntIe, StringIe, OctetsIe, AmbrIe, EncodePdu, Fits, WireOctets;
    hide Per.IntoBytes, WriteToSetupItems, Per.WriteLength;
    EncodableIsValidPdu(m);
    var entries := EncodeUeIds(m.mmeId, m.enbId, CRITICALITY_REJECT);
    var key := EncodeOctetsIe(ID_SECURITY_KEY, CRITICALITY_REJECT, m.securityKey);
    var ambr := EncodeAmbrIe(CRITICALITY_REJECT, m.ambrDl, m.ambrUl);
    entries := entries + [ambr, key];
    ghost var base := entries;
    if m.erabs != [] {
      var w := new PerWriter();
      WriteBearersToSetup(w, m.erabs, ERAB_ID_MAX, QCI_MAX);
      var b := w.IntoBytes();
      entries := entries + [Ie(ID_SETUP_LIST_REQ, CRITICALITY_REJECT, b)];
    }
    assert entries == base + ToSetupIes(m.erabs);
    if m.nasPduOpt.Some? {
      var nas := EncodeStringIe(ID_NAS_PDU, CRITICALITY_REJECT, m.nasPduOpt.value);
      entries := entries + [nas];
    }
    assert entries == base + ToSetupIes(m.erabs) + NasOptIes(m.nasPduOpt);
    assert entries == Entries(m);
    out := EncodePduWrapper(INITIATING_MESSAGE, PROC_INITIAL_CONTEXT_SETUP, CRITICALITY_REJECT, entries);
  }

  method EncodeInitialContextSetupResponse(m: S1apMessage) returns (out: Bytes)
    requires m.InitialContextSetupResponse? && Encodable(m)
    ensures Encode(m) == Ok(out)
  {
    hide IntIe, EncodePdu, Fits, WireOctets, Per.IntoBytes, WriteSetupItems, WriteIdItems, Per.WriteLength;
    EncodableIsValidPdu(m);
    var entries := EncodeUeIds(m.mmeId, m.enbId, CRITICALITY_REJECT);
    ghost var base := entries;
    if m.setup != [] {
      var w := new PerWriter();
      WriteBearersSetup(w, m.setup, ERAB_ID_MAX);
      var b := w.IntoBytes();
      entries := entries + [Ie(ID_SETUP_LIST_RES, CRITICALITY_REJECT, b)];
    }
    assert entries == base + SetupIes(m.setup);
    if m.failed != [] {
      var w := new PerWriter();
      WriteBearerIds(w, m.failed, ERAB_ID_MAX);
      var b := w.IntoBytes();
      entries := entries + [Ie(ID_FAILED_LIST_RES, CRITICALITY_IGNORE, b)];
    }
    assert entries == base + SetupIes(m.setup) + FailedIes(m.failed);
    assert entries == Entries(m);
    out := EncodePduWrapper(SUCCESSFUL_OUTCOME, PROC_INITIAL_CONTEXT_SETUP, CRITICALITY_REJECT, entries);
  }

  method EncodeUeContextReleaseCommand(m: S1apMessage) returns (out: Bytes)
    requires m.UeContextReleaseCommand? && Encodable(m)
    ensures Encode(m) == Ok(out)
  {
    hide IntIe, EncodePdu, Fits, WireOctets;
    EncodableIsValidPdu(m);
    var entries := EncodeUeIds(m.mmeId, m.enbId, CRITICALITY_REJECT);
    var cause := EncodeIntIe(ID_CAUSE, CRITICALITY_IGNORE, CauseToInt(m.cause), CAUSE_MAX);
    entries := entries + [cause];
    assert entries == Entries(m);
    out := EncodePduWrapper(INITIATING_MESSAGE, PROC_UE_CONTEXT_RELEASE, CRITICALITY_IGNORE, entries);
  }

  method EncodeUeContextReleaseComplete(m: S1apMessage) returns (out: Bytes)
    requires m.UeContextReleaseComplete? && Encodable(m)
    ensures Encode(m) == Ok(out)
  {
    hide IntIe, EncodePdu, Fits, WireOctets;
    EncodableIsValidPdu(m);
    var entries := EncodeUeIds(m.mmeId, m.enbId, CRITICALITY_IGNORE);
    assert entries == Entries(m);
    out := EncodePduWrapper(SUCCESSFUL_OUTCOME, PROC_UE_CONTEXT_RELEASE, CRITICALITY_IGNORE, entries);
  }

  method EncodeS1apPdu(m: S1apMessage) returns (out: Result<Bytes, S1apError>)
    requires Encodable(m)
    ensures out == Encode(m)
  {
    hide ToPdu, EncodePdu, WireOctets, InBounds;
    match m {
      case InitialUeMessage(_, _, _, _, _) =>
        var b := EncodeInitialUeMessage(m);
        return Ok(b);
      case UplinkNasTransport(_, _, _, _, _) =>
        var b := EncodeUplinkNasTransport(m);
        return Ok(b);
      case DownlinkNasTransport(_, _, _) =>
        var b := EncodeDownlinkNasTransport(m);
        return Ok(b);
      case InitialContextSetupRequest(_, _, _, _, _, _, _) =>
        var b := EncodeInitialContextSetupRequest(m);
        return Ok(b);
      case InitialContextSetupResponse(_, _, _, _) =>
        var b := EncodeInitialContextSetupResponse(m);
        return Ok(b);
      case UeContextReleaseCommand(_, _, _) =>
        var b := EncodeUeContextReleaseCommand(m);
        return Ok(b);
      case UeContextReleaseComplete(_, _) =>
        var b := EncodeUeContextReleaseComplete(m);
        return Ok(b);
      case _ => return Err(UnsupportedMessage);
    }
  }

  // ---- Decoding -----------------------------------------------------------------------

  method ReadMmeId(val: Bytes) returns (id: Option<u32>)
    ensures id == ParseMmeId(val)
  {
    var r := new PerReader(val);
    var v := r.ReadConstrainedInt(0, MME_UE_S1AP_ID_MAX);
    id := if v.None? then None else Some(v.value % 0x1_0000_0000);
  }

  method ReadEnbId(val: Bytes) returns (id: Option<u32>)
    ensures id == ParseEnbId(val)
  {
    var r := new PerReader(val);
    var v := r.ReadConstrainedInt(0, ENB_UE_S1AP_ID_MAX);
    id := if v.None? then None else Some(v.value % 0x1_0000_0000);
  }

  method ReadNas(val: Bytes) returns (nas: Option<Bytes>)
    ensures nas == ParseNas(val)
  {
    var r := new PerReader(val);
    nas := r.ReadOctetString();
  }

  method ReadTai(val: Bytes) returns (tai: Option<Octets5>)
    ensures tai == ParseTai(val)
  {
    var r := new PerReader(val);
    var v := r.ReadOctets(5);
    tai := if v.None? then None else Some(v.value);
  }

  method ReadCgi(val: Bytes) returns (cgi: Option<Octets7>)
    ensures cgi == ParseCgi(val)
  {
    var r := new PerReader(val);
    var v := r.ReadOctets(7);
    cgi := if v.None? then None else Some(v.value);
  }

  method DecodeInitialUeMessage(entries: seq<Ie>) returns (out: Decoded)
    ensures out == DecodeInitialUe(entries)
  {
    hide Values, Last, ParseEnbId, ParseNas, ParseTai, ParseCgi, Per.ReadInt;
    var enb, nas, tai, cgi, cause := None, None, None, None, None;
    NothingYet(entries);
    var i := 0;
    while i < |entries|
      invariant 0 <= i <= |entries|
      invariant enb == EnbOf(entries[..i]) && nas == NasOf(entries[..i])
      invariant tai == TaiOf(entries[..i]) && cgi == CgiOf(entries[..i]) && cause == RrcCauseOf(entries[..i])
    {
      var e := entries[i];
      LastStep(entries, i, ID_ENB_UE_S1AP_ID, ParseEnbId);
      LastStep(entries, i, ID_NAS_PDU, ParseNas);
      LastStep(entries, i, ID_TAI, ParseTai);
      LastStep(entries, i, ID_EUTRAN_CGI, ParseCgi);
      LastStep(entries, i, ID_RRC_ESTABLISHMENT_CAUSE, ParseRrcCause);
      if e.id == ID_ENB_UE_S1AP_ID {
        enb := ReadEnbId(e.value);
      } else if e.id == ID_NAS_PDU {
        nas := ReadNas(e.value);
      } else if e.id == ID_TAI {
        tai := ReadTai(e.value);
      } else if e.id == ID_EUTRAN_CGI {
        cgi := ReadCgi(e.value);
      } else if e.id == ID_RRC_ESTABLISHMENT_CAUSE {
        var r := new PerReader(e.value);
        var v := r.ReadConstrainedInt(0, RRC_ESTABLISHMENT_CAUSE_MAX);
        cause := if v.None? then None else Some(v.value % 0x100);
      }
      i := i + 1;
    }
    assert entries[..i] == entries;
    if enb.None? {
      return Err(Missing(ID_ENB_UE_S1AP_ID));
    }
    if nas.None? {
      return Err(Missing(ID_NAS_PDU));
    }
    if tai.None? {
      return Err(Missing(ID_TAI));
    }
    if cgi.None? {
      return Err(Missing(ID_EUTRAN_CGI));
    }
    if cause.None? {
      return Err(Missing(ID_RRC_ESTABLISHMENT_CAUSE));
    }
    return Ok(InitialUeMessage(enb.value, nas.value, tai.value, cgi.value, cause.value));
  }

  // Every local starts out as what an empty container gives.
  lemma NothingYet(entries: seq<Ie>)
    ensures MmeOf(entries[..0]) == None && EnbOf(entries[..0]) == None && NasOf(entries[..0]) == None
    ensures TaiOf(entries[..0]) == None && CgiOf(entries[..0]) == None
    ensures RrcCauseOf(entries[..0]) == None && CauseOf(entries[..0]) == None
    ensures KeyOf(entries[..0]) == None && AmbrOf(entries[..0]) == None
    ensures ErabsOf(entries[..0]) == [] && SetupOf(entries[..0]) == [] && FailedOf(entries[..0]) == []
  {
    assert entries[..0] == [];
  }

  method DecodeUplinkNasTransport(entries: seq<Ie>) returns (out: Decoded)
    ensures out == DecodeUplinkNas(entries)
  {
    hide Values, Last, ParseMmeId, ParseEnbId, ParseNas, ParseTai, ParseCgi;
    var mme, enb, nas, tai, cgi := None, None, None, None, None;
    NothingYet(entries);
    var i := 0;
    while i < |entries|
      invariant 0 <= i <= |entries|
      invariant mme == MmeOf(entries[..i]) && enb == EnbOf(entries[..i]) && nas == NasOf(entries[..i])
      invariant tai == TaiOf(entries[..i]) && cgi == CgiOf(entries[..i])
    {
      var e := entries[i];
      LastStep(entries, i, ID_MME_UE_S1AP_ID, ParseMmeId);
      LastStep(entries, i, ID_ENB_UE_S1AP_ID, ParseEnbId);
      LastStep(entries, i, ID_NAS_PDU, ParseNas);
      LastStep(entries, i, ID_TAI, ParseTai);
      LastStep(entries, i, ID_EUTRAN_CGI, ParseCgi);
      if e.id == ID_MME_UE_S1AP_ID {
        mme := ReadMmeId(e.value);
      } else if e.id == ID_ENB_UE_S1AP_ID {
        enb := ReadEnbId(e.value);
      } else if e.id == ID_NAS_PDU {
        nas := ReadNas(e.value);
      } else if e.id == ID_TAI {
        tai := ReadTai(e.value);
      } else if e.id == ID_EUTRAN_CGI {
        cgi := ReadCgi(e.value);
      }
      i := i + 1;
    }
    assert entries[..i] == entries;
    if mme.None? {
      return Err(Missing(ID_MME_UE_S1AP_ID));
    }
    if enb.None? {
      return Err(Missing(ID_ENB_UE_S1AP_ID));
    }
    if nas.None? {
      return Err(Missing(ID_NAS_PDU));
    }
    if tai.None? {
      return Err(Missing(ID_TAI));
    }
    if cgi.None? {
      return Err(Missing(ID_EUTRAN_CGI));
    }
    return Ok(UplinkNasTransport(mme.value, enb.value, nas.value, tai.value, cgi.value));
  }

  method DecodeDownlinkNasTransport(entries: seq<Ie>) returns (out: Decoded)
    ensures out == DecodeDownlinkNas(entries)
  {
    hide Values, Last, ParseMmeId, ParseEnbId, ParseNas;
    var mme, enb, nas := None, None, None;
    NothingYet(entries);
    var i := 0;
    while i < |entries|
      invariant 0 <= i <= |entries|
      invariant mme == MmeOf(entries[..i]) && enb == EnbOf(entries[..i]) && nas == NasOf(entries[..i])
    {
      var e := entries[i];
      LastStep(entries, i, ID_MME_UE_S1AP_ID, ParseMmeId);
      LastStep(entries, i, ID_ENB_UE_S1AP_ID, ParseEnbId);
      LastStep(entries, i, ID_NAS_PDU, ParseNas);
      if e.id == ID_MME_UE_S1AP_ID {
        mme := ReadMmeId(e.value);
      } else if e.id == ID_ENB_UE_S1AP_ID {
        enb := ReadEnbId(e.value);
      } else if e.id == ID_NAS_PDU {
        nas := ReadNas(e.value);
      }
      i := i + 1;
    }
    assert entries[..i] == entries;
    if mme.None? {
      return Err(Missing(ID_MME_UE_S1AP_ID));
    }
    if enb.None? {
      return Err(Missing(ID_ENB_UE_S1AP_ID));
    }
    if nas.None? {
      return Err(Missing(ID_NAS_PDU));
    }
    return Ok(DownlinkNasTransport(mme.value, enb.value, nas.value));
  }

  // Both rates are read before either is looked at.
  method ReadAmbr(val: Bytes) returns (ambr: Option<(nat, nat)>)
    ensures ambr == ParseAmbr(val)
  {
    hide Per.AlignUp, BytesBits;
    var r := new PerReader(val);
    var dl := r.ReadConstrainedInt(0, BIT_RATE_MAX);
    var ul := r.ReadConstrainedInt(0, BIT_RATE_MAX);
    if dl.Some? && ul.Some? {
      return Some((dl.value, ul.value));
    }
    return None;
  }

  method DecodeInitialContextSetupRequest(entries: seq<Ie>) returns (out: Decoded)
    ensures out == DecodeSetupRequest(entries)
  {
    hide Values, Last, LastGood, ParseMmeId, ParseEnbId, ParseNas, ParseAmbr, ParseToSetup, Per.ReadOctets;
    var mme, enb, key, ambr, nas := None, None, None, None, None;
    var erabs := [];
    NothingYet(entries);
    var i := 0;
    while i < |entries|
      invariant 0 <= i <= |entries|
      invariant mme == MmeOf(entries[..i]) && enb == EnbOf(entries[..i])
      invariant key == KeyOf(entries[..i]) && ambr == AmbrOf(entries[..i])
      invariant erabs == ErabsOf(entries[..i]) && nas == NasOf(entries[..i])
    {
      var e := entries[i];
      LastStep(entries, i, ID_MME_UE_S1AP_ID, ParseMmeId);
      LastStep(entries, i, ID_ENB_UE_S1AP_ID, ParseEnbId);
      LastStep(entries, i, ID_SECURITY_KEY, ParseKey);
      LastStep(entries, i, ID_UE_AGGREGATE_MAX_BIT_RATE, ParseAmbr);
      LastStep(entries, i, ID_SETUP_LIST_REQ, ParseErabs);
      LastStep(entries, i, ID_NAS_PDU, ParseNas);
      if e.id == ID_MME_UE_S1AP_ID {
        mme := ReadMmeId(e.value);
      } else if e.id == ID_ENB_UE_S1AP_ID {
        enb := ReadEnbId(e.value);
      } else if e.id == ID_SECURITY_KEY {
        var r := new PerReader(e.value);
        var v := r.ReadOctets(32);
        key := if v.None? then None else Some(v.value);
      } else if e.id == ID_UE_AGGREGATE_MAX_BIT_RATE {
        var v := ReadAmbr(e.value);
        if v.Some? {
          ambr := v;
        }
      } else if e.id == ID_SETUP_LIST_REQ {
        var r := new PerReader(e.value);
        var v := ReadBearersToSetup(r, ERAB_ID_MAX, QCI_MAX);
        if v.Some? {
          erabs := v.value;
        }
      } else if e.id == ID_NAS_PDU {
        nas := ReadNas(e.value);
      }
      i := i + 1;
    }
    assert entries[..i] == entries;
    if mme.None? {
      return Err(Missing(ID_MME_UE_S1AP_ID));
    }
    if enb.None? {
      return Err(Missing(ID_ENB_UE_S1AP_ID));
    }
    if ambr.None? {
      return Err(Missing(ID_UE_AGGREGATE_MAX_BIT_RATE));
    }
    if key.None? {
      return Err(Missing(ID_SECURITY_KEY));
    }
    return Ok(InitialContextSetupRequest(
                mme.value, enb.value, erabs, nas,
                ambr.value.0 % 0x1_0000_0000_0000_0000, ambr.value.1 % 0x1_0000_0000_0000_0000, key.value));
  }

  method DecodeInitialContextSetupResponse(entries: seq<Ie>) returns (out: Decoded)
    ensures out == DecodeSetupResponse(entries)
  {
    hide Values, Last, LastGood, ParseMmeId, ParseEnbId, ParseSetup, ParseIds;
    var mme, enb := None, None;
    var setup, failed := [], [];
    NothingYet(entries);
    var i := 0;
    while i < |entries|
      invariant 0 <= i <= |entries|
      invariant mme == MmeOf(entries[..i]) && enb == EnbOf(entries[..i])
      invariant setup == SetupOf(entries[..i]) && failed == FailedOf(entries[..i])
    {
      var e := entries[i];
      LastStep(entries, i, ID_MME_UE_S1AP_ID, ParseMmeId);
      LastStep(entries, i, ID_ENB_UE_S1AP_ID, ParseEnbId);
      LastStep(entries, i, ID_SETUP_LIST_RES, ParseErabsSetup);
      LastStep(entries, i, ID_FAILED_LIST_RES, ParseErabIds);
      if e.id == ID_MME_UE_S1AP_ID {
        mme := ReadMmeId(e.value);
      } else if e.id == ID_ENB_UE_S1AP_ID {
        enb := ReadEnbId(e.value);
      } else if e.id == ID_SETUP_LIST_RES {
        var r := new PerReader(e.value);
        var v := ReadBearersSetup(r, ERAB_ID_MAX);
        if v.Some? {
          setup := v.value;
        }
      } else if e.id == ID_FAILED_LIST_RES {
        var r := new PerReader(e.value);
        var v := ReadBearerIds(r, ERAB_ID_MAX);
        if v.Some? {
          failed := v.value;
        }
      }
      i := i + 1;
    }
    assert entries[..i] == entries;
    if mme.None? {
      return Err(Missing(ID_MME_UE_S1AP_ID));
    }
    if enb.None? {
      return Err(Missing(ID_ENB_UE_S1AP_ID));
    }
    return Ok(InitialContextSetupResponse(mme.value, enb.value, setup, failed));
  }

  method DecodeUeContextReleaseCommand(entries: seq<Ie>) returns (out: Decoded)
    ensures out == DecodeReleaseCommand(entries)
  {
    hide Values, Last, ParseMmeId, ParseEnbId, Per.ReadInt, CauseFromInt;
    var mme, enb, cause := None, None, None;
    NothingYet(entries);
    var i := 0;
    while i < |entries|
      invariant 0 <= i <= |entries|
      invariant mme == MmeOf(entries[..i]) && enb == EnbOf(entries[..i]) && cause == CauseOf(entries[..i])
    {
      var e := entries[i];
      LastStep(entries, i, ID_MME_UE_S1AP_ID, ParseMmeId);
      LastStep(entries, i, ID_ENB_UE_S1AP_ID, ParseEnbId);
      LastStep(entries, i, ID_CAUSE, ParseCause);
      if e.id == ID_MME_UE_S1AP_ID {
        mme := ReadMmeId(e.value);
      } else if e.id == ID_ENB_UE_S1AP_ID {
        enb := ReadEnbId(e.value);
      } else if e.id == ID_CAUSE {
        var r := new PerReader(e.value);
        var v := r.ReadConstrainedInt(0, CAUSE_MAX);
        cause := if v.None? then None else CauseFromInt(v.value);
      }
      i := i + 1;
    }
    assert entries[..i] == entries;
    if mme.None? {
      return Err(Missing(ID_MME_UE_S1AP_ID));
    }
    if enb.None? {
      return Err(Missing(ID_ENB_UE_S1AP_ID));
    }
    if cause.None? {
      return Err(Missing(ID_CAUSE));
    }
    return Ok(UeContextReleaseCommand(mme.value, enb.value, cause.value));
  }

  method DecodeUeContextReleaseComplete(entries: seq<Ie>) returns (out: Decoded)
    ensures out == DecodeReleaseComplete(entries)
  {
    hide Values, Last, ParseMmeId, ParseEnbId;
    var mme, enb := None, None;
    NothingYet(entries);
    var i := 0;
    while i < |entries|
      invariant 0 <= i <= |entries|
      invariant mme == MmeOf(entries[..i]) && enb == EnbOf(entries[..i])
    {
      var e := entries[i];
      LastStep(entries, i, ID_MME_UE_S1AP_ID, ParseMmeId);
      LastStep(entries, i, ID_ENB_UE_S1AP_ID, ParseEnbId);
      if e.id == ID_MME_UE_S1AP_ID {
        mme := ReadMmeId(e.value);
      } else if e.id == ID_ENB_UE_S1AP_ID {
        enb := ReadEnbId(e.value);
      }
      i := i + 1;
    }
    assert entries[..i] == entries;
    if mme.None? {
      return Err(Missing(ID_MME_UE_S1AP_ID));
    }
    if enb.None? {
      return Err(Missing(ID_ENB_UE_S1AP_ID));
    }
    return Ok(UeContextReleaseComplete(mme.value, enb.value));
  }

  // Total on arbitrary bytes.
  method DecodeS1apPdu(buf: Bytes) returns (out: Decoded)
    ensures out == Decode(buf)
  {
    hide DecodePdu, DecodeInitialUe, DecodeUplinkNas, DecodeDownlinkNas, DecodeSetupRequest, DecodeSetupResponse;
    hide DecodeReleaseCommand, DecodeReleaseComplete;
    var pdu := DecodePduEntries(buf);
    if pdu.Err? {
      return Err(BadPdu(pdu.error));
    }
    var Pdu(choice, procedure, _, es) := pdu.value;
    if procedure == PROC_INITIAL_UE_MESSAGE {
      out := DecodeInitialUeMessage(es);
    } else if procedure == PROC_UPLINK_NAS_TRANSPORT {
      out := DecodeUplinkNasTransport(es);
    } else if procedure == PROC_DOWNLINK_NAS_TRANSPORT {
      out := DecodeDownlinkNasTransport(es);
    } else if procedure == PROC_INITIAL_CONTEXT_SETUP && choice == INITIATING_MESSAGE {
      out := DecodeInitialContextSetupRequest(es);
    } else if procedure == PROC_INITIAL_CONTEXT_SETUP && choice == SUCCESSFUL_OUTCOME {
      out := DecodeInitialContextSetupResponse(es);
    } else if procedure == PROC_UE_CONTEXT_RELEASE && choice == INITIATING_MESSAGE {
      out := DecodeUeContextReleaseCommand(es);
    } else if procedure == PROC_UE_CONTEXT_RELEASE && choice == SUCCESSFUL_OUTCOME {
      out := DecodeUeContextReleaseComplete(es);
    } else {
      out := Err(UnsupportedProcedure);
    }
  }
}
