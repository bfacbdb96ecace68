// The NGAP codec as the source runs it: writers per information element, a loop over the
// received entries updating locals, and the dispatch. Each is proved equal to its function
// in NgapCodec.
module NgapEngine {
  import opened Bits
  import Per
  import opened PerEngine
  import opened IeContainer
  import opened BearerLists
  import opened NgapCodec

  method EncodeUeIds(amf: u32, ran: u32, crit: byte) returns (entries: seq<Ie>)
    ensures entries == [AmfIe(amf, crit), RanIe(ran, crit)]
  {
    var a := EncodeIntIe(ID_AMF_UE_NGAP_ID, crit, amf, UE_NGAP_ID_MAX);
    var r := EncodeIntIe(ID_RAN_UE_NGAP_ID, crit, ran, UE_NGAP_ID_MAX);
    entries := [a, r];
  }

  method EncodeLocationIe(nrCgi: Octets9, tai: Octets6) returns (e: Ie)
    ensures e == LocationIe(nrCgi, tai)
  {
    var w := new PerWriter();
    w.WriteOctets(nrCgi);
    w.WriteOctets(tai);
    var b := w.IntoBytes();
    e := Ie(ID_USER_LOCATION_INFO, CRITICALITY_IGNORE, b);
  }

  method EncodeInitialUeMessage(m: NgapMessage) returns (out: Bytes)
    requires m.InitialUeMessage? && Encodable(m)
    ensures Encode(m) == Ok(out)
  {
    hide IntIe, StringIe, LocationIe, EncodePdu, Fits, WireOctets;
    EncodableIsValidPdu(m);
    var ran := EncodeIntIe(ID_RAN_UE_NGAP_ID, CRITICALITY_REJECT, m.ranId, UE_NGAP_ID_MAX);
    var nas := EncodeStringIe(ID_NAS_PDU, CRITICALITY_REJECT, m.nasPdu);
    var location := EncodeLocationIe(m.nrCgi, m.tai);
    var cause := EncodeIntIe(ID_RRC_ESTABLISHMENT_CAUSE, CRITICALITY_IGNORE, m.rrcCause, RRC_ESTABLISHMENT_CAUSE_MAX);
    var entries := [ran, nas, location, cause];
    assert entries == Entries(m);
    out := EncodePduWrapper(INITIATING_MESSAGE, PROC_INITIAL_UE_MESSAGE, CRITICALITY_IGNORE, entries);
  }

  method EncodeUplinkNasTransport(m: NgapMessage) returns (out: Bytes)
    requires m.UplinkNasTransport? && Encodable(m)
    ensures Encode(m) == Ok(out)
  {
    hide IntIe, StringIe, LocationIe, EncodePdu, Fits, WireOctets;
    EncodableIsValidPdu(m);
    var entries := EncodeUeIds(m.amfId, m.ranId, CRITICALITY_REJECT);
    var nas := EncodeStringIe(ID_NAS_PDU, CRITICALITY_REJECT, m.nasPdu);
    var location := EncodeLocationIe(m.nrCgi, m.tai);
    entries := entries + [nas, location];
    assert entries == Entries(m);
    out := EncodePduWrapper(INITIATING_MESSAGE, PROC_UPLINK_NAS_TRANSPORT, CRITICALITY_IGNORE, entries);
  }

  method EncodeDownlinkNasTransport(m: NgapMessage) returns (out: Bytes)
    requires m.DownlinkNasTransport? && Encodable(m)
    ensures Encode(m) == Ok(out)
  {
    hide IntIe, StringIe, EncodePdu, Fits, WireOctets;
    EncodableIsValidPdu(m);
    var entries := EncodeUeIds(m.amfId, m.ranId, CRITICALITY_REJECT);
    var nas := EncodeStringIe(ID_NAS_PDU, CRITICALITY_REJECT, m.nasPdu);
    entries := entries + [nas];
    assert entries == Entries(m);
    out := EncodePduWrapper(INITIATING_MESSAGE, PROC_DOWNLINK_NAS_TRANSPORT, CRITICALITY_IGNORE, entries);
  }

  method EncodeAmbrIe(crit: byte, dl: u64, ul: u64) returns (e: Ie)
    requires dl <= BIT_RATE_MAX && ul <= BIT_RATE_MAX
    ensures e == AmbrIe(crit, dl, ul)
  {
    var w := new PerWriter();
    w.WriteConstrainedInt(dl, 0, BIT_RATE_MAX);
    w.WriteConstrainedInt(ul, 0, BIT_RATE_MAX);
    var b := w.IntoBytes();
    e := Ie(ID_UE_AGGREGATE_MAX_BIT_RATE, crit, b);
  }

  method EncodeInitialContextSetupRequest(m: NgapMessage) returns (out: Bytes)
    requires m.InitialContextSetupRequest? && Encodable(m)
    ensures Encode(m) == Ok(out)
  {
    hide IntIe, StringIe, OctetsIe, AmbrIe, EncodePdu, Fits, WireOctets;
    hide Per.IntoBytes, WriteToSetupItems, Per.WriteLength;
    EncodableIsValidPdu(m);
    var entries := EncodeUeIds(m.amfId, m.ranId, CRITICALITY_REJECT);
    var key := EncodeOctetsIe(ID_SECURITY_KEY, CRITICALITY_REJECT, m.securityKey);
    var ambr := EncodeAmbrIe(CRITICALITY_IGNORE, m.ambrDl, m.ambrUl);
    entries := entries + [key, ambr];
    ghost var base := entries;
    if m.sessions != [] {
      var w := new PerWriter();
      WriteBearersToSetup(w, m.sessions, PDU_SESSION_ID_MAX, QFI_MAX);
      var b := w.IntoBytes();
      entries := entries + [Ie(ID_SETUP_LIST_REQ, CRITICALITY_REJECT, b)];
    }
    assert entries == base + ToSetupIes(m.sessions);
    if m.nasPduOpt.Some? {
      var nas := EncodeStringIe(ID_NAS_PDU, CRITICALITY_REJECT, m.nasPduOpt.value);
      entries := entries + [nas];
    }
    assert entries == base + ToSetupIes(m.sessions) + NasOptIes(m.nasPduOpt);
    assert entries == Entries(m);
    out := EncodePduWrapper(INITIATING_MESSAGE, PROC_INITIAL_CONTEXT_SETUP, CRITICALITY_REJECT, entries);
  }

  method EncodeInitialContextSetupResponse(m: NgapMessage) returns (out: Bytes)
    requires m.InitialContextSetupResponse? && Encodable(m)
    ensures Encode(m) == Ok(out)
  {
    hide IntIe, EncodePdu, Fits, WireOctets, Per.IntoBytes, WriteSetupItems, WriteIdItems, Per.WriteLength;
    EncodableIsValidPdu(m);
    var entries := EncodeUeIds(m.amfId, m.ranId, CRITICALITY_REJECT);
    ghost var base := entries;
    if m.setup != [] {
      var w := new PerWriter();
      WriteBearersSetup(w, m.setup, PDU_SESSION_ID_MAX);
      var b := w.IntoBytes();
      entries := entries + [Ie(ID_SETUP_LIST_RES, CRITICALITY_IGNORE, b)];
    }
    assert entries == base + SetupIes(m.setup);
    if m.failed != [] {
      var w := new PerWriter();
      WriteBearerIds(w, m.failed, PDU_SESSION_ID_MAX);
      var b := w.IntoBytes();
      entries := entries + [Ie(ID_FAILED_LIST_RES, CRITICALITY_IGNORE, b)];
    }
    assert entries == base + SetupIes(m.setup) + FailedIes(m.failed);
    assert entries == Entries(m);
    out := EncodePduWrapper(SUCCESSFUL_OUTCOME, PROC_INITIAL_CONTEXT_SETUP, CRITICALITY_REJECT, entries);
  }

  method EncodeUeContextReleaseCommand(m: NgapMessage) returns (out: Bytes)
    requires m.UeContextReleaseCommand? && Encodable(m)
    ensures Encode(m) == Ok(out)
  {
    hide IntIe, EncodePdu, Fits, WireOctets;
    EncodableIsValidPdu(m);
    var entries := EncodeUeIds(m.amfId, m.ranId, CRITICALITY_REJECT);
    var cause := EncodeIntIe(ID_CAUSE, CRITICALITY_IGNORE, CauseToInt(m.cause), CAUSE_MAX);
    entries := entries + [cause];
    assert entries == Entries(m);
    out := EncodePduWrapper(INITIATING_MESSAGE, PROC_UE_CONTEXT_RELEASE, CRITICALITY_IGNORE, entries);
  }

  method EncodeUeContextReleaseComplete(m: NgapMessage) returns (out: Bytes)
    requires m.UeContextReleaseComplete? && Encodable(m)
    ensures Encode(m) == Ok(out)
  {
    hide IntIe, EncodePdu, Fits, WireOctets;
    EncodableIsValidPdu(m);
    var entries := EncodeUeIds(m.amfId, m.ranId, CRITICALITY_IGNORE);
    assert entries == Entries(m);
    out := EncodePduWrapper(SUCCESSFUL_OUTCOME, PROC_UE_CONTEXT_RELEASE, CRITICALITY_IGNORE, entries);
  }

  method EncodeNgapPdu(m: NgapMessage) returns (out: Result<Bytes, NgapError>)
    requires Encodable(m)
    ensures out == Encode(m)
  {
    hide ToPdu, EncodePdu, WireOctets, InBounds;
    match m {
      case InitialUeMessage(_, _, _, _, _) =>
        var b := EncodeInitialUeMessage(m);
        return Ok(b);
      case UplinkNasTransport(_, _, _, _, _) =>
        var b := EncodeUplinkNasTransport(m);
        return Ok(b);
      case DownlinkNasTransport(_, _, _) =>
        var b := EncodeDownlinkNasTransport(m);
        return Ok(b);
      case InitialContextSetupRequest(_, _, _, _, _, _, _) =>
        var b := EncodeInitialContextSetupRequest(m);
        return Ok(b);
      case InitialContextSetupResponse(_, _, _, _) =>
        var b := EncodeInitialContextSetupResponse(m);
        return Ok(b);
      case UeContextReleaseCommand(_, _, _) =>
        var b := EncodeUeContextReleaseCommand(m);
        return Ok(b);
      case UeContextReleaseComplete(_, _) =>
        var b := EncodeUeContextReleaseComplete(m);
        return Ok(b);
      case _ => return Err(UnsupportedMessage);
    }
  }

  // ---- Decoding -----------------------------------------------------------------------

  method ReadUeId(val: Bytes) returns (id: Option<u32>)
    ensures id == ParseUeId(val)
  {
    var r := new PerReader(val);
    var v := r.ReadConstrainedInt(0, UE_NGAP_ID_MAX);
    id := if v.None? then None else Some(v.value % 0x1_0000_0000);
  }

  method ReadNas(val: Bytes) returns (nas: Option<Bytes>)
    ensures nas == ParseNas(val)
  {
    var r := new PerReader(val);
    nas := r.ReadOctetString();
  }

  method ReadUserLocationInfo(val: Bytes) returns (location: Option<(Octets9, Octets6)>)
    ensures location == ParseLocation(val)
  {
    hide Per.ReadOctets;
    var r := new PerReader(val);
    var cgi := r.ReadOctets(9);
    if cgi.None? {
      return None;
    }
    var tai := r.ReadOctets(6);
    if tai.None? {
      return None;
    }
    return Some((cgi.value, tai.value));
  }

  method DecodeInitialUeMessage(entries: seq<Ie>) returns (out: Decoded)
    ensures out == DecodeInitialUe(entries)
  {
    hide Values, Last, ParseUeId, ParseNas, ParseLocation, Per.ReadInt;
    var ran, nas, location, cause := None, None, None, None;
    NothingYet(entries);
    var i := 0;
    while i < |entries|
      invariant 0 <= i <= |entries|
      invariant ran == RanOf(entries[..i]) && nas == NasOf(entries[..i])
      invariant location == LocationOf(entries[..i]) && cause == RrcCauseOf(entries[..i])
    {
      var e := entries[i];
      LastStep(entries, i, ID_RAN_UE_NGAP_ID, ParseUeId);
      LastStep(entries, i, ID_NAS_PDU, ParseNas);
      LastStep(entries, i, ID_USER_LOCATION_INFO, ParseLocation);
      LastStep(entries, i, ID_RRC_ESTABLISHMENT_CAUSE, ParseRrcCause);
      if e.id == ID_RAN_UE_NGAP_ID {
        ran := ReadUeId(e.value);
      } else if e.id == ID_NAS_PDU {
        nas := ReadNas(e.value);
      } else if e.id == ID_USER_LOCATION_INFO {
        location := ReadUserLocationInfo(e.value);
      } else if e.id == ID_RRC_ESTABLISHMENT_CAUSE {
        var r := new PerReader(e.value);
        var v := r.ReadConstrainedInt(0, RRC_ESTABLISHMENT_CAUSE_MAX);
        cause := if v.None? then None else Some(v.value % 0x100);
      }
      i := i + 1;
    }
    assert entries[..i] == entries;
    if location.None? {
      return Err(Missing(ID_USER_LOCATION_INFO));
    }
    if ran.None? {
      return Err(Missing(ID_RAN_UE_NGAP_ID));
    }
    if nas.None? {
      return Err(Missing(ID_NAS_PDU));
    }
    if cause.None? {
      return Err(Missing(ID_RRC_ESTABLISHMENT_CAUSE));
    }
    return Ok(InitialUeMessage(ran.value, nas.value, location.value.1, location.value.0, cause.value));
  }

  // Every local starts out as what an empty container gives.
  lemma NothingYet(entries: seq<Ie>)
    ensures AmfOf(entries[..0]) == None && RanOf(entries[..0]) == None && NasOf(entries[..0]) == None
    ensures LocationOf(entries[..0]) == None && RrcCauseOf(entries[..0]) == None && CauseOf(entries[..0]) == None
    ensures KeyOf(entries[..0]) == None && AmbrOf(entries[..0]) == None
    ensures SessionsOf(entries[..0]) == [] && SetupOf(entries[..0]) == [] && FailedOf(entries[..0]) == []
  {
    assert entries[..0] == [];
  }

  method DecodeUplinkNasTransport(entries: seq<Ie>) returns (out: Decoded)
    ensures out == DecodeUplinkNas(entries)
  {
    hide Values, Last, ParseUeId, ParseNas, ParseLocation;
    var amf, ran, nas, location := None, None, None, None;
    NothingYet(entries);
    var i := 0;
    while i < |entries|
      invariant 0 <= i <= |entries|
      invariant amf == AmfOf(entries[..i]) && ran == RanOf(entries[..i])
      invariant nas == NasOf(entries[..i]) && location == LocationOf(entries[..i])
    {
      var e := entries[i];
      LastStep(entries, i, ID_AMF_UE_NGAP_ID, ParseUeId);
      LastStep(entries, i, ID_RAN_UE_NGAP_ID, ParseUeId);
      LastStep(entries, i, ID_NAS_PDU, ParseNas);
      LastStep(entries, i, ID_USER_LOCATION_INFO, ParseLocation);
      if e.id == ID_AMF_UE_NGAP_ID {
        amf := ReadUeId(e.value);
      } else if e.id == ID_RAN_UE_NGAP_ID {
        ran := ReadUeId(e.value);
      } else if e.id == ID_NAS_PDU {
        nas := ReadNas(e.value);
      } else if e.id == ID_USER_LOCATION_INFO {
        location := ReadUserLocationInfo(e.value);
      }
      i := i + 1;
    }
    assert entries[..i] == entries;
    if location.None? {
      return Err(Missing(ID_USER_LOCATION_INFO));
    }
    if amf.None? {
      return Err(Missing(ID_AMF_UE_NGAP_ID));
    }
    if ran.None? {
      return Err(Missing(ID_RAN_UE_NGAP_ID));
    }
    if nas.None? {
      return Err(Missing(ID_NAS_PDU));
    }
    return Ok(UplinkNasTransport(amf.value, ran.value, nas.value, location.value.1, location.value.0));
  }

  method DecodeDownlinkNasTransport(entries: seq<Ie>) returns (out: Decoded)
    ensures out == DecodeDownlinkNas(entries)
  {
    hide Values, Last, ParseUeId, ParseNas;
    var amf, ran, nas := None, None, None;
    NothingYet(entries);
    var i := 0;
    while i < |entries|
      invariant 0 <= i <= |entries|
      invariant amf == AmfOf(entries[..i]) && ran == RanOf(entries[..i]) && nas == NasOf(entries[..i])
    {
      var e := entries[i];
      LastStep(entries, i, ID_AMF_UE_NGAP_ID, ParseUeId);
      LastStep(entries, i, ID_RAN_UE_NGAP_ID, ParseUeId);
      LastStep(entries, i, ID_NAS_PDU, ParseNas);
      if e.id == ID_AMF_UE_NGAP_ID {
        amf := ReadUeId(e.value);
      } else if e.id == ID_RAN_UE_NGAP_ID {
        ran := ReadUeId(e.value);
      } else if e.id == ID_NAS_PDU {
        nas := ReadNas(e.value);
      }
      i := i + 1;
    }
    assert entries[..i] == entries;
    if amf.None? {
      return Err(Missing(ID_AMF_UE_NGAP_ID));
    }
    if ran.None? {
      return Err(Missing(ID_RAN_UE_NGAP_ID));
    }
    if nas.None? {
      return Err(Missing(ID_NAS_PDU));
    }
    return Ok(DownlinkNasTransport(amf.value, ran.value, nas.value));
  }

  // Both rates are read before either is looked at.
  method ReadAmbr(val: Bytes) returns (ambr: Option<(nat, nat)>)
    ensures ambr == ParseAmbr(val)
  {
    hide Per.AlignUp, BytesBits;
    var r := new PerReader(val);
    var dl := r.ReadConstrainedInt(0, BIT_RATE_MAX);
    var ul := r.ReadConstrainedInt(0, BIT_RATE_MAX);
    if dl.Some? && ul.Some? {
      return Some((dl.value, ul.value));
    }
    return None;
  }

  method DecodeInitialContextSetupRequest(entries: seq<Ie>) returns (out: Decoded)
    ensures out == DecodeSetupRequest(entries)
  {
    hide Values, Last, LastGood, ParseUeId, ParseNas, ParseAmbr, ParseToSetup, Per.ReadOctets;
    var amf, ran, key, ambr, nas := None, None, None, None, None;
    var sessions := [];
    NothingYet(entries);
    var i := 0;
    while i < |entries|
      invariant 0 <= i <= |entries|
      invariant amf == AmfOf(entries[..i]) && ran == RanOf(entries[..i])
      invariant key == KeyOf(entries[..i]) && ambr == AmbrOf(entries[..i])
      invariant sessions == SessionsOf(entries[..i]) && nas == NasOf(entries[..i])
    {
      var e := entries[i];
      LastStep(entries, i, ID_AMF_UE_NGAP_ID, ParseUeId);
      LastStep(entries, i, ID_RAN_UE_NGAP_ID, ParseUeId);
      LastStep(entries, i, ID_SECURITY_KEY, ParseKey);
      LastStep(entries, i, ID_UE_AGGREGATE_MAX_BIT_RATE, ParseAmbr);
      LastStep(entries, i, ID_SETUP_LIST_REQ, ParseSessions);
      LastStep(entries, i, ID_NAS_PDU, ParseNas);
      if e.id == ID_AMF_UE_NGAP_ID {
        amf := ReadUeId(e.value);
      } else if e.id == ID_RAN_UE_NGAP_ID {
        ran := ReadUeId(e.value);
      } else if e.id == ID_SECURITY_KEY {
        var r := new PerReader(e.value);
        var v := r.ReadOctets(32);
        if v.Some? {
          key := Some(v.value);
        }
      } else if e.id == ID_UE_AGGREGATE_MAX_BIT_RATE {
        var v := ReadAmbr(e.value);
        if v.Some? {
          ambr := v;
        }
      } else if e.id == ID_SETUP_LIST_REQ {
        var r := new PerReader(e.value);
        var v := ReadBearersToSetup(r, PDU_SESSION_ID_MAX, QFI_MAX);
        if v.Some? {
          sessions := v.value;
        }
      } else if e.id == ID_NAS_PDU {
        nas := ReadNas(e.value);
      }
      i := i + 1;
    }
    assert entries[..i] == entries;
    if amf.None? {
      return Err(Missing(ID_AMF_UE_NGAP_ID));
    }
    if ran.None? {
      return Err(Missing(ID_RAN_UE_NGAP_ID));
    }
    if ambr.None? {
      return Err(Missing(ID_UE_AGGREGATE_MAX_BIT_RATE));
    }
    if key.None? {
      return Err(Missing(ID_SECURITY_KEY));
    }
    return Ok(InitialContextSetupRequest(
                amf.value, ran.value, sessions, nas,
                ambr.value.0 % 0x1_0000_0000_0000_0000, ambr.value.1 % 0x1_0000_0000_0000_0000, key.value));
  }

  method DecodeInitialContextSetupResponse(entries: seq<Ie>) returns (out: Decoded)
    ensures out == DecodeSetupResponse(entries)
  {
    hide Values, Last, LastGood, ParseUeId, ParseSetup, ParseIds;
    var amf, ran := None, None;
    var setup, failed := [], [];
    NothingYet(entries);
    var i := 0;
    while i < |entries|
      invariant 0 <= i <= |entries|
      invariant amf == AmfOf(entries[..i]) && ran == RanOf(entries[..i])
      invariant setup == SetupOf(entries[..i]) && failed == FailedOf(entries[..i])
    {
      var e := entries[i];
      LastStep(entries, i, ID_AMF_UE_NGAP_ID, ParseUeId);
      LastStep(entries, i, ID_RAN_UE_NGAP_ID, ParseUeId);
      LastStep(entries, i, ID_SETUP_LIST_RES, ParseSessionsSetup);
      LastStep(entries, i, ID_FAILED_LIST_RES, ParseSessionIds);
      if e.id == ID_AMF_UE_NGAP_ID {
        amf := ReadUeId(e.value);
      } else if e.id == ID_RAN_UE_NGAP_ID {
        ran := ReadUeId(e.value);
      } else if e.id == ID_SETUP_LIST_RES {
        var r := new PerReader(e.value);
        var v := ReadBearersSetup(r, PDU_SESSION_ID_MAX);
        if v.Some? {
          setup := v.value;
        }
      } else if e.id == ID_FAILED_LIST_RES {
        var r := new PerReader(e.value);
        var v := ReadBearerIds(r, PDU_SESSION_ID_MAX);
        if v.Some? {
          failed := v.value;
        }
      }
      i := i + 1;
    }
    assert entries[..i] == entries;
    if amf.None? {
      return Err(Missing(ID_AMF_UE_NGAP_ID));
    }
    if ran.None? {
      return Err(Missing(ID_RAN_UE_NGAP_ID));
    }
    return Ok(InitialContextSetupResponse(amf.value, ran.value, setup, failed));
  }

  method DecodeUeContextReleaseCommand(entries: seq<Ie>) returns (out: Decoded)
    ensures out == DecodeReleaseCommand(entries)
  {
    hide Values, Last, ParseUeId, Per.ReadInt, CauseFromInt;
    var amf, ran, cause := None, None, None;
    NothingYet(entries);
    var i := 0;
    while i < |entries|
      invariant 0 <= i <= |entries|
      invariant amf == AmfOf(entries[..i]) && ran == RanOf(entries[..i]) && cause == CauseOf(entries[..i])
    {
      var e := entries[i];
      LastStep(entries, i, ID_AMF_UE_NGAP_ID, ParseUeId);
      LastStep(entries, i, ID_RAN_UE_NGAP_ID, ParseUeId);
      LastStep(entries, i, ID_CAUSE, ParseCause);
      if e.id == ID_AMF_UE_NGAP_ID {
        amf := ReadUeId(e.value);
      } else if e.id == ID_RAN_UE_NGAP_ID {
        ran := ReadUeId(e.value);
      } else if e.id == ID_CAUSE {
        var r := new PerReader(e.value);
        var v := r.ReadConstrainedInt(0, CAUSE_MAX);
        cause := if v.None? then None else CauseFromInt(v.value);
      }
      i := i + 1;
    }
    assert entries[..i] == entries;
    if amf.None? {
      return Err(Missing(ID_AMF_UE_NGAP_ID));
    }
    if ran.None? {
      return Err(Missing(ID_RAN_UE_NGAP_ID));
    }
    if cause.None? {
      return Err(Missing(ID_CAUSE));
    }
    return Ok(UeContextReleaseCommand(amf.value, ran.value, cause.value));
  }

  method DecodeUeContextReleaseComplete(entries: seq<Ie>) returns (out: Decoded)
    ensures out == DecodeReleaseComplete(entries)
  {
    hide Values, Last, ParseUeId;
    var amf, ran := None, None;
    NothingYet(entries);
    var i := 0;
    while i < |entries|
      invariant 0 <= i <= |entries|
      invariant amf == AmfOf(entries[..i]) && ran == RanOf(entries[..i])
    {
      var e := entries[i];
      LastStep(entries, i, ID_AMF_UE_NGAP_ID, ParseUeId);
      LastStep(entries, i, ID_RAN_UE_NGAP_ID, ParseUeId);
      if e.id == ID_AMF_UE_NGAP_ID {
        amf := ReadUeId(e.value);
      } else if e.id == ID_RAN_UE_NGAP_ID {
        ran := ReadUeId(e.value);
      }
      i := i + 1;
    }
    assert entries[..i] == entries;
    if amf.None? {
      return Err(Missing(ID_AMF_UE_NGAP_ID));
    }
    if ran.None? {
      return Err(Missing(ID_RAN_UE_NGAP_ID));
    }
    return Ok(UeContextReleaseComplete(amf.value, ran.value));
  }

  // Total on arbitrary bytes.
  method DecodeNgapPdu(buf: Bytes) returns (out: Decoded)
    ensures out == Decode(buf)
  {
    hide DecodePdu, DecodeInitialUe, DecodeUplinkNas, DecodeDownlinkNas, DecodeSetupRequest, DecodeSetupResponse;
    hide DecodeReleaseCommand, DecodeReleaseComplete;
    var pdu := DecodePduEntries(buf);
    if pdu.Err? {
      return Err(BadPdu(pdu.error));
    }
    var Pdu(choice, procedure, _, es) := pdu.value;
    if procedure == PROC_INITIAL_UE_MESSAGE {
      out := DecodeInitialUeMessage(es);
    } else if procedure == PROC_UPLINK_NAS_TRANSPORT {
      out := DecodeUplinkNasTransport(es);
    } else if procedure == PROC_DOWNLINK_NAS_TRANSPORT {
      out := DecodeDownlinkNasTransport(es);
    } else if procedure == PROC_INITIAL_CONTEXT_SETUP && choice == INITIATING_MESSAGE {
      out := DecodeInitialContextSetupRequest(es);
    } else if procedure == PROC_INITIAL_CONTEXT_SETUP && choice == SUCCESSFUL_OUTCOME {
      out := DecodeInitialContextSetupResponse(es);
    } else if procedure == PROC_UE_CONTEXT_RELEASE && choice == INITIATING_MESSAGE {
      out := DecodeUeContextReleaseCommand(es);
    } else if procedure == PROC_UE_CONTEXT_RELEASE && choice == SUCCESSFUL_OUTCOME {
      out := DecodeUeContextReleaseComplete(es);
    } else {
      out := Err(UnsupportedProcedure);
    }
  }
}
