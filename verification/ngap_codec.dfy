// NGAP PDUs: the seven messages the codec supports, as IE containers, and back.
module NgapCodec {
  import opened Bits
  import Per
  import opened PerEngine
  import opened IeContainer
  import opened BearerLists

  const PROC_DOWNLINK_NAS_TRANSPORT: u32 := 4
  const PROC_INITIAL_UE_MESSAGE: u32 := 15
  const PROC_UPLINK_NAS_TRANSPORT: u32 := 46
  const PROC_INITIAL_CONTEXT_SETUP: u32 := 14
  const PROC_UE_CONTEXT_RELEASE: u32 := 41

  const ID_AMF_UE_NGAP_ID: u32 := 10
  const ID_RAN_UE_NGAP_ID: u32 := 85
  const ID_NAS_PDU: u32 := 38
  const ID_USER_LOCATION_INFO: u32 := 121
  const ID_RRC_ESTABLISHMENT_CAUSE: u32 := 90
  const ID_SECURITY_KEY: u32 := 94
  const ID_UE_AGGREGATE_MAX_BIT_RATE: u32 := 110
  const ID_SETUP_LIST_REQ: u32 := 71
  const ID_SETUP_LIST_RES: u32 := 72
  const ID_FAILED_LIST_RES: u32 := 55
  const ID_CAUSE: u32 := 15

  const UE_NGAP_ID_MAX: u64 := 4_294_967_295
  const RRC_ESTABLISHMENT_CAUSE_MAX: u64 := 15
  const PDU_SESSION_ID_MAX: byte := 255
  const QFI_MAX: byte := 63
  const BIT_RATE_MAX: u64 := 4_000_000_000_000
  const CAUSE_MAX: u64 := 6

  type Octets6 = s: Bytes | |s| == 6 witness [0, 0, 0, 0, 0, 0]
  type Octets9 = s: Bytes | |s| == 9 witness [0, 0, 0, 0, 0, 0, 0, 0, 0]
  type Octets32 = s: Bytes | |s| == 32 witness seq(32, _ => 0)

  datatype NgapCause =
    | RadioNetworkUnspecified
    | TransportUnspecified
    | NasNormalRelease
    | NasDeregister
    | NasAuthFailure
    | ProtocolUnspecified
    | MiscUnspecified

  datatype NgapMessage =
    | NgSetupRequest
    | NgSetupResponse
    | InitialUeMessage(ranId: u32, nasPdu: Bytes, tai: Octets6, nrCgi: Octets9, rrcCause: byte)
    | DownlinkNasTransport(amfId: u32, ranId: u32, nasPdu: Bytes)
    | UplinkNasTransport(amfId: u32, ranId: u32, nasPdu: Bytes, tai: Octets6, nrCgi: Octets9)
    | InitialContextSetupRequest(amfId: u32, ranId: u32, sessions: seq<BearerToSetup>, nasPduOpt: Option<Bytes>,
                                 ambrDl: u64, ambrUl: u64, securityKey: Octets32)
    | InitialContextSetupResponse(amfId: u32, ranId: u32, setup: seq<BearerSetup>, failed: seq<byte>)
    | InitialContextSetupFailure(cause: NgapCause)
    | PduSessionResourceSetupRequest
    | PduSessionResourceSetupResponse
    | PduSessionResourceSetupFailure
    | UeContextReleaseCommand(amfId: u32, ranId: u32, cause: NgapCause)
    | UeContextReleaseComplete(amfId: u32, ranId: u32)

  datatype NgapError =
    | BadPdu(error: PduError)
    | Missing(id: u32)
    | UnsupportedProcedure
    | UnsupportedMessage

  predicate Supported(m: NgapMessage) {
    || m.InitialUeMessage? || m.DownlinkNasTransport? || m.UplinkNasTransport?
    || m.InitialContextSetupRequest? || m.InitialContextSetupResponse?
    || m.UeContextReleaseCommand? || m.UeContextReleaseComplete?
  }

  // Fields inside the ranges the encoder asserts.
  predicate InBounds(m: NgapMessage) {
    match m
    case InitialUeMessage(_, nas, _, _, cause) => |nas| < Per.LENGTH_LIMIT && cause <= RRC_ESTABLISHMENT_CAUSE_MAX
    case DownlinkNasTransport(_, _, nas) => |nas| < Per.LENGTH_LIMIT
    case UplinkNasTransport(_, _, nas, _, _) => |nas| < Per.LENGTH_LIMIT
    case InitialContextSetupRequest(_, _, sessions, nas, dl, ul, _) =>
      && |sessions| < Per.LENGTH_LIMIT
      && ToSetupInRange(sessions, PDU_SESSION_ID_MAX, QFI_MAX)
      && (nas.Some? ==> |nas.value| < Per.LENGTH_LIMIT)
      && dl <= BIT_RATE_MAX && ul <= BIT_RATE_MAX
    case InitialContextSetupResponse(_, _, setup, failed) =>
      |setup| < Per.LENGTH_LIMIT && |failed| < Per.LENGTH_LIMIT
    case _ => true
  }

  function CauseToInt(c: NgapCause): (r: nat)
    ensures r <= CAUSE_MAX
  {
    match c
    case RadioNetworkUnspecified => 0
    case TransportUnspecified => 1
    case NasNormalRelease => 2
    case NasDeregister => 3
    case NasAuthFailure => 4
    case ProtocolUnspecified => 5
    case MiscUnspecified => 6
  }

  function CauseFromInt(v: nat): Option<NgapCause> {
    match v
    case 0 => Some(RadioNetworkUnspecified)
    case 1 => Some(TransportUnspecified)
    case 2 => Some(NasNormalRelease)
    case 3 => Some(NasDeregister)
    case 4 => Some(NasAuthFailure)
    case 5 => Some(ProtocolUnspecified)
    case 6 => Some(MiscUnspecified)
    case _ => None
  }

  // ---- Encoding as a function ---------------------------------------------------------

  function AmbrIe(crit: byte, dl: u64, ul: u64): (e: Ie)
    requires dl <= BIT_RATE_MAX && ul <= BIT_RATE_MAX
    ensures e.id == ID_UE_AGGREGATE_MAX_BIT_RATE
  {
    Ie(ID_UE_AGGREGATE_MAX_BIT_RATE, crit,
       Per.IntoBytes(Per.WriteInt(Per.WriteInt([], dl, 0, BIT_RATE_MAX), ul, 0, BIT_RATE_MAX)))
  }

  function AmfIe(id: u32, crit: byte): Ie { IntIe(ID_AMF_UE_NGAP_ID, crit, id, UE_NGAP_ID_MAX) }

  function RanIe(id: u32, crit: byte): Ie { IntIe(ID_RAN_UE_NGAP_ID, crit, id, UE_NGAP_ID_MAX) }

  function NasIe(nas: Bytes): Ie
    requires |nas| < Per.LENGTH_LIMIT
  {
    StringIe(ID_NAS_PDU, CRITICALITY_REJECT, nas)
  }

  function LocationIe(nrCgi: Octets9, tai: Octets6): (e: Ie)
    ensures e.id == ID_USER_LOCATION_INFO
  {
    Ie(ID_USER_LOCATION_INFO, CRITICALITY_IGNORE, Per.IntoBytes(Per.WriteOctets(Per.WriteOctets([], nrCgi), tai)))
  }

  function ToSetupIes(items: seq<BearerToSetup>): (r: seq<Ie>)
    requires |items| < Per.LENGTH_LIMIT && ToSetupInRange(items, PDU_SESSION_ID_MAX, QFI_MAX)
    ensures |r| <= 1 && (r != [] ==> r[0].id == ID_SETUP_LIST_REQ)
  {
    if items == [] then []
    else [Ie(ID_SETUP_LIST_REQ, CRITICALITY_REJECT, Per.IntoBytes(WriteToSetup(items, PDU_SESSION_ID_MAX, QFI_MAX)))]
  }

  function SetupIes(items: seq<BearerSetup>): (r: seq<Ie>)
    requires |items| < Per.LENGTH_LIMIT
    ensures |r| <= 1 && (r != [] ==> r[0].id == ID_SETUP_LIST_RES)
  {
    if items == [] then []
    else [Ie(ID_SETUP_LIST_RES, CRITICALITY_IGNORE, Per.IntoBytes(WriteSetup(items, PDU_SESSION_ID_MAX)))]
  }

  function FailedIes(ids: seq<byte>): (r: seq<Ie>)
    requires |ids| < Per.LENGTH_LIMIT
    ensures |r| <= 1 && (r != [] ==> r[0].id == ID_FAILED_LIST_RES)
  {
    if ids == [] then []
    else [Ie(ID_FAILED_LIST_RES, CRITICALITY_IGNORE, Per.IntoBytes(WriteIds(ids, PDU_SESSION_ID_MAX)))]
  }

  function NasOptIes(nas: Option<Bytes>): (r: seq<Ie>)
    requires nas.Some? ==> |nas.value| < Per.LENGTH_LIMIT
    ensures |r| <= 1 && (r != [] ==> r[0].id == ID_NAS_PDU)
  {
    if nas.Some? then [NasIe(nas.value)] else []
  }

  function Entries(m: NgapMessage): seq<Ie>
    requires Supported(m) && InBounds(m)
  {
    match m
    case InitialUeMessage(ran, nas, tai, cgi, cause) =>
      [RanIe(ran, CRITICALITY_REJECT), NasIe(nas), LocationIe(cgi, tai),
       IntIe(ID_RRC_ESTABLISHMENT_CAUSE, CRITICALITY_IGNORE, cause, RRC_ESTABLISHMENT_CAUSE_MAX)]
    case UplinkNasTransport(amf, ran, nas, tai, cgi) =>
      [AmfIe(amf, CRITICALITY_REJECT), RanIe(ran, CRITICALITY_REJECT), NasIe(nas), LocationIe(cgi, tai)]
    case DownlinkNasTransport(amf, ran, nas) =>
      [AmfIe(amf, CRITICALITY_REJECT), RanIe(ran, CRITICALITY_REJECT), NasIe(nas)]
    case InitialContextSetupRequest(amf, ran, sessions, nas, dl, ul, key) =>
      [AmfIe(amf, CRITICALITY_REJECT), RanIe(ran, CRITICALITY_REJECT),
       OctetsIe(ID_SECURITY_KEY, CRITICALITY_REJECT, key), AmbrIe(CRITICALITY_IGNORE, dl, ul)]
      + ToSetupIes(sessions) + NasOptIes(nas)
    case InitialContextSetupResponse(amf, ran, setup, failed) =>
      [AmfIe(amf, CRITICALITY_REJECT), RanIe(ran, CRITICALITY_REJECT)] + SetupIes(setup) + FailedIes(failed)
    case UeContextReleaseCommand(amf, ran, cause) =>
      [AmfIe(amf, CRITICALITY_REJECT), RanIe(ran, CRITICALITY_REJECT),
       IntIe(ID_CAUSE, CRITICALITY_IGNORE, CauseToInt(cause), CAUSE_MAX)]
    case UeContextReleaseComplete(amf, ran) =>
      [AmfIe(amf, CRITICALITY_IGNORE), RanIe(ran, CRITICALITY_IGNORE)]
  }

  function Choice(m: NgapMessage): nat {
    if m.InitialContextSetupResponse? || m.UeContextReleaseComplete? then SUCCESSFUL_OUTCOME else INITIATING_MESSAGE
  }

  function Procedure(m: NgapMessage): u32
    requires Supported(m)
  {
    match m
    case InitialUeMessage(_, _, _, _, _) => PROC_INITIAL_UE_MESSAGE
    case UplinkNasTransport(_, _, _, _, _) => PROC_UPLINK_NAS_TRANSPORT
    case DownlinkNasTransport(_, _, _) => PROC_DOWNLINK_NAS_TRANSPORT
    case InitialContextSetupRequest(_, _, _, _, _, _, _) => PROC_INITIAL_CONTEXT_SETUP
    case InitialContextSetupResponse(_, _, _, _) => PROC_INITIAL_CONTEXT_SETUP
    case UeContextReleaseCommand(_, _, _) => PROC_UE_CONTEXT_RELEASE
    case UeContextReleaseComplete(_, _) => PROC_UE_CONTEXT_RELEASE
  }

  function PduCriticality(m: NgapMessage): byte {
    if m.InitialContextSetupRequest? || m.InitialContextSetupResponse? then CRITICALITY_REJECT else CRITICALITY_IGNORE
  }

  function ToPdu(m: NgapMessage): Pdu
    requires Supported(m) && InBounds(m)
  {
    Pdu(Choice(m), Procedure(m), PduCriticality(m), Entries(m))
  }

  // ---- How long a message gets --------------------------------------------------------

  // The octets of a message's container, from the sizes of its fields.
  function WireOctets(m: NgapMessage): nat
    requires Supported(m)
  {
    match m
    case InitialUeMessage(_, nas, _, _, _) => 1 + 8 + StringOctets(|nas|) + 19 + 5
    case UplinkNasTransport(_, _, nas, _, _) => 1 + 16 + StringOctets(|nas|) + 19
    case DownlinkNasTransport(_, _, nas) => 1 + 16 + StringOctets(|nas|)
    case InitialContextSetupRequest(_, _, sessions, nas, _, _, _) =>
      1 + 16 + 36 + 16 + ListOctets(|sessions|, Per.LengthOctets(|sessions|) + 10 * |sessions|)
      + (if nas.Some? then StringOctets(|nas.value|) else 0)
    case InitialContextSetupResponse(_, _, setup, failed) =>
      1 + 16 + ListOctets(|setup|, Per.LengthOctets(|setup|) + 9 * |setup|)
      + ListOctets(|failed|, Per.LengthOctets(|failed|) + |failed|)
    case UeContextReleaseCommand(_, _, _) => 1 + 16 + 5
    case UeContextReleaseComplete(_, _) => 1 + 16
  }

  lemma Widths()
    ensures Per.Width(UE_NGAP_ID_MAX, 32) && Per.Width(RRC_ESTABLISHMENT_CAUSE_MAX, 4) && Per.Width(CAUSE_MAX, 3)
    ensures Per.Width(PDU_SESSION_ID_MAX, 8) && Per.Width(QFI_MAX, 6) && Per.Width(BIT_RATE_MAX, 42)
  {
    SomePow2();
  }

  lemma SomePow2()
    ensures Pow2(2) == 4 && Pow2(3) == 8 && Pow2(4) == 16 && Pow2(5) == 32 && Pow2(6) == 64 && Pow2(7) == 128
    ensures Pow2(8) == 256 && Pow2(31) == 0x8000_0000 && Pow2(32) == 0x1_0000_0000
    ensures Pow2(41) == 0x200_0000_0000 && Pow2(42) == 0x400_0000_0000
  {
    Pow2Values();
    Pow2Small();
    Pow2Add(2, 2);
    Pow2Add(3, 2);
    Pow2Add(3, 3);
    Pow2Add(24, 7);
    Pow2Add(32, 7);
    Pow2Add(39, 2);
    Pow2Add(39, 3);
  }

  lemma UeIdOctets(amf: u32, ran: u32, crit: byte)
    ensures IeOctets(AmfIe(amf, crit)) == 8 && IeOctets(RanIe(ran, crit)) == 8
  {
    hide IntIe, IeOctets, Per.Width;
    Widths();
    IntIeOctets(ID_AMF_UE_NGAP_ID, crit, amf, UE_NGAP_ID_MAX, 32);
    IntIeOctets(ID_RAN_UE_NGAP_ID, crit, ran, UE_NGAP_ID_MAX, 32);
  }

  lemma CauseOctets(cause: nat, rrc: nat)
    requires cause <= CAUSE_MAX && rrc <= RRC_ESTABLISHMENT_CAUSE_MAX
    ensures IeOctets(IntIe(ID_CAUSE, CRITICALITY_IGNORE, cause, CAUSE_MAX)) == 5
    ensures IeOctets(IntIe(ID_RRC_ESTABLISHMENT_CAUSE, CRITICALITY_IGNORE, rrc, RRC_ESTABLISHMENT_CAUSE_MAX)) == 5
  {
    hide IntIe, IeOctets, Per.Width;
    Widths();
    IntIeOctets(ID_CAUSE, CRITICALITY_IGNORE, cause, CAUSE_MAX, 3);
    IntIeOctets(ID_RRC_ESTABLISHMENT_CAUSE, CRITICALITY_IGNORE, rrc, RRC_ESTABLISHMENT_CAUSE_MAX, 4);
  }

  lemma LocationOctets(cgi: Octets9, tai: Octets6)
    ensures IeOctets(LocationIe(cgi, tai)) == 19
  {
  }

  lemma AmbrOctets(crit: byte, dl: u64, ul: u64)
    requires dl <= BIT_RATE_MAX && ul <= BIT_RATE_MAX
    ensures IeOctets(AmbrIe(crit, dl, ul)) == 16
  {
    hide Per.WriteInt, Per.Width;
    Widths();
    Per.IntWritten([], dl, BIT_RATE_MAX, 42);
    Per.IntWritten(Per.WriteInt([], dl, 0, BIT_RATE_MAX), ul, BIT_RATE_MAX, 42);
  }

  lemma NasOctets(nas: Bytes)
    requires |nas| < Per.LENGTH_LIMIT
    ensures IeOctets(NasIe(nas)) == StringOctets(|nas|)
  {
    hide StringIe, StringOctets;
    StringIeOctets(ID_NAS_PDU, CRITICALITY_REJECT, nas);
  }

  lemma NasOptOctets(nas: Option<Bytes>)
    requires nas.Some? ==> |nas.value| < Per.LENGTH_LIMIT
    ensures IesOctets(NasOptIes(nas)) == if nas.Some? then StringOctets(|nas.value|) else 0
  {
    hide NasIe, StringOctets, IeOctets;
    if nas.Some? {
      NasOctets(nas.value);
      IesOctetsOne(NasIe(nas.value));
    }
  }

  lemma SessionsOctets(items: seq<BearerToSetup>)
    requires |items| < Per.LENGTH_LIMIT && ToSetupInRange(items, PDU_SESSION_ID_MAX, QFI_MAX)
    ensures IesOctets(ToSetupIes(items)) == ListOctets(|items|, Per.LengthOctets(|items|) + 10 * |items|)
  {
    hide WriteToSetup, Per.Width;
    Widths();
    ToSetupWritten(items, PDU_SESSION_ID_MAX, QFI_MAX, 8, 6);
    if items != [] {
      IesOctetsOne(ToSetupIes(items)[0]);
    }
  }

  lemma SetupOctets(items: seq<BearerSetup>)
    requires |items| < Per.LENGTH_LIMIT
    ensures IesOctets(SetupIes(items)) == ListOctets(|items|, Per.LengthOctets(|items|) + 9 * |items|)
  {
    hide WriteSetup, Per.Width;
    Widths();
    SetupWritten(items, PDU_SESSION_ID_MAX, 8);
    if items != [] {
      IesOctetsOne(SetupIes(items)[0]);
    }
  }

  lemma FailedOctets(ids: seq<byte>)
    requires |ids| < Per.LENGTH_LIMIT
    ensures IesOctets(FailedIes(ids)) == ListOctets(|ids|, Per.LengthOctets(|ids|) + |ids|)
  {
    hide WriteIds, Per.Width;
    Widths();
    IdsWritten(ids, PDU_SESSION_ID_MAX, 8);
    if ids != [] {
      IesOctetsOne(FailedIes(ids)[0]);
    }
  }

  // The encoder's own output has exactly that length.
  lemma EntriesOctets(m: NgapMessage)
    requires Supported(m) && InBounds(m)
    ensures ContainerOctets(Entries(m)) == WireOctets(m)
  {
    hide IeOctets, IesOctets, IntIe, StringIe, OctetsIe, AmbrIe, LocationIe, NasIe, StringOctets, ListOctets;
    hide ToSetupIes, SetupIes, FailedIes, NasOptIes, CauseToInt;
    match m {
      case InitialUeMessage(ran, nas, tai, cgi, cause) =>
        UeIdOctets(ran, ran, CRITICALITY_REJECT);
        CauseOctets(0, cause);
        LocationOctets(cgi, tai);
        NasOctets(nas);
        var es := Entries(m);
        IesOctetsFour(es[0], es[1], es[2], es[3]);
      case UplinkNasTransport(amf, ran, nas, tai, cgi) =>
        UeIdOctets(amf, ran, CRITICALITY_REJECT);
        LocationOctets(cgi, tai);
        NasOctets(nas);
        var es := Entries(m);
        IesOctetsFour(es[0], es[1], es[2], es[3]);
      case DownlinkNasTransport(amf, ran, nas) =>
        UeIdOctets(amf, ran, CRITICALITY_REJECT);
        NasOctets(nas);
        IesOctetsThree(AmfIe(amf, CRITICALITY_REJECT), RanIe(ran, CRITICALITY_REJECT), NasIe(nas));
      case InitialContextSetupRequest(amf, ran, sessions, nas, dl, ul, key) =>
        UeIdOctets(amf, ran, CRITICALITY_REJECT);
        OctetsIeOctets(ID_SECURITY_KEY, CRITICALITY_REJECT, key);
        AmbrOctets(CRITICALITY_IGNORE, dl, ul);
        var keyIe, ambrIe := OctetsIe(ID_SECURITY_KEY, CRITICALITY_REJECT, key), AmbrIe(CRITICALITY_IGNORE, dl, ul);
        var base := [AmfIe(amf, CRITICALITY_REJECT), RanIe(ran, CRITICALITY_REJECT), keyIe, ambrIe];
        IesOctetsFour(base[0], base[1], base[2], base[3]);
        SessionsOctets(sessions);
        NasOptOctets(nas);
        IesOctetsTail(base, ToSetupIes(sessions), NasOptIes(nas));
      case InitialContextSetupResponse(amf, ran, setup, failed) =>
        UeIdOctets(amf, ran, CRITICALITY_REJECT);
        var base := [AmfIe(amf, CRITICALITY_REJECT), RanIe(ran, CRITICALITY_REJECT)];
        IesOctetsTwo(base[0], base[1]);
        SetupOctets(setup);
        FailedOctets(failed);
        IesOctetsTail(base, SetupIes(setup), FailedIes(failed));
      case UeContextReleaseCommand(amf, ran, cause) =>
        UeIdOctets(amf, ran, CRITICALITY_REJECT);
        CauseOctets(CauseToInt(cause), 0);
        var es := Entries(m);
        IesOctetsThree(es[0], es[1], es[2]);
      case UeContextReleaseComplete(amf, ran) =>
        UeIdOctets(amf, ran, CRITICALITY_IGNORE);
        IesOctetsTwo(AmfIe(amf, CRITICALITY_IGNORE), RanIe(ran, CRITICALITY_IGNORE));
    }
  }

  // What the encoder needs of a message: supported or not, it must not hit an assertion.
  predicate Encodable(m: NgapMessage) {
    Supported(m) ==> InBounds(m) && WireOctets(m) < Per.LENGTH_LIMIT
  }

  lemma EncodableIsValidPdu(m: NgapMessage)
    requires Supported(m) && Encodable(m)
    ensures ValidPdu(ToPdu(m))
  {
    hide Entries, IesOctets, WireOctets;
    EntriesOctets(m);
    EntriesWellFormed(m);
    ShortFits(Entries(m));
  }

  lemma EntriesWellFormed(m: NgapMessage)
    requires Supported(m) && InBounds(m)
    ensures forall e :: e in Entries(m) ==> e.id <= PROTOCOL_IE_ID_MAX && e.crit <= CRITICALITY_MAX
  {
    hide IntIe, StringIe, OctetsIe, Per.IntoBytes, Per.WriteInt, Per.WriteOctets, WriteToSetup, WriteSetup, WriteIds;
  }

  function Encode(m: NgapMessage): Result<Bytes, NgapError>
    requires Encodable(m)
  {
    if Supported(m) then
      EncodableIsValidPdu(m);
      Ok(EncodePdu(ToPdu(m)))
    else Err(UnsupportedMessage)
  }

  // ---- Decoding as a function -----------------------------------------------------------

  function ParseUeId(v: Bytes): Option<u32> {
    var r := ParseInt(v, UE_NGAP_ID_MAX);
    if r.None? then None else Some(r.value % 0x1_0000_0000)
  }

  function ParseRrcCause(v: Bytes): Option<byte> {
    var r := ParseInt(v, RRC_ESTABLISHMENT_CAUSE_MAX);
    if r.None? then None else Some(r.value % 0x100)
  }

  function ParseNas(v: Bytes): Option<Bytes> { ParseString(v) }

  function ParseLocation(v: Bytes): Option<(Octets9, Octets6)> {
    var cgi := Per.ReadOctets(BytesBits(v), 0, 9);
    if cgi.Fail? then None
    else
      var tai := Per.ReadOctets(BytesBits(v), cgi.pos, 6);
      if tai.Fail? then None else Some((cgi.value, tai.value))
  }

  function ParseKey(v: Bytes): Option<Octets32> {
    var r := ParseOctets(v, 32);
    if r.None? then None else Some(r.value)
  }

  function ParseAmbr(v: Bytes): Option<(nat, nat)> {
    var dl := Per.ReadInt(BytesBits(v), 0, 0, BIT_RATE_MAX);
    if dl.Fail? then None
    else
      var ul := Per.ReadInt(BytesBits(v), dl.pos, 0, BIT_RATE_MAX);
      if ul.Fail? then None else Some((dl.value, ul.value))
  }

  function ParseSessions(v: Bytes): Option<seq<BearerToSetup>> { ParseToSetup(v, PDU_SESSION_ID_MAX, QFI_MAX) }

  function ParseSessionsSetup(v: Bytes): Option<seq<BearerSetup>> { ParseSetup(v, PDU_SESSION_ID_MAX) }

  function ParseSessionIds(v: Bytes): Option<seq<byte>> { ParseIds(v, PDU_SESSION_ID_MAX) }

  function ParseCause(v: Bytes): Option<NgapCause> {
    var r := ParseInt(v, CAUSE_MAX);
    if r.None? then None else CauseFromInt(r.value)
  }

  function AmfOf(es: seq<Ie>): Option<u32> { Last(Values(es, ID_AMF_UE_NGAP_ID), ParseUeId) }

  function RanOf(es: seq<Ie>): Option<u32> { Last(Values(es, ID_RAN_UE_NGAP_ID), ParseUeId) }

  function NasOf(es: seq<Ie>): Option<Bytes> { Last(Values(es, ID_NAS_PDU), ParseNas) }

  function LocationOf(es: seq<Ie>): Option<(Octets9, Octets6)> {
    Last(Values(es, ID_USER_LOCATION_INFO), ParseLocation)
  }

  function RrcCauseOf(es: seq<Ie>): Option<byte> { Last(Values(es, ID_RRC_ESTABLISHMENT_CAUSE), ParseRrcCause) }

  function CauseOf(es: seq<Ie>): Option<NgapCause> { Last(Values(es, ID_CAUSE), ParseCause) }

  function KeyOf(es: seq<Ie>): Option<Octets32> { LastGood(Values(es, ID_SECURITY_KEY), ParseKey) }

  function AmbrOf(es: seq<Ie>): Option<(nat, nat)> { LastGood(Values(es, ID_UE_AGGREGATE_MAX_BIT_RATE), ParseAmbr) }

  function SessionsOf(es: seq<Ie>): seq<BearerToSetup> {
    GetOr(LastGood(Values(es, ID_SETUP_LIST_REQ), ParseSessions), [])
  }

  function SetupOf(es: seq<Ie>): seq<BearerSetup> {
    GetOr(LastGood(Values(es, ID_SETUP_LIST_RES), ParseSessionsSetup), [])
  }

  function FailedOf(es: seq<Ie>): seq<byte> { GetOr(LastGood(Values(es, ID_FAILED_LIST_RES), ParseSessionIds), []) }

  type Decoded = Result<NgapMessage, NgapError>

  function DecodeInitialUe(es: seq<Ie>): Decoded {
    var location, ran, nas, cause := LocationOf(es), RanOf(es), NasOf(es), RrcCauseOf(es);
    if location.None? then Err(Missing(ID_USER_LOCATION_INFO))
    else if ran.None? then Err(Missing(ID_RAN_UE_NGAP_ID))
    else if nas.None? then Err(Missing(ID_NAS_PDU))
    else if cause.None? then Err(Missing(ID_RRC_ESTABLISHMENT_CAUSE))
    else Ok(InitialUeMessage(ran.value, nas.value, location.value.1, location.value.0, cause.value))
  }

  function DecodeUplinkNas(es: seq<Ie>): Decoded {
    var location, amf, ran, nas := LocationOf(es), AmfOf(es), RanOf(es), NasOf(es);
    if location.None? then Err(Missing(ID_USER_LOCATION_INFO))
    else if amf.None? then Err(Missing(ID_AMF_UE_NGAP_ID))
    else if ran.None? then Err(Missing(ID_RAN_UE_NGAP_ID))
    else if nas.None? then Err(Missing(ID_NAS_PDU))
    else Ok(UplinkNasTransport(amf.value, ran.value, nas.value, location.value.1, location.value.0))
  }

  function DecodeDownlinkNas(es: seq<Ie>): Decoded {
    var amf, ran, nas := AmfOf(es), RanOf(es), NasOf(es);
    if amf.None? then Err(Missing(ID_AMF_UE_NGAP_ID))
    else if ran.None? then Err(Missing(ID_RAN_UE_NGAP_ID))
    else if nas.None? then Err(Missing(ID_NAS_PDU))
    else Ok(DownlinkNasTransport(amf.value, ran.value, nas.value))
  }

  // A bit rate above the declared maximum but inside the octets it is read from is kept.
  function DecodeSetupRequest(es: seq<Ie>): Decoded {
    var amf, ran, ambr, key := AmfOf(es), RanOf(es), AmbrOf(es), KeyOf(es);
    if amf.None? then Err(Missing(ID_AMF_UE_NGAP_ID))
    else if ran.None? then Err(Missing(ID_RAN_UE_NGAP_ID))
    else if ambr.None? then Err(Missing(ID_UE_AGGREGATE_MAX_BIT_RATE))
    else if key.None? then Err(Missing(ID_SECURITY_KEY))
    else Ok(InitialContextSetupRequest(
              amf.value, ran.value, SessionsOf(es), NasOf(es),
              ambr.value.0 % 0x1_0000_0000_0000_0000, ambr.value.1 % 0x1_0000_0000_0000_0000, key.value))
  }

  function DecodeSetupResponse(es: seq<Ie>): Decoded {
    var amf, ran := AmfOf(es), RanOf(es);
    if amf.None? then Err(Missing(ID_AMF_UE_NGAP_ID))
    else if ran.None? then Err(Missing(ID_RAN_UE_NGAP_ID))
    else Ok(InitialContextSetupResponse(amf.value, ran.value, SetupOf(es), FailedOf(es)))
  }

  function DecodeReleaseCommand(es: seq<Ie>): Decoded {
    var amf, ran, cause := AmfOf(es), RanOf(es), CauseOf(es);
    if amf.None? then Err(Missing(ID_AMF_UE_NGAP_ID))
    else if ran.None? then Err(Missing(ID_RAN_UE_NGAP_ID))
    else if cause.None? then Err(Missing(ID_CAUSE))
    else Ok(UeContextReleaseCommand(amf.value, ran.value, cause.value))
  }

  function DecodeReleaseComplete(es: seq<Ie>): Decoded {
    var amf, ran := AmfOf(es), RanOf(es);
    if amf.None? then Err(Missing(ID_AMF_UE_NGAP_ID))
    else if ran.None? then Err(Missing(ID_RAN_UE_NGAP_ID))
    else Ok(UeContextReleaseComplete(amf.value, ran.value))
  }

  function DecodeEntries(choice: nat, procedure: u32, es: seq<Ie>): Decoded {
    if procedure == PROC_INITIAL_UE_MESSAGE then DecodeInitialUe(es)
    else if procedure == PROC_UPLINK_NAS_TRANSPORT then DecodeUplinkNas(es)
    else if procedure == PROC_DOWNLINK_NAS_TRANSPORT then DecodeDownlinkNas(es)
    else if procedure == PROC_INITIAL_CONTEXT_SETUP && choice == INITIATING_MESSAGE then DecodeSetupRequest(es)
    else if procedure == PROC_INITIAL_CONTEXT_SETUP && choice == SUCCESSFUL_OUTCOME then DecodeSetupResponse(es)
    else if procedure == PROC_UE_CONTEXT_RELEASE && choice == INITIATING_MESSAGE then DecodeReleaseCommand(es)
    else if procedure == PROC_UE_CONTEXT_RELEASE && choice == SUCCESSFUL_OUTCOME then DecodeReleaseComplete(es)
    else Err(UnsupportedProcedure)
  }

  function Decode(buf: Bytes): Decoded {
    var p := DecodePdu(buf);
    if p.Err? then Err(BadPdu(p.error)) else DecodeEntries(p.value.choice, p.value.procedure, p.value.entries)
  }

  // ---- Round trip -------------------------------------------------------------------------

  lemma UeIdParses(id: u32, v: u32, crit: byte)
    ensures ParseUeId(IntIe(id, crit, v, UE_NGAP_ID_MAX).value) == Some(v)
  {
    hide ParseInt, IntIe;
    IntIeParses(id, crit, v, UE_NGAP_ID_MAX);
  }

  lemma LocationParses(cgi: Octets9, tai: Octets6)
    ensures ParseLocation(LocationIe(cgi, tai).value) == Some((cgi, tai))
  {
    hide Per.ReadOctets, Per.WriteOctets, BytesBits, Per.IntoBytes;
    var w1 := Per.WriteOctets([], cgi);
    var w2 := Per.WriteOctets(w1, tai);
    FinishedBits(w2);
    Per.OctetsRoundTrip([], cgi, BytesBits(Per.IntoBytes(w2)));
    Per.OctetsRoundTrip(w1, tai, BytesBits(Per.IntoBytes(w2))) by {
      OctetsKeepAlignment(cgi);
    }
  }

  lemma OctetsKeepAlignment(data: Bytes)
    ensures |Per.WriteOctets([], data)| % 8 == 0
  {
  }

  lemma AmbrParses(crit: byte, dl: u64, ul: u64)
    requires dl <= BIT_RATE_MAX && ul <= BIT_RATE_MAX
    ensures ParseAmbr(AmbrIe(crit, dl, ul).value) == Some((dl, ul))
  {
    hide Per.ReadInt, Per.WriteInt, BytesBits, Per.IntoBytes;
    var w1 := Per.WriteInt([], dl, 0, BIT_RATE_MAX);
    var w2 := Per.WriteInt(w1, ul, 0, BIT_RATE_MAX);
    FinishedBits(w2);
    Per.IntRoundTrip([], dl, 0, BIT_RATE_MAX, BytesBits(Per.IntoBytes(w2)));
    Per.IntRoundTrip(w1, ul, 0, BIT_RATE_MAX, BytesBits(Per.IntoBytes(w2)));
  }

  lemma CauseRoundTrip(c: NgapCause)
    ensures ParseCause(IntIe(ID_CAUSE, CRITICALITY_IGNORE, CauseToInt(c), CAUSE_MAX).value) == Some(c)
  {
    hide ParseInt, IntIe;
    IntIeParses(ID_CAUSE, CRITICALITY_IGNORE, CauseToInt(c), CAUSE_MAX);
  }

  lemma EntriesAreDistinct(m: NgapMessage)
    requires Supported(m) && InBounds(m)
    ensures DistinctIds(Entries(m))
  {
    hide IntIe, StringIe, OctetsIe, AmbrIe, LocationIe, ToSetupIes, SetupIes, FailedIes, NasOptIes;
  }

  lemma FoundUeIds(es: seq<Ie>, i: nat, j: nat, amf: u32, ran: u32, crit: byte)
    requires DistinctIds(es) && i < |es| && j < |es|
    requires es[i] == AmfIe(amf, crit) && es[j] == RanIe(ran, crit)
    ensures AmfOf(es) == Some(amf) && RanOf(es) == Some(ran)
  {
    hide Values, Last, ParseUeId, IntIe;
    UeIdParses(ID_AMF_UE_NGAP_ID, amf, crit);
    UeIdParses(ID_RAN_UE_NGAP_ID, ran, crit);
    Found(es, i, ParseUeId);
    Found(es, j, ParseUeId);
  }

  lemma FoundNas(es: seq<Ie>, i: nat, nas: Bytes)
    requires DistinctIds(es) && i < |es| && |nas| < Per.LENGTH_LIMIT && es[i] == NasIe(nas)
    ensures NasOf(es) == Some(nas)
  {
    hide Values, Last, ParseString, StringIe;
    StringIeParses(ID_NAS_PDU, CRITICALITY_REJECT, nas);
    Found(es, i, ParseNas);
  }

  lemma FoundLocation(es: seq<Ie>, i: nat, cgi: Octets9, tai: Octets6)
    requires DistinctIds(es) && i < |es| && es[i] == LocationIe(cgi, tai)
    ensures LocationOf(es) == Some((cgi, tai))
  {
    hide Values, Last, ParseLocation, LocationIe;
    LocationParses(cgi, tai);
    Found(es, i, ParseLocation);
  }

  lemma InitialUeRoundTrip(m: NgapMessage)
    requires m.InitialUeMessage? && InBounds(m)
    ensures DecodeInitialUe(Entries(m)) == Ok(m)
  {
    hide IntIe, StringIe, LocationIe, ParseUeId, RanOf, NasOf, LocationOf, ParseInt, Values, Last;
    var es := Entries(m);
    EntriesAreDistinct(m);
    UeIdParses(ID_RAN_UE_NGAP_ID, m.ranId, CRITICALITY_REJECT);
    Found(es, 0, ParseUeId);
    FoundNas(es, 1, m.nasPdu);
    FoundLocation(es, 2, m.nrCgi, m.tai);
    IntIeParses(ID_RRC_ESTABLISHMENT_CAUSE, CRITICALITY_IGNORE, m.rrcCause, RRC_ESTABLISHMENT_CAUSE_MAX);
    Found(es, 3, ParseRrcCause);
    assert RanOf(es) == Some(m.ranId) by {
      RanOfIs(es);
    }
  }

  lemma RanOfIs(es: seq<Ie>)
    ensures RanOf(es) == Last(Values(es, ID_RAN_UE_NGAP_ID), ParseUeId)
  {
  }

  lemma UplinkNasRoundTrip(m: NgapMessage)
    requires m.UplinkNasTransport? && InBounds(m)
    ensures DecodeUplinkNas(Entries(m)) == Ok(m)
  {
    hide IntIe, StringIe, LocationIe, RanOf, AmfOf, NasOf, LocationOf;
    var es := Entries(m);
    EntriesAreDistinct(m);
    FoundUeIds(es, 0, 1, m.amfId, m.ranId, CRITICALITY_REJECT);
    FoundNas(es, 2, m.nasPdu);
    FoundLocation(es, 3, m.nrCgi, m.tai);
  }

  lemma DownlinkNasRoundTrip(m: NgapMessage)
    requires m.DownlinkNasTransport? && InBounds(m)
    ensures DecodeDownlinkNas(Entries(m)) == Ok(m)
  {
    hide IntIe, StringIe, RanOf, AmfOf, NasOf;
    var es := Entries(m);
    EntriesAreDistinct(m);
    FoundUeIds(es, 0, 1, m.amfId, m.ranId, CRITICALITY_REJECT);
    FoundNas(es, 2, m.nasPdu);
  }

  lemma FoundKey(es: seq<Ie>, i: nat, key: Octets32)
    requires DistinctIds(es) && i < |es| && es[i] == OctetsIe(ID_SECURITY_KEY, CRITICALITY_REJECT, key)
    ensures KeyOf(es) == Some(key)
  {
    hide Values, LastGood, Last, ParseOctets, OctetsIe;
    OctetsIeParses(ID_SECURITY_KEY, CRITICALITY_REJECT, key);
    Found(es, i, ParseKey);
  }

  lemma FoundAmbr(es: seq<Ie>, i: nat, crit: byte, dl: u64, ul: u64)
    requires dl <= BIT_RATE_MAX && ul <= BIT_RATE_MAX
    requires DistinctIds(es) && i < |es| && es[i] == AmbrIe(crit, dl, ul)
    ensures AmbrOf(es) == Some((dl, ul))
  {
    hide Values, LastGood, Last, ParseAmbr, AmbrIe;
    AmbrParses(crit, dl, ul);
    Found(es, i, ParseAmbr);
  }

  // An empty list is not sent and its absence decodes to the empty list.
  lemma FoundSessions(es: seq<Ie>, i: nat, items: seq<BearerToSetup>)
    requires |items| < Per.LENGTH_LIMIT && ToSetupInRange(items, PDU_SESSION_ID_MAX, QFI_MAX)
    requires DistinctIds(es)
    requires items != [] ==> i < |es| && ToSetupIes(items) == [es[i]]
    requires items == [] ==> forall k :: 0 <= k < |es| ==> es[k].id != ID_SETUP_LIST_REQ
    ensures SessionsOf(es) == items
  {
    hide Values, LastGood, Last, ParseToSetup, WriteToSetup, Per.IntoBytes;
    if items == [] {
      Absent(es, ID_SETUP_LIST_REQ, ParseSessions);
    } else {
      ToSetupRoundTrip(items, PDU_SESSION_ID_MAX, QFI_MAX);
      assert es[i] == ToSetupIes(items)[0];
      Found(es, i, ParseSessions);
    }
  }

  lemma FoundNasOpt(es: seq<Ie>, i: nat, nas: Option<Bytes>)
    requires nas.Some? ==> |nas.value| < Per.LENGTH_LIMIT
    requires DistinctIds(es)
    requires nas.Some? ==> i < |es| && NasOptIes(nas) == [es[i]]
    requires nas.None? ==> forall k :: 0 <= k < |es| ==> es[k].id != ID_NAS_PDU
    ensures NasOf(es) == nas
  {
    hide Values, LastGood, Last, NasIe;
    if nas.None? {
      Absent(es, ID_NAS_PDU, ParseNas);
    } else {
      assert es[i] == NasOptIes(nas)[0];
      FoundNas(es, i, nas.value);
    }
  }

  lemma OptionalIesPresence(m: NgapMessage)
    requires InBounds(m)
    ensures m.InitialContextSetupRequest? ==>
              && (ToSetupIes(m.sessions) == [] <==> m.sessions == [])
              && (NasOptIes(m.nasPduOpt) == [] <==> m.nasPduOpt.None?)
    ensures m.InitialContextSetupResponse? ==>
              && (SetupIes(m.setup) == [] <==> m.setup == [])
              && (FailedIes(m.failed) == [] <==> m.failed == [])
  {
  }

  lemma SetupRequestRoundTrip(m: NgapMessage)
    requires m.InitialContextSetupRequest? && InBounds(m)
    ensures DecodeSetupRequest(Entries(m)) == Ok(m)
  {
    hide IntIe, OctetsIe, AmbrIe, NasIe, RanOf, AmfOf, NasOf, KeyOf, AmbrOf, SessionsOf, ToSetupIes, NasOptIes;
    var es := Entries(m);
    EntriesAreDistinct(m);
    OptionalTail([AmfIe(m.amfId, CRITICALITY_REJECT), RanIe(m.ranId, CRITICALITY_REJECT),
                  OctetsIe(ID_SECURITY_KEY, CRITICALITY_REJECT, m.securityKey),
                  AmbrIe(CRITICALITY_IGNORE, m.ambrDl, m.ambrUl)],
                 ToSetupIes(m.sessions), NasOptIes(m.nasPduOpt));
    OptionalIesPresence(m);
    FoundUeIds(es, 0, 1, m.amfId, m.ranId, CRITICALITY_REJECT);
    FoundKey(es, 2, m.securityKey);
    FoundAmbr(es, 3, CRITICALITY_IGNORE, m.ambrDl, m.ambrUl);
    FoundSessions(es, 4, m.sessions);
    FoundNasOpt(es, |es| - 1, m.nasPduOpt);
  }

  lemma FoundSetup(es: seq<Ie>, i: nat, items: seq<BearerSetup>)
    requires |items| < Per.LENGTH_LIMIT && DistinctIds(es)
    requires items != [] ==> i < |es| && SetupIes(items) == [es[i]]
    requires items == [] ==> forall k :: 0 <= k < |es| ==> es[k].id != ID_SETUP_LIST_RES
    ensures SetupOf(es) == items
  {
    hide Values, LastGood, Last, ParseSetup, WriteSetup, Per.IntoBytes;
    if items == [] {
      Absent(es, ID_SETUP_LIST_RES, ParseSessionsSetup);
    } else {
      SetupRoundTrip(items, PDU_SESSION_ID_MAX);
      assert es[i] == SetupIes(items)[0];
      Found(es, i, ParseSessionsSetup);
    }
  }

  lemma FoundFailed(es: seq<Ie>, i: nat, ids: seq<byte>)
    requires |ids| < Per.LENGTH_LIMIT && DistinctIds(es)
    requires ids != [] ==> i < |es| && FailedIes(ids) == [es[i]]
    requires ids == [] ==> forall k :: 0 <= k < |es| ==> es[k].id != ID_FAILED_LIST_RES
    ensures FailedOf(es) == ids
  {
    hide Values, LastGood, Last, ParseIds, WriteIds, Per.IntoBytes;
    if ids == [] {
      Absent(es, ID_FAILED_LIST_RES, ParseSessionIds);
    } else {
      IdsRoundTrip(ids, PDU_SESSION_ID_MAX);
      assert es[i] == FailedIes(ids)[0];
      Found(es, i, ParseSessionIds);
    }
  }

  lemma SetupResponseRoundTrip(m: NgapMessage)
    requires m.InitialContextSetupResponse? && InBounds(m)
    ensures DecodeSetupResponse(Entries(m)) == Ok(m)
  {
    hide IntIe, RanOf, AmfOf, SetupOf, FailedOf, SetupIes, FailedIes;
    var es := Entries(m);
    EntriesAreDistinct(m);
    OptionalTail([AmfIe(m.amfId, CRITICALITY_REJECT), RanIe(m.ranId, CRITICALITY_REJECT)],
                 SetupIes(m.setup), FailedIes(m.failed));
    OptionalIesPresence(m);
    FoundUeIds(es, 0, 1, m.amfId, m.ranId, CRITICALITY_REJECT);
    FoundSetup(es, 2, m.setup);
    FoundFailed(es, |es| - 1, m.failed);
  }

  lemma ReleaseRoundTrip(m: NgapMessage)
    requires m.UeContextReleaseCommand? || m.UeContextReleaseComplete?
    ensures m.UeContextReleaseCommand? ==> DecodeReleaseCommand(Entries(m)) == Ok(m)
    ensures m.UeContextReleaseComplete? ==> DecodeReleaseComplete(Entries(m)) == Ok(m)
  {
    hide IntIe, RanOf, AmfOf, ParseCause, Values, Last;
    var es := Entries(m);
    EntriesAreDistinct(m);
    if m.UeContextReleaseCommand? {
      FoundUeIds(es, 0, 1, m.amfId, m.ranId, CRITICALITY_REJECT);
      CauseRoundTrip(m.cause);
      Found(es, 2, ParseCause);
    } else {
      FoundUeIds(es, 0, 1, m.amfId, m.ranId, CRITICALITY_IGNORE);
    }
  }

  // A request and the response sharing its procedure code are told apart by the choice.
  lemma EntriesRoundTrip(m: NgapMessage)
    requires Supported(m) && InBounds(m)
    ensures DecodeEntries(Choice(m), Procedure(m), Entries(m)) == Ok(m)
  {
    hide Entries, DecodeInitialUe, DecodeUplinkNas, DecodeDownlinkNas, DecodeSetupRequest, DecodeSetupResponse;
    hide DecodeReleaseCommand, DecodeReleaseComplete;
    match m
    case InitialUeMessage(_, _, _, _, _) => InitialUeRoundTrip(m);
    case UplinkNasTransport(_, _, _, _, _) => UplinkNasRoundTrip(m);
    case DownlinkNasTransport(_, _, _) => DownlinkNasRoundTrip(m);
    case InitialContextSetupRequest(_, _, _, _, _, _, _) => SetupRequestRoundTrip(m);
    case InitialContextSetupResponse(_, _, _, _) => SetupResponseRoundTrip(m);
    case UeContextReleaseCommand(_, _, _) => ReleaseRoundTrip(m);
    case UeContextReleaseComplete(_, _) => ReleaseRoundTrip(m);
  }

  // Every message the codec supports comes back exactly as it was, and only those encode.
  lemma RoundTrip(m: NgapMessage)
    requires Encodable(m)
    ensures Supported(m) <==> Encode(m).Ok?
    ensures Supported(m) ==> Decode(Encode(m).value) == Ok(m)
  {
    hide Entries, EncodePdu, DecodePdu, DecodeEntries, Fits;
    if Supported(m) {
      EncodableIsValidPdu(m);
      PduRoundTrip(ToPdu(m));
      EntriesRoundTrip(m);
    }
  }

  // The ids a message's decoder looks at: every other one is skipped, even one that some
  // other message knows.
  function KnownIds(choice: nat, procedure: u32): set<u32> {
    if procedure == PROC_INITIAL_UE_MESSAGE then
      {ID_USER_LOCATION_INFO, ID_RAN_UE_NGAP_ID, ID_NAS_PDU, ID_RRC_ESTABLISHMENT_CAUSE}
    else if procedure == PROC_UPLINK_NAS_TRANSPORT then
      {ID_USER_LOCATION_INFO, ID_AMF_UE_NGAP_ID, ID_RAN_UE_NGAP_ID, ID_NAS_PDU}
    else if procedure == PROC_DOWNLINK_NAS_TRANSPORT then
      {ID_AMF_UE_NGAP_ID, ID_RAN_UE_NGAP_ID, ID_NAS_PDU}
    else if procedure == PROC_INITIAL_CONTEXT_SETUP && choice == INITIATING_MESSAGE then
      {ID_AMF_UE_NGAP_ID, ID_RAN_UE_NGAP_ID, ID_UE_AGGREGATE_MAX_BIT_RATE, ID_SECURITY_KEY,
       ID_SETUP_LIST_REQ, ID_NAS_PDU}
    else if procedure == PROC_INITIAL_CONTEXT_SETUP && choice == SUCCESSFUL_OUTCOME then
      {ID_AMF_UE_NGAP_ID, ID_RAN_UE_NGAP_ID, ID_SETUP_LIST_RES, ID_FAILED_LIST_RES}
    else if procedure == PROC_UE_CONTEXT_RELEASE && choice == INITIATING_MESSAGE then
      {ID_AMF_UE_NGAP_ID, ID_RAN_UE_NGAP_ID, ID_CAUSE}
    else if procedure == PROC_UE_CONTEXT_RELEASE && choice == SUCCESSFUL_OUTCOME then
      {ID_AMF_UE_NGAP_ID, ID_RAN_UE_NGAP_ID}
    else {}
  }

  lemma AgreeingEntriesDecodeAlike(choice: nat, procedure: u32, a: seq<Ie>, b: seq<Ie>)
    requires Agree(KnownIds(choice, procedure), a, b)
    ensures DecodeEntries(choice, procedure, a) == DecodeEntries(choice, procedure, b)
  {
    hide Values, Last, LastGood;
    var known := KnownIds(choice, procedure);
    assert ID_AMF_UE_NGAP_ID in known ==> AmfOf(a) == AmfOf(b);
    assert ID_RAN_UE_NGAP_ID in known ==> RanOf(a) == RanOf(b);
    assert ID_NAS_PDU in known ==> NasOf(a) == NasOf(b);
    assert ID_USER_LOCATION_INFO in known ==> LocationOf(a) == LocationOf(b);
    assert ID_RRC_ESTABLISHMENT_CAUSE in known ==> RrcCauseOf(a) == RrcCauseOf(b);
    assert ID_CAUSE in known ==> CauseOf(a) == CauseOf(b);
    assert ID_SECURITY_KEY in known ==> KeyOf(a) == KeyOf(b);
    assert ID_UE_AGGREGATE_MAX_BIT_RATE in known ==> AmbrOf(a) == AmbrOf(b);
    assert ID_SETUP_LIST_REQ in known ==> SessionsOf(a) == SessionsOf(b);
    assert ID_SETUP_LIST_RES in known ==> SetupOf(a) == SetupOf(b);
    assert ID_FAILED_LIST_RES in known ==> FailedOf(a) == FailedOf(b);
  }

  // The order of the information elements does not matter, and one with an id this message's
  // decoder does not know, put in anywhere, is invisible: on the bytes, for every PDU.
  lemma IeOrderIsIrrelevant(p: Pdu, es: seq<Ie>)
    requires ValidPdu(p)
    requires DistinctIds(p.entries) && multiset(p.entries) == multiset(es)
    ensures ValidPdu(p.(entries := es))
    ensures Decode(EncodePdu(p.(entries := es))) == Decode(EncodePdu(p))
  {
    hide EncodePdu, DecodePdu, DecodeEntries, Fits, Agree;
    FitsPermuted(p.entries, es);
    PduRoundTrip(p);
    PduRoundTrip(p.(entries := es));
    Permute(KnownIds(p.choice, p.procedure), p.entries, es);
    AgreeingEntriesDecodeAlike(p.choice, p.procedure, p.entries, es);
  }

  lemma UnknownIeIsIgnored(p: Pdu, a: seq<Ie>, e: Ie, b: seq<Ie>)
    requires p.entries == a + b && e.id !in KnownIds(p.choice, p.procedure)
    requires ValidPdu(p.(entries := a + [e] + b))
    ensures ValidPdu(p)
    ensures Decode(EncodePdu(p.(entries := a + [e] + b))) == Decode(EncodePdu(p))
  {
    hide EncodePdu, DecodePdu, DecodeEntries, Fits, Agree;
    FitsWithout(a, e, b);
    PduRoundTrip(p);
    PduRoundTrip(p.(entries := a + [e] + b));
    InsertUnknown(KnownIds(p.choice, p.procedure), a, e, b);
    AgreeingEntriesDecodeAlike(p.choice, p.procedure, a + [e] + b, a + b);
  }
}
