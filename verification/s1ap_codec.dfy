// S1AP PDUs: the seven messages the codec supports, as IE containers, and back. The same shape as
// NGAP with 4-bit E-RAB ids (12-bit item prefixes), 24-bit eNB ids and separate TAI and CGI elements.
// The S1 Setup messages carry nothing here: the codec refuses them whatever they hold.
module S1apCodec {
  import opened Bits
  import Per
  import opened PerEngine
  import opened IeContainer
  import opened BearerLists

  const PROC_DOWNLINK_NAS_TRANSPORT: u32 := 11
  const PROC_INITIAL_UE_MESSAGE: u32 := 12
  const PROC_UPLINK_NAS_TRANSPORT: u32 := 13
  const PROC_INITIAL_CONTEXT_SETUP: u32 := 9
  const PROC_UE_CONTEXT_RELEASE: u32 := 23

  const ID_MME_UE_S1AP_ID: u32 := 0
  const ID_ENB_UE_S1AP_ID: u32 := 8
  const ID_NAS_PDU: u32 := 26
  const ID_TAI: u32 := 67
  const ID_EUTRAN_CGI: u32 := 100
  const ID_RRC_ESTABLISHMENT_CAUSE: u32 := 134
  const ID_SETUP_LIST_REQ: u32 := 24
  const ID_UE_AGGREGATE_MAX_BIT_RATE: u32 := 66
  const ID_SECURITY_KEY: u32 := 73
  const ID_SETUP_LIST_RES: u32 := 51
  const ID_FAILED_LIST_RES: u32 := 48
  const ID_CAUSE: u32 := 2

  const ENB_UE_S1AP_ID_MAX: u64 := 16_777_215
  const MME_UE_S1AP_ID_MAX: u64 := 4_294_967_295
  const RRC_ESTABLISHMENT_CAUSE_MAX: u64 := 15
  const ERAB_ID_MAX: byte := 15
  const QCI_MAX: byte := 255
  const BIT_RATE_MAX: u64 := 10_000_000_000
  const CAUSE_MAX: u64 := 6

  type Octets5 = s: Bytes | |s| == 5 witness [0, 0, 0, 0, 0]
  type Octets7 = s: Bytes | |s| == 7 witness [0, 0, 0, 0, 0, 0, 0]
  type Octets32 = s: Bytes | |s| == 32 witness seq(32, _ => 0)

  datatype S1apCause =
    | RadioNetworkUnspecified
    | TransportUnspecified
    | NasNormalRelease
    | NasDetach
    | NasAuthFailure
    | ProtocolUnspecified
    | MiscUnspecified

  datatype S1apMessage =
    | S1SetupRequest
    | S1SetupResponse
    | S1SetupFailure(cause: S1apCause)
    | InitialUeMessage(enbId: u32, nasPdu: Bytes, tai: Octets5, cgi: Octets7, rrcCause: byte)
    | DownlinkNasTransport(mmeId: u32, enbId: u32, nasPdu: Bytes)
    | UplinkNasTransport(mmeId: u32, enbId: u32, nasPdu: Bytes, tai: Octets5, cgi: Octets7)
    | InitialContextSetupRequest(mmeId: u32, enbId: u32, erabs: seq<BearerToSetup>, nasPduOpt: Option<Bytes>,
                                 ambrDl: u64, ambrUl: u64, securityKey: Octets32)
    | InitialContextSetupResponse(mmeId: u32, enbId: u32, setup: seq<BearerSetup>, failed: seq<byte>)
    | InitialContextSetupFailure(cause: S1apCause)
    | UeContextReleaseCommand(mmeId: u32, enbId: u32, cause: S1apCause)
    | UeContextReleaseComplete(mmeId: u32, enbId: u32)

  datatype S1apError =
    | BadPdu(error: PduError)
    | Missing(id: u32)
    | UnsupportedProcedure
    | UnsupportedMessage

  predicate Supported(m: S1apMessage) {
    || m.InitialUeMessage? || m.DownlinkNasTransport? || m.UplinkNasTransport?
    || m.InitialContextSetupRequest? || m.InitialContextSetupResponse?
    || m.UeContextReleaseCommand? || m.UeContextReleaseComplete?
  }

  // Fields inside the ranges the encoder asserts.
  predicate InBounds(m: S1apMessage) {
    match m
    case InitialUeMessage(enb, nas, _, _, cause) =>
      enb <= ENB_UE_S1AP_ID_MAX && |nas| < Per.LENGTH_LIMIT && cause <= RRC_ESTABLISHMENT_CAUSE_MAX
    case DownlinkNasTransport(_, enb, nas) => enb <= ENB_UE_S1AP_ID_MAX && |nas| < Per.LENGTH_LIMIT
    case UplinkNasTransport(_, enb, nas, _, _) => enb <= ENB_UE_S1AP_ID_MAX && |nas| < Per.LENGTH_LIMIT
    case InitialContextSetupRequest(_, enb, erabs, nas, dl, ul, _) =>
      && enb <= ENB_UE_S1AP_ID_MAX
      && |erabs| < Per.LENGTH_LIMIT
      && ToSetupInRange(erabs, ERAB_ID_MAX, QCI_MAX)
      && (nas.Some? ==> |nas.value| < Per.LENGTH_LIMIT)
      && dl <= BIT_RATE_MAX && ul <= BIT_RATE_MAX
    case InitialContextSetupResponse(_, enb, setup, failed) =>
      && enb <= ENB_UE_S1AP_ID_MAX
      && |setup| < Per.LENGTH_LIMIT && SetupInRange(setup, ERAB_ID_MAX)
      && |failed| < Per.LENGTH_LIMIT && IdsInRange(failed, ERAB_ID_MAX)
    case UeContextReleaseCommand(_, enb, _) => enb <= ENB_UE_S1AP_ID_MAX
    case UeContextReleaseComplete(_, enb) => enb <= ENB_UE_S1AP_ID_MAX
    case _ => true
  }

  function CauseToInt(c: S1apCause): (r: nat)
    ensures r <= CAUSE_MAX
  {
    match c
    case RadioNetworkUnspecified => 0
    case TransportUnspecified => 1
    case NasNormalRelease => 2
    case NasDetach => 3
    case NasAuthFailure => 4
    case ProtocolUnspecified => 5
    case MiscUnspecified => 6
  }

  function CauseFromInt(v: nat): Option<S1apCause> {
    match v
    case 0 => Some(RadioNetworkUnspecified)
    case 1 => Some(TransportUnspecified)
    case 2 => Some(NasNormalRelease)
    case 3 => Some(NasDetach)
    case 4 => Some(NasAuthFailure)
    case 5 => Some(ProtocolUnspecified)
    case 6 => Some(MiscUnspecified)
    case _ => None
  }

  // ---- Encoding as a function ---------------------------------------------------------

  function AmbrIe(crit: byte, dl: u64, ul: u64): (e: Ie)
    requires dl <= BIT_RATE_MAX && ul <= BIT_RATE_MAX
    ensures e.id == ID_UE_AGGREGATE_MAX_BIT_RATE
  {
    Ie(ID_UE_AGGREGATE_MAX_BIT_RATE, crit,
       Per.IntoBytes(Per.WriteInt(Per.WriteInt([], dl, 0, BIT_RATE_MAX), ul, 0, BIT_RATE_MAX)))
  }

  function MmeIe(id: u32, crit: byte): Ie { IntIe(ID_MME_UE_S1AP_ID, crit, id, MME_UE_S1AP_ID_MAX) }

  function EnbIe(id: u32, crit: byte): Ie
    requires id <= ENB_UE_S1AP_ID_MAX
  {
    IntIe(ID_ENB_UE_S1AP_ID, crit, id, ENB_UE_S1AP_ID_MAX)
  }

  function NasIe(nas: Bytes): Ie
    requires |nas| < Per.LENGTH_LIMIT
  {
    StringIe(ID_NAS_PDU, CRITICALITY_REJECT, nas)
  }

  function TaiIe(tai: Octets5): Ie { OctetsIe(ID_TAI, CRITICALITY_IGNORE, tai) }

  function CgiIe(cgi: Octets7): Ie { OctetsIe(ID_EUTRAN_CGI, CRITICALITY_IGNORE, cgi) }

  function ToSetupIes(items: seq<BearerToSetup>): (r: seq<Ie>)
    requires |items| < Per.LENGTH_LIMIT && ToSetupInRange(items, ERAB_ID_MAX, QCI_MAX)
    ensures |r| <= 1 && (r != [] ==> r[0].id == ID_SETUP_LIST_REQ)
  {
    if items == [] then []
    else [Ie(ID_SETUP_LIST_REQ, CRITICALITY_REJECT, Per.IntoBytes(WriteToSetup(items, ERAB_ID_MAX, QCI_MAX)))]
  }

  function SetupIes(items: seq<BearerSetup>): (r: seq<Ie>)
    requires |items| < Per.LENGTH_LIMIT && SetupInRange(items, ERAB_ID_MAX)
    ensures |r| <= 1 && (r != [] ==> r[0].id == ID_SETUP_LIST_RES)
  {
    if items == [] then []
    else [Ie(ID_SETUP_LIST_RES, CRITICALITY_REJECT, Per.IntoBytes(WriteSetup(items, ERAB_ID_MAX)))]
  }

  function FailedIes(ids: seq<byte>): (r: seq<Ie>)
    requires |ids| < Per.LENGTH_LIMIT && IdsInRange(ids, ERAB_ID_MAX)
    ensures |r| <= 1 && (r != [] ==> r[0].id == ID_FAILED_LIST_RES)
  {
    if ids == [] then []
    else [Ie(ID_FAILED_LIST_RES, CRITICALITY_IGNORE, Per.IntoBytes(WriteIds(ids, ERAB_ID_MAX)))]
  }

  function NasOptIes(nas: Option<Bytes>): (r: seq<Ie>)
    requires nas.Some? ==> |nas.value| < Per.LENGTH_LIMIT
    ensures |r| <= 1 && (r != [] ==> r[0].id == ID_NAS_PDU)
  {
    if nas.Some? then [NasIe(nas.value)] else []
  }

  function Entries(m: S1apMessage): seq<Ie>
    requires Supported(m) && InBounds(m)
  {
    match m
    case InitialUeMessage(enb, nas, tai, cgi, cause) =>
      [EnbIe(enb, CRITICALITY_REJECT), NasIe(nas), TaiIe(tai), CgiIe(cgi),
       IntIe(ID_RRC_ESTABLISHMENT_CAUSE, CRITICALITY_IGNORE, cause, RRC_ESTABLISHMENT_CAUSE_MAX)]
    case UplinkNasTransport(mme, enb, nas, tai, cgi) =>
      [MmeIe(mme, CRITICALITY_REJECT), EnbIe(enb, CRITICALITY_REJECT), NasIe(nas), TaiIe(tai), CgiIe(cgi)]
    case DownlinkNasTransport(mme, enb, nas) =>
      [MmeIe(mme, CRITICALITY_REJECT), EnbIe(enb, CRITICALITY_REJECT), NasIe(nas)]
    case InitialContextSetupRequest(mme, enb, erabs, nas, dl, ul, key) =>
      [MmeIe(mme, CRITICALITY_REJECT), EnbIe(enb, CRITICALITY_REJECT),
       AmbrIe(CRITICALITY_REJECT, dl, ul), OctetsIe(ID_SECURITY_KEY, CRITICALITY_REJECT, key)]
      + ToSetupIes(erabs) + NasOptIes(nas)
    case InitialContextSetupResponse(mme, enb, setup, failed) =>
      [MmeIe(mme, CRITICALITY_REJECT), EnbIe(enb, CRITICALITY_REJECT)] + SetupIes(setup) + FailedIes(failed)
    case UeContextReleaseCommand(mme, enb, cause) =>
      [MmeIe(mme, CRITICALITY_REJECT), EnbIe(enb, CRITICALITY_REJECT),
       IntIe(ID_CAUSE, CRITICALITY_IGNORE, CauseToInt(cause), CAUSE_MAX)]
    case UeContextReleaseComplete(mme, enb) =>
      [MmeIe(mme, CRITICALITY_IGNORE), EnbIe(enb, CRITICALITY_IGNORE)]
  }

  function Choice(m: S1apMessage): nat {
    if m.InitialContextSetupResponse? || m.UeContextReleaseComplete? then SUCCESSFUL_OUTCOME else INITIATING_MESSAGE
  }

  function Procedure(m: S1apMessage): u32
    requires Supported(m)
  {
    match m
    case InitialUeMessage(_, _, _, _, _) => PROC_INITIAL_UE_MESSAGE
    case UplinkNasTransport(_, _, _, _, _) => PROC_UPLINK_NAS_TRANSPORT
    case DownlinkNasTransport(_, _, _) => PROC_DOWNLINK_NAS_TRANSPORT
    case InitialContextSetupRequest(_, _, _, _, _, _, _) => PROC_INITIAL_CONTEXT_SETUP
    case InitialContextSetupResponse(_, _, _, _) => PROC_INITIAL_CONTEXT_SETUP
    case UeContextReleaseCommand(_, _, _) => PROC_UE_CONTEXT_RELEASE
    case UeContextReleaseComplete(_, _) => PROC_UE_CONTEXT_RELEASE
  }

  function PduCriticality(m: S1apMessage): byte {
    if m.InitialContextSetupRequest? || m.InitialContextSetupResponse? then CRITICALITY_REJECT else CRITICALITY_IGNORE
  }

  function ToPdu(m: S1apMessage): Pdu
    requires Supported(m) && InBounds(m)
  {
    Pdu(Choice(m), Procedure(m), PduCriticality(m), Entries(m))
  }

  // ---- How long a message gets --------------------------------------------------------

  // The octets of a message's container, from the sizes of its fields.
  function WireOctets(m: S1apMessage): nat
    requires Supported(m)
  {
    match m
    case InitialUeMessage(_, nas, _, _, _) => 1 + 7 + StringOctets(|nas|) + 9 + 11 + 5
    case UplinkNasTransport(_, _, nas, _, _) => 1 + 15 + StringOctets(|nas|) + 9 + 11
    case DownlinkNasTransport(_, _, nas) => 1 + 15 + StringOctets(|nas|)
    case InitialContextSetupRequest(_, _, erabs, nas, _, _, _) =>
      1 + 15 + 14 + 36 + ListOctets(|erabs|, Per.LengthOctets(|erabs|) + 10 * |erabs|)
      + (if nas.Some? then StringOctets(|nas.value|) else 0)
    case InitialContextSetupResponse(_, _, setup, failed) =>
      1 + 15 + ListOctets(|setup|, Per.LengthOctets(|setup|) + 9 * |setup|)
      + ListOctets(|failed|, Per.LengthOctets(|failed|) + (|failed| + 1) / 2)
    case UeContextReleaseCommand(_, _, _) => 1 + 15 + 5
    case UeContextReleaseComplete(_, _) => 1 + 15
  }

  lemma Widths()
    ensures Per.Width(MME_UE_S1AP_ID_MAX, 32) && Per.Width(ENB_UE_S1AP_ID_MAX, 24)
    ensures Per.Width(RRC_ESTABLISHMENT_CAUSE_MAX, 4) && Per.Width(CAUSE_MAX, 3)
    ensures Per.Width(ERAB_ID_MAX, 4) && Per.Width(QCI_MAX, 8) && Per.Width(BIT_RATE_MAX, 34)
  {
    SomePow2();
  }

  lemma SomePow2()
    ensures Pow2(2) == 4 && Pow2(3) == 8 && Pow2(4) == 16 && Pow2(7) == 128 && Pow2(8) == 256
    ensures Pow2(23) == 0x80_0000 && Pow2(24) == 0x100_0000
    ensures Pow2(31) == 0x8000_0000 && Pow2(32) == 0x1_0000_0000
    ensures Pow2(33) == 0x2_0000_0000 && Pow2(34) == 0x4_0000_0000
  {
    Pow2Values();
    Pow2Small();
    Pow2Add(2, 2);
    Pow2Add(16, 7);
    Pow2Add(24, 7);
    Pow2Add(32, 1);
    Pow2Add(32, 2);
  }

  lemma UeIdOctets(mme: u32, enb: u32, crit: byte)
    requires enb <= ENB_UE_S1AP_ID_MAX
    ensures IeOctets(MmeIe(mme, crit)) == 8 && IeOctets(EnbIe(enb, crit)) == 7
  {
    hide IntIe, IeOctets, Per.Width;
    Widths();
    IntIeOctets(ID_MME_UE_S1AP_ID, crit, mme, MME_UE_S1AP_ID_MAX, 32);
    IntIeOctets(ID_ENB_UE_S1AP_ID, crit, enb, ENB_UE_S1AP_ID_MAX, 24);
  }

  lemma CauseOctets(cause: nat, rrc: nat)
    requires cause <= CAUSE_MAX && rrc <= RRC_ESTABLISHMENT_CAUSE_MAX
    ensures IeOctets(IntIe(ID_CAUSE, CRITICALITY_IGNORE, cause, CAUSE_MAX)) == 5
    ensures IeOctets(IntIe(ID_RRC_ESTABLISHMENT_CAUSE, CRITICALITY_IGNORE, rrc, RRC_ESTABLISHMENT_CAUSE_MAX)) == 5
  {
    hide IntIe, IeOctets, Per.Width;
    Widths();
    IntIeOctets(ID_CAUSE, CRITICALITY_IGNORE, cause, CAUSE_MAX, 3);
    IntIeOctets(ID_RRC_ESTABLISHMENT_CAUSE, CRITICALITY_IGNORE, rrc, RRC_ESTABLISHMENT_CAUSE_MAX, 4);
  }

  lemma PlaceOctets(tai: Octets5, cgi: Octets7)
    ensures IeOctets(TaiIe(tai)) == 9 && IeOctets(CgiIe(cgi)) == 11
  {
    hide OctetsIe, IeOctets;
    OctetsIeOctets(ID_TAI, CRITICALITY_IGNORE, tai);
    OctetsIeOctets(ID_EUTRAN_CGI, CRITICALITY_IGNORE, cgi);
  }

  lemma AmbrOctets(crit: byte, dl: u64, ul: u64)
    requires dl <= BIT_RATE_MAX && ul <= BIT_RATE_MAX
    ensures IeOctets(AmbrIe(crit, dl, ul)) == 14
  {
    hide Per.WriteInt, Per.Width;
    Widths();
    Per.IntWritten([], dl, BIT_RATE_MAX, 34);
    Per.IntWritten(Per.WriteInt([], dl, 0, BIT_RATE_MAX), ul, BIT_RATE_MAX, 34);
  }

  lemma NasOctets(nas: Bytes)
    requires |nas| < Per.LENGTH_LIMIT
    ensures IeOctets(NasIe(nas)) == StringOctets(|nas|)
  {
    hide StringIe, StringOctets;
    StringIeOctets(ID_NAS_PDU, CRITICALITY_REJECT, nas);
  }

  lemma NasOptOctets(nas: Option<Bytes>)
    requires nas.Some? ==> |nas.value| < Per.LENGTH_LIMIT
    ensures IesOctets(NasOptIes(nas)) == if nas.Some? then StringOctets(|nas.value|) else 0
  {
    hide NasIe, StringOctets, IeOctets;
    if nas.Some? {
      NasOctets(nas.value);
      IesOctetsOne(NasIe(nas.value));
    }
  }

  lemma ErabsOctets(items: seq<BearerToSetup>)
    requires |items| < Per.LENGTH_LIMIT && ToSetupInRange(items, ERAB_ID_MAX, QCI_MAX)
    ensures IesOctets(ToSetupIes(items)) == ListOctets(|items|, Per.LengthOctets(|items|) + 10 * |items|)
  {
    hide WriteToSetup, Per.Width;
    Widths();
    ToSetupWritten(items, ERAB_ID_MAX, QCI_MAX, 4, 8);
    if items != [] {
      IesOctetsOne(ToSetupIes(items)[0]);
    }
  }

  lemma SetupOctets(items: seq<BearerSetup>)
    requires |items| < Per.LENGTH_LIMIT && SetupInRange(items, ERAB_ID_MAX)
    ensures IesOctets(SetupIes(items)) == ListOctets(|items|, Per.LengthOctets(|items|) + 9 * |items|)
  {
    hide WriteSetup, Per.Width;
    Widths();
    SetupWritten(items, ERAB_ID_MAX, 4);
    if items != [] {
      IesOctetsOne(SetupIes(items)[0]);
    }
  }

  lemma FailedOctets(ids: seq<byte>)
    requires |ids| < Per.LENGTH_LIMIT && IdsInRange(ids, ERAB_ID_MAX)
    ensures IesOctets(FailedIes(ids)) == ListOctets(|ids|, Per.LengthOctets(|ids|) + (|ids| + 1) / 2)
  {
    hide WriteIds, Per.Width;
    Widths();
    IdsWritten(ids, ERAB_ID_MAX, 4);
    if ids != [] {
      IesOctetsOne(FailedIes(ids)[0]);
    }
  }

  // The encoder's own output has exactly that length.
  lemma EntriesOctets(m: S1apMessage)
    requires Supported(m) && InBounds(m)
    ensures ContainerOctets(Entries(m)) == WireOctets(m)
  {
    hide IeOctets, IesOctets, IntIe, StringIe, OctetsIe, AmbrIe, TaiIe, CgiIe, NasIe, StringOctets, ListOctets;
    hide ToSetupIes, SetupIes, FailedIes, NasOptIes, CauseToInt;
    match m {
      case InitialUeMessage(enb, nas, tai, cgi, cause) =>
        UeIdOctets(0, enb, CRITICALITY_REJECT);
        NasOctets(nas);
        PlaceOctets(tai, cgi);
        CauseOctets(0, cause);
        var es := Entries(m);
        IesOctetsFive(es[0], es[1], es[2], es[3], es[4]);
      case UplinkNasTransport(mme, enb, nas, tai, cgi) =>
        UeIdOctets(mme, enb, CRITICALITY_REJECT);
        NasOctets(nas);
        PlaceOctets(tai, cgi);
        var es := Entries(m);
        IesOctetsFive(es[0], es[1], es[2], es[3], es[4]);
      case DownlinkNasTransport(mme, enb, nas) =>
        UeIdOctets(mme, enb, CRITICALITY_REJECT);
        NasOctets(nas);
        IesOctetsThree(MmeIe(mme, CRITICALITY_REJECT), EnbIe(enb, CRITICALITY_REJECT), NasIe(nas));
      case InitialContextSetupRequest(mme, enb, erabs, nas, dl, ul, key) =>
        UeIdOctets(mme, enb, CRITICALITY_REJECT);
        OctetsIeOctets(ID_SECURITY_KEY, CRITICALITY_REJECT, key);
        AmbrOctets(CRITICALITY_REJECT, dl, ul);
        var ambrIe, keyIe := AmbrIe(CRITICALITY_REJECT, dl, ul), OctetsIe(ID_SECURITY_KEY, CRITICALITY_REJECT, key);
        var base := [MmeIe(mme, CRITICALITY_REJECT), EnbIe(enb, CRITICALITY_REJECT), ambrIe, keyIe];
        IesOctetsFour(base[0], base[1], base[2], base[3]);
        ErabsOctets(erabs);
        NasOptOctets(nas);
        IesOctetsTail(base, ToSetupIes(erabs), NasOptIes(nas));
      case InitialContextSetupResponse(mme, enb, setup, failed) =>
        UeIdOctets(mme, enb, CRITICALITY_REJECT);
        var base := [MmeIe(mme, CRITICALITY_REJECT), EnbIe(enb, CRITICALITY_REJECT)];
        IesOctetsTwo(base[0], base[1]);
        SetupOctets(setup);
        FailedOctets(failed);
        IesOctetsTail(base, SetupIes(setup), FailedIes(failed));
      case UeContextReleaseCommand(mme, enb, cause) =>
        UeIdOctets(mme, enb, CRITICALITY_REJECT);
        CauseOctets(CauseToInt(cause), 0);
        var es := Entries(m);
        IesOctetsThree(es[0], es[1], es[2]);
      case UeContextReleaseComplete(mme, enb) =>
        UeIdOctets(mme, enb, CRITICALITY_IGNORE);
        IesOctetsTwo(MmeIe(mme, CRITICALITY_IGNORE), EnbIe(enb, CRITICALITY_IGNORE));
    }
  }

  // What the encoder needs of a message: supported or not, it must not hit an assertion.
  predicate Encodable(m: S1apMessage) {
    Supported(m) ==> InBounds(m) && WireOctets(m) < Per.LENGTH_LIMIT
  }

  lemma EncodableIsValidPdu(m: S1apMessage)
    requires Supported(m) && Encodable(m)
    ensures ValidPdu(ToPdu(m))
  {
    hide Entries, IesOctets, WireOctets;
    EntriesOctets(m);
    EntriesWellFormed(m);
    ShortFits(Entries(m));
  }

  lemma EntriesWellFormed(m: S1apMessage)
    requires Supported(m) && InBounds(m)
    ensures forall e :: e in Entries(m) ==> e.id <= PROTOCOL_IE_ID_MAX && e.crit <= CRITICALITY_MAX
  {
    hide IntIe, StringIe, OctetsIe, Per.IntoBytes, Per.WriteInt, Per.WriteOctets, WriteToSetup, WriteSetup, WriteIds;
  }

  function Encode(m: S1apMessage): Result<Bytes, S1apError>
    requires Encodable(m)
  {
    if Supported(m) then
      EncodableIsValidPdu(m);
      Ok(EncodePdu(ToPdu(m)))
    else Err(UnsupportedMessage)
  }

  // ---- Decoding as a function -----------------------------------------------------------

  function ParseMmeId(v: Bytes): Option<u32> {
    var r := ParseInt(v, MME_UE_S1AP_ID_MAX);
    if r.None? then None else Some(r.value % 0x1_0000_0000)
  }

  function ParseEnbId(v: Bytes): Option<u32> {
    var r := ParseInt(v, ENB_UE_S1AP_ID_MAX);
    if r.None? then None else Some(r.value % 0x1_0000_0000)
  }

  function ParseRrcCause(v: Bytes): Option<byte> {
    var r := ParseInt(v, RRC_ESTABLISHMENT_CAUSE_MAX);
    if r.None? then None else Some(r.value % 0x100)
  }

  function ParseNas(v: Bytes): Option<Bytes> { ParseString(v) }

  function ParseTai(v: Bytes): Option<Octets5> {
    var r := ParseOctets(v, 5);
    if r.None? then None else Some(r.value)
  }

  function ParseCgi(v: Bytes): Option<Octets7> {
    var r := ParseOctets(v, 7);
    if r.None? then None else Some(r.value)
  }

  function ParseKey(v: Bytes): Option<Octets32> {
    var r := ParseOctets(v, 32);
    if r.None? then None else Some(r.value)
  }

  function ParseAmbr(v: Bytes): Option<(nat, nat)> {
    var dl := Per.ReadInt(BytesBits(v), 0, 0, BIT_RATE_MAX);
    if dl.Fail? then None
    else
      var ul := Per.ReadInt(BytesBits(v), dl.pos, 0, BIT_RATE_MAX);
      if ul.Fail? then None else Some((dl.value, ul.value))
  }

  function ParseErabs(v: Bytes): Option<seq<BearerToSetup>> { ParseToSetup(v, ERAB_ID_MAX, QCI_MAX) }

  function ParseErabsSetup(v: Bytes): Option<seq<BearerSetup>> { ParseSetup(v, ERAB_ID_MAX) }

  function ParseErabIds(v: Bytes): Option<seq<byte>> { ParseIds(v, ERAB_ID_MAX) }

  function ParseCause(v: Bytes): Option<S1apCause> {
    var r := ParseInt(v, CAUSE_MAX);
    if r.None? then None else CauseFromInt(r.value)
  }

  function MmeOf(es: seq<Ie>): Option<u32> { Last(Values(es, ID_MME_UE_S1AP_ID), ParseMmeId) }

  function EnbOf(es: seq<Ie>): Option<u32> { Last(Values(es, ID_ENB_UE_S1AP_ID), ParseEnbId) }

  function NasOf(es: seq<Ie>): Option<Bytes> { Last(Values(es, ID_NAS_PDU), ParseNas) }

  function TaiOf(es: seq<Ie>): Option<Octets5> { Last(Values(es, ID_TAI), ParseTai) }

  function CgiOf(es: seq<Ie>): Option<Octets7> { Last(Values(es, ID_EUTRAN_CGI), ParseCgi) }

  function RrcCauseOf(es: seq<Ie>): Option<byte> { Last(Values(es, ID_RRC_ESTABLISHMENT_CAUSE), ParseRrcCause) }

  function CauseOf(es: seq<Ie>): Option<S1apCause> { Last(Values(es, ID_CAUSE), ParseCause) }

  function KeyOf(es: seq<Ie>): Option<Octets32> { Last(Values(es, ID_SECURITY_KEY), ParseKey) }

  function AmbrOf(es: seq<Ie>): Option<(nat, nat)> { LastGood(Values(es, ID_UE_AGGREGATE_MAX_BIT_RATE), ParseAmbr) }

  function ErabsOf(es: seq<Ie>): seq<BearerToSetup> { GetOr(LastGood(Values(es, ID_SETUP_LIST_REQ), ParseErabs), []) }

  function SetupOf(es: seq<Ie>): seq<BearerSetup> {
    GetOr(LastGood(Values(es, ID_SETUP_LIST_RES), ParseErabsSetup), [])
  }

  function FailedOf(es: seq<Ie>): seq<byte> { GetOr(LastGood(Values(es, ID_FAILED_LIST_RES), ParseErabIds), []) }

  type Decoded = Result<S1apMessage, S1apError>

  function DecodeInitialUe(es: seq<Ie>): Decoded {
    var enb, nas, tai, cgi, cause := EnbOf(es), NasOf(es), TaiOf(es), CgiOf(es), RrcCauseOf(es);
    if enb.None? then Err(Missing(ID_ENB_UE_S1AP_ID))
    else if nas.None? then Err(Missing(ID_NAS_PDU))
    else if tai.None? then Err(Missing(ID_TAI))
    else if cgi.None? then Err(Missing(ID_EUTRAN_CGI))
    else if cause.None? then Err(Missing(ID_RRC_ESTABLISHMENT_CAUSE))
    else Ok(InitialUeMessage(enb.value, nas.value, tai.value, cgi.value, cause.value))
  }

  function DecodeUplinkNas(es: seq<Ie>): Decoded {
    var mme, enb, nas, tai, cgi := MmeOf(es), EnbOf(es), NasOf(es), TaiOf(es), CgiOf(es);
    if mme.None? then Err(Missing(ID_MME_UE_S1AP_ID))
    else if enb.None? then Err(Missing(ID_ENB_UE_S1AP_ID))
    else if nas.None? then Err(Missing(ID_NAS_PDU))
    else if tai.None? then Err(Missing(ID_TAI))
    else if cgi.None? then Err(Missing(ID_EUTRAN_CGI))
    else Ok(UplinkNasTransport(mme.value, enb.value, nas.value, tai.value, cgi.value))
  }

  function DecodeDownlinkNas(es: seq<Ie>): Decoded {
    var mme, enb, nas := MmeOf(es), EnbOf(es), NasOf(es);
    if mme.None? then Err(Missing(ID_MME_UE_S1AP_ID))
    else if enb.None? then Err(Missing(ID_ENB_UE_S1AP_ID))
    else if nas.None? then Err(Missing(ID_NAS_PDU))
    else Ok(DownlinkNasTransport(mme.value, enb.value, nas.value))
  }

  // A bit rate above the declared maximum but inside the octets it is read from is kept.
  function DecodeSetupRequest(es: seq<Ie>): Decoded {
    var mme, enb, ambr, key := MmeOf(es), EnbOf(es), AmbrOf(es), KeyOf(es);
    if mme.None? then Err(Missing(ID_MME_UE_S1AP_ID))
    else if enb.None? then Err(Missing(ID_ENB_UE_S1AP_ID))
    else if ambr.None? then Err(Missing(ID_UE_AGGREGATE_MAX_BIT_RATE))
    else if key.None? then Err(Missing(ID_SECURITY_KEY))
    else Ok(InitialContextSetupRequest(
              mme.value, enb.value, ErabsOf(es), NasOf(es),
              ambr.value.0 % 0x1_0000_0000_0000_0000, ambr.value.1 % 0x1_0000_0000_0000_0000, key.value))
  }

  function DecodeSetupResponse(es: seq<Ie>): Decoded {
    var mme, enb := MmeOf(es), EnbOf(es);
    if mme.None? then Err(Missing(ID_MME_UE_S1AP_ID))
    else if enb.None? then Err(Missing(ID_ENB_UE_S1AP_ID))
    else Ok(InitialContextSetupResponse(mme.value, enb.value, SetupOf(es), FailedOf(es)))
  }

  function DecodeReleaseCommand(es: seq<Ie>): Decoded {
    var mme, enb, cause := MmeOf(es), EnbOf(es), CauseOf(es);
    if mme.None? then Err(Missing(ID_MME_UE_S1AP_ID))
    else if enb.None? then Err(Missing(ID_ENB_UE_S1AP_ID))
    else if cause.None? then Err(Missing(ID_CAUSE))
    else Ok(UeContextReleaseCommand(mme.value, enb.value, cause.value))
  }

  function DecodeReleaseComplete(es: seq<Ie>): Decoded {
    var mme, enb := MmeOf(es), EnbOf(es);
    if mme.None? then Err(Missing(ID_MME_UE_S1AP_ID))
    else if enb.None? then Err(Missing(ID_ENB_UE_S1AP_ID))
    else Ok(UeContextReleaseComplete(mme.value, enb.value))
  }

  function DecodeEntries(choice: nat, procedure: u32, es: seq<Ie>): Decoded {
    if procedure == PROC_INITIAL_UE_MESSAGE then DecodeInitialUe(es)
    else if procedure == PROC_UPLINK_NAS_TRANSPORT then DecodeUplinkNas(es)
    else if procedure == PROC_DOWNLINK_NAS_TRANSPORT then DecodeDownlinkNas(es)
    else if procedure == PROC_INITIAL_CONTEXT_SETUP && choice == INITIATING_MESSAGE then DecodeSetupRequest(es)
    else if procedure == PROC_INITIAL_CONTEXT_SETUP && choice == SUCCESSFUL_OUTCOME then DecodeSetupResponse(es)
    else if procedure == PROC_UE_CONTEXT_RELEASE && choice == INITIATING_MESSAGE then DecodeReleaseCommand(es)
    else if procedure == PROC_UE_CONTEXT_RELEASE && choice == SUCCESSFUL_OUTCOME then DecodeReleaseComplete(es)
    else Err(UnsupportedProcedure)
  }

  function Decode(buf: Bytes): Decoded {
    var p := DecodePdu(buf);
    if p.Err? then Err(BadPdu(p.error)) else DecodeEntries(p.value.choice, p.value.procedure, p.value.entries)
  }

  // ---- Round trip -------------------------------------------------------------------------

  lemma MmeIdParses(v: u32, crit: byte)
    ensures ParseMmeId(MmeIe(v, crit).value) == Some(v)
  {
    hide ParseInt, IntIe;
    IntIeParses(ID_MME_UE_S1AP_ID, crit, v, MME_UE_S1AP_ID_MAX);
  }

  lemma EnbIdParses(v: u32, crit: byte)
    requires v <= ENB_UE_S1AP_ID_MAX
    ensures ParseEnbId(EnbIe(v, crit).value) == Some(v)
  {
    hide ParseInt, IntIe;
    IntIeParses(ID_ENB_UE_S1AP_ID, crit, v, ENB_UE_S1AP_ID_MAX);
  }

  lemma AmbrParses(crit: byte, dl: u64, ul: u64)
    requires dl <= BIT_RATE_MAX && ul <= BIT_RATE_MAX
    ensures ParseAmbr(AmbrIe(crit, dl, ul).value) == Some((dl, ul))
  {
    hide Per.ReadInt, Per.WriteInt, BytesBits, Per.IntoBytes;
    var w1 := Per.WriteInt([], dl, 0, BIT_RATE_MAX);
    var w2 := Per.WriteInt(w1, ul, 0, BIT_RATE_MAX);
    FinishedBits(w2);
    Per.IntRoundTrip([], dl, 0, BIT_RATE_MAX, BytesBits(Per.IntoBytes(w2)));
    Per.IntRoundTrip(w1, ul, 0, BIT_RATE_MAX, BytesBits(Per.IntoBytes(w2)));
  }

  lemma CauseRoundTrip(c: S1apCause)
    ensures ParseCause(IntIe(ID_CAUSE, CRITICALITY_IGNORE, CauseToInt(c), CAUSE_MAX).value) == Some(c)
  {
    hide ParseInt, IntIe;
    IntIeParses(ID_CAUSE, CRITICALITY_IGNORE, CauseToInt(c), CAUSE_MAX);
  }

  lemma EntriesAreDistinct(m: S1apMessage)
    requires Supported(m) && InBounds(m)
    ensures DistinctIds(Entries(m))
  {
    hide IntIe, StringIe, OctetsIe, AmbrIe, ToSetupIes, SetupIes, FailedIes, NasOptIes;
  }

  lemma FoundUeIds(es: seq<Ie>, i: nat, j: nat, mme: u32, enb: u32, crit: byte)
    requires DistinctIds(es) && i < |es| && j < |es| && enb <= ENB_UE_S1AP_ID_MAX
    requires es[i] == MmeIe(mme, crit) && es[j] == EnbIe(enb, crit)
    ensures MmeOf(es) == Some(mme) && EnbOf(es) == Some(enb)
  {
    hide Values, Last, ParseMmeId, ParseEnbId, IntIe;
    MmeIdParses(mme, crit);
    Found(es, i, ParseMmeId);
    FoundEnbId(es, j, enb, crit);
  }

  lemma FoundEnbId(es: seq<Ie>, j: nat, enb: u32, crit: byte)
    requires DistinctIds(es) && j < |es| && enb <= ENB_UE_S1AP_ID_MAX && es[j] == EnbIe(enb, crit)
    ensures EnbOf(es) == Some(enb)
  {
    hide Values, Last, ParseEnbId, IntIe;
    EnbIdParses(enb, crit);
    Found(es, j, ParseEnbId);
  }

  lemma FoundNas(es: seq<Ie>, i: nat, nas: Bytes)
    requires DistinctIds(es) && i < |es| && |nas| < Per.LENGTH_LIMIT && es[i] == NasIe(nas)
    ensures NasOf(es) == Some(nas)
  {
    hide Values, Last, ParseString, StringIe;
    StringIeParses(ID_NAS_PDU, CRITICALITY_REJECT, nas);
    Found(es, i, ParseNas);
  }

  lemma FoundTaiCgi(es: seq<Ie>, i: nat, j: nat, tai: Octets5, cgi: Octets7)
    requires DistinctIds(es) && i < |es| && j < |es| && es[i] == TaiIe(tai) && es[j] == CgiIe(cgi)
    ensures TaiOf(es) == Some(tai) && CgiOf(es) == Some(cgi)
  {
    hide Values, Last, ParseOctets, OctetsIe;
    OctetsIeParses(ID_TAI, CRITICALITY_IGNORE, tai);
    OctetsIeParses(ID_EUTRAN_CGI, CRITICALITY_IGNORE, cgi);
    Found(es, i, ParseTai);
    Found(es, j, ParseCgi);
  }

  lemma FoundRrcCause(es: seq<Ie>, i: nat, cause: byte)
    requires DistinctIds(es) && i < |es| && cause <= RRC_ESTABLISHMENT_CAUSE_MAX
    requires es[i] == IntIe(ID_RRC_ESTABLISHMENT_CAUSE, CRITICALITY_IGNORE, cause, RRC_ESTABLISHMENT_CAUSE_MAX)
    ensures RrcCauseOf(es) == Some(cause)
  {
    hide Values, Last, ParseInt, IntIe;
    IntIeParses(ID_RRC_ESTABLISHMENT_CAUSE, CRITICALITY_IGNORE, cause, RRC_ESTABLISHMENT_CAUSE_MAX);
    Found(es, i, ParseRrcCause);
  }

  lemma InitialUeRoundTrip(m: S1apMessage)
    requires m.InitialUeMessage? && InBounds(m)
    ensures DecodeInitialUe(Entries(m)) == Ok(m)
  {
    hide IntIe, StringIe, OctetsIe, EnbOf, NasOf, TaiOf, CgiOf, RrcCauseOf;
    var es := Entries(m);
    EntriesAreDistinct(m);
    FoundEnbId(es, 0, m.enbId, CRITICALITY_REJECT);
    FoundNas(es, 1, m.nasPdu);
    FoundTaiCgi(es, 2, 3, m.tai, m.cgi);
    FoundRrcCause(es, 4, m.rrcCause);
  }

  lemma UplinkNasRoundTrip(m: S1apMessage)
    requires m.UplinkNasTransport? && InBounds(m)
    ensures DecodeUplinkNas(Entries(m)) == Ok(m)
  {
    hide IntIe, StringIe, OctetsIe, EnbOf, MmeOf, NasOf, TaiOf, CgiOf;
    var es := Entries(m);
    EntriesAreDistinct(m);
    FoundUeIds(es, 0, 1, m.mmeId, m.enbId, CRITICALITY_REJECT);
    FoundNas(es, 2, m.nasPdu);
    FoundTaiCgi(es, 3, 4, m.tai, m.cgi);
  }

  lemma DownlinkNasRoundTrip(m: S1apMessage)
    requires m.DownlinkNasTransport? && InBounds(m)
    ensures DecodeDownlinkNas(Entries(m)) == Ok(m)
  {
    hide IntIe, StringIe, EnbOf, MmeOf, NasOf;
    var es := Entries(m);
    EntriesAreDistinct(m);
    FoundUeIds(es, 0, 1, m.mmeId, m.enbId, CRITICALITY_REJECT);
    FoundNas(es, 2, m.nasPdu);
  }

  lemma FoundKey(es: seq<Ie>, i: nat, key: Octets32)
    requires DistinctIds(es) && i < |es| && es[i] == OctetsIe(ID_SECURITY_KEY, CRITICALITY_REJECT, key)
    ensures KeyOf(es) == Some(key)
  {
    hide Values, LastGood, Last, ParseOctets, OctetsIe;
    OctetsIeParses(ID_SECURITY_KEY, CRITICALITY_REJECT, key);
    Found(es, i, ParseKey);
  }

  lemma FoundAmbr(es: seq<Ie>, i: nat, crit: byte, dl: u64, ul: u64)
    requires dl <= BIT_RATE_MAX && ul <= BIT_RATE_MAX
    requires DistinctIds(es) && i < |es| && es[i] == AmbrIe(crit, dl, ul)
    ensures AmbrOf(es) == Some((dl, ul))
  {
    hide Values, LastGood, Last, ParseAmbr, AmbrIe;
    AmbrParses(crit, dl, ul);
    Found(es, i, ParseAmbr);
  }

  // An empty list is not sent and its absence decodes to the empty list.
  lemma FoundErabs(es: seq<Ie>, i: nat, items: seq<BearerToSetup>)
    requires |items| < Per.LENGTH_LIMIT && ToSetupInRange(items, ERAB_ID_MAX, QCI_MAX)
    requires DistinctIds(es)
    requires items != [] ==> i < |es| && ToSetupIes(items) == [es[i]]
    requires items == [] ==> forall k :: 0 <= k < |es| ==> es[k].id != ID_SETUP_LIST_REQ
    ensures ErabsOf(es) == items
  {
    hide Values, LastGood, Last, ParseToSetup, WriteToSetup, Per.IntoBytes;
    if items == [] {
      Absent(es, ID_SETUP_LIST_REQ, ParseErabs);
    } else {
      ToSetupRoundTrip(items, ERAB_ID_MAX, QCI_MAX);
      assert es[i] == ToSetupIes(items)[0];
      Found(es, i, ParseErabs);
    }
  }

  lemma FoundNasOpt(es: seq<Ie>, i: nat, nas: Option<Bytes>)
    requires nas.Some? ==> |nas.value| < Per.LENGTH_LIMIT
    requires DistinctIds(es)
    requires nas.Some? ==> i < |es| && NasOptIes(nas) == [es[i]]
    requires nas.None? ==> forall k :: 0 <= k < |es| ==> es[k].id != ID_NAS_PDU
    ensures NasOf(es) == nas
  {
    hide Values, LastGood, Last, NasIe;
    if nas.None? {
      Absent(es, ID_NAS_PDU, ParseNas);
    } else {
      assert es[i] == NasOptIes(nas)[0];
      FoundNas(es, i, nas.value);
    }
  }

  lemma OptionalIesPresence(m: S1apMessage)
    requires InBounds(m)
    ensures m.InitialContextSetupRequest? ==>
              && (ToSetupIes(m.erabs) == [] <==> m.erabs == [])
              && (NasOptIes(m.nasPduOpt) == [] <==> m.nasPduOpt.None?)
    ensures m.InitialContextSetupResponse? ==>
              && (SetupIes(m.setup) == [] <==> m.setup == [])
              && (FailedIes(m.failed) == [] <==> m.failed == [])
  {
  }

  lemma SetupRequestRoundTrip(m: S1apMessage)
    requires m.InitialContextSetupRequest? && InBounds(m)
    ensures DecodeSetupRequest(Entries(m)) == Ok(m)
  {
    hide IntIe, OctetsIe, AmbrIe, NasIe, EnbOf, MmeOf, NasOf, KeyOf, AmbrOf, ErabsOf, ToSetupIes, NasOptIes;
    var es := Entries(m);
    EntriesAreDistinct(m);
    OptionalTail([MmeIe(m.mmeId, CRITICALITY_REJECT), EnbIe(m.enbId, CRITICALITY_REJECT),
                  AmbrIe(CRITICALITY_REJECT, m.ambrDl, m.ambrUl),
                  OctetsIe(ID_SECURITY_KEY, CRITICALITY_REJECT, m.securityKey)],
                 ToSetupIes(m.erabs), NasOptIes(m.nasPduOpt));
    OptionalIesPresence(m);
    FoundUeIds(es, 0, 1, m.mmeId, m.enbId, CRITICALITY_REJECT);
    FoundAmbr(es, 2, CRITICALITY_REJECT, m.ambrDl, m.ambrUl);
    FoundKey(es, 3, m.securityKey);
    FoundErabs(es, 4, m.erabs);
    FoundNasOpt(es, |es| - 1, m.nasPduOpt);
  }

  lemma FoundSetup(es: seq<Ie>, i: nat, items: seq<BearerSetup>)
    requires |items| < Per.LENGTH_LIMIT && SetupInRange(items, ERAB_ID_MAX) && DistinctIds(es)
    requires items != [] ==> i < |es| && SetupIes(items) == [es[i]]
    requires items == [] ==> forall k :: 0 <= k < |es| ==> es[k].id != ID_SETUP_LIST_RES
    ensures SetupOf(es) == items
  {
    hide Values, LastGood, Last, ParseSetup, WriteSetup, Per.IntoBytes;
    if items == [] {
      Absent(es, ID_SETUP_LIST_RES, ParseErabsSetup);
    } else {
      SetupRoundTrip(items, ERAB_ID_MAX);
      assert es[i] == SetupIes(items)[0];
      Found(es, i, ParseErabsSetup);
    }
  }

  lemma FoundFailed(es: seq<Ie>, i: nat, ids: seq<byte>)
    requires |ids| < Per.LENGTH_LIMIT && IdsInRange(ids, ERAB_ID_MAX) && DistinctIds(es)
    requires ids != [] ==> i < |es| && FailedIes(ids) == [es[i]]
    requires ids == [] ==> forall k :: 0 <= k < |es| ==> es[k].id != ID_FAILED_LIST_RES
    ensures FailedOf(es) == ids
  {
    hide Values, LastGood, Last, ParseIds, WriteIds, Per.IntoBytes;
    if ids == [] {
      Absent(es, ID_FAILED_LIST_RES, ParseErabIds);
    } else {
      IdsRoundTrip(ids, ERAB_ID_MAX);
      assert es[i] == FailedIes(ids)[0];
      Found(es, i, ParseErabIds);
    }
  }

  lemma SetupResponseRoundTrip(m: S1apMessage)
    requires m.InitialContextSetupResponse? && InBounds(m)
    ensures DecodeSetupResponse(Entries(m)) == Ok(m)
  {
    hide IntIe, EnbOf, MmeOf, SetupOf, FailedOf, SetupIes, FailedIes;
    var es := Entries(m);
    EntriesAreDistinct(m);
    OptionalTail([MmeIe(m.mmeId, CRITICALITY_REJECT), EnbIe(m.enbId, CRITICALITY_REJECT)],
                 SetupIes(m.setup), FailedIes(m.failed));
    OptionalIesPresence(m);
    FoundUeIds(es, 0, 1, m.mmeId, m.enbId, CRITICALITY_REJECT);
    FoundSetup(es, 2, m.setup);
    FoundFailed(es, |es| - 1, m.failed);
  }

  lemma ReleaseRoundTrip(m: S1apMessage)
    requires (m.UeContextReleaseCommand? || m.UeContextReleaseComplete?) && InBounds(m)
    ensures m.UeContextReleaseCommand? ==> DecodeReleaseCommand(Entries(m)) == Ok(m)
    ensures m.UeContextReleaseComplete? ==> DecodeReleaseComplete(Entries(m)) == Ok(m)
  {
    hide IntIe, EnbOf, MmeOf, ParseCause, Values, Last;
    var es := Entries(m);
    EntriesAreDistinct(m);
    if m.UeContextReleaseCommand? {
      FoundUeIds(es, 0, 1, m.mmeId, m.enbId, CRITICALITY_REJECT);
      CauseRoundTrip(m.cause);
      Found(es, 2, ParseCause);
    } else {
      FoundUeIds(es, 0, 1, m.mmeId, m.enbId, CRITICALITY_IGNORE);
    }
  }

  // A request and the response sharing its procedure code are told apart by the choice.
  lemma EntriesRoundTrip(m: S1apMessage)
    requires Supported(m) && InBounds(m)
    ensures DecodeEntries(Choice(m), Procedure(m), Entries(m)) == Ok(m)
  {
    hide Entries, DecodeInitialUe, DecodeUplinkNas, DecodeDownlinkNas, DecodeSetupRequest, DecodeSetupResponse;
    hide DecodeReleaseCommand, DecodeReleaseComplete;
    match m
    case InitialUeMessage(_, _, _, _, _) => InitialUeRoundTrip(m);
    case UplinkNasTransport(_, _, _, _, _) => UplinkNasRoundTrip(m);
    case DownlinkNasTransport(_, _, _) => DownlinkNasRoundTrip(m);
    case InitialContextSetupRequest(_, _, _, _, _, _, _) => SetupRequestRoundTrip(m);
    case InitialContextSetupResponse(_, _, _, _) => SetupResponseRoundTrip(m);
    case UeContextReleaseCommand(_, _, _) => ReleaseRoundTrip(m);
    case UeContextReleaseComplete(_, _) => ReleaseRoundTrip(m);
  }

  // Every message the codec supports comes back exactly as it was, and only those encode.
  lemma RoundTrip(m: S1apMessage)
    requires Encodable(m)
    ensures Supported(m) <==> Encode(m).Ok?
    ensures Supported(m) ==> Decode(Encode(m).value) == Ok(m)
  {
    hide Entries, EncodePdu, DecodePdu, DecodeEntries, Fits;
    if Supported(m) {
      EncodableIsValidPdu(m);
      PduRoundTrip(ToPdu(m));
      EntriesRoundTrip(m);
    }
  }

  // The ids a message's decoder looks at: every other one is skipped, even one that some
  // other message knows.
  function KnownIds(choice: nat, procedure: u32): set<u32> {
    if procedure == PROC_INITIAL_UE_MESSAGE then
      {ID_ENB_UE_S1AP_ID, ID_NAS_PDU, ID_TAI, ID_EUTRAN_CGI, ID_RRC_ESTABLISHMENT_CAUSE}
    else if procedure == PROC_UPLINK_NAS_TRANSPORT then
      {ID_MME_UE_S1AP_ID, ID_ENB_UE_S1AP_ID, ID_NAS_PDU, ID_TAI, ID_EUTRAN_CGI}
    else if procedure == PROC_DOWNLINK_NAS_TRANSPORT then
      {ID_MME_UE_S1AP_ID, ID_ENB_UE_S1AP_ID, ID_NAS_PDU}
    else if procedure == PROC_INITIAL_CONTEXT_SETUP && choice == INITIATING_MESSAGE then
      {ID_MME_UE_S1AP_ID, ID_ENB_UE_S1AP_ID, ID_UE_AGGREGATE_MAX_BIT_RATE, ID_SECURITY_KEY,
       ID_SETUP_LIST_REQ, ID_NAS_PDU}
    else if procedure == PROC_INITIAL_CONTEXT_SETUP && choice == SUCCESSFUL_OUTCOME then
      {ID_MME_UE_S1AP_ID, ID_ENB_UE_S1AP_ID, ID_SETUP_LIST_RES, ID_FAILED_LIST_RES}
    else if procedure == PROC_UE_CONTEXT_RELEASE && choice == INITIATING_MESSAGE then
      {ID_MME_UE_S1AP_ID, ID_ENB_UE_S1AP_ID, ID_CAUSE}
    else if procedure == PROC_UE_CONTEXT_RELEASE && choice == SUCCESSFUL_OUTCOME then
      {ID_MME_UE_S1AP_ID, ID_ENB_UE_S1AP_ID}
    else {}
  }

  lemma AgreeingEntriesDecodeAlike(choice: nat, procedure: u32, a: seq<Ie>, b: seq<Ie>)
    requires Agree(KnownIds(choice, procedure), a, b)
    ensures DecodeEntries(choice, procedure, a) == DecodeEntries(choice, procedure, b)
  {
    hide Values, Last, LastGood;
    var known := KnownIds(choice, procedure);
    assert ID_MME_UE_S1AP_ID in known ==> MmeOf(a) == MmeOf(b);
    assert ID_ENB_UE_S1AP_ID in known ==> EnbOf(a) == EnbOf(b);
    assert ID_NAS_PDU in known ==> NasOf(a) == NasOf(b);
    assert ID_TAI in known ==> TaiOf(a) == TaiOf(b);
    assert ID_EUTRAN_CGI in known ==> CgiOf(a) == CgiOf(b);
    assert ID_RRC_ESTABLISHMENT_CAUSE in known ==> RrcCauseOf(a) == RrcCauseOf(b);
    assert ID_CAUSE in known ==> CauseOf(a) == CauseOf(b);
    assert ID_SECURITY_KEY in known ==> KeyOf(a) == KeyOf(b);
    assert ID_UE_AGGREGATE_MAX_BIT_RATE in known ==> AmbrOf(a) == AmbrOf(b);
    assert ID_SETUP_LIST_REQ in known ==> ErabsOf(a) == ErabsOf(b);
    assert ID_SETUP_LIST_RES in known ==> SetupOf(a) == SetupOf(b);
    assert ID_FAILED_LIST_RES in known ==> FailedOf(a) == FailedOf(b);
  }

  // The order of the information elements does not matter, and one with an id this message's
  // decoder does not know, put in anywhere, is invisible: on the bytes, for every PDU.
  lemma IeOrderIsIrrelevant(p: Pdu, es: seq<Ie>)
    requires ValidPdu(p)
    requires DistinctIds(p.entries) && multiset(p.entries) == multiset(es)
    ensures ValidPdu(p.(entries := es))
    ensures Decode(EncodePdu(p.(entries := es))) == Decode(EncodePdu(p))
  {
    hide EncodePdu, DecodePdu, DecodeEntries, Fits, Agree;
    FitsPermuted(p.entries, es);
    PduRoundTrip(p);
    PduRoundTrip(p.(entries := es));
    Permute(KnownIds(p.choice, p.procedure), p.entries, es);
    AgreeingEntriesDecodeAlike(p.choice, p.procedure, p.entries, es);
  }

  lemma UnknownIeIsIgnored(p: Pdu, a: seq<Ie>, e: Ie, b: seq<Ie>)
    requires p.entries == a + b && e.id !in KnownIds(p.choice, p.procedure)
    requires ValidPdu(p.(entries := a + [e] + b))
    ensures ValidPdu(p)
    ensures Decode(EncodePdu(p.(entries := a + [e] + b))) == Decode(EncodePdu(p))
  {
    hide EncodePdu, DecodePdu, DecodeEntries, Fits, Agree;
    FitsWithout(a, e, b);
    PduRoundTrip(p);
    PduRoundTrip(p.(entries := a + [e] + b));
    InsertUnknown(KnownIds(p.choice, p.procedure), a, e, b);
    AgreeingEntriesDecodeAlike(p.choice, p.procedure, a + [e] + b, a + b);
  }
}
