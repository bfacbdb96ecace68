# Verified model of midn

A Dafny model of the control plane, the wire codecs, the NAS channel, the user plane and the
Keccak sponge of midn, an LTE/5G core network, with proofs of what those parts promise each
other.

| file | models |
|---|---|
| `bits.dfy` | octets, bit strings, big-endian fields, exclusive or |
| `per.dfy`, `per_engine.dfy` | the ALIGNED PER writer and reader: as functions on bit strings, and as the two mutable objects tied to them |
| `ie_container.dfy`, `bearer_lists.dfy` | IE containers, the outer PDU, and the bearer lists both protocols share |
| `ngap_codec.dfy`, `ngap_engine.dfy`, `s1ap_codec.dfy`, `s1ap_engine.dfy` | the seven message codecs of each protocol and their top-level dispatch |
| `wire.dfy`, `ngap_wire.dfy`, `s1ap_wire.dfy`, `nas_wire.dfy` | what all of them put on the wire, octet by octet and in the numbers of the standards |
| `nas_security.dfy`, `nas_context.dfy`, `nas_channel.dfy` | COUNT reconstruction, protection and envelopes; the two security contexts; whole runs of the channel |
| `routing.dfy`, `upf.dfy` | routing table, sessions and the two kernel maps |
| `gtp.dfy`, `xdp.dfy`, `checksum.dfy`, `xdp_downlink.dfy` | GTP-U, the userspace forwarder and the two in-kernel programs |
| `world.dfy`, `control.dfy` | entity storage, TEID allocation, and the control plane composed with the user plane |
| `locality.dfy` | entities of one node: isolation and authentication, for any node whose steps are local |
| `mme.dfy`, `mme_runs.dfy`, `mme_isolation.dfy`, `mme_procedures.dfy`, `mme_limits.dfy`, `mme_replies.dfy` | the MME, its runs, isolation between its subscribers, the attach procedure, where its guarantees stop, and what it answers |
| `amf.dfy`, `amf_runs.dfy`, `amf_isolation.dfy`, `amf_procedures.dfy`, `amf_limits.dfy`, `amf_replies.dfy` | the same for the AMF and registration |
| `end_to_end.dfy` | from AMF messages to packets |
| `sponge.dfy` | the Keccak sponge over lanes against one over octets |

How it is built. Code that works by changing things in place is a class or a method with loops,
and each such method is proved equal to a function on values; the properties are lemmas about
those functions. AES, CMAC, the key derivations, Keccak-f and the plain NAS message codecs are
function parameters, so every result holds for all of them; the subscriber server's answer is an
input of each step. A run is any finite list of inputs.

Where the code and its own documentation differ, the model follows the code:

- `reconstruct_count` is documented to pick the smallest COUNT at or above the expected one. In
  the last block of 256 COUNTs it wraps to zero instead, so in-order acceptance ends at
  0xFFFFFF00 sends, not at 2^32. `NasChannel.SafeExactlyUpToLastBlock` has the exact bound.
- The uplink kernel program strips four octets of optional fields but never a chain of
  extension headers, which userspace skips. `Xdp.UplinkMatchesUserspace` says exactly when the
  two agree, and `Xdp.ChainIsTransmittedWhole` is a frame on which they do not. Its payload runs to the end of the frame, so Ethernet padding counts as payload.
- Handlers look at which components an entity has, not at the step of the procedure it is in. A
  second SecurityModeComplete replaces the tunnel and leaves the first session in place, which is
  why conservation is stated over sessions and why distinct UE addresses need a hypothesis
  (`AmfLimits.SecondSetupSharesAddress`). `AmfRuns.StepKeepsDistinctExactly` has the exact
  condition on a step.
- The MME never assigns a UE address, so all its sessions share one downlink route
  (`MmeLimits.TwoSubscribersShareAddress`).
- The MME's index can lose a live entity when its IMSI attaches again
  (`MmeLimits.ReattachLosesEntity`); `MmeRuns.AttachKeepsComplete` has the exact condition.
- Clearing a challenge leaves an expected response of all zeros, and the AMF's entities start
  with one, so zeros authenticate when no challenge is outstanding
  (`MmeLimits.ZerosPassAfterWrongAnswer`, `AmfLimits.ZerosPassUnidentified`).
  `AuthenticatesExactly` and `OnlyZerosPassWithoutChallenge` have the exact condition on a step of
  each node, and `AuthenticatedExactlyBy` over whole runs.
- An identity response is accepted at any time. Once an entity has a tunnel it leaves the session
  with the old IMSI (`AmfLimits.LateIdentityLeavesSession`); `AmfRuns.StepKeepsImsisExactly` has
  the exact condition.

Masks and shifts are written as arithmetic (`x % 0x100` for `x & 0xFF`), and widths as integer
subset types with the wrap-around spelled out.

`dafny verify dfyconfig.toml` checks the project.

## Model

| member | source | states |
|---|---|---|
| `Per.BitsForRangeIs` | crates/midn-proto/src/per.rs:248-254 | The field width of a range is the n with 2^(n-1) < range <= 2^n |
| `Per.BitsForRangeIsLeast` | crates/midn-proto/src/per.rs:248-254 | The field width is enough for the range, and no smaller width is |
| `Per.IntRoundTrip` | crates/midn-proto/src/per.rs:89-113 | For any value in any range, after any earlier fields: the reader returns the value and stops at the writer's bit length (packed bits up to 256 values, aligned octets above) |
| `Per.LengthRoundTrip` | crates/midn-proto/src/per.rs:119-130 | Both forms of the length determinant below 16384 read back, in step with the writer |
| `Per.OctetsRoundTrip` | crates/midn-proto/src/per.rs:77-81 | Raw octets on an octet boundary read back, in step |
| `Per.StringRoundTrip` | crates/midn-proto/src/per.rs:133-136 | Length-prefixed octet strings read back after any earlier fields |
| `Per.RawOctetsInStep` | crates/midn-proto/src/per.rs:232-239 | Raw octets keep reader and writer in step if and only if the writer stands on an octet boundary |
| `Per.UnalignedOctetsMisread` | crates/midn-proto/src/per.rs:77-81 | A concrete list item written without the alignment step reads back a wrong octet |
| `Per.FieldsRoundTrip` | crates/midn-proto/src/per.rs:139-152 | Any list of fields of any kinds: mirrored reads over the packed bytes return every value, and after every field the reader's position is the writer's length |
| `PerEngine.PerWriter.WriteConstrainedInt` | crates/midn-proto/src/per.rs:89-113 | The mutable writer appends exactly the bits of the specification |
| `PerEngine.PerWriter.WriteLengthDeterminant` | crates/midn-proto/src/per.rs:119-130 | The same for length determinants |
| `PerEngine.PerWriter.WriteOctets` | crates/midn-proto/src/per.rs:77-81 | The bit loop appends the octets without aligning |
| `PerEngine.PerWriter.WriteOctetString` | crates/midn-proto/src/per.rs:133-136 | Aligns through the length determinant, then appends the octets |
| `PerEngine.PerWriter.Align` | crates/midn-proto/src/per.rs:65-72 | The padding loop reaches the next octet boundary with zero bits |
| `PerEngine.PerWriter.IntoBytes` | crates/midn-proto/src/per.rs:139-152 | The packing loop yields the padded bit string, most significant bit first |
| `PerEngine.PerReader.ReadConstrainedInt` | crates/midn-proto/src/per.rs:199-213 | The advancing reader returns what the specification reads from its bit position, and moves there; it fails exactly when the specification does |
| `PerEngine.PerReader.ReadLengthDeterminant` | crates/midn-proto/src/per.rs:215-229 | The same for length determinants, refusing the fragmented form |
| `PerEngine.PerReader.ReadOctets` | crates/midn-proto/src/per.rs:232-239 | The same for raw octets, which always aligns first |
| `PerEngine.PerReader.ReadOctetString` | crates/midn-proto/src/per.rs:241-244 | The same for length-prefixed octets |
| `PerEngine.PerReader.ReadBits` | crates/midn-proto/src/per.rs:183-190 | The accumulating loop returns the number the next bits denote |
| `IeContainer.ContainerRoundTrip` | crates/midn-proto/src/ngap/codec.rs:119-138 | Any list of IEs with values under 16384 octets reads back entry for entry, and the reader ends where the writer did |
| `IeContainer.ContainerWritten` | crates/midn-proto/src/ngap/codec.rs:119-138 | The encoded container has exactly the octets its entries add up to, so its size does not depend on their order |
| `IeContainer.WrapperRoundTrip` | crates/midn-proto/src/ngap/codec.rs:142-163 | Choice, procedure code, criticality and open-type value read back from the outer PDU |
| `IeContainer.PduRoundTrip` | crates/midn-proto/src/ngap/codec.rs:119-163 | Any wrapped container decodes to itself |
| `Wire.ContainerWrites` | crates/midn-proto/src/ngap/codec.rs:119-138 | The octets of an encoded container: its count, then for each element two octets of id, the criticality in the top two bits of the third, a length determinant and the value |
| `Wire.PduWrites` | crates/midn-proto/src/ngap/codec.rs:142-163 | The octets of an encoded PDU: choice, procedure code and criticality at fixed bits of the first two, a length determinant, the container |
| `Wire.EncodablePdus` | crates/midn-proto/src/ngap/codec.rs:119-163 | Exactly which PDUs encode, by number |
| `IeContainer.Permute` | crates/midn-proto/src/ngap/codec.rs:309-350 | Reordering IEs with distinct ids changes no known id's sequence of values |
| `IeContainer.InsertUnknown` | crates/midn-proto/src/ngap/codec.rs:309-350 | An IE with an unknown id, anywhere, changes no known id's sequence of values |
| `IeContainer.WriteIeContainer` | crates/midn-proto/src/ngap/codec.rs:119-126 | The entry loop writes the specified container |
| `IeContainer.ReadIeContainer` | crates/midn-proto/src/ngap/codec.rs:128-138 | The entry loop reads the specified container or fails with it |
| `IeContainer.EncodePduWrapper` | crates/midn-proto/src/ngap/codec.rs:142-149 | The outer PDU is the specified bytes |
| `IeContainer.DecodePduWrapper` | crates/midn-proto/src/ngap/codec.rs:156-163 | Total on arbitrary bytes; yields what the specification reads |
| `BearerLists.ToSetupRoundTrip` | crates/midn-proto/src/ngap/codec.rs:188-221 | Lists to set up read back for every id and QoS range: the alignment step after the sub-octet prefix makes the aligned octets line up |
| `BearerLists.SetupRoundTrip` | crates/midn-proto/src/ngap/codec.rs:223-252 | Setup lists (id, address, TEID) read back |
| `BearerLists.IdsRoundTrip` | crates/midn-proto/src/s1ap/codec.rs:460-474 | Failed-id lists read back, two 4-bit ids to the octet included |
| `BearerLists.WriteBearersToSetup` | crates/midn-proto/src/s1ap/codec.rs:398-411 | The loop writes the specified list |
| `BearerLists.ReadBearersToSetup` | crates/midn-proto/src/s1ap/codec.rs:413-428 | The loop reads the specified list or fails with it |
| `BearerLists.WriteBearersSetup` | crates/midn-proto/src/s1ap/codec.rs:430-442 | The loop writes the specified list |
| `BearerLists.ReadBearersSetup` | crates/midn-proto/src/s1ap/codec.rs:444-458 | The loop reads the specified list or fails with it |
| `BearerLists.WriteBearerIds` | crates/midn-proto/src/s1ap/codec.rs:460-465 | The loop writes the specified ids |
| `BearerLists.ReadBearerIds` | crates/midn-proto/src/s1ap/codec.rs:467-474 | The loop reads the specified ids or fails with it |
| `NgapCodec.EntriesOctets` | crates/midn-proto/src/ngap/codec.rs:792-808 | How long the encoded container of each message gets, from the sizes of its fields |
| `NgapCodec.RoundTrip` | crates/midn-proto/src/ngap/codec.rs:792-841 | Every supported message with fields in bounds and field sizes that add up to under 16384 octets decodes from its encoding to exactly itself (absent and empty lists and NAS PDUs told apart, shared procedure codes resolved); exactly the supported messages encode |
| `NgapCodec.IeOrderIsIrrelevant` | crates/midn-proto/src/ngap/codec.rs:811-841 | Every permutation of the IEs of an encodable PDU with distinct ids encodes too, and decodes to the same |
| `NgapCodec.UnknownIeIsIgnored` | crates/midn-proto/src/ngap/codec.rs:811-841 | Inserting anywhere an IE with an id the decoder of that message does not know, ids of other messages included, does not change what a PDU decodes to, error cases included |
| `NgapCodec.AgreeingEntriesDecodeAlike` | crates/midn-proto/src/ngap/codec.rs:811-841 | Decoding depends only on the values carried, in order, by each id that message's own decoder knows: for arbitrary entry lists, choices and procedure codes |
| `NgapWire.EntriesAre` | crates/midn-proto/src/ngap/codec.rs:792-808 | For every message and all its fields: choice, procedure code, criticality, and the list of element ids, criticalities and value octets, as the numbers of the standard |
| `NgapWire.WireImage` | crates/midn-proto/src/ngap/codec.rs:792-841 | Every supported message within numeric field limits encodes to exactly those octets, and they decode to it |
| `NgapWire.DecodesOrReports` | crates/midn-proto/src/ngap/codec.rs:811-841 | For arbitrary entries: an unknown procedure is refused, otherwise the first mandatory element, in a fixed order of numbers, that cannot be read is reported, and a message comes out exactly when there is none |
| `NgapWire.UeIdsDecode` | crates/midn-proto/src/ngap/codec.rs:811-841 | The two elements that carry the UE ids, by number, decode to the two ids in that order, wherever they stand |
| `NgapCodec.CauseRoundTrip` | crates/midn-proto/src/ngap/codec.rs:90-113 | Cause codes read back |
| `NgapEngine.EncodeNgapPdu` | crates/midn-proto/src/ngap/codec.rs:792-808 | Dispatch and the entry-pushing encoders produce the specified bytes, and the error for unsupported messages |
| `NgapEngine.DecodeNgapPdu` | crates/midn-proto/src/ngap/codec.rs:811-841 | Total on arbitrary bytes; returns the specified message or the specified error |
| `S1apCodec.EntriesOctets` | crates/midn-proto/src/s1ap/codec.rs:766-781 | How long the encoded container of each message gets, from the sizes of its fields |
| `S1apCodec.RoundTrip` | crates/midn-proto/src/s1ap/codec.rs:766-812 | Every supported message with fields in bounds and field sizes that add up to under 16384 octets decodes from its encoding to exactly itself (absent and empty lists and NAS PDUs told apart, shared procedure codes resolved); exactly the supported messages encode |
| `S1apCodec.IeOrderIsIrrelevant` | crates/midn-proto/src/s1ap/codec.rs:784-812 | Every permutation of the IEs of an encodable PDU with distinct ids encodes too, and decodes to the same |
| `S1apCodec.UnknownIeIsIgnored` | crates/midn-proto/src/s1ap/codec.rs:784-812 | Inserting anywhere an IE with an id the decoder of that message does not know, ids of other messages included, does not change what a PDU decodes to, error cases included |
| `S1apCodec.AgreeingEntriesDecodeAlike` | crates/midn-proto/src/s1ap/codec.rs:784-812 | Decoding depends only on the values carried, in order, by each id that message's own decoder knows: for arbitrary entry lists, choices and procedure codes |
| `S1apWire.EntriesAre` | crates/midn-proto/src/s1ap/codec.rs:766-781 | For every message and all its fields: choice, procedure code, criticality, and the list of element ids, criticalities and value octets, as the numbers of the standard |
| `S1apWire.WireImage` | crates/midn-proto/src/s1ap/codec.rs:766-812 | Every supported message within numeric field limits encodes to exactly those octets, and they decode to it |
| `S1apWire.DecodesOrReports` | crates/midn-proto/src/s1ap/codec.rs:784-812 | For arbitrary entries: an unknown procedure is refused, otherwise the first mandatory element, in a fixed order of numbers, that cannot be read is reported, and a message comes out exactly when there is none |
| `S1apWire.UeIdsDecode` | crates/midn-proto/src/s1ap/codec.rs:784-812 | The two elements that carry the UE ids, by number, decode to the two ids in that order, wherever they stand |
| `S1apCodec.CauseRoundTrip` | crates/midn-proto/src/s1ap/codec.rs:90-113 | Cause codes read back |
| `S1apEngine.EncodeS1apPdu` | crates/midn-proto/src/s1ap/codec.rs:766-781 | Dispatch and the entry-pushing encoders produce the specified bytes, and the error for unsupported messages |
| `S1apEngine.DecodeS1apPdu` | crates/midn-proto/src/s1ap/codec.rs:784-812 | Total on arbitrary bytes; returns the specified message or the specified error |
| `NgapEngine.DecodeInitialContextSetupRequest` | crates/midn-proto/src/ngap/codec.rs:532-587 | The loop over entries keeps the last value of each field and reports the specified missing element |
| `NgapEngine.DecodeInitialContextSetupResponse` | crates/midn-proto/src/ngap/codec.rs:630-667 | The same for the response |
| `NgapEngine.DecodeUplinkNasTransport` | crates/midn-proto/src/ngap/codec.rs:384-423 | The same for uplink NAS transport |
| `NgapEngine.DecodeInitialUeMessage` | crates/midn-proto/src/ngap/codec.rs:309-350 | The same for the initial UE message |
| `S1apEngine.DecodeInitialContextSetupRequest` | crates/midn-proto/src/s1ap/codec.rs:520-573 | The loop over entries keeps the last value of each field and reports the specified missing element |
| `S1apEngine.DecodeInitialContextSetupResponse` | crates/midn-proto/src/s1ap/codec.rs:608-645 | The same for the response |
| `S1apEngine.DecodeUplinkNasTransport` | crates/midn-proto/src/s1ap/codec.rs:287-335 | The same for uplink NAS transport |
| `S1apEngine.DecodeInitialUeMessage` | crates/midn-proto/src/s1ap/codec.rs:198-248 | The same for the initial UE message |
| `NasSecurity.ReconstructGap` | crates/midn-proto/src/nas/security.rs:206-214 | For every 32-bit expected COUNT and every gap under 256, wrapping included, the low octet rebuilds the sent COUNT |
| `NasSecurity.ReconstructNeverGoesBack` | crates/midn-proto/src/nas/security.rs:206-214 | The rebuilt COUNT has the received low octet, and is at or above the expected one except exactly when the expected one lies in the last block of 256 and the octet is below its low octet |
| `NasSecurity.Eea2Inverse` | crates/midn-proto/src/nas/security.rs:95-102 | Applying the keystream twice gives the data back |
| `NasSecurity.CounterBlockInjective` | crates/midn-proto/src/nas/security.rs:83-88 | Counter blocks coincide exactly for equal COUNT and direction |
| `NasSecurity.MacInputInjective` | crates/midn-proto/src/nas/security.rs:109-131 | What is MACed determines COUNT, direction and message |
| `NasWire.CounterBlockLayout` | crates/midn-proto/src/nas/security.rs:83-88 | The counter block octet by octet: COUNT in network order, eight times the bearer with 4 added for downlink, eleven zeros |
| `NasWire.MacInputLayout` | crates/midn-proto/src/nas/security.rs:109-131 | What is MACed octet by octet: the same five octets, then the message |
| `NasWire.XorByteBits` | crates/midn-proto/src/nas/security.rs:95-102 | The keystream is applied bit by bit |
| `NasWire.EnvelopeLayout` | crates/midn-proto/src/nas/codec.rs:495-552 | Every octet of an envelope of either family: header, CMAC under the integrity key, low COUNT octet, text under the keystream of the ciphering key; the COUNT moves by one |
| `NasWire.AcceptedExactly` | crates/midn-proto/src/nas/codec.rs:516-575 | With integrity on, a buffer is accepted if and only if it is a protected one of the family and its MAC octets are the CMAC at the COUNT its low octet stands for; otherwise nothing moves |
| `NasSecurity.CipherInverse` | crates/midn-proto/src/nas/security.rs:331-362 | Deciphering undoes ciphering in every algorithm choice |
| `NasSecurity.OpenSeal` | crates/midn-proto/src/nas/codec.rs:495-529 | The envelope of either family opens to its MAC, low COUNT octet and payload exactly when its security header type is not plain |
| `NasSecurity.DeliverAcrossGap` | crates/midn-proto/src/nas/codec.rs:495-575 | Across any gap under 256 the envelope is accepted, decodes to the exact inner message and leaves the receiver one past the sender |
| `NasSecurity.OnlyAcceptedEnvelopesMoveCount` | crates/midn-proto/src/nas/security.rs:264-362 | A rejected envelope changes nothing; an accepted one moves only the COUNT of its direction |
| `NasContexts.NasSecurityContext.ProtectDownlink` | crates/midn-proto/src/nas/security.rs:264-268 | Consumes one downlink COUNT and produces the protected message of the specification |
| `NasContexts.NasSecurityContext.UnprotectUplink` | crates/midn-proto/src/nas/security.rs:280-291 | Verifies before deciphering and advances past the accepted COUNT only on success |
| `NasContexts.NasSecurityContext.ProtectUplink` | crates/midn-proto/src/nas/security.rs:303-307 | The UE-role mirror of protecting |
| `NasContexts.NasSecurityContext.UnprotectDownlink` | crates/midn-proto/src/nas/security.rs:318-329 | The UE-role mirror of unprotecting |
| `NasContexts.Nas5gsSecurityContext.ProtectDownlink` | crates/midn-proto/src/nas5gs/security.rs:100-104 | The 5GS context, with raw algorithm octets and the fixed bearer, does the same |
| `NasContexts.Nas5gsSecurityContext.UnprotectUplink` | crates/midn-proto/src/nas5gs/security.rs:111-121 | The same for unprotecting |
| `NasContexts.Nas5gsSecurityContext.ProtectUplink` | crates/midn-proto/src/nas5gs/security.rs:131-135 | The UE-role mirror |
| `NasContexts.Nas5gsSecurityContext.UnprotectDownlink` | crates/midn-proto/src/nas5gs/security.rs:146-156 | The UE-role mirror |
| `NasContexts.EncodeProtectedDownlink` | crates/midn-proto/src/nas/codec.rs:495-508 | Builds the EPS envelope and advances the context |
| `NasContexts.DecodeProtectedUplink` | crates/midn-proto/src/nas/codec.rs:516-529 | Refuses short and plain buffers without touching the context, otherwise unprotects |
| `NasContexts.EncodeProtectedUplink` | crates/midn-proto/src/nas/codec.rs:539-552 | The UE-role mirror |
| `NasContexts.DecodeProtectedDownlink` | crates/midn-proto/src/nas/codec.rs:562-575 | The UE-role mirror |
| `NasContexts.EncodeProtectedDownlink5gs` | crates/midn-proto/src/nas5gs/codec.rs:621-630 | Builds the 5GS envelope and advances the context |
| `NasContexts.DecodeProtectedUplink5gs` | crates/midn-proto/src/nas5gs/codec.rs:639-649 | Also refuses another protocol discriminator |
| `NasContexts.EncodeProtectedUplink5gs` | crates/midn-proto/src/nas5gs/codec.rs:656-665 | The UE-role mirror |
| `NasContexts.DecodeProtectedDownlink5gs` | crates/midn-proto/src/nas5gs/codec.rs:679-689 | The UE-role mirror |
| `NasChannel.AcceptedWasSentLater` | crates/midn-proto/src/nas/security.rs:280-291 | Below the last block of COUNTs, an accepted envelope is one send of the same direction not accepted before |
| `NasChannel.AcceptedInOrder` | crates/midn-proto/src/nas/security.rs:264-362 | Over every run of sends and arbitrary deliveries in both directions, under a symbolic MAC: accepted plaintexts are an in-order subsequence of those sent, each at most once |
| `NasChannel.ReplayPastLastBlock` | crates/midn-proto/src/nas/security.rs:206-214 | A run in which the first envelope is accepted a second time, one send past the bound |
| `NasChannel.SafeExactlyUpToLastBlock` | crates/midn-proto/src/nas/security.rs:206-214 | In-order acceptance holds in all runs of at most n sends per direction if and only if n <= 0xFFFFFF00 |
| `NasChannel.InOrderRunDelivers` | crates/midn-proto/src/nas/codec.rs:495-575 | Over any in-order run with fewer than 256 losses in a row, COUNT wrapping included, everything that arrives is accepted and decodes exactly, and the receiver ends one past the last arrival |
| `Gtp.HeaderRoundTrip` | crates/midn-proto/src/gtp/header.rs:68-81 | The mandatory header reads back, followed by the rest |
| `Gtp.ParseHeaderInverse` | crates/midn-proto/src/gtp/header.rs:107-115 | Serialising what was parsed gives the buffer back |
| `Bits.NetworkOrder` | crates/midn-proto/src/gtp/header.rs:107-115 | Multi-octet fields are read most significant octet first |
| `Gtp.HeaderLayout` | crates/midn-proto/src/gtp/header.rs:68-81 | Flags, type, length and TEID at their offsets |
| `Gtp.DatagramLayout` | crates/midn-userplane/src/upf/forwarder.rs:259-271 | Every octet of a downlink datagram, and its address and port; none exactly without a route |
| `Gtp.ForwarderOutcomes` | crates/midn-userplane/src/upf/forwarder.rs:232-253 | What an uplink datagram becomes, by message type number and known TEID, each case as an if-and-only-if |
| `Gtp.SkipExtHeadersLoop` | crates/midn-proto/src/gtp/parser.rs:75-95 | The loop that advances through the buffer computes the specified skip |
| `Gtp.SkipsExactlyTheChain` | crates/midn-proto/src/gtp/parser.rs:75-95 | For any chain of extension headers a sender puts in front, exactly the payload remains |
| `Gtp.SkipShortens` | crates/midn-proto/src/gtp/parser.rs:75-95 | Whatever is skipped is a positive number of 4-octet units, and a suffix remains |
| `Gtp.ParseRoundTrip` | crates/midn-proto/src/gtp/parser.rs:44-67 | Any header, optional fields, chain of extension headers and payload parse to the header and the payload |
| `Gtp.EncapsulateThenProcess` | crates/midn-userplane/src/upf/forwarder.rs:232-271 | What the forwarder encapsulates, an endpoint that knows the TEID forwards whole |
| `Gtp.EncapsulateDownlinkPacket` | crates/midn-userplane/src/upf/forwarder.rs:259-271 | Appends header and packet as specified; no route, no datagram |
| `Xdp.Process` | crates/midn-userplane-ebpf/src/gtp_xdp.rs:147-259 | Transmits exactly the IPv4/UDP/GTP-U frames of any IHL that carry a G-PDU for a known TEID long enough to strip, with the tunnel replaced by the new Ethernet header; every other frame is untouched |
| `Xdp.ReadsStayInside` | crates/midn-userplane-ebpf/src/gtp_xdp.rs:110-138 | A bounds-checked read succeeds exactly inside the frame |
| `Xdp.UplinkOctets` | crates/midn-userplane-ebpf/src/gtp_xdp.rs:147-259 | Exactly when a frame is transmitted, and as what, by offset and number |
| `Xdp.UplinkMatchesUserspace` | crates/midn-userplane-ebpf/src/gtp_xdp.rs:202-258 | For every transmitted frame the bytes after the Ethernet header are what userspace forwards for the same UDP payload, if and only if there is no extension-header chain |
| `Xdp.ChainIsTransmittedWhole` | crates/midn-userplane-ebpf/src/gtp_xdp.rs:202-258 | A concrete transmitted frame whose G-PDU has an extension header: the kernel sends the header along, userspace forwards the payload alone |
| `Xdp.WriteEthernet` | crates/midn-userplane-ebpf/src/gtp_xdp.rs:236-253 | Fourteen octets are overwritten in place, the rest stays |
| `Checksum.TwoFoldsSuffice` | crates/midn-userplane-ebpf/src/gtp_dl_xdp.rs:173-191 | For any ten words two folds give the 16-bit one's-complement residue |
| `Checksum.OneFoldIsNotEnough` | crates/midn-userplane-ebpf/src/gtp_dl_xdp.rs:185-189 | One fold is not enough |
| `Checksum.OnesSumIsResidue` | crates/midn-userplane-ebpf/src/gtp_dl_xdp.rs:173-191 | End-around-carry addition of any words is the residue of their sum |
| `Checksum.ChecksumVerifies` | crates/midn-userplane-ebpf/src/gtp_dl_xdp.rs:173-191 | Any header with the computed checksum sums to 0xFFFF in one's complement |
| `XdpDownlink.ProcessDl` | crates/midn-userplane-ebpf/src/gtp_dl_xdp.rs:201-335 | Redirects exactly the frames with a routed destination, a real TEID, configuration, headroom and a length that fits, as the specified frame; otherwise the inner frame is still there whole |
| `XdpDownlink.BuildHeaders` | crates/midn-userplane-ebpf/src/gtp_dl_xdp.rs:279-323 | The buffer filled in place is the 50 specified octets |
| `XdpDownlink.FillIp` | crates/midn-userplane-ebpf/src/gtp_dl_xdp.rs:291-308 | The in-place IPv4 header with its checksum patched in |
| `XdpDownlink.RedirectedWhen` | crates/midn-userplane-ebpf/src/gtp_dl_xdp.rs:201-262 | Exactly when a frame is redirected, by offset and number |
| `XdpDownlink.RedirectedOctets` | crates/midn-userplane-ebpf/src/gtp_dl_xdp.rs:262-335 | Every octet in front of the inner packet of a redirected frame except the checksum: both MACs, lengths, identification, flags, TTL, protocol, source and destination addresses, ports, GTP-U flags, type, length and TEID |
| `XdpDownlink.DownlinkMatchesUserspace` | crates/midn-userplane-ebpf/src/gtp_dl_xdp.rs:310-335 | After Ethernet, IPv4 and UDP a redirected frame is the userspace datagram for that UE, to the same address and port |
| `XdpDownlink.LengthsAndChecksum` | crates/midn-userplane-ebpf/src/gtp_dl_xdp.rs:262-322 | The three length fields count what follows, and the outer header checksum verifies |
| `XdpDownlink.UplinkUndoesDownlink` | crates/midn-userplane-ebpf/src/gtp_dl_xdp.rs:201-335 | The uplink program, given the TEID and port 2152, strips a redirected frame back to the original inner packet |
| `Sponge.LaneXor` | crates/midn-auth/src/tuak/sponge.rs:103-110 | Exclusive or of little-endian lanes is exclusive or of their octets |
| `Sponge.XorBlockIsBytewise` | crates/midn-auth/src/tuak/sponge.rs:103-110 | Lane-wise exclusive or of a block is octet-wise exclusive or of the zero-extended block |
| `Sponge.AbsorbIsByteSponge` | crates/midn-auth/src/tuak/sponge.rs:63-73 | Absorbing over lanes refines the sponge on a string of 200 octets |
| `Sponge.PadInjective` | crates/midn-auth/src/tuak/sponge.rs:122-135 | Padding is injective |
| `Sponge.PadIsTenStarOne` | crates/midn-auth/src/tuak/sponge.rs:122-135 | Bit by bit, padding is one, zeros, one, the shortest that fills whole blocks |
| `Sponge.PadFillsBlocks` | crates/midn-auth/src/tuak/sponge.rs:122-135 | Padding always ends on a rate boundary |
| `Sponge.SqueezeSplit` | crates/midn-auth/src/tuak/sponge.rs:79-94 | Squeezing a then b octets gives the output and the state of squeezing a + b |
| `Sponge.OneShotIsByteSponge` | crates/midn-auth/src/tuak/sponge.rs:97-101 | Octet i of the output is octet i mod rate of the reference state after i / rate further permutations |
| `Sponge.KeccakSponge.Absorb` | crates/midn-auth/src/tuak/sponge.rs:63-73 | The block loop over the mutable state absorbs the padded input |
| `Sponge.KeccakSponge.SqueezeBytes` | crates/midn-auth/src/tuak/sponge.rs:79-94 | The lazy loop yields the specified stream and state |
| `Sponge.KeccakSponge.XorBlockIntoState` | crates/midn-auth/src/tuak/sponge.rs:103-110 | The chunk loop updates the lanes in place |
| `Sponge.KeccakSponge.StateAsBytes` | crates/midn-auth/src/tuak/sponge.rs:112-118 | The lane loop lists the state's octets |
| `Sponge.KeccakSponge.PadTenStarOne` | crates/midn-auth/src/tuak/sponge.rs:122-135 | The pushes build the specified padding |
| `Sponge.AbsorbAndSqueeze` | crates/midn-auth/src/tuak/sponge.rs:97-101 | The one-shot form computes the specified output |
| `Ecs.EveryRunKeepsInv` | crates/midn-ecs/src/world.rs:59-92 | From the empty world, over every sequence of spawns, despawns and setters: column length and id counter agree, the free list is duplicate-free and exactly the dead ids, dead slots are blank, the counter counts the live |
| `Ecs.SpawnIsFresh` | crates/midn-ecs/src/world.rs:59-77 | A spawned id was dead and names a blank entity, exactly as long as an id can be recycled or fewer than 2^32 slots exist |
| `Ecs.SpawnFrame` | crates/midn-ecs/src/world.rs:59-77 | Spawning, by recycling or by growing, changes no other entity |
| `Ecs.BlankSlot` | crates/midn-ecs/src/world.rs:59-77 | What a new id starts with, field by field |
| `Ecs.World.SpawnEntity` | crates/midn-ecs/src/world.rs:59-77 | The parallel columns grow or wake one row as specified |
| `Ecs.World.DespawnEntity` | crates/midn-ecs/src/world.rs:79-92 | Every column of a live id is reset, a dead id is ignored |
| `Ecs.World.SetTunnel` | crates/midn-ecs/src/world.rs:179-181 | Writes one component of a live entity and nothing else |
| `Ecs.World.InsertSecurity` | crates/midn-ecs/src/world.rs:127-129 | The same for AKA material |
| `Ecs.ImsiRegistry.Register` | crates/midn-ecs/src/registry.rs:19-21 | The index maps the IMSI to the entity; the previous entry is returned |
| `Ecs.ImsiRegistry.Deregister` | crates/midn-ecs/src/registry.rs:23-25 | The entry is removed and returned |
| `Routing.RoutingTable.InstallRoute` | crates/midn-userplane/src/upf/routing.rs:64-71 | Both directions are written |
| `Routing.RoutingTable.RemoveRoute` | crates/midn-userplane/src/upf/routing.rs:74-81 | The uplink entry and the downlink entry of its UE address go |
| `Upf.SessionManager.CreateSessionWithTeid` | crates/midn-userplane/src/upf/session_manager.rs:186-226 | Session, both routes and both kernel entries are written |
| `Upf.SessionManager.UpdateBearerInfo` | crates/midn-userplane/src/upf/session_manager.rs:255-320 | Routes, session and kernel entries move to the new far end, and the result says whether there was a session |
| `Upf.SessionManager.RemoveSessionByTeid` | crates/midn-userplane/src/upf/session_manager.rs:333-378 | Session, routes and kernel entries go, the TEID is recycled, the record is returned |
| `Upf.EventOutcomes` | crates/midn-userplane/src/upf/session_manager.rs:186-378 | What creating, updating and removing do to sessions, both routing maps and the recycled TEIDs, field by field, and exactly when each finds what it expects |
| `Upf.EventKeepsTables` | crates/midn-userplane/src/upf/session_manager.rs:186-378 | Session records and uplink routes stay two views of the same thing |
| `Upf.MirrorAlways` | crates/midn-userplane/src/upf/session_manager.rs:186-378 | After any sequence of events, colliding addresses, re-created and unknown TEIDs included, the kernel maps are exactly the projections of the routing maps |
| `Upf.EventKeepsDownlink` | crates/midn-userplane/src/upf/routing.rs:64-81 | While UE addresses are distinct, each session's downlink route stays its uplink route |
| `Upf.SharedUeIpLosesDownlink` | crates/midn-userplane/src/upf/routing.rs:74-81 | Removing one of two sessions with one UE address leaves the other without a downlink route |
| `Control.TeidAllocator.AllocTeid` | crates/midn-core/src/mme/state_machine.rs:59-66 | A released TEID is handed out before the counter moves |
| `Control.CommitKeepsInv` | crates/midn-core/src/mme/state_machine.rs:145-267 | Whatever a well-behaved entity does, conservation, backing of tunnels and table agreement are kept and its event lands |
| `Control.ReleaseKeepsInv` | crates/midn-core/src/mme/state_machine.rs:269-291 | Releasing any id, live or not, keeps the composed invariant; a removal always returns a session |
| `Control.TunnelsDistinct` | crates/midn-core/src/mme/state_machine.rs:55-72 | Live tunnels have distinct uplink TEIDs, none of them free |
| `Control.ConservedAsSets` | crates/midn-core/src/mme/state_machine.rs:55-72 | Session keys and free TEIDs are disjoint and together are exactly [base, next) |
| `Control.ReleaseEntity` | crates/midn-core/src/mme/state_machine.rs:269-291 | The release handler of both nodes changes world, index and allocator as specified |
| `Control.BearerUpEntity` | crates/midn-core/src/mme/state_machine.rs:241-267 | The setup-response handler of both nodes retargets the tunnel by the first bearer only |
| `MmeNode.Mme.ProcessS1ap` | crates/midn-core/src/mme/state_machine.rs:145-172 | One S1AP message takes the node to the specified state and emits the specified messages and events |
| `MmeNode.Mme.StartAttach` | crates/midn-core/src/mme/attach.rs:87-153 | Attach spawns, indexes and challenges, or does nothing at all |
| `MmeNode.Mme.HandleUplinkNas` | crates/midn-core/src/mme/state_machine.rs:174-239 | Unwraps protected messages, drops what fails, dispatches the rest |
| `MmeNode.Mme.HandleAuthResponse` | crates/midn-core/src/mme/attach.rs:158-211 | Clears the challenge either way; authenticates only on a match |
| `MmeNode.Mme.HandleSecurityModeComplete` | crates/midn-core/src/mme/attach.rs:223-307 | Derives the context, protects the accept and, in Phase 3, allocates and announces the tunnel |
| `MmeNode.Mme.HandleDetachRequest` | crates/midn-core/src/mme/detach.rs:30-83 | Accept unless switched off, protected if a context exists, then the release command |
| `MmeReplies.PowerOn` | crates/midn-core/src/mme/state_machine.rs:112-125 | At power-on nobody is there, nothing is indexed, and the first TEID is 0x10000 |
| `MmeReplies.AutnLayout` | crates/midn-core/src/mme/attach.rs:87-153 | AUTN is SQN xor AK octet by octet, 0x80 0x00, MAC-A |
| `MmeReplies.AttachReplies` | crates/midn-core/src/mme/attach.rs:87-153 | What an attach draws and leaves behind, field by field; anything else at all draws nothing and changes nothing |
| `MmeReplies.AuthenticationReplies` | crates/midn-core/src/mme/attach.rs:158-211 | The right answer draws the security mode command, a wrong one nothing; both clear the challenge and nothing else |
| `MmeReplies.SecurityModeReplies` | crates/midn-core/src/mme/attach.rs:223-307 | The context installed ciphers and MACs under keys derived from this subscriber's vector; the accept goes out under it, octet by octet; the bearer request and the session event, field by field |
| `MmeReplies.DetachReplies` | crates/midn-core/src/mme/detach.rs:30-83 | With switch-off only the release command; otherwise the accept first, opened by a UE in step, or in the clear without a context |
| `MmeReplies.OthersDrawNothing` | crates/midn-core/src/mme/state_machine.rs:174-239 | No other NAS message, and none to a missing entity, draws an answer or changes the entity |
| `MmeReplies.BearerAndReleaseReplies` | crates/midn-core/src/mme/state_machine.rs:145-291 | Setup response and release, field by field, on tunnel, index, free list and event; messages for eNodeBs are ignored |
| `MmeReplies.KeysComeFromSetup` | crates/midn-core/src/mme/state_machine.rs:174-239 | A context's keys are those of its entity's own completed security mode, and its algorithms stay on |
| `MmeReplies.ForgedChangesNothing` | crates/midn-core/src/mme/state_machine.rs:174-239 | After any run from power-on, a protected uplink message whose MAC octets are not the CMAC under the entity's key, or whose entity has no context, leaves the whole system unchanged and draws nothing |
| `MmeRuns.RunKeepsMme` | crates/midn-core/src/mme/state_machine.rs:145-291 | In every run: TEID conservation, tunnels agreeing with sessions in entity, IMSI, far end and TEID, an index that points to live entities with the IMSI, and every event landing |
| `MmeRuns.EveryMmeRun` | crates/midn-core/src/mme/state_machine.rs:145-291 | The same from power-on, for fewer than 2^32 - base counter allocations and at most 2^32 slots ever in use, any number of attaches |
| `MmeRuns.RegistryInjective` | crates/midn-ecs/src/registry.rs:19-30 | No two IMSIs index one entity |
| `MmeRuns.AttachKeepsComplete` | crates/midn-core/src/mme/attach.rs:123-131 | An attach keeps every live entity indexed if and only if nobody live holds the IMSI |
| `MmeRuns.RunKeepsComplete` | crates/midn-core/src/mme/state_machine.rs:145-291 | With no re-attach of a held IMSI, index and live entities stay in one-to-one correspondence |
| `MmeRuns.RunKeepsMirror` | crates/midn-userplane/src/upf/session_manager.rs:186-378 | In every MME run the kernel maps stay exact |
| `MmeRuns.RunSharesOneAddress` | crates/midn-core/src/mme/attach.rs:100-131 | In every MME run UE addresses are distinct if and only if there is at most one session, since none is ever assigned |
| `MmeIsolation.StepIsLocal` | crates/midn-core/src/mme/state_machine.rs:145-291 | A step changes the one entity it is addressed to, as a function of that entity alone, and no component of any other |
| `MmeIsolation.EntityIsItsOwnRun` | crates/midn-core/src/mme/state_machine.rs:145-291 | Over any interleaving an entity's state, the messages it is sent and the steps at which it takes a TEID are those of its own subsequence with the vectors and TEIDs it took; what was on offer at its other steps does not matter |
| `MmeIsolation.SameHandedSameEntity` | crates/midn-core/src/mme/state_machine.rs:145-291 | Two runs that hand an entity the same messages and vectors, and the same TEIDs at the steps that take one, leave it the same and send it the same |
| `MmeLimits.ReattachLosesEntity` | crates/midn-core/src/mme/attach.rs:123-131 | With any codec and any messages: from power-on, two attaches of one IMSI leave a live entity the index no longer has |
| `MmeLimits.TwoSubscribersShareAddress` | crates/midn-core/src/mme/attach.rs:223-307 | With any codec and any messages: from power-on, two subscribers that complete security mode have two sessions on one UE address |
| `MmeLimits.AuthenticatesExactly` | crates/midn-core/src/mme/attach.rs:158-211 | A step authenticates a live entity if and only if its unwrapped message answers with the pending expected response |
| `MmeLimits.OnlyZerosPassWithoutChallenge` | crates/midn-core/src/mme/attach.rs:158-211 | With no challenge outstanding, an entity is authenticated if and only if it answers the zeros that clearing left |
| `MmeLimits.AuthenticatedExactlyBy` | crates/midn-core/src/mme/state_machine.rs:145-291 | In any run, whatever the others do: some step authenticates an entity under a challenge if and only if it answers an outstanding one at some step, some step authenticates it without one if and only if it answers the zeros at some step, and it ends authenticated in no other way |
| `MmeLimits.ZerosPassAfterWrongAnswer` | crates/midn-core/src/mme/attach.rs:158-211 | After any wrong answer has cleared the challenge, zeros authenticate |
| `Locality.EntityIsItsOwnRun` | crates/midn-core/src/mme/state_machine.rs:145-291 | For any node whose steps each touch the one entity they are addressed to and do not look at a TEID they do not take: an entity's run is a fold over its own subsequence |
| `Locality.AuthenticatedExactlyBy` | crates/midn-core/src/mme/attach.rs:158-211 | For any node whose steps authenticate on the expected response only: the two ways of getting authenticated, each as an if-and-only-if over an entity's own run |
| `AmfNode.Amf.ProcessNgap` | crates/midn-core/src/amf/state_machine.rs:123-136 | One NGAP message takes the node to the specified state and emits the specified messages and events |
| `AmfNode.Amf.StartRegistration` | crates/midn-core/src/amf/registration.rs:245-289 | Registration without a GUTI spawns an entity and asks for its identity |
| `AmfNode.Amf.HandleUplinkNas` | crates/midn-core/src/amf/state_machine.rs:147-198 | Unwraps protected messages, drops what fails, dispatches the rest |
| `AmfNode.Amf.HandleIdentityResponse` | crates/midn-core/src/amf/registration.rs:295-375 | A null-scheme SUCI known to the server re-identifies, indexes and challenges the entity; anything else changes nothing |
| `AmfNode.Amf.HandleAuthResponse` | crates/midn-core/src/amf/registration.rs:383-429 | Clears the challenge either way; authenticates only on a match |
| `AmfNode.Amf.HandleSecurityModeComplete` | crates/midn-core/src/amf/registration.rs:456-563 | Derives the context, protects the accept and, in Phase B, allocates and announces the tunnel with the id's address |
| `AmfNode.Amf.HandleDeregistrationRequest` | crates/midn-core/src/amf/deregistration.rs:37-90 | Accept unless switched off, protected if a context exists, then the release command |
| `AmfReplies.PowerOn` | crates/midn-core/src/amf/state_machine.rs:88-96 | At power-on nobody is there, nothing is indexed, and the first TEID is 0x20000 |
| `AmfReplies.RegistrationReplies` | crates/midn-core/src/amf/registration.rs:245-289 | What a registration draws and leaves behind, field by field; anything else draws nothing and changes nothing |
| `AmfReplies.SuciResolves` | crates/midn-core/src/amf/registration.rs:188-195 | The IMSI of a null-scheme SUCI is its five MSIN octets read in network order; no other scheme resolves |
| `AmfReplies.IdentityReplies` | crates/midn-core/src/amf/registration.rs:295-375 | What an identity response draws, indexes and leaves behind, field by field; one that cannot be resolved or answered changes nothing |
| `AmfReplies.AuthenticationReplies` | crates/midn-core/src/amf/registration.rs:383-429 | The right answer draws the security mode command, a wrong one nothing; both clear the challenge and nothing else |
| `AmfReplies.SecurityModeReplies` | crates/midn-core/src/amf/registration.rs:456-563 | The context installed ciphers and MACs under keys derived from this subscriber's vector; the accept goes out under it, octet by octet; the session request, the event and the UE address, field by field |
| `AmfReplies.DeregistrationReplies` | crates/midn-core/src/amf/deregistration.rs:37-90 | With switch-off only the release command; otherwise the accept first, opened by a UE in step, or in the clear without a context |
| `AmfReplies.OthersDrawNothing` | crates/midn-core/src/amf/state_machine.rs:147-198 | No other NAS message, and none to a missing entity, draws an answer or changes the entity |
| `AmfReplies.BearerAndReleaseReplies` | crates/midn-core/src/amf/state_machine.rs:206-263 | Setup response and release, field by field, on tunnel, index, free list and event; messages for gNBs are ignored |
| `AmfReplies.KeysComeFromSetup` | crates/midn-core/src/amf/state_machine.rs:147-198 | A context's keys are those of its entity's own completed security mode, and its algorithms stay on |
| `AmfReplies.ForgedChangesNothing` | crates/midn-core/src/amf/state_machine.rs:147-198 | After any run from power-on, a protected uplink message whose MAC octets are not the CMAC under the entity's key, or whose entity has no context, leaves the whole system unchanged and draws nothing |
| `AmfRuns.RunKeepsInv` | crates/midn-core/src/amf/state_machine.rs:123-263 | In every run: TEID conservation, tunnels agreeing with sessions, every event landing |
| `AmfRuns.EveryAmfRun` | crates/midn-core/src/amf/state_machine.rs:123-263 | The same from power-on, for fewer than 2^32 - base counter allocations and at most 2^32 slots ever in use, any number of registrations |
| `AmfRuns.TakesExactly` | crates/midn-core/src/amf/registration.rs:456-563 | An uplink message takes a TEID if and only if there is a user plane and it unwraps to SecurityModeComplete for a live entity |
| `AmfRuns.StepKeepsImsisExactly` | crates/midn-core/src/amf/registration.rs:295-375 | A step keeps the IMSI of every live tunnel's session that of its entity if and only if it does not identify an entity with a tunnel as another subscriber |
| `AmfRuns.RunKeepsMirror` | crates/midn-userplane/src/upf/session_manager.rs:186-378 | In every AMF run the kernel maps stay exact |
| `AmfRuns.UeIpCollision` | crates/midn-core/src/amf/registration.rs:550-550 | Two ids get one UE address exactly when they agree modulo 65536 |
| `AmfRuns.CreateKeepsDistinctExactly` | crates/midn-core/src/amf/registration.rs:499-555 | A new session keeps UE addresses distinct if and only if no session belongs to an entity whose id agrees with the new one modulo 65536 |
| `AmfRuns.StepKeepsDistinctExactly` | crates/midn-core/src/amf/state_machine.rs:123-263 | On any number of slots, any step keeps UE addresses distinct if and only if it is not a setup for an id that agrees modulo 65536 with that of a session |
| `AmfRuns.RunKeepsDistinct` | crates/midn-core/src/amf/state_machine.rs:123-263 | In any run with no such setup, however many ids: distinct UE addresses, and each session's downlink route is its uplink route |
| `AmfRuns.SlotsRuleOutClashes` | crates/midn-core/src/amf/registration.rs:499-555 | With at most 65536 slots ever in use, a second SecurityModeComplete on a tunnel is the only such setup |
| `AmfRuns.RunKeepsAddresses` | crates/midn-core/src/amf/registration.rs:499-555 | With at most 65536 slots ever in use, any number of registrations recycling them, and no second SecurityModeComplete on a tunnel: distinct UE addresses, and each session's downlink route is its uplink route |
| `AmfRuns.SetupKeepsDistinctExactlyOnce` | crates/midn-core/src/amf/registration.rs:499-555 | A completed security mode keeps addresses distinct if and only if the entity held no tunnel |
| `AmfLimits.SecondSetupSharesAddress` | crates/midn-core/src/amf/registration.rs:456-563 | With any codec and any messages: from power-on, a second SecurityModeComplete of one entity leaves two sessions on one UE address |
| `AmfLimits.AuthenticatesExactly` | crates/midn-core/src/amf/registration.rs:383-429 | A step authenticates a live entity if and only if its unwrapped message answers with the pending expected response |
| `AmfLimits.OnlyZerosPassWithoutChallenge` | crates/midn-core/src/amf/registration.rs:383-429 | With no challenge outstanding, an entity is authenticated if and only if it answers the zeros that blank or cleared AKA material holds |
| `AmfLimits.AuthenticatedExactlyBy` | crates/midn-core/src/amf/state_machine.rs:123-263 | In any run, whatever the others do: some step authenticates an entity under a challenge if and only if it answers an outstanding one at some step, some step authenticates it without one if and only if it answers the zeros at some step, and it ends authenticated in no other way |
| `AmfLimits.ZerosPassUnidentified` | crates/midn-core/src/amf/registration.rs:383-429 | With any codec and any messages: from power-on, sixteen zeros straight after the registration request authenticate an entity with no identity and no challenge |
| `AmfIsolation.StepIsLocal` | crates/midn-core/src/amf/state_machine.rs:123-263 | A step changes the one entity it is addressed to, as a function of that entity alone, and no component of any other |
| `AmfIsolation.EntityIsItsOwnRun` | crates/midn-core/src/amf/state_machine.rs:123-263 | Over any interleaving an entity's state, the messages it is sent and the steps at which it takes a TEID are those of its own subsequence with the vectors and TEIDs it took; what was on offer at its other steps does not matter |
| `AmfIsolation.SameHandedSameEntity` | crates/midn-core/src/amf/state_machine.rs:123-263 | Two runs that hand an entity the same messages and vectors, and the same TEIDs at the steps that take one, leave it the same and send it the same |
| `AmfIsolation.RunKeepsImsi` | crates/midn-core/src/amf/state_machine.rs:123-263 | In any run, whatever the others do, an entity's session keeps its IMSI as long as none of its own messages identifies it anew while it holds a tunnel |
| `AmfLimits.LateIdentityLeavesSession` | crates/midn-core/src/amf/registration.rs:295-375 | With any codec and any messages: from power-on, an identity response after security mode leaves the session with another IMSI than the entity |
| `Upf.SessionManager.HandleAll` | crates/mme-sim/src/main.rs:372-375 | Applying a step's events one by one is the specified fold |
| `MmeRuns.Turn` | crates/mme-sim/src/main.rs:371-375 | One turn of the event loop on the two objects is one step of the composed system the run theorems are about |
| `AmfRuns.Turn` | crates/midn-sim/src/main.rs:477-481 | The same for the AMF |
| `MmeProcedures.ProtectedIsDispatchedAsPlain` | crates/midn-core/src/mme/state_machine.rs:174-239 | A UE message protected in step, up to 255 losses, is handled exactly as the plain message it carries |
| `MmeProcedures.AcceptReachesUe` | crates/midn-core/src/mme/attach.rs:223-307 | The protected accept opens at the UE to the accept, and both contexts end in step |
| `MmeProcedures.RequestNamesTunnel` | crates/midn-core/src/mme/attach.rs:223-307 | The TEID and address requested of the eNodeB are those of the tunnel and of the session |
| `MmeProcedures.AttachAlone` | crates/midn-core/src/mme/attach.rs:87-307 | The four messages of an attach leave the entity authenticated with its tunnel up, and draw exactly the three replies |
| `MmeProcedures.AttachCompletes` | crates/midn-core/src/mme/attach.rs:87-307 | The same in any interleaving with other subscribers, with the user plane holding the matching session |
| `MmeProcedures.UninterruptedAttach` | crates/midn-core/src/mme/attach.rs:87-307 | The four messages in a row, at any node, are such a subsequence |
| `AmfProcedures.ProtectedUnwrapsToPlain` | crates/midn-core/src/amf/state_machine.rs:147-198 | A UE message protected in step, up to 255 losses, unwraps to the plain message it carries |
| `AmfProcedures.AcceptReachesUe` | crates/midn-core/src/amf/registration.rs:456-563 | The protected accept opens at the UE to the accept, and both contexts end in step |
| `AmfProcedures.RequestNamesTunnel` | crates/midn-core/src/amf/registration.rs:456-563 | The TEID and address requested of the gNB are those of the tunnel and of the session |
| `AmfProcedures.RegistrationAlone` | crates/midn-core/src/amf/registration.rs:245-563 | The five messages of a registration leave the entity authenticated with its tunnel up, and draw exactly the four replies |
| `AmfProcedures.RegistrationCompletes` | crates/midn-core/src/amf/registration.rs:245-563 | The same in any interleaving with other subscribers in which no setup clashes with a session's address, with the session for this IMSI reachable by the entity's own UE address in both directions |
| `AmfProcedures.UninterruptedRegistration` | crates/midn-core/src/amf/registration.rs:245-563 | The five messages in a row, at any node, are such a subsequence |
| `EndToEnd.FewSlotsAreOrdinary` | crates/midn-core/src/amf/registration.rs:499-555 | Every run with at most 65536 slots ever in use and no second setup on a tunnel is ordinary |
| `EndToEnd.KernelKnowsTunnel` | crates/midn-userplane/src/upf/session_manager.rs:186-320 | After any ordinary AMF run (no setup clashing with a session's address) the kernel holds each live tunnel's far end under its TEID and under its entity's address |
| `EndToEnd.DownlinkReachesSubscriber` | crates/midn-userplane-ebpf/src/gtp_dl_xdp.rs:201-335 | After any ordinary AMF run a frame for a subscriber leaves in that subscriber's tunnel, from the user plane's address and port 2152, and comes out whole at a gNB that knows it |
| `EndToEnd.UplinkReachesNetwork` | crates/midn-userplane-ebpf/src/gtp_xdp.rs:147-259 | After any ordinary AMF run a G-PDU on a live TEID hits in the kernel and leaves as userspace would forward it for that subscriber |

## Left out

- Sockets, tasks, SCTP, command lines, logging, BPF loading and the C interface: input and output.
- AES-CTR, AES-CMAC, HMAC-SHA-256, Keccak-f, Milenage and the key-derivation chain: parameters. Constant-time comparison is equality, and zeroizing is overwriting with zeros.
- The plain NAS and NAS-5GS message codecs: a decoding function and prebuilt messages are parameters of the MME and the AMF.
- The subscriber server's own state (credentials, SQN): what it answers is an input of each step that asks it.
- NasChannel.SafeExactlyUpToLastBlock: the MAC is symbolic, that is, a verification in a run succeeds only on input one of the two parties has MACed; the 32-bit tag can be guessed with small probability.
- PerEngine.PerReader.ReadBits: the result is an unbounded number; the source accumulates in 64 bits, which differs only for a field wider than 64 bits, and no caller reads one.
- PerEngine.PerWriter.WriteConstrainedInt: a value outside its range is excluded, as the writer's callers must; the reader's acceptance of values above the maximum is modelled.
- NgapCodec.RoundTrip: the NG Setup and PDU Session Resource messages carry no fields here, since the codec refuses them whatever they hold.
- S1apCodec.RoundTrip: the S1 Setup messages carry no fields here, for the same reason.
- Conformance to ITU-T X.691: a range of exactly 256 is packed without alignment and ranges above 65536 have no length prefix, as the code has it.
- Upf.MirrorAlways: writes to the kernel maps are taken to succeed; the source logs a failed write and goes on.
- Allocation of TEIDs by the session manager itself (`create_session`) and the public TEID helpers of the two nodes: other modes of operation. Byte counters of sessions stay zero.
- N3Event's PDU session id: the user plane ignores it, so both nodes' events share one type.
- Locks around the routing table: each handler is one sequential step.
- Xdp.XdpContext.AdjustHead: fails exactly as the kernel does, when the headroom is used up or less than an Ethernet header would remain; the programs' own re-checks after it cannot fail then and are not repeated.
- XdpDownlink.ProcessDl: after a successful head adjustment an oversized inner packet is passed on with 36 octets of old headroom in front; the contract says the original frame follows them. Configuration entries are optional values, so an all-zero entry is not read as absent.
- The outer UDP checksum (zero, as allowed over IPv4) and the redirect helper's own failure.
- Echo responses of the forwarder: a fixed 12-octet message.
- MmeRuns.EveryMmeRun: needs fewer than 2^32 - base TEIDs taken off the counter and at most 2^32 entity slots ever in use, past which those counters wrap; ids and TEIDs are recycled, so neither bounds the number of messages.
- AmfRuns.EveryAmfRun: the same limits; the index is not covered, since a later identity response can rewrite an entity's IMSI.
- The GUTI handed out at registration is the code's placeholder; its uniqueness is not claimed.
