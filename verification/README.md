# OT Sentinel: a verified model

OT Sentinel watches industrial networks. Sensors capture traffic passively, cut it into Modbus TCP, DNP3,
S7comm, OPC UA and IEC 61850 MMS messages, and forward one observation per message to a backend. The backend
keeps an inventory of assets, a hash-chained audit log, CVE matches, communication baselines, firmware
baselines, and two outboxes for alerts. This project models those parts in Dafny and proves what the rest of the
system relies on. `dafny verify dfyconfig.toml` checks all of it.

How the modules correspond to the system:

| modules | part of the system |
|---|---|
| `Framing`, `FrameRules` | the five stream splitters, as one algorithm over four header rules |
| `Reassembly`, `Chunking`, `Captures`, `CapturedFlows` | the packet loops of the sensor: one buffer per flow, cleared on a gap |
| `Octets`, `Crc`, `Burst`, `Dnp3`, `Dnp3Integrity` | DNP3 link frames: checksum, block coding, parser, error detection |
| `OpcUa`, `OpcUaMessages`, `OpcUaIsolation`, `OpcUaCuts` | OPC UA messages and the tracking of unprotected channels |
| `Tlv`, `ModbusTcp`, `S7comm`, `Mms` | the other three message parsers |
| `Delivery`, `Forwarder` | store-and-forward delivery: one post, one round over the spool, and the whole distributed system |
| `Ordering`, `Ingestion`, `Devices`, `Handlers`, `IngestConcurrency`, `LockOrder` | the five ingest handlers: the asset row as a summary, one at a time and interleaved, and the order of locks |
| `AuditChain`, `AuditConcurrency` | the audit log: verification, tamper evidence, concurrent writers |
| `Cpe`, `Announcements`, `Correlation` | CVE correlation, and alerts that are raised once per row |
| `Anomalies`, `Firmware` | communication baselines and firmware drift |
| `Outbox`, `OutboxRuns`, `Backlog` | the webhook and SIEM delivery workers |
| `Bytes`, `Wrappers` | octets, options and results |

Code that changes state step by step is modelled by methods with loops and by classes with fields
(`Inventory`, `AuditTable`, `Matcher`, `Monitor`, `Asset`, `Spool`, `Worker`), each proved against a function or a
relation; the lemmas are about those. Protocols with several parties are step systems, and their results hold in
every state of every run.

What the proofs found out about the code, beyond what its documentation says:

- Archiving is safe exactly when `retries` is not negative and no recovery runs while a capture is being written
  (`Delivery.ArchiveIsSafeIff`). The command line accepts a negative count; the post loop is then empty and captures
  are archived unposted. And every start of `forward` or `capture` seals the files that are open at that moment, so
  packets written later can end up in an archived capture without being recorded
  (`Delivery.NegativeRetriesLose`, `Delivery.RecoveryOvertakesWriter`).
- The outbox workers count tries in the transaction that they may have to roll back, after messages have gone out.
  Five attempts bound the tries exactly when no such batch is rolled back; otherwise nothing does
  (`OutboxRuns.AtMostFiveTriesIff`, `OutboxRuns.RolledBackBatchesResend`).
- Reassembly does not depend on segmentation as long as the stream contains no bad header. Where it does, the
  exact condition is `Chunking.SegmentationIndependentIff`.
- The expected sequence number is not reduced modulo 2^32, as section 3.4 of RFC 9293 has it: octets held across
  the wrap are dropped, and reassembly is exact exactly when none are held there (`Captures.ExactIffNoHeldWrap`,
  `Captures.WrappingLosesTheFrame`).
- `first_seen` of an anomaly is never lowered, so it lags when an older observation arrives late
  (`Anomalies.FirstSeenIsExactIff`).
- Approving the observed firmware version does not end the drift when that version has surrounding white space:
  the baseline is stripped, the observed version is not (`Firmware.ApprovingObservedEndsDriftIff`).
- Cutting entries off the end of the audit log goes unnoticed by verification alone
  (`AuditChain.PrefixVerifies`); with the head hash kept elsewhere it is noticed (`AuditChain.HeadHashDeterminesLog`).
- The DNP3 checksums catch every alteration within sixteen consecutive bits, and not every one within seventeen
  (`Dnp3Integrity.BurstRejected`, `Dnp3Integrity.SeventeenBitsEscape`).
- Two checks of the MMS parser can never fail (`Mms.FoundUnitsAreComplete`).

## Model

| member | source | states |
|---|---|---|
| Framing.SplitUnique | sensor/src/ot_sentinel_sensor/modbus.py:36-50 | For any header rule: cutting returns the frames and the tail exactly when the input is those whole frames followed by that incomplete tail; the decomposition is unique, so nothing is lost, added or reordered |
| Framing.SplitRaisesIff | sensor/src/ot_sentinel_sensor/dnp3.py:116-121 | The splitter raises exactly when a bad header follows a run of whole frames |
| Framing.SplitResumes | sensor/src/ot_sentinel_sensor/pcap.py:43-54 | Splitting may stop and resume: after a first part only its remainder matters, and an error never goes away when more data arrives |
| Framing.SplitPeels | sensor/src/ot_sentinel_sensor/opcua.py:94-110 | Whole frames in front are cut off one by one, whatever follows them |
| FrameRules.SplitModbusTcpStream | sensor/src/ot_sentinel_sensor/modbus.py:36-50 | The MBAP loop computes the generic split under the MBAP header rule |
| FrameRules.SplitDnp3Stream | sensor/src/ot_sentinel_sensor/dnp3.py:113-128 | The DNP3 link-frame loop computes the generic split under the link-header rule |
| FrameRules.SplitTpktStream | sensor/src/ot_sentinel_sensor/s7comm.py:85-98 | The TPKT loop, which the MMS module repeats word for word, computes the generic split under the TPKT rule |
| FrameRules.SplitOpcUaStream | sensor/src/ot_sentinel_sensor/opcua.py:91-110 | The OPC UA TCP loop computes the generic split under its message-header rule, with the 16 MiB limit |
| FrameRules.ModbusUnits | sensor/src/ot_sentinel_sensor/modbus.py:41-49 | A whole Modbus TCP unit has 8 to 260 octets, protocol 0, and a length field, high octet first, that counts what follows it |
| FrameRules.LinkFrames | sensor/src/ot_sentinel_sensor/dnp3.py:117-127 | A whole link frame starts with the sync octets, and its length octet, five at least, gives its size with two checksum octets for every sixteen user octets |
| FrameRules.TpktPackets | sensor/src/ot_sentinel_sensor/s7comm.py:89-97 | A whole TPKT packet starts with version 3, is at least seven octets long, and its length field, high octet first, is its length |
| FrameRules.OpcUaMessages | sensor/src/ot_sentinel_sensor/opcua.py:97-108 | A whole OPC UA message is one of the seven types, of 8 to 16777216 octets, whose size field, low octet first, is its length |
| Reassembly.ObservationsFromPcap | sensor/src/ot_sentinel_sensor/pcap.py:29-55 | The packet loop of the Modbus, DNP3, S7comm and MMS generators, with its stream dictionary updated in place, equals the fold of one step per packet; which packets a step looks at is stated by the rows that follow |
| CapturedFlows.Ports | sensor/src/ot_sentinel_sensor/pcap.py:92-92 | The ports are 502, 20000, 102 and 102, with the MBAP, link-frame and TPKT rules |
| CapturedFlows.FlowIsReported | sensor/src/ot_sentinel_sensor/pcap.py:32-55 | For every flow with the port at either end, its segments chosen by flow and layers alone: delivered in order they yield, among any other traffic, the accepted frames of their whole-stream split, and its remainder stays held |
| CapturedFlows.OtherPacketsDoNotMatter | sensor/src/ot_sentinel_sensor/pcap.py:32-39 | A packet that lacks a layer or has the port at neither end may be taken out of any capture without changing streams or output |
| CapturedFlows.EmittedOnCompletion | sensor/src/ot_sentinel_sensor/pcap.py:48-69 | Every emitted frame carries the flow and the time of the packet that completed it, has the port at one end, is accepted by the parser, and is cut from that flow's segments up to that packet |
| Reassembly.NoCrossTalk | sensor/src/ot_sentinel_sensor/pcap.py:41-54 | For any interleaving of flows and any losses, what is emitted for a flow, and the buffer kept for it, are those of a run over that flow's packets alone |
| Reassembly.NoSplicing | sensor/src/ot_sentinel_sensor/pcap.py:43-55 | Every emitted frame is one whole frame and a contiguous stretch of consecutive-sequence segments of a single flow, for arbitrary lost, repeated or reordered segments |
| Reassembly.NoSplicingOneFlow | sensor/src/ot_sentinel_sensor/pcap.py:43-54 | Between packets the held octets end a gap-free run that ends with the last segment |
| Chunking.DeliverySplits | sensor/src/ot_sentinel_sensor/pcap.py:48-54 | If the whole stream splits, every in-order delivery in pieces has, after each piece, the frames and the remainder of the prefix received so far |
| Chunking.SegmentationIndependentIff | sensor/src/ot_sentinel_sensor/pcap.py:49-54 | The frames are the same under every segmentation exactly when the stream splits as a whole or no whole frame starts at its front or anywhere a reader restarted after an error could see one |
| Chunking.SegmentationMatters | sensor/src/ot_sentinel_sensor/pcap.py:51-53 | The exception is real: a TPKT frame followed by a header of the wrong version yields different frames under different segmentations |
| Captures.ReassemblyEqualsSplit | sensor/src/ot_sentinel_sensor/pcap.py:41-59 | Among any other traffic, a flow delivered in order in segments of whatever sizes yields the whole-stream frames that the parser accepts, in order, and the retained buffer is the remainder, as long as no octets are held across the sequence wrap |
| Captures.CaptureDelivers | sensor/src/ot_sentinel_sensor/pcap.py:43-59 | In-order segments of one flow through the capture loop are the abstract delivery in pieces, up to the first segment that meets octets held across the wrap, for any parser that skips frames |
| Captures.JoinedIffNoWrap | sensor/src/ot_sentinel_sensor/pcap.py:44-47 | A segment that follows directly, modulo 2^32, is joined to the held octets exactly when nothing is held or the expected number stays below 2^32, and otherwise to nothing |
| Captures.ExactIffNoHeldWrap | sensor/src/ot_sentinel_sensor/pcap.py:43-54 | For a stream that splits as a whole, frames and buffer are those of the prefix received after every segment, exactly when no segment but the last ends at or past 2^32 while octets are held |
| Captures.WrappingLosesTheFrame | sensor/src/ot_sentinel_sensor/pcap.py:44-47 | A concrete capture: one TPKT frame in two segments around 2^32, of which the loop emits nothing |
| Crc.Dnp3Crc | sensor/src/ot_sentinel_sensor/dnp3.py:131-137 | The two nested loops compute the shift-register checksum |
| Dnp3.CheckOctets | sensor/src/ot_sentinel_sensor/dnp3.py:131-142 | The published check value: the octets 1 to 9 in ASCII have the checksum 0xEA82, sent low octet first |
| Crc.StepLinear | sensor/src/ot_sentinel_sensor/dnp3.py:136-136 | One CRC step is linear over exclusive or |
| Crc.StepInjective | sensor/src/ot_sentinel_sensor/dnp3.py:136-136 | One CRC step is injective on sixteen bits |
| Crc.RegisterInjective | sensor/src/ot_sentinel_sensor/dnp3.py:133-136 | Feeding equal octets keeps two different registers different |
| Burst.RegisterClocks | sensor/src/ot_sentinel_sensor/dnp3.py:133-136 | The octet-wise loop is the bit-serial shift register over the transmitted bits |
| Burst.WindowInjective | sensor/src/ot_sentinel_sensor/dnp3.py:133-137 | A window of at most sixteen bits is determined by the register it leads to |
| Burst.OctetBurstDetected | sensor/src/ot_sentinel_sensor/dnp3.py:131-137 | Two blocks that differ only within sixteen consecutive bits and leave equal registers are equal |
| Dnp3.DecodeUserBlocks | sensor/src/ot_sentinel_sensor/dnp3.py:145-157 | The block loop computes the recursive block decoding, truncation and CRC errors included |
| Dnp3.CheckCrc | sensor/src/ot_sentinel_sensor/dnp3.py:140-142 | The check passes exactly for two octets that spell the checksum, low octet first |
| Dnp3.VerifiesIff | sensor/src/ot_sentinel_sensor/dnp3.py:140-142 | Exactly one pair of octets verifies for given data |
| Dnp3.DecodeEncode | sensor/src/ot_sentinel_sensor/dnp3.py:145-157 | Decoding the sixteen-octet block coding of any user data gives the data back |
| Dnp3.EncodeDecode | sensor/src/ot_sentinel_sensor/dnp3.py:145-157 | Re-encoding what was decoded gives the same octets back |
| Dnp3.ParseDnp3Frame | sensor/src/ot_sentinel_sensor/dnp3.py:45-110 | The imperative parser equals the frame function: header, CRCs, blocks, then transport and application fields, whose meaning is the next row |
| Dnp3.ParsedFields | sensor/src/ot_sentinel_sensor/dnp3.py:62-110 | For every control octet, address octets and 0 to 250 user octets, the parsed encoding has source s0 + 256 s1 and destination d0 + 256 d1, link function, direction and primary flag by arithmetic on the control octet, and transport, application and indication fields from the first five user octets, each with the exact condition for being absent |
| Dnp3.NamesDetermineFunctions | sensor/src/ot_sentinel_sensor/dnp3.py:11-26 | The fourteen named application functions and their names determine each other; all other codes have no name |
| Dnp3.ParseEncode | sensor/src/ot_sentinel_sensor/dnp3.py:45-110 | For every control octet, both addresses and 0 to 250 user octets, parsing the encoded frame succeeds with what the frame function reads from these octets |
| Dnp3.EncodeParse | sensor/src/ot_sentinel_sensor/dnp3.py:45-64 | Every accepted frame is the encoding of what was read from it |
| Dnp3.AcceptsIffEncoded | sensor/src/ot_sentinel_sensor/dnp3.py:45-60 | The parser accepts exactly the encodings |
| Dnp3.CutFramesAreWellSized | sensor/src/ot_sentinel_sensor/dnp3.py:113-128 | The splitter cuts exactly the frames whose size and sync octets the parser accepts |
| Dnp3Integrity.LengthDeterminesSize | sensor/src/ot_sentinel_sensor/dnp3.py:53-54 | The frame size is strictly increasing in the length octet |
| Dnp3Integrity.VerifiedResidue | sensor/src/ot_sentinel_sensor/dnp3.py:131-142 | A block and its valid checksum always leave one fixed register |
| Dnp3Integrity.BurstRejected | sensor/src/ot_sentinel_sensor/dnp3.py:45-60 | Any alteration of an accepted frame within sixteen consecutive transmitted bits, anywhere in it and across block borders, makes the parser reject it |
| Dnp3Integrity.AdjacentOctetsRejected | sensor/src/ot_sentinel_sensor/dnp3.py:45-60 | Changing one octet or two adjacent octets of an accepted frame makes the parser reject it |
| Dnp3Integrity.SeventeenBitsEscape | sensor/src/ot_sentinel_sensor/dnp3.py:131-142 | Sixteen is the best possible: for every header there are two accepted frames that differ only within seventeen consecutive bits |
| OpcUa.ByteStringIffEncoded | sensor/src/ot_sentinel_sensor/opcua.py:263-272 | A length-prefixed field is read, and not refused, exactly where an absent value or octets with their length are encoded, and it is that value |
| OpcUa.ConnectionIgnoresDirection | sensor/src/ot_sentinel_sensor/pcap.py:222-222 | The sorted endpoint pair is shared by the two directions of one connection and by nothing else |
| OpcUa.OpcUaObservationsFromPcap | sensor/src/ot_sentinel_sensor/pcap.py:208-279 | The OPC UA capture loop, with its stream dictionary and channel set updated in place, equals the fold of one step per packet; which packets a step looks at is stated by the rows that follow |
| CapturedFlows.OpcUaFlowIsCut | sensor/src/ot_sentinel_sensor/pcap.py:212-233 | With 4840 at either end, the messages cut from a flow delivered in order, which are then reported or skipped in this order, are the frames of its whole-stream split, and its remainder stays held |
| CapturedFlows.ConnectionIsReported | sensor/src/ot_sentinel_sensor/pcap.py:212-253 | With 4840 at either end, the observations of a connection are those of a capture of just the packets of its two directions, chosen by flow and layers alone |
| CapturedFlows.OneSideIsReported | sensor/src/ot_sentinel_sensor/pcap.py:212-279 | Among any other connections, a side with 4840 at either end that speaks alone in its connection is reported as its whole stream would be, its segments chosen by flow and layers alone |
| CapturedFlows.OtherPacketsDoNotMatterToOpcUa | sensor/src/ot_sentinel_sensor/pcap.py:212-219 | A packet that lacks a layer or has port 4840 at neither end may be taken out of any capture without changing streams, channels or output |
| OpcUa.ReportMessages | sensor/src/ot_sentinel_sensor/pcap.py:233-279 | The inner loop over one packet's messages parses each with what is known of its channel, and records None channels as it goes |
| OpcUa.SymmetricExposure | sensor/src/ot_sentinel_sensor/opcua.py:193-240 | A parsed MSG or CLO shows a sequence number, request id or service id exactly when the parser was told the channel is unprotected, and its channel id is the one looked up |
| OpcUa.CaptureIsOpaque | sensor/src/ot_sentinel_sensor/pcap.py:233-279 | Over a whole capture, under every interleaving: a MSG or CLO observation exposes such fields exactly when an earlier observation on the same endpoint pair and channel is an OPN with SecurityPolicy#None |
| OpcUaMessages.EnvelopeMeans | sensor/src/ot_sentinel_sensor/opcua.py:53-88 | The first three octets choose among the seven readings of the body, every other type and every chunk type but F, C and A is refused |
| OpcUaMessages.LowOctetFirst | sensor/src/ot_sentinel_sensor/opcua.py:243-250 | Four-octet numbers are read with the low octet first |
| OpcUaMessages.HelloRoundTrip | sensor/src/ot_sentinel_sensor/opcua.py:113-120 | A Hello of any five limits, in this order, and any decodable address is read back field by field |
| OpcUaMessages.AcknowledgeRoundTrip | sensor/src/ot_sentinel_sensor/opcua.py:124-127 | An Acknowledge of any five limits is read back, and any octet behind them is refused |
| OpcUaMessages.ReverseHelloRoundTrip | sensor/src/ot_sentinel_sensor/opcua.py:130-145 | A ReverseHello is read back, the server first and the endpoint second |
| OpcUaMessages.ErrorRoundTrip | sensor/src/ot_sentinel_sensor/opcua.py:148-159 | An Error is read back, status and reason |
| OpcUaMessages.ProtectedOpenRoundTrip | sensor/src/ot_sentinel_sensor/opcua.py:162-190 | Under any policy but None, an OPN tells its channel and policy and nothing else |
| OpcUaMessages.ClearOpenRoundTrip | sensor/src/ot_sentinel_sensor/opcua.py:162-190 | Under the None policy it also tells sequence number, request and service, read behind the two certificates |
| OpcUaMessages.ProtectedMessageRoundTrip | sensor/src/ot_sentinel_sensor/opcua.py:193-212 | A MSG or CLO of a protected channel tells channel and token and nothing else |
| OpcUaMessages.ClearMessageRoundTrip | sensor/src/ot_sentinel_sensor/opcua.py:213-240 | On an unprotected channel it also tells sequence number and request, and in a final chunk the service |
| OpcUaMessages.ShortNodeIdRoundTrip | sensor/src/ot_sentinel_sensor/opcua.py:275-288 | One-octet and two-octet service ids are read back, the latter behind namespace zero only |
| OpcUaMessages.LongNodeIdRoundTrip | sensor/src/ot_sentinel_sensor/opcua.py:289-293 | Four-octet service ids are read back behind namespace zero only |
| OpcUaMessages.OtherNodeIdsAreRefused | sensor/src/ot_sentinel_sensor/opcua.py:279-294 | Every other form is refused |
| OpcUaMessages.OtherServicesAreUnknown | sensor/src/ot_sentinel_sensor/opcua.py:10-33 | Every other id is unknown |
| OpcUaMessages.DataServices | sensor/src/ot_sentinel_sensor/opcua.py:10-33 | Requests and responses of the browse, read and write services have their ids |
| OpcUaMessages.SessionServices | sensor/src/ot_sentinel_sensor/opcua.py:10-33 | Requests and responses of the three session services have their ids |
| OpcUaMessages.DiscoveryServices | sensor/src/ot_sentinel_sensor/opcua.py:10-33 | Requests and responses of the first four services have their ids |
| OpcUaMessages.ShownIffOpenedInClear | sensor/src/ot_sentinel_sensor/pcap.py:233-253 | At every point of a capture, in terms of the observations alone: a MSG or CLO shows a sequence number, request or service exactly when an earlier observation is an OPN with the None policy, the same channel id, and the same or the reversed flow |
| OpcUaIsolation.ConnectionsAreIndependent | sensor/src/ot_sentinel_sensor/pcap.py:208-253 | Whatever other connections are interleaved, the observations of a connection, its buffers and its unprotected channels are those of a capture that holds that connection alone |
| OpcUaCuts.ReportsWhatWasCut | sensor/src/ot_sentinel_sensor/pcap.py:224-279 | At every point the observations and the unprotected channels are those of reporting, once each and in order, every message that plain reassembly has cut, and the buffers are those of plain reassembly |
| OpcUaCuts.ObservationsFollowCuts | sensor/src/ot_sentinel_sensor/pcap.py:233-279 | Two captures, of any interleaving and segmentation, from which the same messages are cut in the same order give the same observations, times aside |
| OpcUaCuts.ChunkingReachesObservations | sensor/src/ot_sentinel_sensor/pcap.py:224-279 | Among any other connections, a side that speaks alone is reported, in whatever segments its stream arrives, as its whole stream would be |
| OpcUaCuts.ObservationsAreNotSpliced | sensor/src/ot_sentinel_sensor/pcap.py:224-279 | Every OPC UA observation is the parse of one whole message cut from consecutive segments of its flow |
| Tlv.ItemsIffEncoded | sensor/src/ot_sentinel_sensor/s7comm.py:180-193 | A parameter area parses to a list of items exactly when it is the encoding of that list |
| Tlv.DictKeepsTheLast | sensor/src/ot_sentinel_sensor/s7comm.py:191-191 | Of several items with one code the last stays in the dictionary |
| S7comm.CotpParameters | sensor/src/ot_sentinel_sensor/s7comm.py:180-193 | The loop raises exactly on a truncated area and otherwise returns the dictionary of its items |
| S7comm.SetupAcceptedIff | sensor/src/ot_sentinel_sensor/s7comm.py:101-110 | A COTP setup is accepted exactly when its area is a list of parameters and the last TSAP of the device side has two octets, the first of them 1, 2 or 3 |
| S7comm.RackSlotRoundTrip | sensor/src/ot_sentinel_sensor/s7comm.py:196-199 | Every rack and slot survives the trip through a TSAP |
| S7comm.RackSlotDeterminesTsap | sensor/src/ot_sentinel_sensor/s7comm.py:196-199 | Exactly the TSAPs of two octets, the first of them 1, 2 or 3, name a rack and a slot; these fit three and five bits and determine the second octet |
| S7comm.S7RoundTrip | sensor/src/ot_sentinel_sensor/s7comm.py:132-177 | Parsing an S7 unit built from any reference, parameters, data and error pair gives every field back |
| S7comm.SetupMeans | sensor/src/ot_sentinel_sensor/s7comm.py:101-129 | A request names the device by the last called TSAP, a confirm by the last calling one; both TSAPs, rack, slot and the one-octet unit size are shown as the parameters have them |
| S7comm.PacketMeans | sensor/src/ot_sentinel_sensor/s7comm.py:58-82 | A data packet hands its payload on with the end-of-unit mark; any other type but setup is reported by its code |
| S7comm.AcknowledgementsCarryErrors | sensor/src/ot_sentinel_sensor/s7comm.py:132-177 | The error pair is read exactly for the acknowledgements 2 and 3, and exactly six functions count as write or control |
| S7comm.LimitsRoundTrip | sensor/src/ot_sentinel_sensor/s7comm.py:153-160 | The three limits of a setup-communication function are read back in their order, and of no other function |
| S7comm.CutPacketsHaveGoodHeaders | sensor/src/ot_sentinel_sensor/s7comm.py:44-58 | A packet cut from the stream never fails the parser's TPKT checks |
| Mms.FindMmsTag | sensor/src/ot_sentinel_sensor/iec61850.py:90-99 | The search returns the first of 64 offsets at which a complete MMS unit starts, and raises exactly when there is none |
| Mms.FoundUnitsAreComplete | sensor/src/ot_sentinel_sensor/iec61850.py:70-76 | Once a unit is found the later length checks cannot fail; the payload is rejected only when no complete unit starts in the first 64 octets |
| Mms.VisibleStrings | sensor/src/ot_sentinel_sensor/iec61850.py:125-139 | The scanning loop returns the first 32 of the distinct non-empty texts met |
| Mms.ReferencesAreDistinct | sensor/src/ot_sentinel_sensor/iec61850.py:125-139 | The references are distinct, non-empty, at most 32 and at most 255 characters long, and none is missing while there is room |
| Mms.NoPacketIsBoth | sensor/src/ot_sentinel_sensor/iec61850.py:62-68 | S7comm and MMS share port 102, and no packet is accepted by both parsers |
| Mms.MmsRoundTrip | sensor/src/ot_sentinel_sensor/iec61850.py:52-87 | Behind any presentation octets that hold no unit of their own, a unit in a data packet is read back: tag, value, the octets before it, and its length |
| Mms.HeaderMeans | sensor/src/ot_sentinel_sensor/iec61850.py:57-69 | Behind a whole TPKT header, a packet is handed on exactly if it is COTP data with a header length of at least two and a payload that does not start with 0x32 |
| Mms.OtherPacketsAreRefused | sensor/src/ot_sentinel_sensor/iec61850.py:53-56 | Without a whole TPKT header that gives the length of the packet, nothing is accepted |
| Mms.InvokeIdRoundTrip | sensor/src/ot_sentinel_sensor/iec61850.py:114-122 | An invoke id of one to four octets is read, and the service is the octet behind it, if there is one |
| Mms.ServiceWithoutInvokeId | sensor/src/ot_sentinel_sensor/iec61850.py:114-122 | Anything else in front is no invoke id, and the service is the first octet, if there is one |
| Mms.BigEndian | sensor/src/ot_sentinel_sensor/iec61850.py:111-116 | Numbers of one to four octets are read with the high octet first |
| Mms.MmsTags | sensor/src/ot_sentinel_sensor/iec61850.py:10-22 | Exactly eleven tags start an MMS unit |
| Mms.ShortLengthRoundTrip | sensor/src/ot_sentinel_sensor/iec61850.py:102-111 | A length below 128 is one octet, and a first octet of 128 or above 132 is refused, wherever it stands |
| Mms.LongLengthRoundTrip | sensor/src/ot_sentinel_sensor/iec61850.py:102-111 | A length written in one to four octets behind their number is read back, wherever it stands |
| Mms.ScanFinds | sensor/src/ot_sentinel_sensor/iec61850.py:125-138 | Scanning finds a string element in front and goes on behind it, passes any other octet, and ends at an element that is cut short |
| ModbusTcp.ParseDeviceIdentification | sensor/src/ot_sentinel_sensor/modbus.py:115-153 | The object loop computes the identification function, its truncation, count and trailing-octet errors included |
| ModbusTcp.IdentificationAcceptsIff | sensor/src/ot_sentinel_sensor/modbus.py:120-145 | A response is accepted exactly when its objects fill it and are as many as announced |
| ModbusTcp.IdentificationRoundTrip | sensor/src/ot_sentinel_sensor/modbus.py:115-153 | Encoding any objects behind any header and parsing gives the header fields and the objects back |
| ModbusTcp.CutUnitsHaveGoodHeaders | sensor/src/ot_sentinel_sensor/modbus.py:53-65 | A unit cut from the stream fails to parse only for what lies behind its header |
| ModbusTcp.ParsedUnitsAreComplete | sensor/src/ot_sentinel_sensor/modbus.py:53-65 | What the parser accepts, the splitter cuts off whole |
| ModbusTcp.HeaderFieldsDetermineUnit | sensor/src/ot_sentinel_sensor/modbus.py:67-88 | Two accepted units with equal header fields and equal data are equal: the header parse loses nothing |
| ModbusTcp.UnitRoundTrip | sensor/src/ot_sentinel_sensor/modbus.py:53-88 | Of any unit, transaction, unit id, function without its flag and exception flag are read back, and the unit is refused exactly when its body is |
| ModbusTcp.AddressRoundTrip | sensor/src/ot_sentinel_sensor/modbus.py:91-104 | Four octets are read back as address and quantity, or for a single write address and value, in this order |
| ModbusTcp.CountedRoundTrip | sensor/src/ot_sentinel_sensor/modbus.py:92-109 | A read response and a multiple write are read back exactly when their byte count is right, and refused otherwise |
| ModbusTcp.ExceptionRoundTrip | sensor/src/ot_sentinel_sensor/modbus.py:73-76 | An exception is read back exactly when it is one octet |
| ModbusTcp.OtherRequestsRoundTrip | sensor/src/ot_sentinel_sensor/modbus.py:110-119 | An identification request is read back in its order; a function that is not understood is reported by its length |
| ModbusTcp.IdentificationIsRead | sensor/src/ot_sentinel_sensor/modbus.py:110-153 | Function 43 with any objects is read back, header fields and objects |
| Delivery.PostEvent | sensor/src/ot_sentinel_sensor/cli.py:177-194 | The retry loop returns exactly when retries is negative or some attempt up to the last is accepted after failures that may be retried; otherwise it ends at the last attempt or at one that may not be retried |
| Delivery.PostReturnsIff | sensor/src/ot_sentinel_sensor/cli.py:177-194 | Exactly when a post returns, in terms of replies: no attempt is allowed, or one is accepted and every one before it met no answer or a code of at least 500 |
| Forwarder.ForwardFile | sensor/src/ot_sentinel_sensor/cli.py:197-209 | A file is forwarded exactly when all of it can be read and the post of every observation returns; the first read or post that raises ends it |
| Forwarder.Spool.ForwardRound | sensor/src/ot_sentinel_sensor/cli.py:228-241 | A round archives exactly the sealed files that were read and posted in full and could be moved, keeps the others in order, and counts both |
| Forwarder.OutcomesAre | sensor/src/ot_sentinel_sensor/cli.py:228-241 | A file is archived exactly if it can be read to its end, the posts of all its observations return, and it can be moved |
| Forwarder.ArchivedWereAccepted | sensor/src/ot_sentinel_sensor/cli.py:230-237 | With a non-negative retry count, every observation of an archived file was accepted by some attempt |
| Forwarder.RoundKeepsFiles | sensor/src/ot_sentinel_sensor/cli.py:228-241 | A round loses and duplicates no file |
| Forwarder.Spool.RecoverAbandonedCaptures | sensor/src/ot_sentinel_sensor/cli.py:50-59 | Temporary files with more than a capture header are sealed, the others removed, and the sealed ones counted |
| Forwarder.SealedAre | sensor/src/ot_sentinel_sensor/cli.py:50-59 | A temporary file is sealed exactly if it is larger than 24 octets |
| Forwarder.Spool.EnforceArchiveRetention | sensor/src/ot_sentinel_sensor/cli.py:62-72 | Exactly the archived files older than the period are deleted, and none when no period is set |
| Forwarder.FreshAre | sensor/src/ot_sentinel_sensor/cli.py:62-72 | An archived file is kept exactly if it is not older than the cutoff |
| Delivery.ExactlyOnce | sensor/src/ot_sentinel_sensor/cli.py:177-258 | In every reachable state, with crashes, lost requests and replies and duplicate posts in flight: at most one observation per event id, every recorded id comes from a capture, and every archived or removed capture has all its events recorded if recoveries wait for the writers; if they do not, every one that no recovery sealed under its writer |
| Delivery.NothingIsOvertaken | sensor/src/ot_sentinel_sensor/cli.py:50-59 | If every recovery, at the start of a forwarder or of a capture process, finds no capture being written, no capture is ever sealed under its writer |
| Delivery.ArchiveIsSafeIff | sensor/src/ot_sentinel_sensor/cli.py:177-258 | Every archived or removed capture is fully recorded in every state of every run exactly when the retry count is not negative and recoveries wait for the writers, given that event ids tell some two observations apart |
| Delivery.NegativeRetriesLose | sensor/src/ot_sentinel_sensor/cli.py:184-184 | With a negative retry count a run archives a capture that was never posted |
| Delivery.RecoveryOvertakesWriter | sensor/src/ot_sentinel_sensor/cli.py:50-59 | If recoveries do not wait, a run archives a capture with an unrecorded event, for any two observations with different ids |
| Delivery.ServerStepKeepsServerInv | backend/app/ingestion.py:25-53 | Every step of the handlers keeps the event-id table duplicate-free and every accepted reply backed by a row |
| Handlers.Inventory.ExistingIngestResult | backend/app/ingestion.py:25-53 | A retry is recognised exactly when its event id is already stored, and answered with that observation, or with 409 if it has no protocol event |
| Handlers.Inventory.Ingest | backend/app/ingestion.py:68-177 | A recorded event changes nothing; a new one adds one observation, its protocol event and one audit note, and its asset row stays exact. That row has the address of the end at port 502, 102 or 4840, for DNP3 of the end that is not the master, and keeps its hardware address or takes the one of that end |
| Devices.ConversationIsOneRow | backend/app/ingestion.py:74-76 | If one end alone has the protocol's port, a packet and its answer are booked on one row with one hardware address and one outstation address: those of the server, or of the outstation |
| Devices.VendorsAreNamedByDevices | backend/app/ingestion.py:114-124 | A vendor is taken exactly from a Modbus identification that does not go to port 502 and names one, cut at 255 letters |
| Devices.ModelsAreNamedByDevices | backend/app/ingestion.py:114-126 | A model likewise, from the model name, failing that the product name, failing that the product code |
| Devices.BuffersAreReported | backend/app/ingestion.py:622-626 | Buffer sizes are taken from OPC UA packets alone, each from its own field |
| Devices.SightingsMean | backend/app/ingestion.py:102-112 | A row's times are the earliest and the latest of its observations, its hardware address the first one reported |
| Devices.DetailsMean | backend/app/ingestion.py:114-126 | Vendor, model and buffer sizes are what the last observation says that says anything about them |
| Devices.ProtocolsMean | backend/app/ingestion.py:105-106 | A protocol name is listed, once, exactly if a packet of that protocol was seen |
| Devices.AddressesMean | backend/app/ingestion.py:107-110 | Listed, ascending, are exactly the unit ids of Modbus packets and the link addresses of outstations |
| Devices.S7EntriesMean | backend/app/ingestion.py:473-508 | Listed once are exactly the rack and slot pairs, and ascending the negotiated lengths, that S7comm packets name |
| Devices.OpcUaEntriesMean | backend/app/ingestion.py:611-622 | Listed are exactly the non-empty endpoint addresses and policies that OPC UA packets name |
| Devices.MmsEntriesMean | backend/app/ingestion.py:226-231 | Listed are exactly the unit types seen, and of the references seen the first 256 in order |
| Ingestion.Sight | backend/app/ingestion.py:89-112 | Created or updated, the row has the exact earliest and latest times, the first hardware address and each protocol once, and nothing else of it changes |
| Ingestion.LatestGrows | backend/app/ingestion.py:114-126 | Vendor, model and buffer sizes are always those of the last observation that reports them |
| Ingestion.ModbusRow | backend/app/ingestion.py:74-126 | From the row it finds, the Modbus update computes the exact summary of its observations, whatever they are, vendor and model included; whose row it is, and what its entries mean, is stated by the rows of `Devices` |
| Ingestion.Dnp3Row | backend/app/ingestion.py:347-389 | From the row it finds, the DNP3 update computes the exact summary of its observations, whatever they are |
| Ingestion.S7Row | backend/app/ingestion.py:457-508 | From the row it finds, the S7comm update computes the exact summary of its observations, whatever they are |
| Ingestion.OpcUaRow | backend/app/ingestion.py:578-626 | From the row it finds, the OPC UA update computes the exact summary of its observations, whatever they are, buffer sizes included |
| Ingestion.MmsRow | backend/app/ingestion.py:192-232 | From the row it finds, the MMS update computes the exact summary of its observations, whatever they are |
| Ingestion.MergeKeepsSmallest | backend/app/ingestion.py:229-231 | After any events the stored references are the 256 smallest of all ever reported |
| Ordering.SmallestOfSmallest | backend/app/ingestion.py:231-231 | Forgetting all but the n smallest loses nothing that a later merge would keep |
| Ordering.SmallestUnique | backend/app/ingestion.py:231-231 | The list of the n smallest is unique, so grouping and order of events cannot matter |
| Ordering.TextOrder | backend/app/ingestion.py:231-231 | One text comes before another exactly where the first letters that differ say so, or where it ends first |
| Handlers.SummaryIsOrderIndependent | backend/app/ingestion.py:102-112 | Rows that summarise the same observations, in any order and with any repetition, agree |
| Handlers.FedHoldsThePosts | backend/app/ingestion.py:34-53 | If an event id stands for one observation, what is stored after any sequence of posts is what was posted, repetitions aside |
| Handlers.InventoriesAgree | backend/app/ingestion.py:68-177 | Two inventories fed the same posts, in any order and with any repetition, hold the same assets, if an event id stands for one observation |
| IngestConcurrency.TablesAlwaysAgree | backend/app/ingestion.py:29-88 | For any number of handlers interleaving lock, look-up, read, write, commit and rollback: one row per site and address, each the exact summary of the committed observations of its asset, and one observation per event id |
| IngestConcurrency.OthersStayCurrent | backend/app/ingestion.py:78-88 | What a handler has read or computed under its locks stays true through the commits of the others |
| LockOrder.RequestsLockInOrder | backend/app/ingestion.py:29-88 | Every ingest handler and baseline request asks for its locks in the order event key, site and address key, asset row, audit lock |
| LockOrder.RequestsLock | backend/app/ingestion.py:29-88 | Exactly which locks a request takes: a replay stops at the event key, a refused baseline at the row, every other one goes on to the audit lock |
| LockOrder.NoWaitCycle | backend/app/ingestion.py:78-88 | No reachable wait-for graph of any number of such requests has a cycle |
| LockOrder.SomeoneCanMove | backend/app/admin.py:40-66 | While a transaction is open, some transaction has all its locks or can take its next |
| AuditChain.VerifyAuditChain | backend/app/audit.py:38-53 | The verdict is true exactly for a chained log; otherwise the reported entry is the first one that breaks the chain |
| AuditChain.ChainedMeans | backend/app/audit.py:38-53 | A log is chained exactly if each entry has the hash of its record, the first points at nothing, and every other one at the hash before it |
| AuditChain.AuditTable.AppendAuditLog | backend/app/audit.py:56-90 | An append adds one entry that carries the hash of the last one, and the log stays chained |
| AuditChain.HeadHashDeterminesLog | backend/app/audit.py:12-53 | Two verified logs with one head hash agree entry by entry and in length, or walking back yields two different canonical texts, one from each log, with one digest; no injectivity of the digest and no length is assumed |
| AuditChain.HeadHashDeterminesRecords | backend/app/audit.py:38-53 | The same for an arbitrary hash of records: equal logs, or two different records with one hash |
| AuditChain.PrefixVerifies | backend/app/audit.py:38-53 | Every prefix of a verified log verifies, so a truncation shows only against a head hash kept elsewhere |
| AuditConcurrency.CommittedLogVerifies | backend/app/audit.py:65-89 | For any number of sessions interleaving lock, read, insert, commit and rollback, the committed rows listed by id always verify: the chain never forks |
| AuditConcurrency.CommittedLogGrows | backend/app/audit.py:65-89 | Every earlier committed log is a prefix of every later one |
| AuditConcurrency.ListingUnique | backend/app/admin.py:185-186 | Listing the rows by id gives them back in the order of their commits, whatever order the table holds them in |
| AuditConcurrency.NewestIsLast | backend/app/audit.py:67-68 | The row with the highest id is the last of the chain, so the read under the lock finds the right hash |
| Cpe.SplitCpe | backend/app/cve/correlation.py:140-156 | The character loop computes the splitting function |
| Cpe.SplitUndoesJoin | backend/app/cve/correlation.py:140-156 | Splitting the escaped, colon-joined form of any non-empty list of strings gives the list back |
| Cpe.MatchAsset | backend/app/cve/correlation.py:108-127 | The search succeeds exactly when some entry covers the asset, and reports the first that does, with 0.7 without and 0.95 with a firmware version; what covering means is stated by the rows that follow |
| Cpe.MatchesSingly | backend/app/cve/correlation.py:113-127 | A list matches exactly if one of its entries does |
| Cpe.OthersNeverMatch | backend/app/cve/correlation.py:114-116 | Without the vendor as fourth and the model as fifth of six components, compared by letters a to z and digits, there is no match |
| Cpe.UnknownVersionMatches | backend/app/cve/correlation.py:118-119 | Without a firmware version, vendor and model suffice |
| Cpe.NamedVersionMatchesIff | backend/app/cve/correlation.py:159-160 | An entry for one version matches exactly the firmware with the same letters and digits |
| Cpe.RangeMatchesIff | backend/app/cve/correlation.py:161-178 | A range matches exactly the versions that parse, if every given bound parses, from the included or behind the excluded start up to the included or before the excluded end |
| Cpe.OutsideIsNeverMatched | backend/app/cve/correlation.py:163-175 | A version at or past an excluded end or past an included one, or on the other side of a start, is never matched |
| Cpe.WiderRangesMatchMore | backend/app/cve/correlation.py:163-175 | Lowering a start, raising an end, or dropping one never loses a match |
| Cpe.KeptLetters | backend/app/cve/correlation.py:130-131 | Folding keeps exactly the letters a to z and the digits, in order |
| Cpe.MatchIgnoresOrder | backend/app/cve/correlation.py:108-127 | Whether an asset matches does not depend on order or repetition in the list |
| Correlation.Matcher.UpsertMatches | backend/app/cve/correlation.py:20-88 | The inner loop upserts exactly the matching CVEs of an asset, announces the pairs that had no row, and counts the matches |
| Correlation.Matcher.CorrelateAssets | backend/app/cve/correlation.py:14-105 | A run treats every row as the match relation says, keeps each pair announced exactly once, and returns the number of matching pairs |
| Correlation.RowsAgreeWithMatches | backend/app/cve/correlation.py:20-103 | After a run, the rows of an asset with vendor and model that are not rejected are exactly the catalogue CVEs that match it, with the right status and confidence and the columns of the catalogue entry |
| Correlation.RunMeans | backend/app/cve/correlation.py:17-105 | After a run the row of an asset with vendor and model is in force exactly if an entry of that CVE matches, confirmed with 0.95 if its firmware is known and a candidate with 0.7 if not; every other row of it is rejected with 0, unless it was before |
| Correlation.OthersAreLeftAlone | backend/app/cve/correlation.py:16-18 | Rows of assets without a vendor or a model are left alone |
| Correlation.ColumnsMean | backend/app/cve/correlation.py:31-57 | What a row copies, when a patch counts as available, and which references are ICS advisories |
| Correlation.MatchesAreCounted | backend/app/cve/correlation.py:15-105 | The number a run returns is the number of pairs of an asset with vendor and model and a CVE that matches it |
| Correlation.SecondRunChangesNothing | backend/app/cve/correlation.py:14-105 | An immediate second run changes no row |
| Announcements.AddedAreNew | backend/app/cve/correlation.py:74-87 | What a run adds to the alerts is exactly the pairs whose rows it created; rejection and re-match announce nothing |
| Announcements.SameKeysSameAlerts | backend/app/cve/correlation.py:74-87 | A run that creates no row announces nothing |
| Anomalies.Monitor.CaptureBaseline | backend/app/anomalies.py:31-91 | Without the confirmation nothing changes; with it the active baseline of the site is retired and the new snapshot holds exactly the edges observed there |
| Anomalies.OneBaselineIsActive | backend/app/anomalies.py:42-46 | Two active baselines are of two sites |
| Anomalies.Monitor.AddObservation | backend/app/ingestion.py:136-151 | Storing an observation, late ones included, leaves baselines, anomalies, alerts and log as they are and keeps every row justified |
| Anomalies.Monitor.AnalyzeActiveBaselines | backend/app/anomalies.py:154-233 | An analysis changes every row as the recount says, creates and announces the missing ones once each, and counts them |
| Anomalies.Monitor.AnalyzeEdge | backend/app/anomalies.py:191-231 | One observed edge: skipped if known, refreshed if it has a row, otherwise inserted and announced |
| Anomalies.Monitor.AcknowledgeAnomaly | backend/app/anomalies.py:128-151 | An unknown anomaly is refused; a known one becomes acknowledged, nothing else changes, and the log says so |
| Anomalies.AnomaliesAreTheNewEdges | backend/app/anomalies.py:162-231 | After an analysis the anomalies of an active baseline are exactly the edges seen at its site after the capture and missing from its snapshot; count and last time equal a recount |
| Anomalies.AnomaliesMean | backend/app/anomalies.py:171-217 | In terms of the stored observations: an anomaly is an edge outside the snapshot with a sighting at the site strictly after the capture, counted by its sightings, last seen at the latest, and if new open and first seen at the earliest |
| Anomalies.RerunChangesNothing | backend/app/anomalies.py:203-206 | A second analysis without new observations creates and changes nothing |
| Anomalies.RowsAreKept | backend/app/anomalies.py:203-206 | An analysis drops no row, keeps each first time and undoes no acknowledgement; rows of inactive baselines stay as they are |
| Anomalies.FirstSeenIsExactIff | backend/app/anomalies.py:203-216 | The first time of a row stays the earliest of all sightings exactly when no sighting stored since is older |
| Anomalies.FirstSeenCanLag | backend/app/anomalies.py:203-206 | An older observation that arrives late leaves a first time that is too recent |
| Anomalies.NewEdgesWereNeverReported | backend/app/anomalies.py:47-81 | An edge outside a snapshot was never reported at the site before the capture |
| Firmware.Asset.ApplyFirmwareVersion | backend/app/ingestion.py:283-332 | The version is stored, a drift that begins or ends is stamped, logged and announced, and the flag stands exactly when both versions are present and differ |
| Firmware.FlagMeansDifferent | backend/app/ingestion.py:293-312 | The flag stands exactly while an approved and an observed version differ |
| Firmware.Asset.ObserveRevision | backend/app/ingestion.py:122-134 | An absent or empty revision changes nothing; a long one is cut to 255 characters |
| Firmware.SetFirmwareBaseline | backend/app/admin.py:33-75 | 404, 409 and 422 exactly for a missing asset, an empty and an overlong version, without effect; otherwise the stripped version becomes the baseline and flag and log follow |
| Firmware.NamedVersionGoesFirst | backend/app/admin.py:43-43 | A version that the administrator names goes before the observed one, and an empty one is as good as none |
| Firmware.ClearFirmwareBaseline | backend/app/admin.py:77-97 | 404 for a missing asset; otherwise baseline, its provenance and the flag are cleared and the log says so |
| Firmware.ReportsAreSeparated | backend/app/ingestion.py:294-330 | Between two drift reports of an asset lies a resolution, a new baseline or a clearing |
| Firmware.ApprovingObservedEndsDriftIff | backend/app/admin.py:43-60 | Approving the observed version leaves the asset flagged exactly when that version has surrounding white space |
| Firmware.StripChangesPadded | backend/app/admin.py:43-43 | Stripping changes exactly the padded strings and leaves nothing to strip |
| Firmware.StripTakesSpace | backend/app/admin.py:43-43 | What stripping takes away is white space in front and behind |
| Outbox.Delivery.ScheduleRetry | backend/app/alert_worker.py:83-90 | A failed try counts; the fifth ends the delivery, an earlier one puts it off by a doubling delay |
| Outbox.Delivery.FailPermanently | backend/app/alert_worker.py:93-103 | The delivery fails without a further try, and one entry is logged |
| Outbox.Dispatch | backend/app/alert_worker.py:40-78 | One delivery of the batch: failed without a target, delivered, put off, or left by an exception |
| Outbox.Worker.ProcessPending | backend/app/alert_worker.py:24-80 | A transaction deals once with each selected delivery and with no other and logs each ending in order; an uncaught exception leaves table and log alone. With a positive limit, the oldest due and unlocked delivery has been dealt with whenever it commits |
| Outbox.SelectedAre | backend/app/alert_worker.py:28-39 | A batch holds exactly as many queued or retrying, due and unlocked deliveries as the limit allows, oldest first: every one left out is younger than every one taken |
| Backlog.BacklogIsWorkedOff | backend/app/alert_worker.py:24-39 | Committed passes within a minute, as many as the number of waiting deliveries divided by the limit, reach every delivery that was waiting at the first, whatever is queued in between |
| OutboxRuns.AttemptsAreCommittedTries | backend/app/siem_worker.py:18-103 | Over every run, the stored counter is the number of tries whose batch was committed and at most five, and a delivery has exactly one terminal log entry once it has ended and none before |
| OutboxRuns.RowsTellTheirTries | backend/app/alert_worker.py:62-90 | Over every run: a queued delivery has no committed try, a retrying one waits 60, 120, 240 or 480 seconds from the end of the last, a delivered one was delivered at the end of the last and keeps no error |
| OutboxRuns.AttemptsAreAllTriesIff | backend/app/alert_worker.py:40-79 | The counter is the number of all tries exactly when no batch that had tried the delivery was rolled back; then they are at most five, each after the delay the one before asked for |
| OutboxRuns.RolledBackBatchesResend | backend/app/alert_worker.py:61-79 | For every n there is a run that sends one delivery n times without delay and still has it queued with no attempt, through batches that are rolled back after sending |
| OutboxRuns.AtMostFiveTriesIff | backend/app/alert_worker.py:40-79 | A worker never tries a delivery more than five times, in any run, exactly when its batches are not rolled back once they have tried something |
| OutboxRuns.EndedForGood | backend/app/alert_worker.py:28-33 | Delivered and failed are final |
| OutboxRuns.AtMostFiveChanges | backend/app/alert_worker.py:83-90 | Each change uses up some of five minus the attempts, so no run changes a delivery more than five times |
| OutboxRuns.ChangesCount | backend/app/alert_worker.py:83-90 | What counts as a change: a state in which the row of the delivery is not what it was in the state before |
| OutboxRuns.ExhaustionTakesFifteenMinutes | backend/app/siem_worker.py:80-87 | A delivery that used up its attempts was tried at least five times, and its five committed tries keep the doubling delays and span at least 1 + 2 + 4 + 8 minutes |
| OutboxRuns.FailsOnlyWithoutTargetOrExhausted | backend/app/siem_worker.py:34-61 | A pass ends in failure only without an enabled target or at the fifth failed try |
| OutboxRuns.DelaysDouble | backend/app/alert_worker.py:83-90 | A failed try ends the delivery at the fifth and otherwise puts it off by one, two, four or eight minutes, keeping 500 letters of the error |

## Left out

- SHA-256, UUIDv5, UTF-8 decoding, case folding, JSON text and version parsing are arbitrary functions given as parameters; events are counted up to the identity fields of their ids, and versions are placed on a line.
- Payload digests, function and service name tables of S7comm and Modbus, and display texts of errors: copied, never decided on.
- PCAP files, sockets, TLS, HTTP and signatures: a capture is a sequence of packets with flow, sequence number, payload and time; a post is a request that may be lost, answered, or answered late.
- File moves and database transactions are atomic; each SQL statement sees one committed state. A capture is read when its forwarding begins, although the generators read it lazily.
- Reassembly.ObservationsFromPcap: the message parser is a parameter that says which frames are kept, so one loop stands for the four generators without parser state across packets; the observation dictionary is reduced to flow, time and frame.
- FrameRules.SplitTpktStream: one method stands for the two identical copies.
- Handlers.Inventory.Ingest: the handlers run one at a time here; interleaved they are in `IngestConcurrency`, their retries in `Delivery`. The stored hardware address is the first reported and vendor, model and buffer sizes are the last, so these depend on the order of the table. Ports, digests and the fields of protocol events are not stored here, and the firmware revision is in `Firmware`.
- IngestConcurrency.TablesAlwaysAgree: the row lock of the read is subsumed by the lock on site and address; the baseline endpoints, which write other columns under the row lock, are not interleaved with the handlers here.
- LockOrder.NoWaitCycle: distinct lock keys are assumed not to share a 64-bit hash, and the claim covers ingestion and the firmware baseline endpoints only.
- Delivery.ExactlyOnce: safety only. A file whose observation the server always refuses is deferred for ever; disk-full and permission errors are one step that defers the file.
- AuditChain.HeadHashDeterminesLog: that the canonical JSON text tells records apart is a hypothesis on the text function, not proved from a JSON grammar.
- Correlation.Matcher.CorrelateAssets: evaluation times and the record of what was matched on are not stored. Asset ids and CVE ids are keys of their tables, hence distinct.
- Mms.VisibleStrings: presentation and association layers are skipped as the code skips them, so what lies before the unit is not interpreted.
- Anomalies.Monitor.CaptureBaseline: requests are serial; under concurrent requests the code does not keep one active baseline per site. An anomaly is named by its baseline and edge instead of a random id.
- Announcements.AddedAreNew: one alert stands for the deliveries that the enabled rules and the SIEM destinations turn it into.
- Outbox.Worker.ProcessPending: the two workers differ in names and in which exceptions they catch, so one method with the outcome as a parameter stands for both; the HTTP response status is not stored. Deleting a rule, which removes its deliveries, is not modelled.
- Backlog.BacklogIsWorkedOff: for the passes of one worker within a minute, since a failed delivery is due again after that and, being older, goes first; rows held by other sessions are not in its backlog.
- Firmware.Asset.ApplyFirmwareVersion: the log holds the firmware entries of one asset; the rest of the audit log is in `AuditChain`.
- Live capture, spool limits and health files; users, OIDC, the last-administrator check; risk scores, exports, probing policies; the frontend.
