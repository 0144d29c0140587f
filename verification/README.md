# Dafny model of BlueZ's SDP library, AVDTP signalling and packet dumper

The model covers the parts of BlueZ that keep state octet by octet or event by event:

- **SDP** (`Sdp*.dfy`, from `libs/src/sdp.c`): data elements printed into a growing buffer whose length fields
  are patched afterwards, the recursive reader for arbitrary octets, service records with their sorted attribute list
  and search pattern, and the reassembly of split responses.
- **AVDTP** (`Avdtp*.dfy`, from `utils/audio/avdtp.c`): the fragmenting sender and the reassembling receiver, the
  request scheduler with its two queues, the acceptor's stream state machine, and the capability list.
- **Packet dumper** (`Ppp.dfy`, `Cmtp.dfy`, `L2cap.dfy`, `LmpPairing.dfy`, `SlotTable.dfy`, from `hcidump/parser/`): PPP
  deframing over chunked streams, CMTP and L2CAP reassembly in fixed tables, and the pairing automaton.

Each stateful part is a class or a loop in the source's own form, proved equal, step by step, to a function on values.
The theorems are about those functions: every tree, every octet string, every run of events. Octets are integers below
256; `Bytes.dfy` holds the big-endian arithmetic. C integers are unbounded except where width matters, and there it is
written out: length fields, the 8-bit receive count, the signed sequence length, transaction labels modulo 16, and
counts modulo 65536.

Printers and readers that undo each other would also agree on a wrong format. The formats are therefore stated a second
time, in numbers: descriptor octets, header bits, base UUID, magic octets, error codes, table sizes. In the same way what
each command and each kind of packet does in every state is stated apart from the step that computes it.

Several laws that the code is meant to obey fail on some inputs. Each of those is stated as an if-and-only-if whose
condition a caller can check beforehand, next to a lemma with a concrete failing input:

| law | holds exactly when | failing input |
|---|---|---|
| an SDP element survives printing and reading | `SdpExtract.Recoverable` | `SdpExtract.LongStringMiscounted` |
| reading SDP octets returns | no loop gets to a cut sequence header (`SdpExtract.HangIff`) | `SdpExtract.CutHeaderHangs` |
| reading SDP octets stays inside the buffer | the reader gets to no 16-bit string that fits once but not twice (`SdpExtract.BoundedIff`) | `SdpExtract.LongStringOverruns` |
| an SDP record survives printing and reading | its body is at most 65535 octets (`SdpRecordPdu.RecordRoundTripIff`, and for its attributes alone `SdpRecordPdu.AttributesIff`) | `SdpRecordPdu.LargeRecordIsLost` |
| a split search reports the right count | the count fits its field and the low octets of the counts add up to at most 255 (`SdpProcess.CountIff`) | `SdpProcess.CarryIsLost` |
| an AVDTP message survives fragmentation | `AvdtpPacket.Deliverable` | `AvdtpPacket.FullTailIsLost` |
| L2CAP recombination stays inside its buffers | no start fragment longer than its PDU is given an entry (`L2cap.AlwaysBoundedIff`) | `L2cap.LongStartOverflows` |
| PPP frames do not depend on chunks | nothing stands between two flags from one start to the flag after the other (`Ppp.RecognitionIff`) | `Ppp.SplitMagicIsMissed` |
| AVDTP requests of a class keep their order | no timeout submits one while others wait (`AvdtpScheduler.KeepsTurnIff`) | `AvdtpScheduler.AbortOvertakes` |
| urgent AVDTP requests go before ordinary ones | no callback of a timed-out command submits an ordinary one first while they wait (`AvdtpScheduler.UrgentFirstIff`) | `AvdtpScheduler.CallbackOvertakes` |

Where a reader gets to, in the second and third row, follows its cursor: the offsets at which its loops read an element
(`SdpExtract.Visits`) are defined with the sizes the reader itself reports for the elements before. A caller who does not
want to walk the octets has the sufficient condition of `SdpExtract.Terminates`.

The two AVDTP laws fail only through callbacks of timed-out commands that submit requests themselves. Without such
callbacks both hold over every run of the library's own submissions (`AvdtpScheduler.UsualRun`).

`dafny verify dfyconfig.toml` checks the whole project.

## Model

| member | source | states |
|---|---|---|
| SdpBuf.Buf.GenPdu | libs/src/sdp.c:711-829 | appends exactly the octets of the pure recursive encoder, however deep the nesting and although every length field is patched after its body; earlier octets are untouched; the count returned is the number appended |
| SdpElement.Descriptor | hcidump/parser/sdp.c:58-83 | the descriptor octet of every element by the numbers of the standard: type number 0 to 8 above, size index in the low three bits, and the value or length field has exactly the octets that index stands for |
| SdpBuf.Buf.GenItems | libs/src/sdp.c:700-709 | the elements of a sequence are printed one after the other and their sizes add up to the length that is patched in |
| SdpBuf.Buf.SetDataType | libs/src/sdp.c:656-686 | writes the descriptor, keeps what is before it and reserves exactly the length field of that descriptor |
| SdpBuf.Buf.SetSeqLen | libs/src/sdp.c:630-654 | changes only the length field of the element at the given position, to the big-endian length cut to the field's width |
| SdpBuf.Buf.AppendToBuf | libs/src/sdp.c:2523-2578 | keeps the buffer one correctly headed sequence whose body is the old body followed by the new octets, across growth and across the one-octet shift from an 8-bit to a 16-bit header; size never exceeds capacity |
| SdpBuf.Buf.GrowthIs | libs/src/sdp.c:2531-2541 | the buffer grows only when needed, by the first multiple of 1024 above the number of new octets |
| SdpBuf.Buf.Widen | libs/src/sdp.c:2555-2563 | the shift moves the whole body by one octet and changes none of it |
| SdpBuf.Buf.AppendToPdu | libs/src/sdp.c:2580-2593 | appends the attribute id and the encoded value as one unit |
| SdpBuf.AttrHeader | libs/src/sdp.c:688-698 | an attribute starts with 09 and the two octets of its id, high one first |
| SdpBuf.Buf.RoomForAttribute | libs/src/sdp.c:2523-2593 | in every state an append run can reach, an append of at most 256 octets stays inside the grown buffer, header and shift included |
| SdpBuf.SealedShape | libs/src/sdp.c:2523-2578 | what a run of appends leaves has an 8-bit header exactly while it is at most 255 octets in all, a 16-bit one afterwards, and a length field that is right if and only if the body is at most 65535 octets |
| SdpBuf.SealAgain | libs/src/sdp.c:2523-2578 | appends compose: appending to what earlier appends left gives what one append of everything gives, whichever of them caused the shift |
| SdpBuf.Assembled | libs/src/sdp.c:711-829 | patching the length before or after the body is printed gives the same octets |
| SdpExtract.RoundTripIff | libs/src/sdp.c:1238-1294 | for every well-typed tree and any trailing octets, reading the encoding gives the same tree and consumes exactly the encoding if and only if no 16-bit string with content and no 32-bit string occurs at any depth, 8-bit strings are below 256 octets, and in every sequence the last element starts inside the (truncated, signed) announced length |
| SdpExtract.LoopRoundTripIff | libs/src/sdp.c:1193-1236 | the same for the element loop, which is given the whole remaining buffer and not just the sequence's own octets |
| SdpExtract.StrRead | libs/src/sdp.c:1058-1131 | a printed string is read back, with the right count, if and only if it is an 8-bit string of at most 255 octets or an empty 16-bit one |
| SdpExtract.StrReads | libs/src/sdp.c:1058-1131 | exactly what reading any printed string returns: a 32-bit one is refused, any other is cut to its wrapped length field, and for 16-bit strings the length is counted twice |
| SdpExtract.FixedRoundTrip | libs/src/sdp.c:960-1053 | every integer, boolean, nil and UUID element is read back, whatever follows |
| SdpExtract.Derailed | libs/src/sdp.c:1193-1236 | one element that is not recovered always spoils the tree or the count of the sequence around it: later octets cannot make up for it |
| SdpExtract.UsedIsCost | libs/src/sdp.c:1238-1294 | over arbitrary octets the count reported depends on the returned element alone: its encoded size plus once more the length of each 16-bit string |
| SdpExtract.FittingRecoverable | libs/src/sdp.c:1238-1294 | elements with 8-bit strings whose lengths fit their fields meet the round trip condition |
| SdpExtract.WholeReads | libs/src/sdp.c:1193-1294 | the tree alone is read back, whatever follows, also when the last element, at any depth, is a 16-bit string |
| SdpExtract.ReadsAtLeast | libs/src/sdp.c:1238-1294 | a tree that is read back is never reported as smaller than its encoding |
| SdpExtract.LongStringMiscounted | libs/src/sdp.c:1090-1130 | the concrete four-octet string that is reported as five |
| SdpExtract.HangIff | libs/src/sdp.c:1193-1236 | over arbitrary octets, reading never returns if and only if a sequence loop gets to a nested sequence whose header is cut short |
| SdpExtract.NoProgressIff | libs/src/sdp.c:1193-1206 | an element is returned with nothing consumed if and only if it is a sequence with a cut header |
| SdpExtract.CutHeaderHangs | libs/src/sdp.c:1193-1236 | the concrete three octets on which reading never returns |
| SdpExtract.NegativeLengthReadsEmpty | libs/src/sdp.c:1193-1236 | a 32-bit sequence whose length has its top bit set is read as empty, whatever follows, because the length is signed |
| SdpExtract.UnreadableEnds | libs/src/sdp.c:1193-1236 | an element that cannot be read ends the sequence around it, which is returned with what was read before |
| SdpExtract.Terminates | libs/src/sdp.c:1137-1294 | unless the buffer ends in what looks like a cut sequence header, reading returns and every element returned consumes something |
| SdpExtract.BoundedIff | libs/src/sdp.c:1058-1294 | over arbitrary octets, the cursor leaves the buffer inside a loop, or an element reports more than the buffer holds, if and only if the reader gets to a 16-bit string that fits once but not with its text counted twice |
| SdpExtract.LongStringOverruns | libs/src/sdp.c:1193-1236 | the concrete six octets on which a loop goes on behind the buffer |
| SdpExtract.Bounded | libs/src/sdp.c:1058-1294 | if no element is read at a 16-bit string, whatever the octets elsewhere, the cursor stays in the buffer and no element reports more than the buffer holds |
| SdpExtract.OverReports | libs/src/sdp.c:1058-1294 | seen from the result: an element that reports more than the buffer holds contains a 16-bit string with content |
| SdpExtract.ExtractTyped | libs/src/sdp.c:960-1294 | whatever the octets, an element that is returned has legal widths and values in range at every depth |
| SdpUuid.ToShortForm | libs/src/sdp.c:2474-2498 | the loop over the base UUID finds the shortest spelling, and reports whether there is one |
| SdpUuid.WidenIs | libs/src/sdp.c:2408-2468 | the full form of a short UUID octet by octet: its value in front of the base UUID |
| SdpUuid.NarrowWiden | libs/src/sdp.c:2408-2498 | widening then narrowing keeps the numeric value, and spells it in 16 bits exactly when it fits |
| SdpUuid.WidenNarrow | libs/src/sdp.c:2408-2498 | narrowing never changes which UUID is meant |
| SdpUuid.SameUuid | libs/src/sdp.c:2408-2498 | 16-bit and 32-bit spellings have the same full form exactly when their values are equal |
| SdpList.InsertSorted | libs/src/sdp.c:1578-1596 | the walk inserts before the first entry that is not smaller |
| SdpList.InsertedIncreasing | libs/src/sdp.c:1578-1596 | inserting a new key keeps a list strictly increasing |
| SdpList.InsertedMembers | libs/src/sdp.c:1578-1596 | the list gains exactly the new entry |
| SdpList.Find | libs/include/bluetooth/sdp_lib.h:58-64 | finds the first entry with the key, or none when there is none |
| SdpList.IncreasingUnique | libs/src/sdp.c:1578-1596 | a strictly sorted list is determined by its entries, so the order of insertions cannot be seen |
| SdpRecord.MemcmpIsNumeric | libs/src/sdp.c:2396-2401 | comparing full UUIDs octet by octet orders them as 128-bit numbers |
| SdpRecord.Record.AttrAdd | libs/src/sdp.c:603-617 | adds the attribute in order, and refuses exactly when the id is there already |
| SdpRecord.Record.AttrRemove | libs/src/sdp.c:619-628 | removes the first entry with the id and nothing else |
| SdpRecord.Record.AttrReplace | libs/src/sdp.c:850-864 | removal and sorted insertion make one replacement |
| SdpRecord.Record.PatternAddUuid | libs/src/sdp.c:2923-2937 | adds the full form of the UUID in order unless it is there |
| SdpRecord.GetRepresents | libs/src/sdp.c:1470-1482 | lookup in the list agrees with lookup in the finite map it lists, both ways |
| SdpRecord.ApplyRepresents | libs/src/sdp.c:603-864 | add, replace and remove on the list are insert-if-absent, update and removal on the map |
| SdpRecord.RunRepresents | libs/src/sdp.c:603-864 | after any run of add, replace and remove the list is strictly increasing by id and lists exactly the map on which the same run was made |
| SdpRecord.PatternAllSet | libs/src/sdp.c:2923-2937 | after any run of additions the pattern is strictly sorted and holds exactly the full forms of the UUIDs added, each once whatever the spellings |
| SdpRecordPdu.GenRecordPdu | libs/src/sdp.c:836-848 | the append loop yields one sequence around all attributes in list order |
| SdpRecordPdu.ExtractAttr | libs/src/sdp.c:1238-1294 | returns what the recursive reader specifies, and leaves in the pattern exactly the UUIDs of the returned element, at any depth |
| SdpRecordPdu.ExtractSequence | libs/src/sdp.c:1193-1236 | the cursor loop refines the recursive reader, stuck and cut-off cases included |
| SdpRecordPdu.ExtractPdu | libs/src/sdp.c:1326-1387 | over arbitrary octets the attribute loop refines the recursive record reader, and the count reported is header plus announced length |
| SdpRecordPdu.NoHeader | libs/src/sdp.c:1137-1184 | octets without a whole sequence header are read as an empty record with nothing scanned |
| SdpRecordPdu.UnreadableAttribute | libs/src/sdp.c:1339-1381 | an attribute whose value cannot be read ends the record before it |
| SdpRecordPdu.RecordRoundTripIff | libs/src/sdp.c:1326-1387 | for every record with increasing 16-bit ids whose values are recoverable, the last one only as a tree, and any octets behind it, reading the printed record gives the same attributes in order and the pattern of all its UUIDs and reports exactly the PDU as scanned, if and only if the body is at most 65535 octets; what goes wrong above is in AttributesIff |
| SdpRecordPdu.AttributesIff | libs/src/sdp.c:1326-1387 | for every such record the reader returns the first so many attributes, and all of them if and only if the last one starts inside the body's length modulo 65536; when the last one is at most 256 octets, which is all the printer has room for, if and only if the body is at most 65535 octets |
| SdpRecordPdu.AttrsReadIff | libs/src/sdp.c:1339-1381 | under any announced length up to the body's the attribute loop returns a prefix of the attributes, and all of them with the pattern of their UUIDs exactly when the last one starts inside that length |
| SdpRecordPdu.AttrsRead | libs/src/sdp.c:1339-1381 | under the right length the attribute loop reads any well-formed list, with its pattern |
| SdpRecordPdu.LongStringLast | libs/src/sdp.c:1326-1387 | a record that ends in a 16-bit string comes back whole, although the string's own count is wrong |
| SdpRecordPdu.RecordPattern | libs/src/sdp.c:1039-1053 | the pattern of a record that was read back is strictly sorted and is the set of the 128-bit forms of its UUIDs at any depth |
| SdpElement.UuidsOccur | libs/src/sdp.c:1039-1053 | the UUIDs collected from an element are exactly those that occur in it, at any depth |
| SdpRecordPdu.LargeRecordIsLost | libs/src/sdp.c:836-848 | a concrete record of 320 printable attributes that is read as a record with fewer |
| SdpProcess.Transaction.OnResponse | libs/src/sdp.c:3851-4032 | refines the response function on arbitrary octets, and goes on exactly when no callback was made |
| SdpProcess.Transaction.Gather | libs/src/sdp.c:3970-4032 | accumulates the payload, then ends the transaction or sends the request again with the continuation state |
| SdpProcess.GoodPart | libs/src/sdp.c:3851-4032 | a well-formed part under the current transaction id is accumulated; the last one ends the transaction with status 0, any other sends the original request with exactly its continuation state behind it |
| SdpProcess.Reassembly | libs/src/sdp.c:3851-4032 | a response split in any way ends in exactly one callback, status 0, with the octets of all parts; the requests in between are, octet by octet, the original one with each continuation state in turn under consecutive transaction ids |
| SdpProcess.AttrsAccumulate | libs/src/sdp.c:3943-3963 | for attribute responses the caller gets the payloads run together |
| SdpProcess.SearchAccumulates | libs/src/sdp.c:3901-3942 | for searches the caller gets the first total, one count field and all handles in order |
| SdpProcess.CountIff | libs/src/sdp.c:3901-3942 | that count is the sum of the parts' counts if and only if the sum fits the field and the low octets of the counts add up to at most 255, because the addition is done on unswapped values |
| SdpProcess.CarryIsLost | libs/src/sdp.c:3901-3942 | a concrete split search whose count comes out wrong |
| SdpProcess.ProcessStep | libs/src/sdp.c:3851-4032 | any response at all either ends the transaction with one callback or has one follow-up request sent under the next transaction id |
| SdpProcess.ForeignFails | libs/src/sdp.c:3890-3895 | a response to another request or of another length than it says ends the transaction with status ffff and what was accumulated |
| SdpProcess.ErrorEnds | libs/src/sdp.c:3957-3963 | an error response ends it with the code in its first parameter |
| SdpProcess.UnknownFails | libs/src/sdp.c:3964-3968 | a response of any other kind ends it with status ffff |
| SdpProcess.AttrResponseIs | libs/src/sdp.c:3943-4018 | an attribute response is taken if and only if list and continuation state fill it exactly; then the list is accumulated, and the transaction ends with status 0 or goes on under the next id |
| SdpProcess.SearchResponseIs | libs/src/sdp.c:3901-4018 | a search response is taken if and only if its count is at most its total and handles and continuation state fill it exactly; a wrong size is found only after the count has been added |
| SdpProcess.AnyResponses | libs/src/sdp.c:3851-4032 | under any sequence of responses, malformed ones included, there is at most one callback, and every request sent has the original id and parameters, a right length field and a complete continuation state, and fits the request buffer |
| AvdtpPacket.Send | utils/audio/avdtp.c:450-539 | the sending loop produces the single packet, or start, continue and end packets |
| AvdtpPacket.PacketsFit | utils/audio/avdtp.c:450-539 | no packet is empty or exceeds the MTU |
| AvdtpPacket.Receiver.ParseData | utils/audio/avdtp.c:1549-1670 | refines the receive function on any packet in any state: accepted, fragment or error |
| AvdtpPacket.ReceivesIff | utils/audio/avdtp.c:1549-1654 | in any state any packet is taken if and only if its octets suit the state (a start only when idle, a continuation only under the active transaction and on the right side of the count) and its payload fits; a header that does not suit changes nothing |
| AvdtpPacket.ReceivesIs | utils/audio/avdtp.c:1549-1670 | what taking a packet does to label, buffer, counts and result, octet by octet |
| AvdtpPacket.ForeignEndRefused | utils/audio/avdtp.c:1633-1636 | the end packet of another transaction is refused |
| AvdtpPacket.Receiver.StorePayload | utils/audio/avdtp.c:1650-1669 | copies behind what is stored, with the count of stored octets wrapping at 256, and completes on the last fragment |
| AvdtpPacket.TailCount | utils/audio/avdtp.c:509-536 | the number of packets after the first is the remaining length over MTU - 1, rounded up |
| AvdtpPacket.AnnouncedCount | utils/audio/avdtp.c:482-483 | the announced number is right exactly when the last packet is not full, else one too high |
| AvdtpPacket.TailCompletes | utils/audio/avdtp.c:1601-1669 | with the right number announced every packet is taken and the payload is complete with the end packet |
| AvdtpPacket.TailFails | utils/audio/avdtp.c:1625-1644 | with too high a number announced the end packet is an error |
| AvdtpPacket.FragmentationIff | utils/audio/avdtp.c:1549-1670 | for every payload, header fields and MTU of at least 3, the receiver reports fragments and then success with the same payload, transaction, type and signal, and is idle again, if and only if the payload is at most 255 octets and is sent whole or leaves a tail that is not a multiple of MTU - 1 |
| AvdtpPacket.FullTailIsLost | utils/audio/avdtp.c:482-483 | a concrete message over an MTU of 48 that is lost |
| AvdtpScheduler.Session.SubmitAll | utils/audio/avdtp.c:1997-2038 | what a handler submits, one request after the other: sent at once when connected and idle, else queued by class |
| AvdtpScheduler.Session.Handle | utils/audio/avdtp.c:1672-2038 | the object steps as the transition function for every event and keeps the invariant |
| AvdtpScheduler.InvNext | utils/audio/avdtp.c:1734-2038 | every event, timeouts with callbacks included, keeps: at most one command outstanding and that the last one sent, an idle connected session has empty queues, queues are homogeneous, labels count modulo 16 |
| AvdtpScheduler.UrgentFirstIff | utils/audio/avdtp.c:2576-2598 | no event sends more than one command, and an ordinary request passes waiting urgent ones if and only if the callback of a timed-out command (1903-1995) submits it first; for any other event nothing urgent is left waiting when an ordinary request goes out |
| AvdtpScheduler.LedgerNext | utils/audio/avdtp.c:1894-2038 | for each class, sent followed by queued grows only at its end and by exactly what the event submits, unless a timeout jumps the queue |
| AvdtpScheduler.KeepsTurnIff | utils/audio/avdtp.c:1903-1995 | an event keeps a class first-in first-out if and only if it is not a timeout whose first submission, from the callback or the abort, is of that class while others of the class wait |
| AvdtpScheduler.TimeoutLedger | utils/audio/avdtp.c:1903-1995 | where everything a timeout submits ends up: the first before all that waits, the rest behind it |
| AvdtpScheduler.AbortOvertakes | utils/audio/avdtp.c:1981-1988 | a concrete run: a suspend times out, its callback suspends again, that times out too, and the second abort goes out before the first |
| AvdtpScheduler.CallbackOvertakes | utils/audio/avdtp.c:1935-1967 | the same run with a third suspend from the callback, which goes out before the waiting abort |
| AvdtpScheduler.StaleReplyIgnored | utils/audio/avdtp.c:1739-1747 | a late reply to any of the fifteen commands before the outstanding one changes nothing, whatever its signal |
| AvdtpScheduler.ReplyIff | utils/audio/avdtp.c:1734-1787 | a reply changes anything if and only if it carries both the label and the signal of the command outstanding on a connected session; it then loses the connection if it does not parse, and otherwise closes exactly that command |
| AvdtpScheduler.ConnectIs | utils/audio/avdtp.c:2576-2598 | connecting happens once and sends the head of the urgent queue, else of the other |
| AvdtpScheduler.TimeoutIs | utils/audio/avdtp.c:1903-1995 | what a timeout does, by signal number: which lose the connection, which are told to a callback, and what goes out |
| AvdtpScheduler.EveryRun | utils/audio/avdtp.c:1672-2038 | over every run, timeouts and callbacks included, the invariant holds, and each class in which no timeout jumps the queue is first-in first-out: what was sent followed by what is queued is what was submitted, in order, nothing lost or doubled |
| AvdtpScheduler.UsualNext | utils/audio/avdtp.c:2057-2101 | with the submissions the library itself makes, and callbacks of timed-out commands that submit nothing, only get-capabilities requests ever wait as urgent and one of them is then outstanding, so that no event jumps a queue or passes an urgent request |
| AvdtpScheduler.UsualRun | utils/audio/avdtp.c:1672-2101 | so over every such run of a new session, timeouts and lost connections included, both classes are first-in first-out and no ordinary request goes out while an urgent one waits, without further conditions |
| AvdtpScheduler.InitialInv | utils/audio/avdtp.c:1997-2038 | a new session is in the invariant with nothing submitted |
| AvdtpAcceptor.Session.FindLocalSep | utils/audio/avdtp.c:979-991 | finds the first end point with the id |
| AvdtpAcceptor.Session.SepSetState | utils/audio/avdtp.c:782-845 | going idle unlinks and frees the stream and clears a pending open on it; any other state only changes the state |
| AvdtpAcceptor.Session.ShiftLoop | utils/audio/avdtp.c:1407-1460 | the loop of start and suspend, which looks up the first end point every time |
| AvdtpAcceptor.Session.Lose | utils/audio/avdtp.c:874-917 | the release loop over all streams |
| AvdtpAcceptor.Session.Handle | utils/audio/avdtp.c:1672-1793 | the object steps as the transition function for every event and keeps the invariant |
| AvdtpAcceptor.IdleInv | utils/audio/avdtp.c:782-845 | going idle keeps the invariant, removes exactly that stream and touches no other end point |
| AvdtpAcceptor.BusyInv | utils/audio/avdtp.c:782-845 | a change to another busy state keeps the invariant when its transport condition holds |
| AvdtpAcceptor.HandleInv | utils/audio/avdtp.c:1124-1496 | every command keeps the invariant |
| AvdtpAcceptor.TransportConnectedInv | utils/audio/avdtp.c:736-780 | a transport coming in keeps the invariant, also for a stream aborted meanwhile |
| AvdtpAcceptor.OpenTimedOutInv | utils/audio/avdtp.c:562-575 | the open timer keeps the invariant |
| AvdtpAcceptor.ConnectionLostClears | utils/audio/avdtp.c:864-917 | after the connection is lost every end point is idle and unlinked and no stream, list entry or pending open is left |
| AvdtpAcceptor.SetConfigurationIs | utils/audio/avdtp.c:1124-1196 | the answer in every case, and on acceptance a new unconnected stream on that end point and no other change |
| AvdtpAcceptor.OpenIs | utils/audio/avdtp.c:1250-1299 | the answer in every case, and on acceptance the stream awaited with the end point still configured |
| AvdtpAcceptor.StartIs | utils/audio/avdtp.c:1301-1354 | the answer in every case, and exactly when the first end point named starts streaming |
| AvdtpAcceptor.SuspendIs | utils/audio/avdtp.c:1407-1460 | the answer in every case, and exactly when the first end point named is open again |
| AvdtpAcceptor.CloseIs | utils/audio/avdtp.c:1356-1405 | the answer in every case; an accepted close moves that end point to closing and changes nothing else |
| AvdtpAcceptor.AbortIs | utils/audio/avdtp.c:1462-1496 | the answer in every case; an accepted abort moves that end point to aborting and changes nothing else |
| AvdtpAcceptor.CommandIs | utils/audio/avdtp.c:1716-1723 | a command takes effect if its answer goes out, and loses the connection if not or if it is malformed |
| AvdtpAcceptor.LinkIs | utils/audio/avdtp.c:874-917 | losing the signalling channel leaves every end point idle and nothing else, under their old ids |
| AvdtpAcceptor.TransportIs | utils/audio/avdtp.c:736-780 | an incoming transport connects the stream awaited, opens its end point and leaves nothing awaited |
| AvdtpAcceptor.HangupIs | utils/audio/avdtp.c:719-734 | a transport that goes away takes exactly its own stream with it |
| AvdtpAcceptor.OpenTimerIs | utils/audio/avdtp.c:562-575 | an expired open timer leaves nothing awaited, and aborts the end point unless it is merely configured |
| AvdtpAcceptor.InvNext | utils/audio/avdtp.c:1672-1793 | every event keeps the invariant |
| AvdtpAcceptor.EveryRun | utils/audio/avdtp.c:678-917 | in every run an end point is busy exactly when it has a stream, that stream is in the session list once and points back, and open or streaming implies a connected transport |
| AvdtpAcceptor.StepsAreLegal | utils/audio/avdtp.c:782-845 | in one step an end point only moves along the arrows of the state machine; the one unexpected arrow is from aborting to open when an awaited transport comes late |
| AvdtpAcceptor.ShiftAllIs | utils/audio/avdtp.c:1301-1354 | start and suspend move the first end point and succeed only when exactly one is named |
| AvdtpAcceptor.InitialInv | utils/audio/avdtp.c:1124-1196 | idle end points without a session are in the invariant |
| AvdtpCaps.Serialise | utils/audio/avdtp.c:2786-2802 | sizing and copying fill the request exactly with the capabilities in order |
| AvdtpCaps.CapsToList | utils/audio/avdtp.c:1013-1047 | the loop returns the parsed list, and as codec the last media codec entry with at least two octets of data |
| AvdtpCaps.CapLayout | utils/audio/avdtp.c:1020-1036 | a capability is its category, the length of its data and the data |
| AvdtpCaps.CodecIs | utils/audio/avdtp.c:1039-1042 | the codec is the last entry of category 7 with at least two octets, by position |
| AvdtpCaps.ParsedPrefix | utils/audio/avdtp.c:1013-1047 | on any octets the parsed list serialises to a prefix of the data, and what is left over does not hold another entry |
| AvdtpCaps.ParseInverts | utils/audio/avdtp.c:1013-1047 | parsing a serialised list gives it back, except that a last entry without data is lost |
| SlotTable.Scan | hcidump/parser/parser.c:146-168 | one scan finds the key's slot, else the first free one |
| SlotTable.Stored | hcidump/parser/parser.c:146-168 | storing at the slot found is a map update and keeps keys distinct |
| SlotTable.Cleared | hcidump/parser/cmtp.c:93-126 | clearing a key's slot is a map removal |
| SlotTable.FullIff | hcidump/parser/cmtp.c:57-68 | no slot is free if and only if the map has as many keys as there are slots |
| SlotTable.AlwaysRoom | hcidump/parser/parser.c:146-168 | while the keys in use are no more than the slots, every key finds one |
| Ppp.UnslipFrame | hcidump/parser/ppp.c:132-165 | the unescape loop over the array yields the unescaped frame; an escape before the closing flag takes that flag as its octet |
| Ppp.FlipIs | hcidump/parser/ppp.c:145-147 | an escaped octet differs in bit 5 and in no other |
| Ppp.EscapedFlag | hcidump/parser/ppp.c:132-229 | a concrete frame with an escaped flag in it |
| Ppp.TrailingEscape | hcidump/parser/ppp.c:144-150 | an escape right before the closing flag takes that flag as the escaped octet |
| Ppp.FrameLoop | hcidump/parser/ppp.c:203-228 | the loop over the buffer yields the frames and keeps the rest |
| Ppp.DeframeConcat | hcidump/parser/ppp.c:203-228 | deframing what was kept followed by the next chunk continues exactly where deframing stopped |
| Ppp.RestIsQuiet | hcidump/parser/ppp.c:203-228 | what is kept never holds a complete frame |
| Ppp.Dumper.CheckForTraffic | hcidump/parser/ppp.c:47-70 | the three searches, in their order |
| Ppp.DetectIs | hcidump/parser/ppp.c:43-70 | what is recognised and where: the first place of the first of the three octet strings that occurs at all with an octet behind it |
| Ppp.Dumper.Feed | hcidump/parser/parser.c:146-202 | the chunk goes behind what its own stream kept, and other streams are untouched; with the table full it is deframed alone |
| Ppp.Dumper.Dump | hcidump/parser/ppp.c:167-229 | refines the step on the map of kept octets while the stream has or gets a slot |
| Ppp.NoSlotIff | hcidump/parser/parser.c:118-164 | a stream finds no slot if and only if twenty others have one |
| Ppp.DumpAll | hcidump/parser/ppp.c:167-229 | over any interleaving of at most twenty streams the table implementation hands on, stream by stream, what the map specification says |
| Ppp.ChunkingIndependence | hcidump/parser/ppp.c:167-229 | once PPP is recognised, however the streams are cut and interleaved, the frames of a stream are those of its octets in one piece |
| Ppp.FromStart | hcidump/parser/ppp.c:187-229 | from a fresh dumper, in any interleaving of streams, what precedes the first recognition in any of them is lost, and from there on chunks do not matter |
| Ppp.LateStart | hcidump/parser/ppp.c:203-228 | starting later loses exactly the frames that end at or before the first flag from there on |
| Ppp.FramesIff | hcidump/parser/ppp.c:203-228 | octets yield a frame if and only if something that is not a flag stands between two flags |
| Ppp.RecognitionIff | hcidump/parser/ppp.c:187-229 | from a fresh dumper, two runs with the same octets on a stream, cut and interleaved with other streams in any two ways (one of them may be the whole stream in one piece), give it the same frames if and only if nothing stands between two flags from the earlier start to the first flag at or after the later one |
| Ppp.SplitMagicIsMissed | hcidump/parser/ppp.c:47-70 | a concrete stream whose frame is lost because its opening is split between chunks |
| Ppp.UnslipStuff | hcidump/parser/ppp.c:132-165 | unescaping undoes the octet stuffing of section 4.2 of RFC 1662, which leaves no flag in a frame |
| Ppp.StuffedFramesComeBack | hcidump/parser/ppp.c:132-229 | stuffed frames with one flag between neighbours, after any noise, come back as their contents |
| Cmtp.Reassembler.AddSegment | hcidump/parser/cmtp.c:47-91 | appends to the block's buffer, making a slot if there is room, and drops the segment if there is none |
| Cmtp.Reassembler.FreeSegment | hcidump/parser/cmtp.c:93-126 | empties the buffer and releases the slot when all sixteen are empty |
| Cmtp.Reassembler.GetSegment | hcidump/parser/cmtp.c:128-141 | finds the buffer exactly when the connection is in the table |
| Cmtp.Reassembler.HandleBlock | hcidump/parser/cmtp.c:184-206 | one block: complete, segment or error |
| Cmtp.Reassembler.Dump | hcidump/parser/cmtp.c:159-211 | the cursor loop applies the blocks of the frame in order to the map the table stands for, and delivers what they complete |
| Cmtp.BlockReads | hcidump/parser/cmtp.c:165-180 | reading a block undoes sending it, with status, block id and length in their bits, whatever follows |
| Cmtp.Reassembly | hcidump/parser/cmtp.c:159-211 | over any interleaving in which no block that needs a slot finds the table full, each message delivered is the concatenation of its own segments since the last completion or error, and the table holds exactly what is pending |
| Cmtp.FewConnections | hcidump/parser/cmtp.c:57-68 | a run over at most ten connections never finds the table full |
| Cmtp.EleventhDropped | hcidump/parser/cmtp.c:57-68 | with ten connections in the table an eleventh is dropped, with fewer it is kept |
| Cmtp.TenConnections | hcidump/parser/cmtp.c:159-211 | so from the empty table such a run delivers exactly the messages it should |
| Cmtp.ReleasedWhenEmpty | hcidump/parser/cmtp.c:119-125 | freeing a block releases the slot if and only if the other fifteen buffers are empty |
| L2cap.Recombiner.GetFrame | hcidump/parser/l2cap.c:68-91 | the handle's entry, made if there is none and room is left |
| L2cap.Recombiner.Dump | hcidump/parser/l2cap.c:892-966 | refines the step on the map of partial PDUs and delivers what a fragment completes; an oversized continuation drops the partial PDU, and an oversized start keeps what went past its buffer |
| L2cap.AnnouncedIs | hcidump/parser/l2cap.c:898-902 | the announced size is the little-endian length field plus four |
| L2cap.FragmentIs | hcidump/parser/l2cap.c:892-966 | what every fragment does, case by case: whole, start, unexpected, too long, completing, partial |
| L2cap.EleventhDropped | hcidump/parser/l2cap.c:68-91 | with ten handles in the table an eleventh is dropped, with fewer its start fragment is kept |
| L2cap.HandlesAreIndependent | hcidump/parser/l2cap.c:892-966 | over any interleaving that never finds the table full, a handle delivers exactly what its own fragments complete by themselves |
| L2cap.FewHandles | hcidump/parser/l2cap.c:68-91 | a run over at most ten handles never finds the table full |
| L2cap.PduRecombined | hcidump/parser/l2cap.c:892-966 | a PDU cut in any way, empty fragments included, is delivered once and whole, also over an unfinished one |
| L2cap.ContinuationCompletes | hcidump/parser/l2cap.c:936-965 | it is delivered with its last fragment that is not empty, and not before |
| L2cap.Recombination | hcidump/parser/l2cap.c:892-966 | in any such interleaving, a handle that sends PDUs one after the other, each cut in its own way, delivers exactly those PDUs in order |
| L2cap.BoundedNextIff | hcidump/parser/l2cap.c:912-922 | a fragment keeps every handle's octets below the announced size if and only if it is not a start fragment longer than its PDU that is given an entry |
| L2cap.AlwaysBoundedIff | hcidump/parser/l2cap.c:892-966 | over any run the octets buffered stay below the announced sizes throughout if and only if every start fragment longer than its PDU finds the table full; while the table is never full, if and only if there is no such fragment |
| L2cap.LongStartOverflows | hcidump/parser/l2cap.c:912-922 | five concrete octets that start a PDU of four |
| LmpPairing.Automaton.Handle | hcidump/parser/lmp.c:104-168 | the four handlers, and a dump exactly on the closing response |
| LmpPairing.TracksNext | hcidump/parser/lmp.c:104-168 | every event keeps: the phase is the one stretch of a pairing the history ends with, and the values stored are copied from that stretch |
| LmpPairing.DumpIff | hcidump/parser/lmp.c:104-168 | in every event sequence the dump fires if and only if the last seven events are those of a pairing, and the values dumped are the 16 or 4 octets copied from each, in order |
| LmpPairing.DumpedValues | hcidump/parser/lmp.c:104-168 | the values dumped, event by event: 16 octets of every random number and key, 4 of each response |

## Left out

- Sockets, poll, D-Bus, GLib channels and timers: sends, timeouts and channels coming and going are events or recorded output.
- `utils/audio/a2dp.c`, `control.c`, `device.c`, `main.c` and the GStreamer elements: wrappers over other services.
- `libs/src/hci.c` and the field printers of `hcidump/parser/`: request wrappers and string tables would only add easy members.
- The synchronous SDP requests: the same reassembly as `sdp_process`, tied to blocking reads.
- The L2CAP channel-id tables, `l2cap_clear`, `del_frame` and the protocol table of `hcidump/parser/parser.c`.
- AVDTP as initiator beyond scheduling: races between both roles, session reference counts, reconnecting after a loss, and unregistering end points.
- AVDTP get-capability and get-configuration answers, and discovery.
- Allocation failure, `free`, debug output and big-endian hosts.
- Overflow of C `int` cursors and counters, which are unbounded here unless named above.
- Pointer aliasing: linked lists and the static tables are sequences held in fields; only `sdp_buf_t`, the AVDTP receive buffer, the capability request and the PPP output are arrays written in place.
- Descriptors the SDP printer does not know, the record's `handle` and `svclass` copies, and `unitSize`.
- SdpExtract.Terminates: a sufficient condition on the octets alone; the exact one follows the reader's cursor and is SdpExtract.HangIff.
- SdpExtract.Bounded: a sufficient condition; the exact one is SdpExtract.BoundedIff.
- SdpExtract.OverReports: one direction, since a returned element with 16-bit strings need not exceed the buffer; the exact condition on the octets is SdpExtract.BoundedIff.
- SdpRecordPdu.RecordRoundTripIff: assumes that each value by itself survives, the last one as a tree; what a record with other values is read as depends on the octets behind it and is not characterised, here or in SdpRecordPdu.AttributesIff.
- SdpRecordPdu.GenRecordPdu: asks for attributes of at most 256 encoded octets, the size of the scratch buffer the code prints them into without a check.
- SdpBuf.Buf.AppendToPdu: asks for the same 256 octets.
- SdpBuf.Buf.AppendToBuf: asks for room as the code computes it, since the code does not check that header and shift fit as well; SdpBuf.Buf.RoomForAttribute gives the room.
- SdpProcess.Transaction.OnResponse: a response that cannot be read and a follow-up that cannot be sent are not modelled; octets beyond a short response read as the zeros the buffer was filled with; a search part after one to three octets of attribute parts is taken as a first part, where the code would add to a count it does not hold.
- AvdtpPacket.Send: every packet is taken by the socket, and the MTU is at least 3; with less the code's packet sizes are negative.
- AvdtpScheduler.Session.SubmitAll: every command sent is taken by the socket; a failed send, which loses its request, is not an event.
- AvdtpScheduler.Session.Handle: submitting on a lost session does nothing, where the code would connect again.
- AvdtpScheduler.UsualRun: runs in which the callback of a timed-out command submits requests fall under AvdtpScheduler.EveryRun, AvdtpScheduler.KeepsTurnIff and AvdtpScheduler.UrgentFirstIff instead.
- AvdtpScheduler.EveryRun: one session, so that its labels are consecutive; the code's counter is shared by all sessions.
- AvdtpAcceptor.EveryRun: one session, and end points configured only by the remote side; whether the capabilities of a set-configuration pass the media transport check is given with the command.
- Ppp.Dumper.Dump: before recognition chunks have at least 7 octets; shorter ones the code would search beyond their end.
- Ppp.RecognitionIff: takes such short chunks as not recognised.
- Cmtp.Reassembler.Dump: asks for frames whose blocks lie within them, and keys are nonzero; the code checks neither.
- L2cap.Recombiner.Dump: asks for start fragments that hold their length field, and handles are nonzero; the code checks neither. What a write past the buffer does to other memory is not modelled, nor is a total of 2^32 octets.
- L2cap.Recombination: PDUs of the two directions of one handle are taken to be in one order, as the table has one entry for both.
- LmpPairing.Automaton.Handle: of a payload shorter than 16 or 4 octets all is copied, where the code reads on behind it.
