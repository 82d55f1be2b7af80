# A verified model of go-cotp

go-cotp is a TP0 (class 0) transport over TPKT: X.224 TPDUs in the profile of RFC 1006 and RFC 2126. This project models
its four linked cores and proves what they promise, up to one claim about the whole: two peers that complete a handshake
agree on their parameters, and TSDUs then arrive whole and in order, whatever interleaving of calls, failures,
cancellations and closes happens (`EndToEnd.HandshakeThenTransfer`).

| file | what it holds |
|---|---|
| `types.dfy` | octets, 16-bit fields, errors as the set of sentinels `errors.Is` finds |
| `preferred_max.dfy`, `params.dfy`, `frame.dfy`, `codec.dfy` | TLV parsing and printing, the CR, CC, DT, DR, ER and ED codecs, dispatch |
| `octets.dfy` | the same TPDUs octet by octet: what stands where in each encoding, what each decoder accepts, reads and reports |
| `size_nego.dfy` | offer, decoding, selection and interpretation of the TPDU size |
| `references.dfy`, `lifecycle.dfy` | the 16-bit reference allocator, and who owns a reference until when |
| `transfer.dfy` | what becomes of one TSDU: segmentation, packet acceptance, reassembly, the cause of an I/O failure |
| `deadline.dfy` | stream deadlines guarded by generations |
| `sending.dfy`, `receiving.dfy` | concurrent WriteTSDU and ReadTSDU calls as step systems |
| `endpoint.dfy` | one end of a connection: both directions and one terminal cause, against a peer that may send anything |
| `link.dfy` | two such ends, each reading what the other writes |
| `timed.dfy` | one end together with the stream deadlines its contexts set |
| `conn.dfy` | the connection object, whose methods perform an end's steps while others may end it and the peer sends anything |
| `establish.dfy`, `handshakes.dfy` | the handshake's decisions, and Connect and Accept as they run on a stream |
| `outcomes.dfy` | every ending of a handshake in plain numbers: which CRs, decisions and CCs are accepted, what else is answered, with what error |
| `attainable.dfy` | runs that show the step systems to do their work: any sequence of TSDUs can arrive, an operation can time out |
| `end_to_end.dfy` | handshake, then transfer |

Methods follow the source's own loops and assignments and are proved equal to specification functions; lemmas then say
what those functions mean, with the numbers of the protocol written out (`Octets`, `Outcomes`, and the lemmas named
`...Is`, `...Read` and `...Iff`). The concurrent parts are step systems: a step is one access to shared state, an event sequence
is an interleaving, and the theorems of `Endpoint`, `Link` and `Lifecycle` hold in every state any event sequence
reaches, those of `Timed` likewise. What concerns one end is proved there, for any peer; only the claims that compare two ends need the peer to be
an end of the same library.

Four points where the code decides against what one might expect, each stated by a lemma:

- A DT without DestinationRef but with parameters encodes and does not decode back. `Codec.DataRoundTrip` gives the exact
  condition, `Codec.DataRoundTripFails` such a DT.
- The negotiated size is monotone in the ceilings for a fixed offer (`SizeNego.SelectIsMonotone`), but not always in the
  client's own ceiling, which also decides on the scale. `SizeNego.MonotoneInClientIff` says exactly when it is,
  `SizeNego.NotMonotoneInClient` shows an exception.
- A policy can accept a CR for which no CC can be encoded; `Establish.ConfirmEncodesIff` says exactly when, and under the
  default policy it never happens (`Establish.DefaultConfirmEncodes`).
- The standard-size table goes from 0x07 to 0x10, as in size_nego.go:15-29; the table in docs/TP0_API_DESIGN.md:488-513
  stops at 2048 and is not followed.

`requireOpen` looks at the shared state twice, in two steps of the model. A call under way when its end comes returns
the bare closed error instead of the stored cause exactly when its first look came before the cause was stored and its
second after the state was (`Endpoint.ClosedErrorIff`, with `Endpoint.ClosedInsteadOfCause` as its witness).

`dafny verify dfyconfig.toml` checks the project.

## Model

| member | source | states |
|---|---|---|
| PreferredMax.ShortestIsUnique | preferred_max.go:42-54 | every octet string for a positive number is its shortest form behind leading zeros |
| PreferredMax.UnitsRoundTrip | preferred_max.go:40-68 | encoding gives the unique shortest accepted form of 1 to 4 octets of any non-zero 32-bit value; decoding inverts it and ignores leading zeros |
| PreferredMax.DecodePreferredMaxUnits | preferred_max.go:42-54 | the accumulating loop accepts exactly 1 to 4 octets of non-zero value and computes that value without wrapping |
| PreferredMax.EncodePreferredMaxUnits | preferred_max.go:57-68 | the lead scan stays inside its buffer and ends at the shortest form |
| PreferredMax.LengthUnitsInverse | preferred_max.go:16-38 | octet lengths and units are inverse to each other wherever either is defined |
| Params.ParsePrint | params.go:65-107 | parsing a printed parameter list gives the list back |
| Params.PrintParse | params.go:65-107 | printing a parsed variable part gives the input back octet for octet |
| Params.PrintsIffFits | params.go:87-107 | printing fails exactly when some value exceeds 255 octets, with the parameter-length error |
| Params.ParseVariablePart | params.go:65-82 | the position loop splits any octets as the specification does, with its errors |
| Params.AppendParameter | params.go:87-94 | appends code, length and value, or refuses a value over 255 octets |
| Params.EncodeVariablePart | params.go:98-107 | the encoding loop prints the list or fails with its first unfit value |
| Params.LastWins | params.go:22-61 | a CR/CC variable part is accepted exactly when each parameter interprets; the last of each known code wins, unknown ones stay in order |
| Params.ParseCRCCVariablePart | params.go:22-61 | the overwriting loop computes that meaning, with the source's errors |
| Params.ReencodeShrinks | params.go:22-61 | what was decoded encodes again, in no more octets than it came from |
| Params.OptionsRoundTrip | params.go:113-154 | decoding the canonical encoding gives the options back, known codes dropped from the generic list |
| Params.EncodesIff | params.go:113-154 | the canonical encoding succeeds exactly when every value fits and units are not zero; its length is the sum of its parts |
| Params.EncodeCRCCVariablePart | params.go:113-154 | the stepwise encoder produces the canonical encoding or its error |
| Params.AppendUnknown | params.go:143-153 | the last loop skips known codes and prints the rest in order |
| Frame.SplitJoin | wire.go:10-48 | header, parameters and user data come back from a joined TPDU |
| Frame.JoinSplit | wire.go:10-48 | an accepted TPDU is the join of its three stretches |
| Codec.ConnectRoundTrip | encode_cr.go:13-44 | a CR or CC that encodes decodes to itself with CDT in four bits and known codes out of the generic list |
| Codec.ConnectEncodesIff | encode_cr.go:13-44 | encoding succeeds exactly when the options fit, the header stays within 254 octets and a CR within 128 |
| Codec.DecodedConnect | decode_cc.go:15-57 | an accepted CR or CC is in normal form and fits in the octets it came from |
| Codec.ConnectReencode | decode_cr.go:17-67 | re-encoding an accepted CR or CC succeeds, never lengthens it, decodes to the same value, and a second round changes nothing |
| Codec.MarshalCR | encode_cr.go:13-44 | the stepwise CR encoder meets the specification that Octets.ConnectOctets spells out, with its two length bounds |
| Codec.MarshalCC | encode_cc.go:12-38 | the stepwise CC encoder meets the specification that Octets.ConnectOctets spells out |
| Codec.DataRoundTrip | encode_dt.go:14-70 | an encoded DT decodes back exactly when it has a DestinationRef or no parameters |
| Codec.DataRoundTripFails | encode_dt.go:22-32 | a minimal DT with a parameter encodes and does not come back |
| Codec.DataReencode | decode_dt.go:19-83 | re-encoding an accepted DT gives the input with ROA cleared |
| Codec.MarshalDT | encode_dt.go:14-70 | the stepwise DT encoder meets the specification that Octets.DataOctets spells out, in both formats |
| Codec.DisconnectInverse | decode_dr.go:15-44 | DR encoding and decoding are mutual inverses, octet for octet |
| Codec.ReportInverse | decode_er.go:14-41 | an ER decodes to itself; an accepted ER re-encodes to its first 1 + LI octets |
| Codec.ExpeditedInverse | decode_ed.go:19-56 | an ED comes back with a seven-bit number; an accepted ED re-encodes exactly |
| Codec.MarshalDR | encode_dr.go:11-39 | the stepwise DR encoder meets the specification that Octets.DisconnectOctets spells out |
| Codec.MarshalER | encode_er.go:11-32 | the stepwise ER encoder meets the specification that Octets.ReportOctets spells out |
| Codec.MarshalED | encode_ed.go:12-48 | the stepwise ED encoder meets the specification that Octets.ExpeditedOctets spells out |
| Codec.DispatchType | decode.go:10-95 | the decoded TPDU has the peeked type |
| Codec.DispatchConnect | decode.go:10-95 | whatever the CR or CC decoder accepts is decoded as that type and value |
| Codec.DispatchData | decode.go:10-95 | whatever the DT decoder accepts is decoded as that DT |
| Codec.DispatchDisconnect | decode.go:10-95 | whatever the DR decoder accepts is decoded as that DR |
| Codec.DispatchReport | decode.go:10-95 | whatever the ER decoder accepts is decoded as that ER |
| Codec.DispatchExpedited | decode.go:10-95 | whatever the ED decoder accepts is decoded as that ED |
| Octets.NumberIs | preferred_max.go:42-68 | the value of 0xF0 is read with the high octet first; up to 65535 units are written in one octet or two |
| Octets.LastValueIs | params.go:22-61 | the last of several parameters with one code is the one that counts |
| Octets.TriplesParse | params.go:65-107 | an octet string is a parameter list exactly when it is its codes, lengths and values one after the other |
| Octets.OptionsOctets | params.go:113-154 | the variable part of a CR or CC is 0xC1, 0xC2, 0xC0, 0xF0 as far as present, then the others in order, each as code, length and value |
| Octets.OptionsErrors | params.go:22-61 | a variable part fails on its first unreadable parameter with the length error, else where a parameter does not fit as malformed |
| Octets.ConnectOctets | encode_cr.go:13-44 | when a CR or CC encodes, its octets by position: length indicator, 0xE0 or 0xD0 with the CDT, both references high octet first, class, variable part, data; and the error otherwise |
| Octets.DataOctets | encode_dt.go:14-70 | the same for a DT, in the two-octet format without and the four-octet one with a reference |
| Octets.DisconnectOctets | encode_dr.go:11-39 | the same for a DR |
| Octets.ReportOctets | encode_er.go:11-32 | the same for an ER |
| Octets.ExpeditedOctets | encode_ed.go:12-48 | the same for an ED, with its required fields and 1 to 16 octets of data |
| Octets.ConnectRead | decode_cr.go:17-67 | which octet strings are a CR or CC, in any parameter order and with repetitions, what is read from which position, and with what error any other fails |
| Octets.DataRead | decode_dt.go:19-83 | which octet strings are a DT, what is read from them, and the error of any other |
| Octets.DisconnectRead | decode_dr.go:15-44 | the same for a DR |
| Octets.ReportRead | decode_er.go:14-41 | the same for an ER |
| Octets.ExpeditedRead | decode_ed.go:19-56 | the same for an ED |
| Octets.TypeRead | wire.go:53-89 | the type by the second octet, the reserved codes, and the errors |
| Octets.DecodeFails | decode.go:10-95 | a TPDU of a known type fails to decode exactly when the decoder of its type does, with the same error |
| Octets.OtherRead | decode_rj.go:15-38 | which octet strings are a DC, AK, EA or RJ, what is kept of them, and the error of any other |
| SizeNego.TableInverse | size_nego.go:85-101 | codes 0x07 to 0x10 and their sizes determine each other |
| SizeNego.FallbackIsGreatest | size_nego.go:103-113 | the fallback is the greatest standard size not above the length, with its own code |
| SizeNego.TableIsPowers | size_nego.go:15-29 | code n of the table stands for 2 to the n octets, for 7 to 16 and no other |
| SizeNego.FallbackIsLargest | size_nego.go:103-113 | the fallback is a power of two of the table that the length reaches and whose double it does not |
| SizeNego.CeilingsValidIff | size_nego.go:58-66 | a configured ceiling is accepted exactly when it is 0 or in [128, 65531] |
| SizeNego.OfferIsSound | size_nego.go:129-198 | every valid ceiling and profile gives an offer that decodes to itself and stays within the ceiling |
| SizeNego.OfferIs | size_nego.go:129-198 | what a CR says of sizes for every ceiling and profile: nothing, 0xC0 alone, or 0xF0 with the ceiling in whole units and 0xC0 with the largest table size within them |
| SizeNego.DecodedIsWellFormed | size_nego.go:200-221 | the offers a server can decode are exactly the well-formed ones |
| SizeNego.OfferRead | size_nego.go:200-221 | a server reads an offer exactly from codes 7 to 16 and 1 to 511 units, as their sizes; else the handshake error |
| SizeNego.SelectIsOptimal | size_nego.go:223-330 | for every decodable offer and all valid ceilings selection succeeds with the greatest size its path can express within the offer and both ceilings, and says it exactly |
| SizeNego.SelectionIs | size_nego.go:223-330 | the size selected for every offer and the parameter that says it: the smallest of the units after 0xF0, the largest table size within all bounds after 0xC0, silence for 65531 |
| SizeNego.SelectIsMonotone | size_nego.go:223-330 | for a fixed offer larger server and policy ceilings never give a smaller size |
| SizeNego.RefloorIsDead | size_nego.go:301-330 | on the standard path the minimum is always a table size |
| SizeNego.InterpretationIsBounded | size_nego.go:332-385 | whatever a CC says, an accepted size is in [128, client ceiling] |
| SizeNego.InterpretationIs | size_nego.go:332-385 | for every offer and CC when its size is accepted and as what: 0xF0 if offered and within the offer, 0xC0 as a fallback from 0xF0 or without an offer, silence under Compat, never both |
| SizeNego.NegotiationAgrees | size_nego.go:129-385 | for all valid ceilings and profiles offer, decode, select and interpret succeed and leave both ends with one size within every ceiling |
| SizeNego.AgreedSizeIs | size_nego.go:129-385 | for all valid ceilings and profiles the size both ends hold is one closed form: the smallest ceiling, read on the preferred or the standard scale by the client's offer |
| SizeNego.MonotoneInClientIff | size_nego.go:129-198 | raising the client's ceiling lowers the agreed size exactly when it gives up the preferred scale while the other ceilings are below the raised one and the standard size under them lies at least 128 octets below both them and the old ceiling; never under PreferredMaximum |
| SizeNego.NotMonotoneInClient | size_nego.go:129-198 | the exception exists: raising the client's ceiling from 1000 to 1024 against a server at 1000 lowers the size from 896 to 512 |
| References.ScanFinds | reference_allocator.go:32-47 | below capacity the scan always ends at a free reference, so the second exhaustion return is unreachable |
| References.TakeMeaning | reference_allocator.go:26-48 | allocation fails exactly when every non-zero reference is active; else it takes the cyclically first free one from `next` |
| References.LeastRecentlyIssued | reference_allocator.go:32-58 | over any allocations and releases a granted reference is not granted again before every other non-zero one was granted, or found active and passed over |
| References.ReferenceAllocator.constructor | reference_allocator.go:18-23 | nothing active, next reference 1 |
| References.ReferenceAllocator.Allocate | reference_allocator.go:26-48 | the wrapping, bounded retry loop is the specified allocation |
| References.ReferenceAllocator.Release | reference_allocator.go:51-58 | removes exactly the named reference, zero being ignored |
| References.ReferenceAllocator.Active | reference_allocator.go:61-66 | tells whether the reference is active |
| Transfer.ChunksMeaning | tsdu.go:64-83 | a TSDU of n octets is cut into ceil(n / m) chunks of 1 to m octets that concatenate to it |
| Transfer.ChunkAt | tsdu.go:64-67 | the i-th chunk is the stretch from octet i * m, the last one ending the TSDU |
| Transfer.PacketIsMinimalDT | encode_dt.go:22-32 | the packet sent is the encoding of the minimal DT and decodes to it |
| Transfer.PacketsMeaning | tsdu.go:53-83 | ceil(n / (max - 3)) packets, each a segment within the negotiated size, EOT on the last only, data in order |
| Transfer.OpenDTAccepts | open_dt.go:12-47 | an open connection accepts exactly the minimal DTs within the negotiated length and reads them back |
| Transfer.LateRejectionsAreDead | open_dt.go:38-45 | past the LI check neither the DST-REF nor the parameter rejection can fire |
| Transfer.AbsorbMeaning | tsdu.go:144-163 | a packet is refused exactly when it is no segment or does not fit the TSDU bound, with the cause its octets call for; else it extends or completes the TSDU |
| Transfer.SegmentCountIsDead | tsdu.go:157-159 | the segment-count bound never decides |
| Transfer.ReassembleMeaning | tsdu.go:129-175 | for every packet sequence the TSDU is the data up to the first EOT exactly when all packets up to it are segments that fit; else the read aborts at the first that is not, with the cause due to it |
| Transfer.ReassemblyIsBounded | tsdu.go:129-175 | at most maxTSDU + 1 packets decide a read, whatever the peer sends |
| Transfer.TransferRoundTrip | tsdu.go:64-175 | what a write sends a read delivers, taking exactly those packets, whatever follows |
| Transfer.DecidedStays | tsdu.go:129-175 | packets that follow change nothing about a decided read |
| Transfer.ReadsAdvance | tsdu.go:129-175 | reads one after the other over a stream are its packets absorbed one by one |
| Transfer.IncompleteIff | tsdu.go:224-257 | an incomplete TSDU is reported exactly when the stream, not the context, ended the operation with segments held or inside a packet |
| Transfer.CauseIs | tsdu.go:224-257 | every mark of the cause of a failed stream, inside a TSDU and outside: closed and the context error, disconnected and the end of the stream, the stream's own marks, handshake, incomplete TSDU |
| Transfer.DoneIs | deadline.go:116-125 | when and with what error a context is done |
| Transfer.BoundIs | handshake_validate.go:162-185 | the bound on a TSDU is 4194304 octets where none is configured |
| Deadline.NoStrayDeadline | deadline.go:47-82 | over any run of arming, cancelling, callbacks and disarming an idle direction has no deadline and a busy one its own operation's, if that has one, or the past one of its own cancellation |
| Deadline.StaleChangesNothing | deadline.go:71-81 | a callback or disarm of another generation changes no deadline |
| Deadline.CurrentStrikes | deadline.go:47-82 | the callback of the armed generation puts the past deadline on its directions, disarming it clears them and leaves the holder idle |
| Deadline.HandshakeStaysOut | conn.go:238-243 | once disarmed the handshake's cancellation reaches neither direction in any continuation |
| Deadline.DirectionDeadline.constructor | deadline.go:38-40 | idle, no deadline |
| Deadline.DirectionDeadline.ArmFor | deadline.go:47-58 | a done context changes nothing; else a new generation is active and its deadline, if any, is set |
| Deadline.DirectionDeadline.OnCancel | deadline.go:62-68 | sets the past deadline only for the active generation |
| Deadline.DirectionDeadline.DisarmFor | deadline.go:71-81 | clears the deadline only for the active generation |
| Sending.StepKeeps | tsdu.go:31-84 | every step of every write keeps the log of whole TSDUs, the stream and what each call may promise |
| Receiving.StepKeeps | tsdu.go:95-176 | every step of every read keeps, for any stream, delivery equal to what reads one after the other make of the accepted packets, one owner for each TSDU, and what each call may promise |
| Receiving.HonestReads | tsdu.go:129-175 | over the packets of this library's sender those reads deliver its first TSDUs, whole, and hold the first segments of the next |
| Endpoint.RunKeeps | tsdu.go:31-176 | over any interleaving and any arriving packets the invariant holds, the terminal cause stays, and what was sent and delivered only grows |
| Endpoint.WriteIsTakenIff | tsdu.go:44-56 | in every reached open end a write with a live context goes on exactly with 1 octet to the bound under a TPDU size of 4 or more; else it leaves with the error due, and nothing sent |
| Endpoint.ReadIsTakenIff | tsdu.go:108-116 | in every reached open end a read with a live context goes on exactly under a TPDU size of 4 or more |
| Endpoint.WriteFailureIs | tsdu.go:218-257 | in every reached open end a failed write comes to abort with exactly the marks its failure and context call for |
| Endpoint.ReadFailureIs | tsdu.go:224-257 | the same for a read, an incomplete TSDU being reported exactly where segments are held or a packet is torn |
| Endpoint.OctetsAreCounted | deadline.go:93-114 | in every run the octet counter of the write direction is the number of octets in the stream |
| Endpoint.SegmentsNeverMix | tsdu.go:64-83 | the stream is the packets of the transfers one after the other, all but the last whole, each call at most once |
| Endpoint.WholeBetweenWrites | tsdu.go:39-42 | with the write lock free and the connection open the stream holds whole TSDUs only |
| Endpoint.WritersKeepPromises | tsdu.go:64-83 | success means the whole TSDU is in the stream, a bare or local error that no octet is, any other ending the stored cause |
| Endpoint.BrokenTransferIsTerminal | tsdu.go:72-80 | a transfer that stopped inside its TSDU has ended the connection before its lock is free, and its call returns that cause |
| Endpoint.DeliveryIsReassembly | tsdu.go:103-176 | whatever the peer sends, what was delivered is what reads one after the other make of the packets accepted; with the read lock free and the connection open exactly those are consumed and nothing is held |
| Endpoint.NothingIsReadBeyond | tsdu.go:133-147 | no packet is read behind one read in part or refused |
| Endpoint.PacketsAreJudged | open_dt.go:12-47 | in every reached state the next packet, of any content, is refused exactly when it is no segment or does not fit, with the cause due to it |
| Endpoint.ReadersKeepPromises | tsdu.go:129-142 | whatever the peer sends, a returned TSDU was delivered to that call, a bare or local error consumed no octet, any other ending is the stored cause |
| Endpoint.DeliveriesMatchCalls | tsdu.go:169-176 | delivered TSDUs and the calls that return them match one to one |
| Endpoint.OneCausePerEnd | conn.go:191-197 | whichever direction stored the cause, every call of either direction that ends with a cause returns that one |
| Endpoint.LateCallsLearnTheCause | tsdu.go:197-205 | a call that starts after its end has ended returns the stored cause, or its context's error while it waited |
| Endpoint.ClosedErrorIff | tsdu.go:197-205 | a call under way at the end returns the bare closed error exactly when it had passed its first look when the cause was stored and takes its second after the state was |
| Endpoint.ClosedInsteadOfCause | tsdu.go:197-205 | for every cause there are a write and a read that return the bare closed error instead of it |
| Endpoint.ArmsAreSerialised | deadline.go:26-29 | a direction is armed only while idle, as the holders rely on |
| Link.ReachedIsJoined | conn.go:37-72 | each end of a connection is where an end against an arbitrary peer could be, and hears what the other has written |
| Link.DeliveryIsPrefix | tsdu.go:39-175 | in both directions at once, what readers returned is a prefix, in write-lock order, of the TSDUs that moved octets at the other end, each wholly sent |
| Link.DeliveryIsExhaustive | tsdu.go:129-175 | once all that moved is accepted, exactly the TSDUs wholly sent are delivered, both ways |
| Link.AgreedPacketsAreAccepted | tsdu.go:144-163 | between ends that agree on the size, with compatible TSDU bounds, no packet is refused |
| Attainable.TransferHappens | tsdu.go:31-176 | from every quiet connection, whatever went before, a write of any TSDU within the bounds and a read can both succeed, the read with that TSDU, and leave it quiet |
| Attainable.AnythingArrives | tsdu.go:31-176 | any sequence of TSDUs within both bounds is delivered, whole and in order, by some run |
| Timed.TimeoutsAreOwn | deadline.go:18-30 | in every run, after any handshake, an operation that fails by timeout does so because its own context is done or its own deadline has passed |
| Timed.WriteTimeoutIsBare | tsdu.go:72-80 | a timed-out write finds its context's error, and returns it bare exactly when no octet moved and the connection has not ended otherwise |
| Timed.ReadTimeoutIsBare | tsdu.go:134-142 | a timed-out read finds its context's error, and returns it bare exactly when no octet moved and the connection has not ended otherwise |
| Timed.IdleTimeoutsStayOpen | deadline.go:84-90 | an operation timed out before any octet moved ends with a bare error in every continuation that stays open, and no step of its own ends the connection |
| Attainable.TimeoutHappens | tsdu.go:211-216 | a write can time out by its deadline or by its context before any octet moved: it returns that bare error, the connection stays open, the deadline is cleared |
| Lifecycle.OwnershipIsExact | reference_allocator.go:26-58 | in every run the active references are exactly those of handshakes in flight and unreleased connections, none zero, none shared |
| Lifecycle.NoForeignRelease | conn.go:166-172 | no event of one actor, however late, frees a reference another holds |
| Lifecycle.FirstCauseDecides | conn.go:144-197 | one terminal cause is stored, never changes and is what all return; one close, one release; states only move forward |
| Lifecycle.HandshakesStart | connect.go:53-63 | in every run a handshake that starts while a reference is free takes one |
| Lifecycle.HandshakesEnd | connect.go:162-164 | in every run a refused handshake gives its reference back, and one handed over becomes an open connection on it |
| Lifecycle.CausesAreTold | conn.go:174-197 | whoever asks once the cause is stored, or waits for the end of termOnce, is told that cause |
| Connection.FinishIsFiveSteps | conn.go:144-164 | the body of termOnce run alone stores the cause, closes once, releases once and ends closed or aborted |
| Connection.Conn.constructor | conn.go:76-105 | a fresh open connection at the start of an end's runs |
| Connection.Conn.ReleaseRef | conn.go:166-172 | the reference is released the first time only |
| Connection.Conn.Finish | conn.go:144-164 | the first cause is stored and every call returns it; the state changes as the five steps of the lifecycle |
| Connection.Conn.Close | conn.go:137-142 | ends with the closed error, or the earlier cause |
| Connection.Conn.Abort | conn.go:191-197 | ends with the given cause, or the earlier one |
| Connection.Conn.EnterWrite | conn.go:204-216 | takes the free lock or returns a bare context error |
| Connection.Conn.CheckWrite | tsdu.go:44-56 | closed, the context's error, empty, above the bound of 4194304 or the configured one, TPDU size below 4, in this order; else the write goes on |
| Connection.Conn.LookWrite | tsdu.go:197-205 | the first look returns the stored cause exactly when one is stored |
| Connection.Conn.ArmWrite | deadline.go:47-58 | arming fails with the context's error exactly when it is done |
| Connection.Conn.WriteTSDU | tsdu.go:31-84 | success appends exactly the TSDU's packets to the stream; a bare or local error moves no octet; a local error has one of the four reasons for refusal; a cause, if nobody else ended the connection, has the marks the failure calls for; the lock is free again |
| Connection.Conn.SendSegments | tsdu.go:64-83 | the offset loop sends the packets in order until done or failed |
| Connection.Conn.SettleWrite | tsdu.go:72-80 | a failed write ends with the bare context error exactly on a timeout with the context done, no octet moved and no cause stored; else with a cause |
| Connection.Conn.ClassifyWrite | tsdu.go:218-257 | a stored cause is returned; else, if nobody else ends the connection, the abort has exactly the marks the failure and the context call for |
| Connection.Conn.ReadTSDU | tsdu.go:95-176 | for any peer: the packets consumed decide the read as the reassembly says, TSDU or, if nobody else ended the connection, abort cause; or the stream failed while it waited, and the context's error or a cause with the marks due is returned; a bare or local error consumes nothing; the lock is free again |
| Connection.Conn.DecidedByStream | tsdu.go:129-175 | the whole stream from the first packet on decides the read the same way |
| Connection.Conn.HonestPeer | tsdu.go:129-175 | joined to an end of the same library the object delivers what moved there, in order |
| Connection.Conn.ReceiveSegments | tsdu.go:129-167 | the reassembly loop terminates, whatever the peer sends, and its outcome is that of the reassembly |
| Connection.Conn.ReceiveOne | tsdu.go:133-167 | one turn of it: a packet of any content ends the read as specified or adds a segment |
| Connection.Conn.JudgeSegment | tsdu.go:144-163 | the checks on one packet refuse or accept as the reassembly specification does |
| Connection.Conn.CheckRead | tsdu.go:108-116 | closed, the context's error, TPDU size below 4, in this order; else the read goes on |
| Connection.Conn.SettleRead | tsdu.go:134-142 | a failed read ends with the bare context error exactly on a timeout with the context done, no octet moved and no cause stored; else with a cause |
| Connection.Conn.ClassifyRead | tsdu.go:224-257 | as ClassifyWrite, with the marks due inside a TSDU when segments are held |
| Connection.Conn.Concatenate | tsdu.go:169-175 | the copy loop yields the concatenation of the segments |
| Establish.RequestEncodesIff | connect.go:35-85 | a client has a CR to send exactly when its configuration is valid and the CR stays within 128 octets; any failure is a configuration error |
| Establish.FailuresAgree | connect.go:178-198 | a handshake failure is classified as in the open state exactly when the context ended it, the stream ended cleanly, or it is not gone |
| Establish.ProceedMeans | accept.go:64-155 | the CR and the accepting decision behind a CC (Outcomes.ProceedsIff says exactly when there are any) |
| Establish.HandshakeAgrees | connect.go:126-160 | whenever the server answers a client's CR with a CC, under any policy, the client accepts it and the sessions mirror each other |
| Establish.DefaultPolicyDecides | accept.go:212-221 | under the default policy a client's CR is accepted exactly when no called selector is asked for or it matches; else DR, address unknown |
| Establish.ConfirmEncodesIff | accept.go:169-191 | an accepted CR is confirmed exactly when the selectors leave the CC's header within 254 octets |
| Establish.DefaultConfirmEncodes | accept.go:169-191 | under the default policy the CC always encodes |
| Establish.AcceptedButUnconfirmed | accept.go:188-191 | with a responding selector of 255 octets and a policy of its own a server accepts and cannot confirm |
| Establish.ProtestsExactly | accept.go:87-111 | ER answers exactly the faulty class 0 CRs that name a reference, is addressed to it with the cause that fits the fault, and the caller learns of a failed handshake |
| Establish.RefusalsExactly | accept.go:82-140 | DR answers exactly a CR for another class and a rejected sound one, addressed to its reference with the policy's reason or that of a failed negotiation |
| Establish.RefusalArrives | connect.go:107-108 | the client answered with that DR ends with the connection refused |
| Outcomes.ConfigsValidIff | config.go:81-127 | which client and server configurations are valid, in numbers, what their zeros stand for, and the error of any other |
| Outcomes.RequestIs | connect.go:65-85 | a CR goes out exactly when the configuration is valid and the CR has at most 128 octets; the server reads the client's selectors, data, reference and offer from it |
| Outcomes.ProceedsIff | accept.go:64-155 | under any policy a CC follows exactly on a valid configuration, a sound CR and an agreeable decision on it, all written out; with the decision's data and the size selected for both ceilings |
| Outcomes.RefusesIff | accept.go:82-140 | when exactly DR answers, its octets and its reason: 130 for another class, else the decision's |
| Outcomes.ProtestsIff | accept.go:87-111 | when exactly ER answers, its octets and its cause: 1 for a parameter in 0xC3 to 0xCE where the fixed fields are right, else 3 |
| Outcomes.SilentIff | accept.go:64-155 | when exactly the server closes without a word, and with which error each time |
| Outcomes.ConfirmIs | accept.go:169-205 | when exactly the CC goes out, what the client reads from it and what the server then holds |
| Outcomes.ConcludesIff | connect.go:101-160 | which CCs a client accepts and what it then holds; the error of every other answer |
| Outcomes.HandshakeCauseIs | connect.go:178-198 | every mark of the cause of a failed handshake read or write |
| Handshakes.InitiateMeans | connect.go:19-166 | a Connect hands over at most its own CR, succeeds only on a CC for it, then owns exactly its reference, and otherwise leaves no reference active |
| Handshakes.RespondMeans | accept.go:25-209 | an Accept hands over at most one packet, of the kind that fits its ending, is silent otherwise, and owns a reference exactly when it succeeds |
| Handshakes.PeersAgree | accept.go:157-209 | a Connect and an Accept that read each other's packet and both succeed hold mirrored sessions |
| Handshakes.Connect | connect.go:19-166 | the code's steps produce the specified packets, result and references; the stream is closed exactly on failure, the deadline disarmed, the connection open over the reference |
| Handshakes.Exchange | connect.go:65-160 | offer, CR, deadline, write, read and conclusion, while the reference is held |
| Handshakes.Accept | accept.go:25-209 | the same for the responding side |
| Handshakes.Reply | accept.go:69-209 | the verdict's answer is written, and the reference taken only once a size is selected |
| Handshakes.SendCC | accept.go:177-203 | the CC is encoded and written, and the session states what it says |
| Outcomes.ConnectsIff | connect.go:19-166 | when exactly a Connect succeeds, when its CR goes out, and the error of the first thing that fails |
| Outcomes.AcceptsIff | accept.go:25-210 | when exactly an Accept succeeds, what it sends and returns in every other case |
| EndToEnd.HandshakeThenTransfer | tsdu.go:31-176 | after a completed handshake both ends use one TPDU size, and in every later run delivery is a prefix both ways, nothing wholly sent is withheld once accepted, and no packet is refused between compatible bounds |

## Left out

- go-tpkt and net.Conn: a packet channel without read-ahead that fails with or without octets moved; only the four octets of the TPKT header are counted.
- Real time, timers and fairness: deadlines and cancellation are values and steps; safety only, no liveness.
- Error texts, `RejectionError.Info` and `UnexpectedTPDUError` fields: errors are the sets of sentinels found in them.
- AK, EA, DC and RJ encoders and the division of their fixed parts: further instances of the same parameter theorem.
- string.go, detect.go, extract.go and decode_raw.go: debug text and octet tests.
- Slice aliasing: sequences are values; nil and present-empty selectors are told apart.
- OnConnect bodies: any function of the indication, deterministic for the length of one Accept.
- TP2, expedited service and class negotiation: not implemented by the repository.
- Connections without octet counters and failing SetDeadline calls: Connect and Accept always count, and the source ignores deadline errors.
- Wrap-around of the 64-bit octet counters and deadline generations: unbounded numbers.
- Nil receivers and nil arguments.
- Connection.Conn.WriteTSDU: inside this method others act only by ending the connection and sending packets; calls that compete for a lock, or use the other direction, are interleaved in Endpoint and Link.
- Connection.Conn.ReadTSDU: as WriteTSDU.
- Connection.Conn.EnterWrite: waiting is one choice between the lock and the context's error.
- Handshakes.Connect: the context is seen at its three checks only; other handshakes on the same allocator are interleaved in Lifecycle, not inside this method.
- Handshakes.Accept: as Connect.
- Accessors for addresses and negotiated parameters: copies of fields.
