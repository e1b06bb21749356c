# mrtgen: a verified model of its encoders, its readers and its corpus files

mrtgen writes MRT files (RFC 6396) for testing parsers. It is a stack of nested, length-prefixed
encoders: a FlowSpec rule is compiled to an NLRI, the NLRI goes into an attribute, attributes into
a BGP message or a RIB entry, these into MRT records, and records into a file that a manifest
describes. The repository also holds readers of the same octets that were written separately: a
FlowSpec decoder, a structural FlowSpec checker, a walk from an MRT record down to its NLRI, and a
reference walker of whole files. This project models both sides and proves that they fit together,
for all inputs rather than for examples.

The encoders, builders and cursor-driven readers are methods with the loops, buffers and early
returns of the original; each is proved equal to a specification function. The specification
functions never stand alone: every one of them is tied by a lemma to an independent reader, to the
meaning the standard gives the octets, to integer arithmetic, or to an invariant of the file. The end
results are stated over what the user gives (a rule, a route, a configuration, a choice) and over octets,
with the standards' and the source's numbers written out, and not over the encoders' own definitions.

| file | content |
|---|---|
| `Bytes.dfy` | octets, big-endian integers, narrowing casts, host bits |
| `Writer.dfy`, `Framing.dfy` | MRT record framing, the byte buffer, the reference walker, fatal tails |
| `Corpus.dfy`, `Profile.dfy`, `Slicing.dfy` | the corpus builder, the manifest's layout invariant, the built-in profiles, slicing |
| `FlowSpec.dfy` | rules and the NLRI compiler |
| `FlowSpecReaders.dfy`, `FlowSpecWire.dfy` | the two FlowSpec readers; compiling and reading back |
| `FlowSpecMeaning.dfy` | what rules and decoded lists say about packets |
| `FlowSpecDomains.dfy`, `FlowSpecAcceptance.dfy` | value domains; which rules encode, to how many octets, and which pass validation |
| `FlowSpecChecks.dfy`, `FlowSpecVerdicts.dfy`, `FlowSpecOracle.dfy` | the structural checker, what both readers' verdicts say of the octets, the checker's own expectation |
| `Bgp.dfy`, `Records.dfy` | attributes, NLRI, messages, TABLE_DUMP_V2 and BGP4MP bodies, with readers from the RFCs |
| `Routes.dfy`, `RouteChecks.dfy` | route-list generation and what every accepted run guarantees |
| `UserRoutes.dfy`, `RouteAcceptance.dfy` | what a route says, defaults included; which routes and route lists are accepted |
| `RouteAttributes.dfy`, `DumpReader.dfy`, `UpdateReader.dfy`, `WireRecovery.dfy` | reading generated files back, end to end |
| `Invalid.dfy` | deliberately malformed records and exactly when they are refused |

## Main results

- **Meaning.** A compiled and decoded FlowSpec rule matches exactly the packets the rule describes,
  under the operator semantics of RFC 8955 sections 4.2.1.1 and 4.2.1.2, and this survives the whole
  BGP4MP file (`FlowSpecMeaning.MeaningPreserved`, `WireRecovery.FileKeepsMeaning`).
- **Files say what the user said.** From the octets of every accepted file, in both formats, a reader
  recovers each route as the user gave it: session or peer, times, attributes in their order with their
  flags, next hop and what is announced (`UpdateReader.UpdateFileTells`, `DumpReader.DumpTableTells`,
  `DumpReader.DumpFileTells`).
- **Acceptance.** Which rules encode and to how many octets, which pass validation, which routes and which
  route lists are accepted: if and only if, from the user's fields (`FlowSpecAcceptance.EncodedIff`,
  `FlowSpecAcceptance.ValidatedIff`, `UserRoutes.ParsedIff`, `RouteAcceptance.GeneratedIff`).
- **Readers, exactly.** For all octets: what the FlowSpec decoder accepts, why the structural checker
  refuses, when the two agree, and what the walk down to an NLRI finds (`FlowSpecVerdicts.DecodedIff`,
  `FlowSpecVerdicts.ViolationExplained`, `FlowSpecChecks.ReadersAgreeIff`, `WireRecovery.WireNlriIff`).
- **Corpora.** A configuration determines its corpus, octets, manifest and counts, and a slice consists of
  exactly the records asked for (`Profiles.GenerateProfile`, `Profiles.ProfileDetermined`,
  `Slicing.SliceExact`).
- **Late size checks.** Length fields are narrowed first and sizes are checked on the finished octets
  only; the late check is enough, and for dumps it is exact (`RouteChecks.LateChecksSuffice`,
  `RouteChecks.DumpLateCheck`).
- **Framing.** Walking any prefix of a file of honestly framed records, the builder's manifest
  agreeing with the walker, fatal tails stopping it, and slicing keeping all of this.

Three claims one might make of the code turned out to hold only under a condition, which is stated
exactly:

- The route checker's comparison of a decoded rule with its expectation passes exactly when no bitmask
  item names a flag twice: the checker adds flag bits up while the encoder ORs them
  (`FlowSpecOracle.RoundTrip`, with a concrete rule in `FlowSpecOracle.RepeatedFlagFailsComparison`).
- What the decoder accepts is not always well formed to the structural checker: it also takes unknown
  types, flow labels in IPv4 rules and IPv4 prefixes as long as an IPv6 address, and nothing else
  (`FlowSpecChecks.ReadersAgreeIff`, with a concrete list for each).
- The malformed attribute built by `bgp4mp_attr_overrun` does not always overrun: its declared length is
  narrowed to one octet, and the filler behind it can read as whole attributes
  (`Invalid.OverrunDetected` and `Invalid.OverrunRecordRefused`, with a concrete input in
  `Invalid.OverrunLost`).

## Modelling choices

- A `Result` is `Ok` or `Err`; error texts are not modelled, so neither is the order in which a route's
  fields are validated. `PropagateFailure` stands for the original's `?`.
- Unbounded integers are used throughout, and every narrowing cast is written out (`AsU8`, `AsU16`,
  `AsU32`). Timestamps wrap as in a release build; a debug build panics instead.
- Bit sets of operator octets and flags octets are written as sums of disjoint bits or with divisions by
  powers of two. A logical OR over flag names is `OrBit`, which adds a bit only when it is clear.
- Routes start from parsed values: prefixes, addresses, AS numbers and communities are octets and
  numbers, and traffic-filtering actions are the extended communities they stand for.
- The sections of the fixed corpus enter `GenerateProfile` as arbitrary sequences of pieces, each a
  function from a timestamp to a record; the edge cases and the stress records have a valid and a skip
  half, as each half has its own switch. The walking results require of them what the corpus tests
  require: honest Length fields and no abort records.
- A packet, in `FlowSpecMeaning`, has a set of values per header field, empty if it lacks the field.
- The closure that pushes records in route mode does what `Builder.push` does; both are `Builder.Push`.

## Model

| member | source | states |
|---|---|---|
| Bytes.HostBitsArithmetic | src/routes.rs:228-236 | the octet-and-mask test for host bits is true exactly when the address, as a big-endian integer, is not a multiple of the size of its network |
| Bytes.PaddedPrefixSameNetwork | tests/parsers/runners/routes_mrtparse_check.py:230-231 | cutting an address to its prefix octets and zero padding it stays in the same network, bit for bit |
| Bytes.PadsBackIff | src/bgp.rs:174-187 | the padded prefix is the very same address exactly when no octet past those of the prefix is set |
| Bytes.NoHostBitsPadsBack | src/routes.rs:494-499 | which is so for every prefix without host bits |
| Bytes.SameNetworkOctets | tests/parsers/runners/routes_mrtparse_check.py:123-124 | two addresses lie in one network bit by bit exactly when the octets its length covers are equal and so are the leading bits of the one it ends in |
| Bytes.OctetsFor | src/flowspec.rs:318 | as few octets as hold the bits of a prefix |
| Writer.EncodeInto | src/writer.rs:43-52 | appends header, optional microseconds and body to the buffer and changes nothing before them |
| Writer.ComputedLengthHonest | src/writer.rs:32-36 | a computed Length field equals the payload size exactly when that fits 32 bits |
| Writer.HeaderFields | src/writer.rs:43-52 | the four header fields read back from their fixed positions and everything else follows at offset 12 |
| Writer.PayloadFields | src/writer.rs:32-52 | with microseconds the octets 12 to 16 denote them and the body follows to the end, without them it follows the header; a computed Length field that fits 32 bits counts every octet behind the header |
| Framing.WalkFile | tests/corpus.rs:8-26 | the cursor loop computes the recursive walk: records passed and whether the end was clean |
| Framing.EncodedFramed | src/writer.rs:32-52 | an encoded record is framed for the walker exactly when its Length field is honest |
| Framing.WalkFlat | tests/corpus.rs:57-67 | whatever the bodies hold, the walker passes every framed record and meets what follows as if it stood alone |
| Framing.PrefixClosed | tests/corpus.rs:8-26 | on the first k octets of framed records the walk counts exactly the complete ones and ends cleanly exactly when k is a record boundary |
| Framing.OverrunTail | src/invalid.rs:310-314 | the walk of such a tail, for every declared and actual length, including those where nothing overruns |
| Framing.TruncatedTail | src/invalid.rs:317-323 | a cut header counts no record and is a clean end exactly when nothing of it is kept |
| Framing.AbortTailsStopWalk | tests/corpus.rs:70-82 | after any n framed records the tails make the walk return (n, false) exactly when declared > actual, respectively when at least one octet is kept |
| Framing.ReadManyParts | src/records.rs:48-50 | reading n items off concatenated parts gives the first n and the rest, and fails when there are fewer |
| Corpora.Builder.NextTimestamp | src/generator.rs:108-110 | the timestamp is base plus the number of entries, in 32 bits |
| Corpora.StampExact | src/generator.rs:108-110 | the timestamp of a position is base plus position modulo 2^32, whatever the casts, and the plain sum if that fits |
| Corpora.Builder.Push | src/generator.rs:112-134 | appends the encoded record, one manifest entry for it and one count of its class |
| Corpora.Builder.PushRaw | src/generator.rs:136-154 | appends raw octets and an abort-class entry for them |
| Corpora.AppendLayout | src/generator.rs:112-134 | one push keeps indices, the partition of the file by extents and the counts, and reads back as exactly what was pushed |
| Corpora.AssembleLayout | tests/corpus.rs:37-54 | every run of pushes keeps the layout invariant, and the manifest leads back to the pushed records, octet for octet |
| Corpora.LayoutAssemble | tests/corpus.rs:37-54 | conversely, every corpus with the layout invariant is assembled from its own records |
| Corpora.LayoutCounts | src/generator.rs:115-119 | the counts that go with the layout are, class by class, the number of entries with that expectation |
| Corpora.WalkAgreesWithManifest | tests/corpus.rs:57-67 | after any pushes of framed records the walk is clean, counts every record and stands exactly at the manifest offsets |
| Corpora.ManifestMatchesHeader | tests/corpus.rs:41-49 | timestamp, type and subtype at an entry's offset are those of the manifest, the size is the encoded length, and kind and expectation are those pushed |
| Profiles.EmitSection | src/generator.rs:186-204 | a section that is wanted is pushed piece by piece, every piece as the record it makes for the timestamp of its position; one that is not wanted changes nothing |
| Profiles.EmitFatal | src/generator.rs:1466-1494 | pushes the tail of the chosen kind as one more abort entry, stamped by its position |
| Profiles.OverrunIs | src/invalid.rs:310-314 | an overrunning tail is a header of type 16 and subtype 1 with the declared length and as many zero octets as asked for |
| Profiles.FatalTailIs | src/generator.rs:1468-1493 | each kind has its own tail: 28 octets that promise 1000 more, seven octets of a header, 20 octets that promise 2^32 - 1 |
| Profiles.GenerateProfile | src/generator.rs:186-208 | the file holds exactly the records of the sections whose own switch is on, each section whole, in order and right behind the ones before it, every record stamped base plus position and described as it is; then, if asked for, the fatal tail of the chosen kind, octet by octet; the counts are true and the manifest lays the file out |
| Profiles.ProfileDetermined | src/generator.rs:186-208 | which leaves nothing open: two corpora that meet this description are equal, octets, manifest and counts |
| Profiles.SwitchedOff | src/generator.rs:189-204 | what a switched-off section would have held changes nothing |
| Profiles.CleanCorpusWalk | tests/corpus.rs:57-67 | without a fatal kind the whole corpus walks cleanly, counting every record, with no abort entry |
| Profiles.FatalCorpusWalk | tests/corpus.rs:70-82 | with a fatal kind the walk stops right before the last record, which is the only abort entry |
| Slicing.SliceCorpus | tests/parsers/slice-corpus.py:29-56 | the filter-and-rebase loop, with its clamped slices, computes the slice for the command line's choices |
| Slicing.SliceExact | tests/parsers/slice-corpus.py:36-56 | for every choice the slice consists of exactly the records whose header holds one of the types given, whose kind is among those to keep and not among those to drop, and whose expectation is the one asked for, each once, in order, octet for octet; its manifest lays them out and counts them truly |
| Slicing.ProfileTypesTold | src/generator.rs:112-154 | the headers of every profile hold the types its manifest reports, so that this is so for all of them |
| Slicing.SliceKeepsLayout | tests/parsers/slice-corpus.py:45-56 | for any predicate on what an entry says of its record (type, subtype, timestamp, kind, expectation) the slice has the layout invariant and consists of exactly the selected records, octet for octet and in order |
| Slicing.SliceTwice | tests/parsers/slice-corpus.py:36-44 | slicing by p and the result by q is slicing by both at once |
| Slicing.SliceOfEverything | tests/parsers/slice-corpus.py:17-20 | a choice that keeps every record reproduces corpus and manifest |
| Slicing.SlicedTail | tests/parsers/slice-corpus.py:36-52 | a fatal tail is kept as the last record, and stops the walk there, exactly when selected; otherwise the slice walks cleanly |
| Slicing.SlicedFramed | tests/parsers/slice-corpus.py:36-52 | a slice of framed records walks cleanly and at the rebased offsets |
| Slicing.AbortStaysLast | tests/parsers/slice-corpus.py:36-52 | when only the last record may be of the abort class this stays so in every slice, for any manifest |
| FlowSpec.NumericPairs | src/flowspec.rs:179-210 | exactly one operator per list item becomes one pair, a range two; anything else is refused |
| FlowSpec.EncodeNumeric | src/flowspec.rs:263-280 | appends the type octet and the operator list, end bit on the last pair only, or fails with the first bad item |
| FlowSpec.EncodeBitmask | src/flowspec.rs:283-302 | appends the type octet and the bitmask list, or fails on an unknown flag or a mask over its width limit |
| FlowSpec.EncodePrefix | src/flowspec.rs:306-320 | appends length, IPv6 offset and the prefix octets, or fails when the families differ |
| FlowSpec.EncodeComponents | src/flowspec.rs:337-361 | the thirteen components in their order, or the first failure among them |
| FlowSpec.EncodeNlri | src/flowspec.rs:337-380 | the whole encoder equals its specification, on failures as well |
| FlowSpecAcceptance.EncodedIff | src/flowspec.rs:325-380 | a rule encodes for a family exactly when its fields say so: prefixes and `afi` agree with it, every item has one operator, every flag is known or fits, a flow label is for IPv6, and there are 1 to 4095 octets counted from the fields; the result is the length in one octet below 240, else in two, then that many octets, the raw ones last |
| FlowSpecAcceptance.EncodedFamily | tests/parsers/runners/routes_mrtparse_check.py:132-137 | the family a rule encodes for is the one the route checker takes it to be of |
| FlowSpec.ValueBytes | src/flowspec.rs:159-169 | the octets denote the value, in the width the operator octet announces |
| FlowSpec.LenCode | src/flowspec.rs:159-169 | the width code is the smallest of 1, 2, 4 and 8 octets that holds the value |
| FlowSpecReaders.DecodeFlowspecNlri | tests/parsers/runners/routes_mrtparse_check.py:198-245 | the cursor loop equals the recursive decoder |
| FlowSpecVerdicts.DecodedIff | tests/parsers/runners/routes_mrtparse_check.py:198-245 | the decoder exactly: it reads a list of components from some octets if and only if types ascend, every value fits its width, end bits stand on last operators only, addresses are padded with zeros, and the octets are a length in front of what the list prints to |
| FlowSpecVerdicts.ReportedTold | tests/parsers/runners/routes_mrtparse_check.py:221-244 | what it reports of every operator octet and value: the AND bit and the three comparison bits, or the not and match bits |
| FlowSpecReaders.FirstViolation | tests/parsers/runners/fastnetmon_flowspec_check.py:197-247 | the nested loops with cursor, last type and set of types seen equal the recursive scan |
| FlowSpecVerdicts.ViolationExplained | tests/parsers/runners/fastnetmon_flowspec_check.py:197-247 | on every string of octets the scan covers all of them, or stops at a component for which the reason it gives is true, each of the ten reasons in its own terms |
| FlowSpecVerdicts.SplitEncoded | tests/parsers/runners/fastnetmon_flowspec_check.py:184-188 | on every encoded rule splitting the length off gives the size of the components and exactly them |
| FlowSpecWire.CompileAscending | src/flowspec.rs:340-361 | compiled components have strictly ascending types and are fit for the family |
| FlowSpecWire.UnframeFrame | src/flowspec.rs:368-378 | stripping the one- or two-octet length gives back the component octets, for every encodable size |
| FlowSpecWire.ReadEncoded | src/flowspec.rs:337-380 | for every encoded rule without raw octets the decoder finds the compiled components, one by one, with their sizes |
| FlowSpecMeaning.EvalConcat | src/flowspec.rs:263-280 | appending an operator list that opens with a clear AND bit is disjunction |
| FlowSpecMeaning.NumericListMeaning | src/flowspec.rs:179-210 | for every value the emitted operator list is true exactly when some list item accepts the value |
| FlowSpecMeaning.ReversedRangeMatchesNothing | src/flowspec.rs:200-203 | a range with reversed bounds encodes and accepts no value |
| FlowSpecMeaning.AllFlagsSet | src/flowspec.rs:296-298 | the arithmetic test of the match bit is true exactly when every flag is set |
| FlowSpecMeaning.AnyFlagSet | src/flowspec.rs:296-298 | the test without the match bit is true exactly when some flag is set |
| FlowSpecMeaning.NamesToMask | src/flowspec.rs:120-156 | a list of flag names resolves exactly when the standards know them all, and then to one octet in which each bit is set exactly when the list has the name the standards give that bit |
| FlowSpecMeaning.MaskListMeaning | src/flowspec.rs:283-302 | the emitted list accepts exactly the values some item accepts, a named item asking for the bits the standards give its names |
| FlowSpecMeaning.MeaningPreserved | src/flowspec.rs:263-380 | for every rule without raw octets and every packet, the decoded components match exactly when each field of the rule accepts the packet's field of that name |
| FlowSpecMeaning.SameBytesSameMeaning | src/flowspec.rs:337-380 | rules that encode to the same octets match the same packets |
| FlowSpecChecks.TypedPartPasses | tests/parsers/runners/fastnetmon_flowspec_check.py:197-247 | the checker passes every typed component and reaches the raw octets with the largest typed type and the typed set; a rule without raw octets has no violation |
| FlowSpecChecks.RawPlaceReported | tests/parsers/runners/fastnetmon_flowspec_check.py:210-217 | the checker reads on at the first raw octet exactly when its type is known, above every typed one and fit for the family, and otherwise stops right there and says which failed |
| FlowSpecChecks.ReadersAgree | tests/parsers/runners/routes_mrtparse_check.py:206-245 | on a list without violation the decoder accepts exactly when all IPv6 offsets are zero, and then cuts the same components at the same places |
| FlowSpecChecks.ReadersAgreeV4 | tests/parsers/runners/fastnetmon_flowspec_check.py:197-247 | on IPv4 lists without violation the decoder always accepts |
| FlowSpecChecks.ReadersAgreeIff | tests/parsers/runners/routes_mrtparse_check.py:206-245 | on every list below 4096 octets the checker finds no violation and only zero offsets exactly when the decoder accepts and each component it finds has a known type, fit for the family, and no over-long prefix |
| FlowSpecChecks.UnknownTypeDecoded | tests/parsers/runners/routes_mrtparse_check.py:221-224 | a concrete list with a type above 13 that the decoder accepts and the checker refuses |
| FlowSpecChecks.FlowLabelDecodedInV4 | tests/parsers/runners/fastnetmon_flowspec_check.py:216-217 | the same with a flow label in an IPv4 rule |
| FlowSpecChecks.LongPrefixDecodedInV4 | tests/parsers/runners/routes_mrtparse_check.py:230-231 | the same with an IPv4 prefix of 128 bits |
| FlowSpecDomains.ValidateNumericMax | src/flowspec.rs:212-221 | accepts exactly when every item expands and every expanded value is within the maximum |
| FlowSpecAcceptance.ValidatedIff | src/flowspec.rs:223-260 | validation passes exactly the rules with clean prefixes, one operator per item, and values of at most 255 for protocol and ICMP, 65535 for ports and packet length, 63 for the DSCP and 1048575 for the flow label |
| FlowSpecDomains.WidthsOnWire | src/flowspec.rs:283-302 | every decoded value uses the smallest width that holds it, fragment masks one octet and TCP flag masks at most two |
| FlowSpecDomains.DomainsSurvive | src/flowspec.rs:243-260 | for a validated rule every decoded value lies within those limits for its component type and every prefix comes back exactly |
| FlowSpecOracle.FlowspecExpected | tests/parsers/runners/routes_mrtparse_check.py:248-276 | the expectation's loops over its tables, then sorted by type, equal the specification |
| FlowSpecOracle.ExpectedIff | tests/parsers/runners/routes_mrtparse_check.py:248-276 | there is an expectation exactly when every item has one operator and every named flag is known |
| FlowSpecOracle.RoundTrip | tests/parsers/runners/routes_mrtparse_check.py:279-321 | for every encoded rule without raw octets decoding succeeds with the expected types in order, and the comparison passes exactly when no item names a flag twice |
| FlowSpecOracle.FlagsOnWire | src/flowspec.rs:283-302 | a reader of any encoded rule finds, item by item, both switches and exactly the bits of the flags named |
| FlowSpecOracle.SumIsOrIffNoRepeats | tests/parsers/runners/routes_mrtparse_check.py:271-272 | the sum of named flags equals their OR exactly when no name repeats |
| FlowSpecOracle.RepeatedFlagFailsComparison | tests/parsers/runners/routes_mrtparse_check.py:271-272 | a concrete rule that encodes correctly and whose octets the comparison rejects |
| Bgp.Attribute | src/bgp.rs:8-17 | the attribute's octets: flags with the length bit forced, code, one- or two-octet length, value |
| Bgp.EmittedFlagsBit | src/routes.rs:662-665 | the emitted flags have the extended-length bit exactly for values over 255 octets and keep every other bit |
| Bgp.AttrRoundTrip | src/bgp.rs:8-17 | an attribute is read back, with nothing of what follows it, exactly when its value fits 65535 octets |
| Bgp.ReadAttrIff | tests/parsers/runners/routes_mrtparse_check.py:184-188 | an attribute is read off the front exactly when the octets start with how its flags lay it out |
| Bgp.AttrsRoundTrip | src/routes.rs:626-628 | walking concatenated attributes returns the same list with the flags as emitted |
| Bgp.TotalFits | src/routes.rs:734-736 | a bound on the concatenation bounds every value inside it |
| Bgp.PutWords | src/bgp.rs:48-55 | the loop over numbers appends four octets for each, in order |
| Bgp.PutItems | src/bgp.rs:99-105 | the loop over fixed-width items appends them, in order |
| Bgp.ItemsRoundTrip | src/bgp.rs:99-134 | items of one width written back to back are cut apart again |
| Bgp.WordsRoundTrip | src/bgp.rs:85-91 | four-octet words come back as the same numbers |
| Bgp.AttrAsPath | src/routes.rs:578-584 | an empty list gives an empty value, any other one AS_SEQUENCE segment with its count narrowed |
| Bgp.AsPathRoundTrip | src/bgp.rs:48-55 | the path reads back as its one segment exactly for at most 255 AS numbers |
| Bgp.AttrMpReach | src/bgp.rs:153-157 | family, SAFI, next hop with its length, reserved octet and NLRI, in one attribute |
| Bgp.MpReachRoundTrip | src/bgp.rs:153-157 | the four parts come back exactly when the next hop length fits its octet |
| Bgp.PlainRoundTrip | src/bgp.rs:174-187 | a prefix reads back in its network, leaving what follows untouched, and as the very address exactly when no octet past those of the prefix is set, as when it has no host bits |
| Bgp.VpnRoundTrip | src/bgp.rs:234-242 | the length octet never overflows; the distinguisher always comes back, the label exactly when it fits twenty bits, the address under the same condition as for plain prefixes |
| Bgp.BgpMessage | src/bgp.rs:254-263 | marker, narrowed length, type and payload |
| Bgp.BgpUpdate | src/bgp.rs:266-272 | both narrowed inner lengths, their parts and the NLRI, framed as a message |
| Bgp.UpdateRoundTrip | src/bgp.rs:266-272 | an UPDATE is split back into its parts when its own finished length fits sixteen bits, and refused otherwise |
| Records.PutPeer | src/records.rs:30-39 | type octet, identifier, address and AS number in the width the type announces |
| Records.PeerRoundTrip | src/records.rs:19-39 | a peer reads back exactly when its address is of 4 or 16 octets and its AS number fits its width |
| Records.PeerIndexTable | src/records.rs:43-52 | the loop over peers builds the specified record |
| Records.PeerTableRoundTrip | src/records.rs:43-52 | any table of carriable peers reads back exactly when its count field is true; a larger or smaller count is refused |
| Records.PutEntry | src/records.rs:72-80 | peer index, time, optional path identifier, attribute length and attributes |
| Records.EntryRoundTrip | src/records.rs:72-80 | an entry reads back exactly when its length field is the size of its attributes, and is refused exactly when the field runs past everything that follows |
| Records.RibTailRoundTrip | src/records.rs:85-93 | any uniform list of up to 65535 entries reads back, all octets accounted for |
| Records.RibAfiSafi | src/records.rs:85-93 | the record builder's loop over entries builds the specified record |
| Records.RibGeneric | src/records.rs:97-107 | the same with the family in front of the NLRI |
| Records.PlainRibRoundTrip | src/records.rs:85-93 | sequence, prefix and entries of a unicast RIB record read back, with or without path identifiers |
| Records.GenericRibRoundTrip | src/records.rs:97-107 | family, path identifier, label, distinguisher, prefix and entries of a VPN RIB record read back |
| Records.Bgp4mpPrelude | src/records.rs:137-149 | the session fields in a fresh buffer |
| Records.Bgp4mpMessage | src/records.rs:154-181 | session fields in the width of the subtype, then the message |
| Records.Bgp4mpRoundTrip | src/records.rs:137-181 | session and message read back exactly when the AS numbers fit the width of the subtype |
| Records.Bgp4mpRecordRead | src/records.rs:154-181 | a reader of the record's octets finds session and message, for every subtype, with microseconds or without, and the AS numbers exactly when the subtype has room for them |
| UserRoutes.ParsedIff | src/routes.rs:488-559 | validation accepts exactly the routes described by their own fields, and takes over exactly what the user said, with AS_PATH 64500, ORIGIN 0, no next hop, label 0 and the expectation valid where nothing is said, and the action communities behind the listed ones |
| Routes.CommonAttrs | src/routes.rs:588-630 | the two attribute buffers are the concatenations of the head and tail attribute lists |
| Routes.EncodeDumpRecord | src/routes.rs:719-762 | one TABLE_DUMP_V2 record, or a failure when the finished attributes exceed 65535 octets |
| Routes.EncodeUpdateRecord | src/routes.rs:775-824 | one BGP4MP record, or a failure when the finished UPDATE exceeds 4096 octets |
| Routes.PushRoutes | src/routes.rs:719-834 | the route loop reaches the corpus of all routes, or stops at the first that fails, which makes the whole list fail |
| Routes.GenerateFromRoutes | src/routes.rs:671-847 | the generator equals its specification, on failures as well |
| RouteAcceptance.GeneratedIff | src/routes.rs:671-847 | a list is accepted exactly when every route passes validation and is small enough for the format, its size counted from the user's fields: no rules and at most 65535 octets of attributes in a dump, at most 4096 octets of UPDATE in a stream |
| RouteAttributes.DecodedAttributesTold | src/routes.rs:588-630 | decoding the octets of any route's attributes gives ORIGIN and AS_PATH, the attribute with the next hop, the optional ones in ascending order with their standard codes and flags, each there exactly when the user gave it and with what the user gave, and the raw ones last |
| RouteChecks.LengthsExactIff | src/routes.rs:734-736 | no attribute length, nor a sixteen-bit length of them all, loses bits exactly when the finished octets fit 65535 |
| RouteChecks.DumpLateCheck | src/routes.rs:734-736 | a dump accepts a route exactly when none of its length fields lost bits |
| RouteChecks.UpdateLateCheck | src/routes.rs:802-804 | an UPDATE within the message limit lost no bits in any length field inside it |
| RouteChecks.PathCountExact | src/routes.rs:536-538 | the AS_PATH count octet is exact exactly for at most 255 AS numbers, as for every route expected to be valid |
| RouteChecks.LateChecksSuffice | src/routes.rs:671-847 | on every accepted run no narrowing cast of a length lost bits, and every record in the file is framed |
| RouteChecks.Conservation | src/routes.rs:677-698 | one record per route plus one for a dump's table, valid and skip counts adding up and true, no abort, layout, clean walk at the manifest offsets |
| RouteChecks.RouteTypesTold | src/routes.rs:685-697 | the headers of every generated file hold the types its manifest reports |
| RouteChecks.AcceptedIff | src/routes.rs:671-847 | a list is accepted exactly when every route on its own parses and encodes at its place |
| UpdateReader.UpdateReadBack | src/routes.rs:775-834 | session, attributes and NLRI of every accepted BGP4MP route read back from the body of its record |
| UpdateReader.UpdateFileTells | src/routes.rs:774-834 | for every accepted list, the octets at manifest entry i tell what the user said in route i: header of type 16 and subtype 4 or 9 with the time of its position, the session with the first AS of the user's path, the message with its marker, all attributes, next hop, family, SAFI and NLRI, and the entry names kind and expectation |
| UpdateReader.ToldNetwork | src/routes.rs:494-499 | the prefix octets found there lie, zero padded, in the user's network, and are the user's address if that has no host bits |
| DumpReader.DumpTableTells | src/routes.rs:701-718 | for every accepted list a reader of the file's octets finds the peer table with its collector, view and two peers, and one route for each of the user's |
| DumpReader.DumpFileTells | src/routes.rs:719-772 | route i of what it returns says what the user said in route i: time, sequence number, network, label, distinguisher, path identifier, the peer of its family, originated time, all attributes and the next hop; header and manifest entry agree |
| WireRecovery.WireFlowspecNlri | tests/parsers/runners/routes_mrtparse_check.py:158-195 | the checker's walk with its cursor equals its specification and terminates on every input |
| WireRecovery.WireNlriIff | tests/parsers/runners/routes_mrtparse_check.py:158-195 | the walk exactly, on any record: it returns some octets if and only if the subtype is 4 or 9 and session, UPDATE and attributes are laid out so that they end the first attribute of code 14 that starts inside the section |
| WireRecovery.ReachThird | tests/parsers/runners/routes_mrtparse_check.py:184-194 | the walk takes the built-in MP_REACH_NLRI, whatever attributes with the same code follow it |
| WireRecovery.WireRecovers | src/routes.rs:774-833 | for every accepted FlowSpec route the walk at the manifest's offset and size yields exactly the user's path identifier, if any, and the encoded rule |
| WireRecovery.FileKeepsMeaning | src/routes.rs:774-833 | what the walk yields decodes, for the family the checker derives, to components that match exactly the packets of the user's rule |
| Invalid.AttributeDeclared | src/bgp.rs:21-30 | the length field is the declared one, narrowed to the width the flags announce |
| Invalid.OverrunDetected | src/invalid.rs:57-66 | the walk over the built attribute octets fails exactly when the low octet of the declared length exceeds the octets present, or what it leaves over is not whole attributes |
| Invalid.OverrunLost | src/invalid.rs:57-67 | a declared length over the octets present that the walk does not notice |
| Invalid.OverrunMessageIntact | src/invalid.rs:63-66 | the message around the damaged attribute reads as built for up to 65509 octets, and is refused beyond |
| Invalid.Bgp4mpAttrOverrun | src/invalid.rs:60-67 | the builder's record: attribute, UPDATE and session fields |
| Invalid.OverrunTold | src/invalid.rs:60-67 | told from the octets of the record: session, UPDATE, and in it one optional attribute of code 4 with the low octet of the declared length and the filler |
| Invalid.OverrunRecordRefused | src/invalid.rs:57-67 | the whole record is refused exactly when the message outgrows its length field or the walk over its attributes fails |
| Invalid.OverrunRecordFramed | src/invalid.rs:5-8 | the walker passes the record exactly when its size fits the record's own Length field |
| Invalid.PeerIndexCountMismatch | src/invalid.rs:139-151 | the loop builds a table with the claimed count and the actual peers |
| Invalid.CountMismatchRefused | src/invalid.rs:138-151 | the table is refused exactly when the claimed count is not the true one, and otherwise gives the collector, an empty view and the numbered peers |
| Invalid.DishonestEntryRefused | src/invalid.rs:98-105 | a record with one entry is refused exactly when the Attribute Length is not the size of its attributes |
| Invalid.RibAttrLenOverrun | src/invalid.rs:98-105 | the builder's record for any attribute octets: the declared length is 64 more than they are |
| Invalid.OverlongTold | src/invalid.rs:98-105 | its octets, field by field |
| Invalid.OverlongRefused | src/invalid.rs:98-105 | 64 octets too many are always noticed, for any attributes |

## Left out

- Text and JSON: parsing of prefixes, addresses, AS numbers, communities, distinguishers and hex digits, and lower-casing of flag names; names are taken as lower-case. `parse_hex` accepts a few strings that are not plain hex digits.
- Error texts, and therefore which of several errors is reported first.
- Manifest `details`, `description` and `tags`.
- The fixed corpus of the valid, skip, combo, attribute-error, edge-case and stress sections: constant data, entering as arbitrary pieces. That their kinds are unique is not stated.
- OSPF and IS-IS records, legacy TABLE_DUMP, state changes, OPEN, KEEPALIVE and NOTIFICATION messages, and the two-octet AS_PATH: straight-line builders.
- The remaining malformed records of `src/invalid.rs`: constants, or the same shapes as those modelled.
- Float rates of traffic actions, redirect and marking communities: actions enter as finished communities.
- FastNetMon, mrtparse, the container runners, command lines, file reading and writing, and the checkers' reports.
- `usize` and `u64` overflow of file offsets: sizes are unbounded here, so the walker's `checked_add` never fails.
- Panics of debug builds on timestamp overflow; the wrapped value of release builds is modelled.
- Profiles.GenerateProfile: takes the pieces of its sections as given, because the sections are constant data; what is modelled is their order, the switches, the timestamps and the fatal tail.
- Profiles.CleanCorpusWalk: assumes that every built-in section pushes only records with honest Length fields and no abort class, which is a fact about that constant data.
- Profiles.FatalCorpusWalk: assumes the same of the built-in sections.
- Invalid.RibAttrLenOverrun: takes the attributes as given, which are constant in the original.
- RouteChecks.LateChecksSuffice: says nothing about the RIB sequence number, which is the route's position modulo 2^32, because no check in the source is about it.
