/** TABLE_DUMP_V2 and BGP4MP record bodies (RFC 6396 sections 4.3.1 to 4.3.4 and 4.4.3, RFC 8050
    section 4), with readers written from those sections. */
module Records {
  import opened Bytes
  import opened Writer
  import opened Framing
  import opened Bgp

  const TABLE_DUMP_V2: u16 := 13

  const PEER_INDEX_TABLE: u16 := 1
  const RIB_IPV4_UNICAST: u16 := 2
  const RIB_IPV6_UNICAST: u16 := 4
  const RIB_GENERIC: u16 := 6
  const RIB_IPV4_UNICAST_ADDPATH: u16 := 8
  const RIB_IPV6_UNICAST_ADDPATH: u16 := 10
  const RIB_GENERIC_ADDPATH: u16 := 12

  const BGP4MP_MESSAGE_AS4: u16 := 4
  const BGP4MP_STATE_CHANGE_AS4: u16 := 5
  const BGP4MP_MESSAGE_AS4_LOCAL: u16 := 7
  const BGP4MP_MESSAGE_AS4_ADDPATH: u16 := 9
  const BGP4MP_MESSAGE_AS4_LOCAL_ADDPATH: u16 := 11

  const BGP_AFI_IPV4: u16 := 1
  const BGP_AFI_IPV6: u16 := 2
  const SAFI_UNICAST: byte := 1
  const SAFI_MPLS_VPN: byte := 128
  const SAFI_FLOWSPEC: byte := 133

  // ---------------------------------------------------------------- the peer table

  datatype Peer = Peer(bgpId: Octets4, ip: seq<byte>, asn: u32, as4: bool)

  /** Bit 0 announces an IPv6 address, bit 1 a four-octet AS number. */
  function PeerType(p: Peer): byte {
    (if p.as4 then 2 else 0) + (if |p.ip| == 16 then 1 else 0)
  }

  function PeerBytes(p: Peer): seq<byte> {
    [PeerType(p)] + p.bgpId + p.ip + (if p.as4 then U32(p.asn) else U16(AsU16(p.asn)))
  }

  method PutPeer(b: Buf, p: Peer)
    modifies b
    ensures b.data == old(b.data) + PeerBytes(p)
  {
    ghost var before := b.data;
    b.PutU8(PeerType(p));
    b.PutBytes(p.bgpId);
    assert b.data == before + ([PeerType(p)] + p.bgpId);
    b.PutBytes(p.ip);
    if p.as4 {
      b.PutU32(p.asn);
    } else {
      b.PutU16(AsU16(p.asn));
    }
    Assoc(before, [PeerType(p)] + p.bgpId, p.ip);
    Assoc(before, [PeerType(p)] + p.bgpId + p.ip, if p.as4 then U32(p.asn) else U16(AsU16(p.asn)));
  }

  function PeerParts(peers: seq<Peer>): (parts: seq<seq<byte>>)
    ensures |parts| == |peers|
  {
    seq(|peers|, i requires 0 <= i < |peers| => PeerBytes(peers[i]))
  }

  /** A peer table body whose count field is given; the encoder writes the narrowed true count. */
  function PeerTableBody(collector: Octets4, view: seq<byte>, count: u16, peers: seq<Peer>): seq<byte> {
    collector + U16(AsU16(|view|)) + view + U16(count) + Flat(PeerParts(peers))
  }

  function PeerTableRecord(ts: u32, collector: Octets4, view: seq<byte>, peers: seq<Peer>): MrtRecord {
    NewRecord(ts, TABLE_DUMP_V2, PEER_INDEX_TABLE, PeerTableBody(collector, view, AsU16(|peers|), peers))
  }

  method PutPeers(b: Buf, peers: seq<Peer>)
    modifies b
    ensures b.data == old(b.data) + Flat(PeerParts(peers))
  {
    ghost var parts := PeerParts(peers);
    for i := 0 to |peers|
      invariant b.data == old(b.data) + Flat(parts[..i])
    {
      PutPeer(b, peers[i]);
      FlatSnoc(parts, i);
      Assoc(old(b.data), Flat(parts[..i]), parts[i]);
    }
    assert parts[..|peers|] == parts;
  }

  method PeerIndexTable(ts: u32, collector: Octets4, view: seq<byte>, peers: seq<Peer>) returns (r: MrtRecord)
    ensures r == PeerTableRecord(ts, collector, view, peers)
  {
    var b := new Buf();
    b.PutBytes(collector);
    b.PutU16(AsU16(|view|));
    assert b.data == collector + U16(AsU16(|view|));
    b.PutBytes(view);
    b.PutU16(AsU16(|peers|));
    PutPeers(b, peers);
    r := NewRecord(ts, TABLE_DUMP_V2, PEER_INDEX_TABLE, b.data);
  }

  function ReadPeer(s: seq<byte>): Option<Parsed<Peer>>
  {
    if s == [] then None else
    var as4 := s[0] / 2 % 2 == 1;
    var (id, s1) :- Take(4, s[1..]);
    var (ip, s2) :- Take(if s[0] % 2 == 1 then 16 else 4, s1);
    var (asn, s3) :- TakeNat(if as4 then 4 else 2, s2);
    if asn > 0xFFFF_FFFF then None else Some(Parsed(Peer(id, ip, asn, as4), s3))
  }

  /** What the format can carry: an IPv4 or IPv6 address, and a number that fits its width. */
  predicate Carried(p: Peer) {
    (|p.ip| == 4 || |p.ip| == 16) && (p.as4 || p.asn <= 0xFFFF)
  }

  lemma PeerAsn(p: Peer, rest: seq<byte>)
    ensures TakeNat(if p.as4 then 4 else 2, (if p.as4 then U32(p.asn) else U16(AsU16(p.asn))) + rest)
            == Some((if p.as4 then p.asn else AsU16(p.asn), rest))
  {
    if p.as4 { TakeU32(p.asn, rest); } else { TakeU16(AsU16(p.asn), rest); }
  }

  lemma PeerConcat(p: Peer, asn: seq<byte>, rest: seq<byte>)
    requires asn == if p.as4 then U32(p.asn) else U16(AsU16(p.asn))
    ensures PeerBytes(p) + rest == [PeerType(p)] + (p.bgpId + (p.ip + (asn + rest)))
  {
  }

  lemma CarriedPeerRead(p: Peer, rest: seq<byte>)
    requires Carried(p)
    ensures ReadPeer(PeerBytes(p) + rest) == Some(Parsed(p, rest))
  {
    var asn := if p.as4 then U32(p.asn) else U16(AsU16(p.asn));
    var s1 := p.bgpId + (p.ip + (asn + rest));
    PeerConcat(p, asn, rest);
    PeerAsn(p, rest);
    PeerFields(p, [PeerType(p)] + s1, s1, asn, rest);
  }

  lemma PeerFields(p: Peer, s: seq<byte>, s1: seq<byte>, asn: seq<byte>, rest: seq<byte>)
    requires Carried(p) && s == [PeerType(p)] + s1 && s1 == p.bgpId + (p.ip + (asn + rest))
    requires TakeNat(if p.as4 then 4 else 2, asn + rest) == Some((p.asn, rest))
    ensures ReadPeer(s) == Some(Parsed(p, rest))
  {
    assert s[1..] == s1;
    TakeAppend(p.bgpId, p.ip + (asn + rest));
    TakeAppend(p.ip, asn + rest);
  }

  lemma ReadPeerCarried(s: seq<byte>)
    requires ReadPeer(s).Some?
    ensures Carried(ReadPeer(s).value.value)
  {
    if s[0] / 2 % 2 != 1 {
      Pow256Values();
      var s2 := Take(if s[0] % 2 == 1 then 16 else 4, Take(4, s[1..]).value.1).value.1;
      BEOfNat(s2[..2]);
    }
  }

  /** A peer entry is read back exactly when the format can carry it. */
  lemma PeerRoundTrip(p: Peer, rest: seq<byte>)
    ensures ReadPeer(PeerBytes(p) + rest) == Some(Parsed(p, rest)) <==> Carried(p)
  {
    if Carried(p) {
      CarriedPeerRead(p, rest);
    } else if ReadPeer(PeerBytes(p) + rest).Some? {
      ReadPeerCarried(PeerBytes(p) + rest);
    }
  }

  datatype PeerTable = PeerTable(collector: seq<byte>, view: seq<byte>, peers: seq<Peer>)

  /** A peer index table, all of whose octets must be accounted for. */
  function ReadPeerTable(body: seq<byte>): Option<PeerTable> {
    var (collector, s1) :- Take(4, body);
    var (viewLen, s2) :- TakeNat(2, s1);
    var (view, s3) :- Take(viewLen, s2);
    var (count, s4) :- TakeNat(2, s3);
    var read :- ReadMany(count, ReadPeer, s4);
    if read.rest != [] then None else Some(PeerTable(collector, view, read.value))
  }

  predicate AllCarried(peers: seq<Peer>) {
    forall i :: 0 <= i < |peers| ==> Carried(peers[i])
  }

  lemma PeersRead(peers: seq<Peer>)
    requires AllCarried(peers)
    ensures ReadsParts(ReadPeer, PeerParts(peers), peers)
  {
    forall i, tail | 0 <= i < |peers|
      ensures ReadPeer(PeerParts(peers)[i] + tail) == Some(Parsed(peers[i], tail))
    {
      CarriedPeerRead(peers[i], tail);
    }
  }

  lemma PeerTableFields(collector: Octets4, view: seq<byte>, count: u16, peers: seq<Peer>)
    requires |view| <= 0xFFFF
    ensures ReadPeerTable(PeerTableBody(collector, view, count, peers)) ==
            match ReadMany(count, ReadPeer, Flat(PeerParts(peers)))
            case None => None
            case Some(read) => if read.rest != [] then None else Some(PeerTable(collector, view, read.value))
  {
    var flat := Flat(PeerParts(peers));
    assert PeerTableBody(collector, view, count, peers) == collector + (U16(|view|) + (view + (U16(count) + flat)));
    TakeAppend(collector, U16(|view|) + (view + (U16(count) + flat)));
    TakeU16(|view|, view + (U16(count) + flat));
    TakeAppend(view, U16(count) + flat);
    TakeU16(count, flat);
  }

  /** A table is read back exactly when its count field tells the truth; a claimed count that is
      larger or smaller than the peers present is refused. */
  lemma PeerTableRoundTrip(collector: Octets4, view: seq<byte>, count: u16, peers: seq<Peer>)
    requires |view| <= 0xFFFF && AllCarried(peers)
    ensures var r := ReadPeerTable(PeerTableBody(collector, view, count, peers));
            if count == |peers| then r == Some(PeerTable(collector, view, peers)) else r == None
  {
    PeerTableFields(collector, view, count, peers);
    PeersRead(peers);
    ReadManyParts(count, ReadPeer, PeerParts(peers), peers);
    if count == |peers| {
      assert peers[..count] == peers && PeerParts(peers)[count..] == [];
    }
  }

  lemma PeerTablePayload(ts: u32, collector: Octets4, view: seq<byte>, peers: seq<Peer>)
    requires |peers| <= 0xFFFF
    ensures Payload(PeerTableRecord(ts, collector, view, peers)) == PeerTableBody(collector, view, |peers|, peers)
  {
    NewPayload(ts, TABLE_DUMP_V2, PEER_INDEX_TABLE, PeerTableBody(collector, view, AsU16(|peers|), peers));
  }

  lemma PeerTableRecordRead(ts: u32, collector: Octets4, view: seq<byte>, peers: seq<Peer>)
    requires |view| <= 0xFFFF && |peers| <= 0xFFFF && AllCarried(peers)
    ensures ReadPeerTable(Payload(PeerTableRecord(ts, collector, view, peers))) == Some(PeerTable(collector, view, peers))
  {
    PeerTablePayload(ts, collector, view, peers);
    PeerTableRoundTrip(collector, view, |peers|, peers);
  }

  // ---------------------------------------------------------------- RIB entries

  datatype RibEntry = RibEntry(
    peerIndex: u16, originated: u32, pathId: Option<u32>, attributes: seq<byte>, declaredAttrLen: Option<u16>)
  {
    /** The value of the Attribute Length field, narrowed unless overridden. */
    function AttrLength(): u16 { declaredAttrLen.GetOr(AsU16(|attributes|)) }
  }

  function EntryHead(e: RibEntry): seq<byte> {
    U16(e.peerIndex) + U32(e.originated)
  }

  function EntryBytes(e: RibEntry): seq<byte> {
    EntryHead(e) + WithPathId(e.pathId, U16(e.AttrLength()) + e.attributes)
  }

  method PutEntry(b: Buf, e: RibEntry)
    modifies b
    ensures b.data == old(b.data) + EntryBytes(e)
  {
    ghost var before := b.data;
    b.PutU16(e.peerIndex);
    b.PutU32(e.originated);
    assert b.data == before + EntryHead(e);
    if e.pathId.Some? {
      b.PutU32(e.pathId.value);
    }
    ghost var id := if e.pathId.Some? then U32(e.pathId.value) else [];
    assert b.data == before + (EntryHead(e) + id);
    b.PutU16(e.AttrLength());
    b.PutBytes(e.attributes);
    EntryConcat(before, EntryHead(e), id, U16(e.AttrLength()), e.attributes);
    assert id + (U16(e.AttrLength()) + e.attributes) == WithPathId(e.pathId, U16(e.AttrLength()) + e.attributes);
  }

  lemma EntryConcat(a: seq<byte>, b: seq<byte>, c: seq<byte>, d: seq<byte>, e: seq<byte>)
    ensures a + (b + c) + d + e == a + (b + (c + (d + e)))
  {
  }

  function TakePathId(addPath: bool, s: seq<byte>): Option<(Option<nat>, seq<byte>)> {
    if !addPath then Some((None, s)) else
    var (id, rest) :- TakeNat(4, s);
    Some((Some(id), rest))
  }

  datatype RibRead = RibRead(peerIndex: nat, originated: nat, pathId: Option<nat>, attributes: seq<byte>)

  function ReadEntry(addPath: bool, s: seq<byte>): Option<Parsed<RibRead>>
  {
    var (peer, s1) :- TakeNat(2, s);
    var (time, s2) :- TakeNat(4, s1);
    var (id, s3) :- TakePathId(addPath, s2);
    var (len, s4) :- TakeNat(2, s3);
    var (attrs, rest) :- Take(len, s4);
    Some(Parsed(RibRead(peer, time, id, attrs), rest))
  }

  function IdOf(id: Option<u32>): Option<nat> { if id.Some? then Some(id.value) else None }

  function AsRead(e: RibEntry): RibRead { RibRead(e.peerIndex, e.originated, IdOf(e.pathId), e.attributes) }

  lemma EntryFields(e: RibEntry, tail: seq<byte>)
    ensures ReadEntry(e.pathId.Some?, EntryBytes(e) + tail) ==
            match Take(e.AttrLength(), e.attributes + tail)
            case None => None
            case Some(split) => Some(Parsed(AsRead(e).(attributes := split.0), split.1))
  {
    var len := U16(e.AttrLength());
    var s3 := len + (e.attributes + tail);
    var s2 := WithPathId(e.pathId, s3);
    EntryTail(e, tail);
    TakeU16(e.peerIndex, U32(e.originated) + s2);
    TakeU32(e.originated, s2);
    if e.pathId.Some? {
      TakeU32(e.pathId.value, s3);
    }
    TakeU16(e.AttrLength(), e.attributes + tail);
  }

  lemma EntryTail(e: RibEntry, tail: seq<byte>)
    ensures EntryBytes(e) + tail ==
            U16(e.peerIndex) + (U32(e.originated) + WithPathId(e.pathId, U16(e.AttrLength()) + (e.attributes + tail)))
  {
  }

  /** An entry is read back exactly when its Attribute Length field is the size of its attributes,
      and refused exactly when the field runs past everything that follows. */
  lemma EntryRoundTrip(e: RibEntry, tail: seq<byte>)
    ensures var r := ReadEntry(e.pathId.Some?, EntryBytes(e) + tail);
            && (r == Some(Parsed(AsRead(e), tail)) <==> e.AttrLength() == |e.attributes|)
            && (r == None <==> e.AttrLength() > |e.attributes| + |tail|)
  {
    EntryFields(e, tail);
    if e.AttrLength() == |e.attributes| {
      TakeAppend(e.attributes, tail);
    }
  }

  function EntryParts(entries: seq<RibEntry>): (parts: seq<seq<byte>>)
    ensures |parts| == |entries|
  {
    seq(|entries|, i requires 0 <= i < |entries| => EntryBytes(entries[i]))
  }

  /** What follows the NLRI of every RIB record: entry count and entries. */
  function RibTail(entries: seq<RibEntry>): seq<byte> {
    U16(AsU16(|entries|)) + Flat(EntryParts(entries))
  }

  method PutEntries(b: Buf, entries: seq<RibEntry>)
    modifies b
    ensures b.data == old(b.data) + RibTail(entries)
  {
    ghost var parts := EntryParts(entries);
    b.PutU16(AsU16(|entries|));
    ghost var start := b.data;
    for i := 0 to |entries|
      invariant b.data == start + Flat(parts[..i])
    {
      PutEntry(b, entries[i]);
      FlatSnoc(parts, i);
      Assoc(start, Flat(parts[..i]), parts[i]);
    }
    assert parts[..|entries|] == parts;
    Assoc(old(b.data), U16(AsU16(|entries|)), Flat(parts));
  }

  function RibRecord(ts: u32, subtype: u16, sequence: u32, nlri: seq<byte>, entries: seq<RibEntry>): MrtRecord {
    NewRecord(ts, TABLE_DUMP_V2, subtype, U32(sequence) + (nlri + RibTail(entries)))
  }

  /** RIB_GENERIC names the family in front of its NLRI. */
  function FamilyNlri(afi: u16, safi: byte, nlri: seq<byte>): seq<byte> { U16(afi) + [safi] + nlri }

  method RibAfiSafi(ts: u32, subtype: u16, sequence: u32, nlri: seq<byte>, entries: seq<RibEntry>) returns (r: MrtRecord)
    ensures r == RibRecord(ts, subtype, sequence, nlri, entries)
  {
    var b := new Buf();
    b.PutU32(sequence);
    b.PutBytes(nlri);
    PutEntries(b, entries);
    assert b.data == U32(sequence) + nlri + RibTail(entries);
    Assoc(U32(sequence), nlri, RibTail(entries));
    r := NewRecord(ts, TABLE_DUMP_V2, subtype, b.data);
  }

  method RibGeneric(ts: u32, subtype: u16, sequence: u32, afi: u16, safi: byte, nlri: seq<byte>, entries: seq<RibEntry>)
    returns (r: MrtRecord)
    ensures r == RibRecord(ts, subtype, sequence, FamilyNlri(afi, safi, nlri), entries)
  {
    var b := new Buf();
    b.PutU32(sequence);
    b.PutU16(afi);
    b.PutU8(safi);
    b.PutBytes(nlri);
    assert b.data == U32(sequence) + FamilyNlri(afi, safi, nlri);
    PutEntries(b, entries);
    Assoc(U32(sequence), FamilyNlri(afi, safi, nlri), RibTail(entries));
    r := NewRecord(ts, TABLE_DUMP_V2, subtype, b.data);
  }

  function EntryReader(addPath: bool): seq<byte> -> Option<Parsed<RibRead>> { s => ReadEntry(addPath, s) }

  /** Entry count and entries, up to the end of the record. */
  function ReadRibTail(addPath: bool, s: seq<byte>): Option<seq<RibRead>> {
    var (count, body) :- TakeNat(2, s);
    var read :- ReadMany(count, EntryReader(addPath), body);
    if read.rest != [] then None else Some(read.value)
  }

  predicate Uniform(entries: seq<RibEntry>, addPath: bool) {
    forall i :: 0 <= i < |entries| ==>
                  entries[i].pathId.Some? == addPath && entries[i].AttrLength() == |entries[i].attributes|
  }

  function AllRead(entries: seq<RibEntry>): (s: seq<RibRead>)
    ensures |s| == |entries|
  {
    seq(|entries|, i requires 0 <= i < |entries| => AsRead(entries[i]))
  }

  lemma EntriesRead(addPath: bool, entries: seq<RibEntry>)
    requires Uniform(entries, addPath)
    ensures ReadsParts(EntryReader(addPath), EntryParts(entries), AllRead(entries))
  {
    forall i, tail | 0 <= i < |entries|
      ensures EntryReader(addPath)(EntryParts(entries)[i] + tail) == Some(Parsed(AllRead(entries)[i], tail))
    {
      EntryRoundTrip(entries[i], tail);
    }
  }

  lemma RibTailOf(addPath: bool, count: u16, body: seq<byte>, read: seq<RibRead>)
    requires ReadMany(count, EntryReader(addPath), body) == Some(Parsed(read, []))
    ensures ReadRibTail(addPath, U16(count) + body) == Some(read)
  {
    TakeU16(count, body);
  }

  lemma RibTailCount(entries: seq<RibEntry>)
    requires |entries| <= 0xFFFF
    ensures RibTail(entries) == U16(|entries|) + Flat(EntryParts(entries))
  {
  }

  /** Any uniform list of entries is read back from the record that holds it. */
  lemma RibTailRoundTrip(addPath: bool, entries: seq<RibEntry>)
    requires Uniform(entries, addPath) && |entries| <= 0xFFFF
    ensures ReadRibTail(addPath, RibTail(entries)) == Some(AllRead(entries))
  {
    EntriesRead(addPath, entries);
    ReadManyParts(|entries|, EntryReader(addPath), EntryParts(entries), AllRead(entries));
    assert EntryParts(entries)[|entries|..] == [] && AllRead(entries)[..|entries|] == AllRead(entries);
    RibTailOf(addPath, |entries|, Flat(EntryParts(entries)), AllRead(entries));
    RibTailCount(entries);
  }

  // ---------------------------------------------------------------- RIB records

  /** What a RIB record says: sequence number, family, NLRI and entries. */
  datatype Nlri =
    | Plain(v6: bool, bits: byte, addr: seq<byte>)
    | Vpn(v6: bool, pathId: Option<nat>, mpls: nat, rd: seq<byte>, bits: byte, addr: seq<byte>)

  datatype Rib = Rib(sequence: nat, nlri: Nlri, entries: seq<RibRead>)

  function WidthOf(v6: bool): nat { if v6 then 16 else 4 }

  function ReadPlainRib(v6: bool, addPath: bool, body: seq<byte>): Option<Rib> {
    var (sequence, s) :- TakeNat(4, body);
    var net :- ReadPlain(WidthOf(v6), s);
    var entries :- ReadRibTail(addPath, net.rest);
    Some(Rib(sequence, Plain(v6, net.bits, net.addr), entries))
  }

  /** What is left to read of a VPN record behind its family and path identifier. */
  function AfterFamily(sequence: nat, v6: bool, id: Option<nat>, s: seq<byte>): Option<Rib> {
    var vpn :- ReadVpn(WidthOf(v6), s);
    var entries :- ReadRibTail(false, vpn.rest);
    Some(Rib(sequence, Vpn(v6, id, vpn.mpls, vpn.rd, vpn.bits, vpn.addr), entries))
  }

  /** RIB_GENERIC, for the VPN family only; with ADD-PATH the identifier precedes the NLRI and the
      entries keep their plain form. */
  function ReadGenericRib(addPath: bool, body: seq<byte>): Option<Rib> {
    var (sequence, s1) :- TakeNat(4, body);
    var (afi, s2) :- TakeNat(2, s1);
    var (safi, s3) :- TakeNat(1, s2);
    if safi != 128 || (afi != 1 && afi != 2) then None else
    var v6 := afi == 2;
    var (id, s4) :- TakePathId(addPath, s3);
    AfterFamily(sequence, v6, id, s4)
  }

  datatype RibShape = PlainShape(v6: bool, addPath: bool) | GenericShape(addPath: bool)

  function ShapeOf(subtype: nat): Option<RibShape> {
    if subtype == 2 then Some(PlainShape(false, false))
    else if subtype == 8 then Some(PlainShape(false, true))
    else if subtype == 4 then Some(PlainShape(true, false))
    else if subtype == 10 then Some(PlainShape(true, true))
    else if subtype == 6 then Some(GenericShape(false))
    else if subtype == 12 then Some(GenericShape(true))
    else None
  }

  function ReadShaped(shape: RibShape, body: seq<byte>): Option<Rib> {
    match shape
    case PlainShape(v6, addPath) => ReadPlainRib(v6, addPath, body)
    case GenericShape(addPath) => ReadGenericRib(addPath, body)
  }

  /** A TABLE_DUMP_V2 RIB record, by its subtype. */
  function ReadRib(subtype: nat, body: seq<byte>): Option<Rib> {
    var shape :- ShapeOf(subtype);
    ReadShaped(shape, body)
  }

  /** What reading an address back gives: the encoded octets, zero padded. */
  function Padded(addr: seq<byte>, bits: byte): seq<byte>
    requires bits <= 8 * |addr|
  {
    PadTo(|addr|, addr[..OctetsFor(bits)])
  }

  lemma PlainRibRoundTrip(v6: bool, addPath: bool, sequence: u32, addr: seq<byte>, bits: byte, entries: seq<RibEntry>)
    requires |addr| == WidthOf(v6) && bits <= 8 * |addr|
    requires Uniform(entries, addPath) && |entries| <= 0xFFFF
    ensures ReadPlainRib(v6, addPath, U32(sequence) + (PlainNlri(addr, bits) + RibTail(entries))) ==
            Some(Rib(sequence, Plain(v6, bits, Padded(addr, bits)), AllRead(entries)))
  {
    TakeU32(sequence, PlainNlri(addr, bits) + RibTail(entries));
    PlainReadBack(addr, bits, RibTail(entries));
    RibTailRoundTrip(addPath, entries);
  }

  lemma PlainReadBack(addr: seq<byte>, bits: byte, tail: seq<byte>)
    requires bits <= 8 * |addr|
    ensures ReadPlain(|addr|, PlainNlri(addr, bits) + tail) == Some(PlainRead(bits, Padded(addr, bits), tail))
  {
    var head, s := addr[..OctetsFor(bits)], PlainNlri(addr, bits) + tail;
    assert s[0] == bits && s[1..] == head + tail;
    TakeAppend(head, tail);
  }

  lemma GenericFields(afi: u16, safi: byte, id: Option<u32>, nlri: seq<byte>, sequence: u32, tail: seq<byte>)
    ensures var s := U32(sequence) + (FamilyNlri(afi, safi, WithPathId(id, nlri)) + tail);
            && TakeNat(4, s) == Some((sequence, U16(afi) + ([safi] + WithPathId(id, nlri + tail))))
            && TakeNat(2, U16(afi) + ([safi] + WithPathId(id, nlri + tail)))
               == Some((afi, [safi] + WithPathId(id, nlri + tail)))
            && TakeNat(1, [safi] + WithPathId(id, nlri + tail)) == Some((safi, WithPathId(id, nlri + tail)))
            && TakePathId(id.Some?, WithPathId(id, nlri + tail)) == Some((IdOf(id), nlri + tail))
  {
    GenericConcat(afi, safi, id, nlri, tail);
    TakeU32(sequence, U16(afi) + ([safi] + WithPathId(id, nlri + tail)));
    TakeU16(afi, [safi] + WithPathId(id, nlri + tail));
    TakeNatByte(safi, WithPathId(id, nlri + tail));
    if id.Some? { TakeU32(id.value, nlri + tail); }
  }

  lemma GenericConcat(afi: u16, safi: byte, id: Option<u32>, nlri: seq<byte>, tail: seq<byte>)
    ensures FamilyNlri(afi, safi, WithPathId(id, nlri)) + tail == U16(afi) + ([safi] + WithPathId(id, nlri + tail))
  {
  }

  lemma FamilyRead(v6: bool, id: Option<u32>, sequence: u32, nlri: seq<byte>, tail: seq<byte>)
    ensures var afi := if v6 then BGP_AFI_IPV6 else BGP_AFI_IPV4;
            ReadGenericRib(id.Some?, U32(sequence) + (FamilyNlri(afi, SAFI_MPLS_VPN, WithPathId(id, nlri)) + tail)) ==
            AfterFamily(sequence, v6, IdOf(id), nlri + tail)
  {
    GenericFields(if v6 then BGP_AFI_IPV6 else BGP_AFI_IPV4, SAFI_MPLS_VPN, id, nlri, sequence, tail);
  }

  lemma GenericRibRoundTrip(v6: bool, id: Option<u32>, sequence: u32, mpls: u32, rd: Octets8,
                            addr: seq<byte>, bits: byte, entries: seq<RibEntry>)
    requires |addr| == WidthOf(v6) && bits <= 8 * |addr|
    requires Uniform(entries, false) && |entries| <= 0xFFFF
    ensures var afi := if v6 then BGP_AFI_IPV6 else BGP_AFI_IPV4;
            var nlri := FamilyNlri(afi, SAFI_MPLS_VPN, WithPathId(id, VpnNlri(mpls, rd, addr, bits)));
            ReadGenericRib(id.Some?, U32(sequence) + (nlri + RibTail(entries))) ==
            Some(Rib(sequence, Vpn(v6, IdOf(id), mpls % LABEL_LIMIT, rd, bits, Padded(addr, bits)), AllRead(entries)))
  {
    FamilyRead(v6, id, sequence, VpnNlri(mpls, rd, addr, bits), RibTail(entries));
    VpnReadBack(mpls, rd, addr, bits, RibTail(entries));
    RibTailRoundTrip(false, entries);
  }

  // ---------------------------------------------------------------- BGP4MP

  /** The subtypes whose AS numbers are four octets wide. */
  predicate IsAs4(subtype: u16) {
    subtype in {BGP4MP_MESSAGE_AS4, BGP4MP_MESSAGE_AS4_LOCAL, BGP4MP_MESSAGE_AS4_ADDPATH,
                BGP4MP_MESSAGE_AS4_LOCAL_ADDPATH, BGP4MP_STATE_CHANGE_AS4}
  }

  function AsNumbers(peerAs: u32, localAs: u32, as4: bool): seq<byte> {
    if as4 then U32(peerAs) + U32(localAs) else U16(AsU16(peerAs)) + U16(AsU16(localAs))
  }

  function AfiOf(ip: seq<byte>): u16 { if |ip| == 16 then BGP_AFI_IPV6 else BGP_AFI_IPV4 }

  function Prelude(peerAs: u32, localAs: u32, as4: bool, ifindex: u16, peerIp: seq<byte>, localIp: seq<byte>): seq<byte> {
    AsNumbers(peerAs, localAs, as4) + U16(ifindex) + U16(AfiOf(peerIp)) + peerIp + localIp
  }

  method Bgp4mpPrelude(peerAs: u32, localAs: u32, as4: bool, ifindex: u16, peerIp: seq<byte>, localIp: seq<byte>)
    returns (b: Buf)
    ensures fresh(b) && b.data == Prelude(peerAs, localAs, as4, ifindex, peerIp, localIp)
  {
    b := new Buf();
    if as4 {
      b.PutU32(peerAs);
      b.PutU32(localAs);
    } else {
      b.PutU16(AsU16(peerAs));
      b.PutU16(AsU16(localAs));
    }
    assert b.data == AsNumbers(peerAs, localAs, as4);
    b.PutU16(ifindex);
    b.PutU16(AfiOf(peerIp));
    b.PutBytes(peerIp);
    b.PutBytes(localIp);
  }

  function Bgp4mpRecord(ts: u32, mrtType: u16, micro: Option<u32>, subtype: u16, peerAs: u32, localAs: u32, ifindex: u16,
                        peerIp: seq<byte>, localIp: seq<byte>, message: seq<byte>): MrtRecord {
    MrtRecord(ts, mrtType, subtype, micro,
              Prelude(peerAs, localAs, IsAs4(subtype), ifindex, peerIp, localIp) + message, None)
  }

  method Bgp4mpMessage(ts: u32, mrtType: u16, micro: Option<u32>, subtype: u16, peerAs: u32, localAs: u32, ifindex: u16,
                       peerIp: seq<byte>, localIp: seq<byte>, message: seq<byte>) returns (r: MrtRecord)
    ensures r == Bgp4mpRecord(ts, mrtType, micro, subtype, peerAs, localAs, ifindex, peerIp, localIp, message)
  {
    var b := Bgp4mpPrelude(peerAs, localAs, IsAs4(subtype), ifindex, peerIp, localIp);
    b.PutBytes(message);
    r := MrtRecord(ts, mrtType, subtype, micro, b.data, None);
  }

  datatype Bgp4mp = Bgp4mp(
    peerAs: nat, localAs: nat, ifindex: nat, afi: nat, peerIp: seq<byte>, localIp: seq<byte>, message: seq<byte>)

  function ReadBgp4mp(as4: bool, body: seq<byte>): Option<Bgp4mp> {
    var w := if as4 then 4 else 2;
    var (peerAs, s1) :- TakeNat(w, body);
    var (localAs, s2) :- TakeNat(w, s1);
    var (ifindex, s3) :- TakeNat(2, s2);
    var (afi, s4) :- TakeNat(2, s3);
    if afi != 1 && afi != 2 then None else
    var width := if afi == 2 then 16 else 4;
    var (peerIp, s5) :- Take(width, s4);
    var (localIp, message) :- Take(width, s5);
    Some(Bgp4mp(peerAs, localAs, ifindex, afi, peerIp, localIp, message))
  }

  lemma AsNumbersRead(peerAs: u32, localAs: u32, as4: bool, rest: seq<byte>)
    ensures var w, low := if as4 then 4 else 2, if as4 then localAs else AsU16(localAs);
            && TakeNat(w, AsNumbers(peerAs, localAs, as4) + rest)
               == Some((if as4 then peerAs else AsU16(peerAs), BE(w, low) + rest))
            && TakeNat(w, BE(w, low) + rest) == Some((low, rest))
  {
    if as4 {
      Assoc(U32(peerAs), U32(localAs), rest);
      TakeU32(peerAs, U32(localAs) + rest);
      TakeU32(localAs, rest);
    } else {
      Assoc(U16(AsU16(peerAs)), U16(AsU16(localAs)), rest);
      TakeU16(AsU16(peerAs), U16(AsU16(localAs)) + rest);
      TakeU16(AsU16(localAs), rest);
    }
  }

  lemma PreludeRead(peerAs: u32, localAs: u32, as4: bool, ifindex: u16, peerIp: seq<byte>, localIp: seq<byte>, message: seq<byte>)
    requires |peerIp| == |localIp| && (|peerIp| == 4 || |peerIp| == 16)
    ensures ReadBgp4mp(as4, Prelude(peerAs, localAs, as4, ifindex, peerIp, localIp) + message) ==
            Some(Bgp4mp(if as4 then peerAs else AsU16(peerAs), if as4 then localAs else AsU16(localAs),
                        ifindex, if |peerIp| == 16 then 2 else 1, peerIp, localIp, message))
  {
    var rest := U16(AfiOf(peerIp)) + (peerIp + (localIp + message));
    PreludeConcat(peerAs, localAs, as4, ifindex, peerIp, localIp, message);
    AsNumbersRead(peerAs, localAs, as4, U16(ifindex) + rest);
    TakeU16(ifindex, rest);
    TakeU16(AfiOf(peerIp), peerIp + (localIp + message));
    TakeAppend(peerIp, localIp + message);
    TakeAppend(localIp, message);
  }

  lemma PreludeConcat(peerAs: u32, localAs: u32, as4: bool, ifindex: u16, peerIp: seq<byte>, localIp: seq<byte>, message: seq<byte>)
    ensures Prelude(peerAs, localAs, as4, ifindex, peerIp, localIp) + message ==
            AsNumbers(peerAs, localAs, as4) + (U16(ifindex) + (U16(AfiOf(peerIp)) + (peerIp + (localIp + message))))
  {
  }

  /** A BGP4MP body gives back its session and message; the AS numbers survive exactly when the
      subtype has room for them. */
  lemma Bgp4mpRoundTrip(peerAs: u32, localAs: u32, as4: bool, ifindex: u16, peerIp: seq<byte>, localIp: seq<byte>, message: seq<byte>)
    requires |peerIp| == |localIp| && (|peerIp| == 4 || |peerIp| == 16)
    ensures ReadBgp4mp(as4, Prelude(peerAs, localAs, as4, ifindex, peerIp, localIp) + message) ==
            Some(Bgp4mp(peerAs, localAs, ifindex, if |peerIp| == 16 then 2 else 1, peerIp, localIp, message))
            <==> as4 || (peerAs <= 0xFFFF && localAs <= 0xFFFF)
  {
    PreludeRead(peerAs, localAs, as4, ifindex, peerIp, localIp, message);
  }

  /** Any BGP4MP record, from its octets: type 16, or 17 with four octets of microseconds in front of the
      body; AS numbers of four octets for the subtypes 4, 5, 7, 9 and 11 and of two for the others. */
  function ReadBgp4mpRecord(s: seq<byte>): Option<Bgp4mp> {
    if |s| < 12 || (Nat(s[4..6]) != 16 && Nat(s[4..6]) != 17) then None else
    var (_, body) :- Take(if Nat(s[4..6]) == 17 then 4 else 0, s[12..]);
    ReadBgp4mp(Nat(s[6..8]) in {4, 5, 7, 9, 11}, body)
  }

  lemma PayloadTaken(micro: Option<u32>, body: seq<byte>)
    ensures var s := (if micro.Some? then U32(micro.value) else []) + body;
            Take(if micro.Some? then 4 else 0, s).Some? && Take(if micro.Some? then 4 else 0, s).value.1 == body
  {
  }

  lemma Bgp4mpRecordBody(rec: MrtRecord)
    requires rec.mrtType == (if rec.microsecond.Some? then 17 else 16)
    ensures ReadBgp4mpRecord(EncodeRecord(rec)) == ReadBgp4mp(rec.subtype in {4, 5, 7, 9, 11}, rec.body)
  {
    HeaderFields(rec);
    PayloadTaken(rec.microsecond, rec.body);
  }

  /** Whatever the subtype, a reader of the record's octets finds the session and the message, and both
      AS numbers exactly when the subtype has room for them. */
  lemma Bgp4mpRecordRead(ts: u32, micro: Option<u32>, subtype: u16, peerAs: u32, localAs: u32, ifindex: u16,
                         peerIp: seq<byte>, localIp: seq<byte>, message: seq<byte>)
    requires |peerIp| == |localIp| && (|peerIp| == 4 || |peerIp| == 16)
    ensures var rec := Bgp4mpRecord(ts, if micro.Some? then 17 else 16, micro, subtype, peerAs, localAs, ifindex,
                                    peerIp, localIp, message);
            ReadBgp4mpRecord(EncodeRecord(rec)) ==
            Some(Bgp4mp(peerAs, localAs, ifindex, if |peerIp| == 16 then 2 else 1, peerIp, localIp, message))
            <==> subtype in {4, 5, 7, 9, 11} || (peerAs <= 0xFFFF && localAs <= 0xFFFF)
  {
    Bgp4mpRecordBody(Bgp4mpRecord(ts, if micro.Some? then 17 else 16, micro, subtype, peerAs, localAs, ifindex,
                                  peerIp, localIp, message));
    Bgp4mpRoundTrip(peerAs, localAs, IsAs4(subtype), ifindex, peerIp, localIp, message);
  }
}
