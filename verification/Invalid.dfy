/** Builders of deliberately malformed records: when exactly a strict reader refuses what they build. */
module Invalid {
  import opened Bytes
  import opened Writer
  import opened Framing
  import opened Bgp
  import opened Records
  import opened UpdateReader

  // ---------------------------------------------------------------- declared attribute lengths

  /** The length field of an attribute whose length is declared by the caller. */
  function DeclaredField(flags: byte, declared: u16): nat {
    if ExtLen(flags) then declared else AsU8(declared)
  }

  function DeclaredBytes(flags: byte, code: byte, declared: u16, value: seq<byte>): seq<byte> {
    [flags, code] + (if ExtLen(flags) then U16(declared) else [AsU8(declared)]) + value
  }

  method AttributeDeclared(flags: byte, code: byte, declared: u16, value: seq<byte>) returns (s: seq<byte>)
    ensures s == DeclaredBytes(flags, code, declared, value)
  {
    var b := new Buf();
    b.PutU8(flags);
    b.PutU8(code);
    if ExtLen(flags) {
      b.PutU16(declared);
    } else {
      b.PutU8(AsU8(declared));
    }
    assert b.data == [flags, code] + (if ExtLen(flags) then U16(declared) else [AsU8(declared)]);
    b.PutBytes(value);
    s := b.data;
  }

  lemma DeclaredRead(flags: byte, code: byte, declared: u16, value: seq<byte>)
    ensures ReadAttr(DeclaredBytes(flags, code, declared, value)) ==
            match Take(DeclaredField(flags, declared), value)
            case None => None
            case Some(split) => Some(AttrRead(Attr(flags, code, split.0), split.1))
  {
    var s := DeclaredBytes(flags, code, declared, value);
    if ExtLen(flags) {
      assert s[2..] == U16(declared) + value;
      TakeU16(declared, value);
    } else {
      assert s[2..] == [AsU8(declared)] + value;
      TakeNatByte(AsU8(declared), value);
    }
  }

  // ---------------------------------------------------------------- bgp4mp_attr_overrun

  const FILLER: byte := 0x55

  function Filler(n: nat): (s: seq<byte>)
    ensures |s| == n
    ensures forall i :: 0 <= i < n ==> s[i] == FILLER
  {
    seq(n, i => FILLER)
  }

  predicate IsFiller(s: seq<byte>) { forall i :: 0 <= i < |s| ==> s[i] == FILLER }

  lemma FillerLength(s: seq<byte>)
    requires |s| == 2 && IsFiller(s)
    ensures Nat(s) == 0x5555
  {
    assert s[..1] == [FILLER] && s[..1][..0] == [];
    assert Nat(s[..1]) == FILLER;
  }

  /** Read as attributes, filler octets announce an extended length of 0x5555: each attribute takes
      four octets more than that. */
  lemma FillerAttr(s: seq<byte>)
    requires IsFiller(s)
    ensures if |s| < 0x5559 then ReadAttr(s) == None
            else ReadAttr(s).Some? && ReadAttr(s).value.rest == s[0x5559..]
  {
    if |s| >= 4 {
      assert ExtLen(s[0]);
      assert s[2..][..2] == s[2..4] && s[2..][2..] == s[4..];
      FillerLength(s[2..4]);
      if |s| >= 0x5559 {
        assert s[4..][0x5555..] == s[0x5559..];
      }
    }
  }

  lemma ReadAttrsStep(s: seq<byte>)
    requires s != []
    ensures ReadAttrs(s).Some? <==> ReadAttr(s).Some? && ReadAttrs(ReadAttr(s).value.rest).Some?
  {
  }

  /** A run of filler octets that is cut into whole attributes. */
  predicate Whole(n: nat) { n % 0x5559 == 0 }

  lemma WholeStep(n: nat)
    ensures n >= 0x5559 ==> (Whole(n) <==> Whole(n - 0x5559))
    ensures 0 < n < 0x5559 ==> !Whole(n)
  {
  }

  lemma {:induction false} FillerAttrs(s: seq<byte>)
    requires IsFiller(s)
    ensures ReadAttrs(s).Some? <==> Whole(|s|)
    decreases |s|
  {
    if s != [] {
      FillerAttr(s);
      ReadAttrsStep(s);
      WholeStep(|s|);
      if |s| >= 0x5559 {
        FillerAttrs(s[0x5559..]);
      }
    }
  }

  function OverrunAttrs(declared: u16, actual: nat): seq<byte> {
    DeclaredBytes(FLAG_OPTIONAL, ATTR_MULTI_EXIT_DISC, declared, Filler(actual))
  }

  lemma ReadAttrsFirst(s: seq<byte>, first: Option<AttrRead>)
    requires s != [] && ReadAttr(s) == first
    ensures ReadAttrs(s).Some? <==> first.Some? && ReadAttrs(first.value.rest).Some?
  {
  }

  lemma OverrunFirst(declared: u16, actual: nat)
    ensures ReadAttr(OverrunAttrs(declared, actual)) ==
            if AsU8(declared) > actual then None
            else Some(AttrRead(Attr(FLAG_OPTIONAL, ATTR_MULTI_EXIT_DISC, Filler(actual)[..AsU8(declared)]),
                               Filler(actual)[AsU8(declared)..]))
  {
    DeclaredRead(FLAG_OPTIONAL, ATTR_MULTI_EXIT_DISC, declared, Filler(actual));
  }

  lemma OverrunRead(declared: u16, actual: nat)
    ensures AsU8(declared) > actual ==> ReadAttrs(OverrunAttrs(declared, actual)) == None
    ensures AsU8(declared) <= actual ==>
              (ReadAttrs(OverrunAttrs(declared, actual)).Some? <==> ReadAttrs(Filler(actual)[AsU8(declared)..]).Some?)
  {
    OverrunFirst(declared, actual);
    ReadAttrsFirst(OverrunAttrs(declared, actual), ReadAttr(OverrunAttrs(declared, actual)));
  }

  /** The promise that walking the attributes must fail holds exactly under this condition. The
      flags announce a one-octet length, so only the low octet of the declared length counts; and
      the filler behind a shorter value may itself read as whole attributes. */
  lemma OverrunDetected(declared: u16, actual: nat)
    ensures ReadAttrs(OverrunAttrs(declared, actual)) == None <==>
            AsU8(declared) > actual || !Whole(actual - AsU8(declared))
  {
    OverrunRead(declared, actual);
    if AsU8(declared) <= actual {
      FillerAttrs(Filler(actual)[AsU8(declared)..]);
    }
  }

  /** Declaring 260 octets over 4 present ones overruns nothing: the length octet says 4. */
  lemma OverrunLost()
    ensures ReadAttrs(OverrunAttrs(260, 4)).Some?
  {
    OverrunDetected(260, 4);
  }

  /** The damage stays inside the attributes: the message around them is read as it was built,
      exactly when it fits its own length field. */
  lemma OverrunMessageIntact(declared: u16, actual: nat)
    ensures ReadUpdate(Update([], OverrunAttrs(declared, actual), [])) ==
            if actual <= 65509 then Some(UpdateParts([], OverrunAttrs(declared, actual), [])) else None
  {
    UpdateRoundTrip([], OverrunAttrs(declared, actual), []);
  }

  const BGP4MP_MESSAGE: u16 := 1
  const PEER_AS: u32 := 64500
  const LOCAL_AS: u32 := 64501
  const PEER_IP: Octets4 := [192, 0, 2, 1]
  const LOCAL_IP: Octets4 := [192, 0, 2, 2]

  function OverrunRecord(ts: u32, declared: u16, actual: nat): MrtRecord {
    Bgp4mpRecord(ts, BGP4MP, None, BGP4MP_MESSAGE, PEER_AS, LOCAL_AS, 1, PEER_IP, LOCAL_IP,
                 Update([], OverrunAttrs(declared, actual), []))
  }

  method Bgp4mpAttrOverrun(ts: u32, declared: u16, actual: nat) returns (r: MrtRecord)
    ensures r == OverrunRecord(ts, declared, actual)
  {
    var attrs := AttributeDeclared(FLAG_OPTIONAL, ATTR_MULTI_EXIT_DISC, declared, Filler(actual));
    var update := BgpUpdate([], attrs, []);
    r := Bgp4mpMessage(ts, BGP4MP, None, BGP4MP_MESSAGE, PEER_AS, LOCAL_AS, 1, PEER_IP, LOCAL_IP, update);
  }

  lemma OverrunSession(declared: u16, actual: nat)
    ensures var message := Update([], OverrunAttrs(declared, actual), []);
            var session := ReadBgp4mp(false, Prelude(PEER_AS, LOCAL_AS, false, 1, PEER_IP, LOCAL_IP) + message);
            session.Some? && session.value.message == message
  {
    PreludeRead(PEER_AS, LOCAL_AS, false, 1, PEER_IP, LOCAL_IP, Update([], OverrunAttrs(declared, actual), []));
  }

  /** The whole record is refused exactly when its message outgrows the length field, or walking its
      attributes fails; in between the malformed record reads like any other. */
  lemma OverrunRecordRefused(ts: u32, declared: u16, actual: nat)
    ensures ReadAnnouncement(false, OverrunRecord(ts, declared, actual).body) == None <==>
            actual > 65509 || AsU8(declared) > actual || !Whole(actual - AsU8(declared))
  {
    OverrunSession(declared, actual);
    OverrunMessageIntact(declared, actual);
    OverrunDetected(declared, actual);
  }

  /** The message around the damage: an UPDATE with nothing but one optional attribute of code 4, the low
      octet of the declared length as its length, and the filler. */
  predicate DamageTold(message: seq<byte>, declared: u16, actual: nat) {
    var parts := ReadUpdate(message);
    && parts.Some? && parts.value.withdrawn == [] && parts.value.nlri == []
    && |parts.value.attrs| == 3 + actual && parts.value.attrs[..3] == [0x80, 4, declared % 0x100]
    && forall k :: 3 <= k < 3 + actual ==> parts.value.attrs[k] == 0x55
  }

  lemma DamageWritten(declared: u16, actual: nat)
    requires actual <= 65509
    ensures DamageTold(Update([], OverrunAttrs(declared, actual), []), declared, actual)
  {
    OverrunMessageIntact(declared, actual);
  }

  /** The record apart from the damage, told from its octets: header and session. */
  lemma OverrunTold(ts: u32, declared: u16, actual: nat)
    requires actual <= 65509
    ensures var s := EncodeRecord(OverrunRecord(ts, declared, actual));
            var session := ReadBgp4mpRecord(s);
            && |s| >= 12 && Nat(s[0..4]) == ts && Nat(s[4..6]) == 16 && Nat(s[6..8]) == 1
            && session.Some? && DamageTold(session.value.message, declared, actual)
            && session.value.(message := []) == Bgp4mp(64500, 64501, 1, 1, [192, 0, 2, 1], [192, 0, 2, 2], [])
  {
    var message := Update([], OverrunAttrs(declared, actual), []);
    HeaderFields(OverrunRecord(ts, declared, actual));
    Bgp4mpRecordRead(ts, None, BGP4MP_MESSAGE, PEER_AS, LOCAL_AS, 1, PEER_IP, LOCAL_IP, message);
    DamageWritten(declared, actual);
  }

  lemma OverrunBodySize(ts: u32, declared: u16, actual: nat)
    ensures |OverrunRecord(ts, declared, actual).body| == 42 + actual
  {
    assert |Prelude(PEER_AS, LOCAL_AS, false, 1, PEER_IP, LOCAL_IP)| == 16;
    assert |OverrunAttrs(declared, actual)| == 3 + actual;
  }

  lemma SizeDecidesFraming(r: MrtRecord)
    requires r.microsecond.None? && r.declaredLength.None?
    ensures Framed(EncodeRecord(r)) <==> |r.body| < 0x1_0000_0000
  {
    EncodedFramed(r);
    ComputedLengthHonest(r);
  }

  /** Such a record is of the skip class as long as its size fits the record's own Length field, far
      beyond what its message can hold: the walker passes it. */
  lemma OverrunRecordFramed(ts: u32, declared: u16, actual: nat)
    ensures Framed(EncodeRecord(OverrunRecord(ts, declared, actual))) <==> 42 + actual < 0x1_0000_0000
  {
    OverrunBodySize(ts, declared, actual);
    SizeDecidesFraming(OverrunRecord(ts, declared, actual));
  }

  // ---------------------------------------------------------------- peer_index_count_mismatch

  function FakePeer(i: nat): Peer {
    Peer([192, 0, 2, AsU8(i)], [10, 0, 0, AsU8(i)], AsU16(64500 + i), false)
  }

  function FakePeers(n: nat): (ps: seq<Peer>)
    ensures |ps| == n
  {
    seq(n, i requires 0 <= i < n => FakePeer(i))
  }

  const FAKE_COLLECTOR: Octets4 := [192, 0, 2, 99]

  method PeerIndexCountMismatch(ts: u32, claimed: u16, actual: u16) returns (r: MrtRecord)
    ensures r == NewRecord(ts, TABLE_DUMP_V2, PEER_INDEX_TABLE, PeerTableBody(FAKE_COLLECTOR, [], claimed, FakePeers(actual)))
  {
    var b := new Buf();
    b.PutBytes(FAKE_COLLECTOR);
    b.PutU16(0);
    b.PutU16(claimed);
    assert b.data == FAKE_COLLECTOR + U16(0) + [] + U16(claimed);
    ghost var start, parts := b.data, PeerParts(FakePeers(actual));
    for i := 0 to actual
      invariant b.data == start + Flat(parts[..i])
    {
      PutFakePeer(b, i);
      FlatSnoc(parts, i);
      Assoc(start, Flat(parts[..i]), parts[i]);
    }
    assert parts[..actual] == parts;
    r := NewRecord(ts, TABLE_DUMP_V2, PEER_INDEX_TABLE, b.data);
  }

  method PutFakePeer(b: Buf, i: nat)
    modifies b
    ensures b.data == old(b.data) + PeerBytes(FakePeer(i))
  {
    ghost var before, id, ip := b.data, [192, 0, 2, AsU8(i)], [10, 0, 0, AsU8(i)];
    b.PutU8(0);
    b.PutBytes([192, 0, 2, AsU8(i)]);
    b.PutBytes([10, 0, 0, AsU8(i)]);
    b.PutU16(AsU16(64500 + i));
    FourParts(before, [0], id, ip, U16(AsU16(64500 + i)));
  }

  lemma FourParts(before: seq<byte>, a: seq<byte>, b: seq<byte>, c: seq<byte>, d: seq<byte>)
    ensures before + a + b + c + d == before + (a + b + c + d)
  {
  }

  lemma FakePeersCarried(n: nat)
    ensures AllCarried(FakePeers(n))
  {
  }

  /** Peer number i: identifier 192.0.2.i, address 10.0.0.i, a two-octet AS number from 64500 on. */
  predicate PeerTold(p: Peer, i: nat) {
    && p.bgpId == [192, 0, 2, i % 0x100] && p.ip == [10, 0, 0, i % 0x100]
    && p.asn == (64500 + i) % 0x1_0000 && !p.as4
  }

  /** The table is refused exactly when the claimed count is not the true one, in either direction; with
      the true one it gives collector, empty view and the peers. */
  lemma CountMismatchRefused(claimed: u16, actual: u16)
    ensures var table := ReadPeerTable(PeerTableBody(FAKE_COLLECTOR, [], claimed, FakePeers(actual)));
            && (table == None <==> claimed != actual)
            && (claimed == actual ==>
                  && table.value.collector == [192, 0, 2, 99] && table.value.view == [] && |table.value.peers| == actual
                  && forall i :: 0 <= i < actual ==> PeerTold(table.value.peers[i], i))
  {
    FakePeersCarried(actual);
    PeerTableRoundTrip(FAKE_COLLECTOR, [], claimed, FakePeers(actual));
  }

  // ---------------------------------------------------------------- rib_attr_len_overrun

  /** An entry whose Attribute Length promises 64 octets more than there are. */
  function OverlongEntry(ts: u32, attrs: seq<byte>): RibEntry {
    RibEntry(0, ts, None, attrs, Some(AsU16(AsU16(|attrs|) + 64)))
  }

  lemma OneEntryTail(e: RibEntry)
    ensures RibTail([e]) == U16(1) + EntryBytes(e)
  {
    assert Flat(EntryParts([e])) == EntryBytes(e) + [];
  }

  lemma ReadOnlyEntry(e: RibEntry)
    requires e.pathId.None?
    ensures ReadRibTail(false, RibTail([e])) ==
            match ReadEntry(false, EntryBytes(e))
            case None => None
            case Some(one) => if one.rest != [] then None else Some([one.value])
  {
    OneEntryTail(e);
    TakeU16(1, EntryBytes(e));
    OnlyItem(EntryReader(false), EntryBytes(e));
  }

  lemma OnlyItem<T>(read: seq<byte> -> Option<Parsed<T>>, s: seq<byte>)
    ensures ReadMany(1, read, s) ==
            match read(s)
            case None => None
            case Some(one) => Some(Parsed([one.value], one.rest))
  {
    if read(s).Some? {
      assert ReadMany(0, read, read(s).value.rest) == Some(Parsed([], read(s).value.rest));
      assert [read(s).value.value] + [] == [read(s).value.value];
    }
  }

  lemma EntryAlone(e: RibEntry)
    requires e.pathId.None?
    ensures ReadEntry(false, EntryBytes(e)) ==
            match Take(e.AttrLength(), e.attributes)
            case None => None
            case Some(split) => Some(Parsed(AsRead(e).(attributes := split.0), split.1))
  {
    EntryFields(e, []);
    assert EntryBytes(e) + [] == EntryBytes(e) && e.attributes + [] == e.attributes;
  }

  /** A record with a single entry is refused exactly when the Attribute Length field is not the
      size of its attributes: too long runs out of octets, too short leaves some over. */
  lemma DishonestEntryRefused(v6: bool, sequence: u32, addr: seq<byte>, bits: byte, e: RibEntry)
    requires |addr| == Records.WidthOf(v6) && bits <= 8 * |addr| && e.pathId.None?
    ensures ReadPlainRib(v6, false, U32(sequence) + (PlainNlri(addr, bits) + RibTail([e]))) == None
            <==> e.AttrLength() != |e.attributes|
  {
    TakeU32(sequence, PlainNlri(addr, bits) + RibTail([e]));
    PlainReadBack(addr, bits, RibTail([e]));
    ReadOnlyEntry(e);
    EntryAlone(e);
  }

  lemma OverlongLength(ts: u32, attrs: seq<byte>)
    requires |attrs| <= 0xFFFF
    ensures OverlongEntry(ts, attrs).AttrLength() != |attrs|
  {
  }

  const DOC_NETWORK: Octets4 := [203, 0, 113, 0]

  function OverlongRecord(ts: u32, sequence: u32, attrs: seq<byte>): MrtRecord {
    RibRecord(ts, RIB_IPV4_UNICAST, sequence, PlainNlri(DOC_NETWORK, 24), [OverlongEntry(ts, attrs)])
  }

  /** The builder; the original's attributes are constant, any will do. */
  method RibAttrLenOverrun(ts: u32, sequence: u32, attrs: seq<byte>) returns (r: MrtRecord)
    ensures r == OverlongRecord(ts, sequence, attrs)
  {
    var present: nat := AsU16(|attrs|);
    var entry := RibEntry(0, ts, None, attrs, Some(AsU16(present + 64)));
    r := RibAfiSafi(ts, RIB_IPV4_UNICAST, sequence, PlainNlri(DOC_NETWORK, 24), [entry]);
  }

  lemma FrontSlices(a: seq<byte>, b: seq<byte>, c: seq<byte>, rest: seq<byte>)
    requires |a| == 4 && |b| == 4 && |c| == 2
    ensures var s := a + (b + (c + rest)); s[..4] == a && s[4..8] == b && s[8..10] == c && s[10..] == rest
  {
  }

  lemma EntrySlices(d: seq<byte>, e: seq<byte>, f: seq<byte>, rest: seq<byte>)
    requires |d| == 2 && |e| == 4 && |f| == 2
    ensures var s := d + e + (f + rest); s[..2] == d && s[2..6] == e && s[6..8] == f && s[8..] == rest
  {
  }

  lemma OverlongLengthIs(ts: u32, attrs: seq<byte>)
    ensures OverlongEntry(ts, attrs).AttrLength() == (|attrs| + 64) % 0x1_0000
  {
    var length := OverlongEntry(ts, attrs).AttrLength();
    var carry := (|attrs| % 0x1_0000 + 64) / 0x1_0000;
    DivModUnique(|attrs| + 64, 0x1_0000, |attrs| / 0x1_0000 + carry, length);
  }

  /** The entry of such a record: peer 0, the time, a length of 64 more than there are, the attributes. */
  predicate OverlongEntryTold(s: seq<byte>, ts: u32, attrs: seq<byte>) {
    && |s| == 8 + |attrs| && Nat(s[..2]) == 0 && Nat(s[2..6]) == ts
    && Nat(s[6..8]) == (|attrs| + 64) % 0x1_0000 && s[8..] == attrs
  }

  lemma OverlongEntryWritten(ts: u32, attrs: seq<byte>)
    ensures OverlongEntryTold(EntryBytes(OverlongEntry(ts, attrs)), ts, attrs)
  {
    var e := OverlongEntry(ts, attrs);
    OverlongLengthIs(ts, attrs);
    EntrySlices(U16(0), U32(ts), U16(e.AttrLength()), attrs);
    Pow256Values();
    NatOfBE(2, 0);
    NatOfBE(4, ts);
    NatOfBE(2, e.AttrLength());
  }

  /** The record, octet by octet: sequence number, 203.0.113.0/24, one entry. */
  lemma OverlongTold(ts: u32, sequence: u32, attrs: seq<byte>)
    ensures var r := OverlongRecord(ts, sequence, attrs);
            && r.mrtType == 13 && r.subtype == 2 && r.timestamp == ts && |r.body| >= 10
            && Nat(r.body[..4]) == sequence && r.body[4..8] == [24, 203, 0, 113] && Nat(r.body[8..10]) == 1
            && OverlongEntryTold(r.body[10..], ts, attrs)
  {
    var e := OverlongEntry(ts, attrs);
    OneEntryTail(e);
    OverlongEntryWritten(ts, attrs);
    assert PlainNlri(DOC_NETWORK, 24) == [24, 203, 0, 113];
    FrontSlices(U32(sequence), PlainNlri(DOC_NETWORK, 24), U16(1), EntryBytes(e));
    Pow256Values();
    NatOfBE(4, sequence);
    NatOfBE(2, 1);
  }

  /** And no reader is fooled: sixty-four octets too many are always noticed. */
  lemma OverlongRefused(ts: u32, sequence: u32, attrs: seq<byte>)
    requires |attrs| <= 0xFFFF
    ensures ReadRib(2, OverlongRecord(ts, sequence, attrs).body) == None
  {
    OverlongLength(ts, attrs);
    DishonestEntryRefused(false, sequence, DOC_NETWORK, 24, OverlongEntry(ts, attrs));
  }
}
