/** Path attributes, NLRI and message framing (RFC 4271 sections 4.1 and 4.3, RFC 4760 section 3,
    RFC 7911 section 3, RFC 4364 section 4.3.4). Length fields are narrowed before any size check,
    so every reader lemma says for exactly which inputs nothing is lost. */
module Bgp {
  import opened Bytes
  import opened Writer
  import opened Framing

  const FLAG_OPTIONAL: byte := 0x80
  const FLAG_TRANSITIVE: byte := 0x40
  const FLAG_EXT_LEN: byte := 0x10

  const ATTR_ORIGIN: byte := 1
  const ATTR_AS_PATH: byte := 2
  const ATTR_NEXT_HOP: byte := 3
  const ATTR_MULTI_EXIT_DISC: byte := 4
  const ATTR_LOCAL_PREF: byte := 5
  const ATTR_ATOMIC_AGGREGATE: byte := 6
  const ATTR_AGGREGATOR: byte := 7
  const ATTR_COMMUNITY: byte := 8
  const ATTR_ORIGINATOR_ID: byte := 9
  const ATTR_CLUSTER_LIST: byte := 10
  const ATTR_MP_REACH_NLRI: byte := 14
  const ATTR_EXT_COMMUNITY: byte := 16
  const ATTR_IPV6_EXT_COMMUNITY: byte := 25
  const ATTR_AIGP: byte := 26
  const ATTR_LARGE_COMMUNITY: byte := 32

  const BGP_UPDATE: byte := 2

  type Octets4 = s: seq<byte> | |s| == 4 witness [0, 0, 0, 0]
  type Octets8 = s: seq<byte> | |s| == 8 witness [0, 0, 0, 0, 0, 0, 0, 0]
  type Octets20 = s: seq<byte> | |s| == 20 witness Zeros(20)

  // ---------------------------------------------------------------- attributes

  datatype Attr = Attr(flags: byte, code: byte, value: seq<byte>)

  predicate ExtLen(flags: byte) { flags / 0x10 % 2 == 1 }

  /** The flags octet as emitted: the extended-length bit is forced to what the size needs. */
  function EmittedFlags(flags: byte, len: nat): byte {
    if len > 255 then (if ExtLen(flags) then flags else flags + FLAG_EXT_LEN)
    else if ExtLen(flags) then flags - FLAG_EXT_LEN else flags
  }

  function Emitted(a: Attr): Attr { a.(flags := EmittedFlags(a.flags, |a.value|)) }

  function AttrHeader(a: Attr): seq<byte> {
    [EmittedFlags(a.flags, |a.value|), a.code]
    + (if |a.value| > 255 then U16(AsU16(|a.value|)) else [AsU8(|a.value|)])
  }

  function AttrBytes(a: Attr): (s: seq<byte>)
    ensures |s| >= 3 + |a.value|
  {
    AttrHeader(a) + a.value
  }

  function AttrsBytes(attrs: seq<Attr>): seq<byte> {
    if attrs == [] then [] else AttrBytes(attrs[0]) + AttrsBytes(attrs[1..])
  }

  method Attribute(flags: byte, code: byte, value: seq<byte>) returns (s: seq<byte>)
    ensures s == AttrBytes(Attr(flags, code, value))
  {
    var b := new Buf();
    if |value| > 255 {
      b.PutU8(if ExtLen(flags) then flags else flags + FLAG_EXT_LEN);
      b.PutU8(code);
      b.PutU16(AsU16(|value|));
    } else {
      b.PutU8(if ExtLen(flags) then flags - FLAG_EXT_LEN else flags);
      b.PutU8(code);
      b.PutU8(AsU8(|value|));
    }
    assert b.data == AttrHeader(Attr(flags, code, value));
    b.PutBytes(value);
    s := b.data;
  }

  /** The emitted flags differ from the caller's in the extended-length bit at most, and that bit
      is set exactly for values over 255 octets. */
  lemma EmittedFlagsBit(flags: byte, len: nat)
    ensures var e := EmittedFlags(flags, len);
            (ExtLen(e) <==> len > 255) && e / 0x20 == flags / 0x20 && e % 0x10 == flags % 0x10
  {
    var high, low: nat := flags / 0x20, flags % 0x10;
    assert flags == 0x20 * high + low || flags == 0x20 * high + 0x10 + low;
  }

  datatype AttrRead = AttrRead(attr: Attr, rest: seq<byte>)

  /** One attribute off the front of a buffer: flags, code, one- or two-octet length, value. */
  function ReadAttr(s: seq<byte>): (r: Option<AttrRead>)
    ensures r.Some? ==> |r.value.rest| < |s|
  {
    if |s| < 2 then None else
    var (len, body) :- TakeNat(if ExtLen(s[0]) then 2 else 1, s[2..]);
    var (value, rest) :- Take(len, body);
    Some(AttrRead(Attr(s[0], s[1], value), rest))
  }

  function ReadAttrs(s: seq<byte>): Option<seq<Attr>>
    decreases |s|
  {
    if s == [] then Some([]) else
    var a :- ReadAttr(s);
    var more :- ReadAttrs(a.rest);
    Some([a.attr] + more)
  }

  lemma HeaderRead(a: Attr, tail: seq<byte>)
    ensures var s := AttrBytes(a) + tail;
            |s| >= 2 && s[0] == EmittedFlags(a.flags, |a.value|) && s[1] == a.code
            && TakeNat(if |a.value| > 255 then 2 else 1, s[2..])
               == Some((if |a.value| > 255 then AsU16(|a.value|) else |a.value|, a.value + tail))
  {
    var s := AttrBytes(a) + tail;
    if |a.value| > 255 {
      assert s[2..] == U16(AsU16(|a.value|)) + (a.value + tail);
      TakeU16(AsU16(|a.value|), a.value + tail);
    } else {
      assert s[2..] == [AsU8(|a.value|)] + (a.value + tail);
      TakeNatByte(AsU8(|a.value|), a.value + tail);
    }
  }

  /** An attribute is read back, with nothing of what follows it, exactly when its value fits the
      two-octet length field. */
  lemma AttrRoundTrip(a: Attr, tail: seq<byte>)
    ensures ReadAttr(AttrBytes(a) + tail) == Some(AttrRead(Emitted(a), tail)) <==> |a.value| <= 0xFFFF
  {
    HeaderRead(a, tail);
    EmittedFlagsBit(a.flags, |a.value|);
    if |a.value| <= 0xFFFF {
      TakeAppend(a.value, tail);
    }
  }

  /** An attribute as its own flags lay it out: a length of two octets with the extended-length bit, of one
      without. */
  function PrintAttr(a: Attr): seq<byte> {
    [a.flags, a.code] + BE(if a.flags / 0x10 % 2 == 1 then 2 else 1, |a.value|) + a.value
  }

  predicate AttrSized(a: Attr) { |a.value| < if a.flags / 0x10 % 2 == 1 then 65536 else 256 }

  lemma PrintedAttrRead(a: Attr, rest: seq<byte>)
    requires AttrSized(a)
    ensures ReadAttr(PrintAttr(a) + rest) == Some(AttrRead(a, rest))
  {
    var n := if a.flags / 0x10 % 2 == 1 then 2 else 1;
    Pow256Values();
    assert (PrintAttr(a) + rest)[2..] == BE(n, |a.value|) + (a.value + rest);
    TakeNatAppend(n, |a.value|, a.value + rest);
    TakeAppend(a.value, rest);
  }

  lemma ReadAttrPrints(s: seq<byte>)
    requires ReadAttr(s).Some?
    ensures var r := ReadAttr(s).value; AttrSized(r.attr) && s == PrintAttr(r.attr) + r.rest
  {
    var n := if s[0] / 0x10 % 2 == 1 then 2 else 1;
    var len := s[2..][..n];
    Pow256Values();
    BEOfNat(len);
    assert s == [s[0], s[1]] + len + (s[2..][n..]);
  }

  /** One attribute off the front, exactly: the octets start with how its flags lay it out. */
  lemma ReadAttrIff(s: seq<byte>, a: Attr, rest: seq<byte>)
    ensures ReadAttr(s) == Some(AttrRead(a, rest)) <==> AttrSized(a) && s == PrintAttr(a) + rest
  {
    if ReadAttr(s).Some? { ReadAttrPrints(s); }
    if AttrSized(a) { PrintedAttrRead(a, rest); }
  }

  predicate AttrsFit(attrs: seq<Attr>) {
    forall i :: 0 <= i < |attrs| ==> |attrs[i].value| <= 0xFFFF
  }

  function AllEmitted(attrs: seq<Attr>): (s: seq<Attr>)
    ensures |s| == |attrs|
  {
    seq(|attrs|, i requires 0 <= i < |attrs| => Emitted(attrs[i]))
  }

  lemma ReadAttrsCons(a: Attr, tail: seq<byte>)
    requires |a.value| <= 0xFFFF && ReadAttrs(tail).Some?
    ensures ReadAttrs(AttrBytes(a) + tail) == Some([Emitted(a)] + ReadAttrs(tail).value)
  {
    AttrRoundTrip(a, tail);
  }

  lemma AllEmittedCons(attrs: seq<Attr>)
    requires attrs != []
    ensures AllEmitted(attrs) == [Emitted(attrs[0])] + AllEmitted(attrs[1..])
  {
  }

  /** Walking concatenated attributes returns the list, in order, with the emitted flags. */
  lemma {:induction false} AttrsRoundTrip(attrs: seq<Attr>)
    requires AttrsFit(attrs)
    ensures ReadAttrs(AttrsBytes(attrs)) == Some(AllEmitted(attrs))
  {
    if attrs != [] {
      AttrsRoundTrip(attrs[1..]);
      ReadAttrsCons(attrs[0], AttrsBytes(attrs[1..]));
      AllEmittedCons(attrs);
    }
  }

  lemma AttrsCons(a: seq<Attr>, b: seq<Attr>)
    requires a != []
    ensures AttrsBytes(a + b) == AttrBytes(a[0]) + AttrsBytes(a[1..] + b)
  {
    assert (a + b)[0] == a[0] && (a + b)[1..] == a[1..] + b;
  }

  lemma {:induction false} AttrsAppend(a: seq<Attr>, b: seq<Attr>)
    ensures AttrsBytes(a + b) == AttrsBytes(a) + AttrsBytes(b)
  {
    if a == [] {
      assert a + b == b;
    } else {
      AttrsCons(a, b);
      AttrsAppend(a[1..], b);
      Assoc(AttrBytes(a[0]), AttrsBytes(a[1..]), AttrsBytes(b));
    }
  }

  lemma AttrsSnoc(attrs: seq<Attr>, a: Attr)
    ensures AttrsBytes(attrs + [a]) == AttrsBytes(attrs) + AttrBytes(a)
  {
    AttrsAppend(attrs, [a]);
    assert AttrsBytes([a]) == AttrBytes(a) + [];
  }

  /** A bound on the whole list bounds every value, so a check made after concatenation is enough
      for the length fields written before it. */
  lemma {:induction false} TotalBoundsEach(attrs: seq<Attr>, i: nat)
    requires i < |attrs|
    ensures |attrs[i].value| + 3 <= |AttrsBytes(attrs)|
  {
    if i > 0 {
      TotalBoundsEach(attrs[1..], i - 1);
    }
  }

  lemma TotalFits(attrs: seq<Attr>)
    requires |AttrsBytes(attrs)| <= 0xFFFF
    ensures AttrsFit(attrs)
  {
    forall i | 0 <= i < |attrs|
      ensures |attrs[i].value| <= 0xFFFF
    {
      TotalBoundsEach(attrs, i);
    }
  }

  // ---------------------------------------------------------------- lists of fixed-width items

  function WordsOf(xs: seq<u32>): (parts: seq<seq<byte>>)
    ensures |parts| == |xs|
    ensures forall i :: 0 <= i < |xs| ==> parts[i] == U32(xs[i])
  {
    seq(|xs|, i requires 0 <= i < |xs| => U32(xs[i]))
  }

  function ReadItems(k: nat, s: seq<byte>): Option<seq<seq<byte>>>
    requires k > 0
    decreases |s|
  {
    if s == [] then Some([]) else
    var (head, rest) :- Take(k, s);
    var more :- ReadItems(k, rest);
    Some([head] + more)
  }

  /** Items of one width written back to back are cut apart again. */
  lemma {:induction false} ItemsRoundTrip(k: nat, parts: seq<seq<byte>>)
    requires k > 0 && forall i :: 0 <= i < |parts| ==> |parts[i]| == k
    ensures ReadItems(k, Flat(parts)) == Some(parts)
  {
    if parts != [] {
      TakeAppend(parts[0], Flat(parts[1..]));
      ItemsRoundTrip(k, parts[1..]);
      assert [parts[0]] + parts[1..] == parts;
    }
  }

  function ReadWords(parts: seq<seq<byte>>): (xs: seq<nat>) {
    seq(|parts|, i requires 0 <= i < |parts| => Nat(parts[i]))
  }

  lemma WordsRoundTrip(xs: seq<u32>)
    ensures ReadItems(4, Flat(WordsOf(xs))) == Some(WordsOf(xs)) && ReadWords(WordsOf(xs)) == xs
    ensures |Flat(WordsOf(xs))| == 4 * |xs|
  {
    ItemsRoundTrip(4, WordsOf(xs));
    FlatLength(4, WordsOf(xs));
    forall i | 0 <= i < |xs|
      ensures ReadWords(WordsOf(xs))[i] == xs[i]
    {
      Pow256Values();
      NatOfBE(4, xs[i]);
    }
  }

  lemma {:induction false} FlatLength(k: nat, parts: seq<seq<byte>>)
    requires forall i :: 0 <= i < |parts| ==> |parts[i]| == k
    ensures |Flat(parts)| == k * |parts|
  {
    if parts != [] {
      FlatLength(k, parts[1..]);
      MulAdd(k, 1, |parts| - 1);
    }
  }

  lemma FlatSnoc(parts: seq<seq<byte>>, i: nat)
    requires i < |parts|
    ensures Flat(parts[..i + 1]) == Flat(parts[..i]) + parts[i]
  {
    assert parts[..i + 1] == parts[..i] + [parts[i]];
    FlatAppend(parts[..i], [parts[i]]);
    assert Flat([parts[i]]) == parts[i] + [];
  }

  method PutWords(out: Buf, xs: seq<u32>)
    modifies out
    ensures out.data == old(out.data) + Flat(WordsOf(xs))
  {
    ghost var parts := WordsOf(xs);
    for i := 0 to |xs|
      invariant out.data == old(out.data) + Flat(parts[..i])
    {
      out.PutU32(xs[i]);
      FlatSnoc(parts, i);
      Assoc(old(out.data), Flat(parts[..i]), parts[i]);
    }
    assert parts[..|xs|] == parts;
  }

  method PutItems(out: Buf, parts: seq<seq<byte>>)
    modifies out
    ensures out.data == old(out.data) + Flat(parts)
  {
    for i := 0 to |parts|
      invariant out.data == old(out.data) + Flat(parts[..i])
    {
      out.PutBytes(parts[i]);
      FlatSnoc(parts, i);
      Assoc(old(out.data), Flat(parts[..i]), parts[i]);
    }
    assert parts[..|parts|] == parts;
  }

  // ---------------------------------------------------------------- AS_PATH

  const AS_SEQUENCE: byte := 2

  datatype Segment = Segment(kind: byte, asns: seq<nat>)

  /** One AS_SEQUENCE of four-octet numbers; its count octet is narrowed. No numbers, no segment. */
  function AsPathValue(asns: seq<u32>): seq<byte> {
    if asns == [] then [] else [AS_SEQUENCE, AsU8(|asns|)] + Flat(WordsOf(asns))
  }

  method AttrAsPath(asns: seq<u32>) returns (s: seq<byte>)
    ensures s == AttrBytes(Attr(FLAG_TRANSITIVE, ATTR_AS_PATH, AsPathValue(asns)))
  {
    var b := new Buf();
    if asns != [] {
      b.PutU8(AS_SEQUENCE);
      b.PutU8(AsU8(|asns|));
      PutWords(b, asns);
    }
    s := Attribute(FLAG_TRANSITIVE, ATTR_AS_PATH, b.data);
  }

  function ReadSegments(s: seq<byte>): Option<seq<Segment>>
    decreases |s|
  {
    if s == [] then Some([]) else if |s| < 2 then None else
    var count: nat := s[1];
    var (body, rest) :- Take(4 * count, s[2..]);
    var words :- ReadItems(4, body);
    var more :- ReadSegments(rest);
    Some([Segment(s[0], ReadWords(words))] + more)
  }

  function PathOf(asns: seq<u32>): seq<Segment> {
    if asns == [] then [] else [Segment(AS_SEQUENCE, asns)]
  }

  lemma ShortCount(asns: seq<u32>, r: Option<seq<Segment>>)
    requires |asns| > 255 && r == ReadSegments(AsPathValue(asns))
    ensures r != Some(PathOf(asns))
  {
    var s := AsPathValue(asns);
    var count: nat := s[1];
    var body := Take(4 * count, s[2..]);
    if r.Some? {
      ItemsCount(4, body.value.0);
      assert |r.value[0].asns| < |asns|;
    }
  }

  lemma {:induction false} ItemsCount(k: nat, s: seq<byte>)
    requires k > 0
    ensures ReadItems(k, s).Some? ==> |s| == k * |ReadItems(k, s).value|
    decreases |s|
  {
    if |s| >= k && s != [] {
      ItemsCount(k, s[k..]);
      if ReadItems(k, s[k..]).Some? {
        MulAdd(k, 1, |ReadItems(k, s[k..]).value|);
      }
    }
  }

  lemma SegmentCons(s: seq<byte>, body: seq<byte>, rest: seq<byte>)
    requires |s| >= 2 && s[2..] == body + rest
    requires var count: nat := s[1]; |body| == 4 * count
    requires ReadItems(4, body).Some? && ReadSegments(rest).Some?
    ensures ReadSegments(s) ==
            Some([Segment(s[0], ReadWords(ReadItems(4, body).value))] + ReadSegments(rest).value)
  {
    TakeAppend(body, rest);
  }

  lemma OneSegment(asns: seq<u32>)
    requires 1 <= |asns| <= 255
    ensures ReadSegments(AsPathValue(asns)) == Some([Segment(AS_SEQUENCE, asns)])
  {
    var s, words := AsPathValue(asns), Flat(WordsOf(asns));
    assert s[2..] == words + [];
    WordsRoundTrip(asns);
    SegmentCons(s, words, []);
    assert [Segment(AS_SEQUENCE, asns)] + [] == [Segment(AS_SEQUENCE, asns)];
  }

  /** A path is read back as the one segment it is exactly when the count octet did not wrap. */
  lemma AsPathRoundTrip(asns: seq<u32>)
    ensures ReadSegments(AsPathValue(asns)) == Some(PathOf(asns)) <==> |asns| <= 255
  {
    if asns != [] {
      if |asns| <= 255 {
        OneSegment(asns);
      } else {
        ShortCount(asns, ReadSegments(AsPathValue(asns)));
      }
    }
  }

  // ---------------------------------------------------------------- MP_REACH_NLRI

  function MpReachValue(afi: u16, safi: byte, nextHop: seq<byte>, nlri: seq<byte>): seq<byte> {
    U16(afi) + [safi, AsU8(|nextHop|)] + nextHop + [0] + nlri
  }

  method AttrMpReach(afi: u16, safi: byte, nextHop: seq<byte>, nlri: seq<byte>) returns (s: seq<byte>)
    ensures s == AttrBytes(Attr(FLAG_OPTIONAL, ATTR_MP_REACH_NLRI, MpReachValue(afi, safi, nextHop, nlri)))
  {
    var b := new Buf();
    b.PutU16(afi);
    b.PutU8(safi);
    b.PutU8(AsU8(|nextHop|));
    assert b.data == U16(afi) + [safi, AsU8(|nextHop|)];
    b.PutBytes(nextHop);
    b.PutU8(0);
    b.PutBytes(nlri);
    s := Attribute(FLAG_OPTIONAL, ATTR_MP_REACH_NLRI, b.data);
  }

  /** The abbreviated form inside RIB entries: next hop length and next hop only. */
  function MpReachTd2Value(nextHop: seq<byte>): seq<byte> { [AsU8(|nextHop|)] + nextHop }

  datatype MpReach = MpReach(afi: nat, safi: byte, nextHop: seq<byte>, nlri: seq<byte>)

  function ReadMpReach(v: seq<byte>): Option<MpReach> {
    if |v| < 5 then None else
    var n: nat := v[3];
    if |v| < 5 + n then None else Some(MpReach(Nat(v[..2]), v[2], v[4..4 + n], v[5 + n..]))
  }

  /** The multiprotocol value gives back its four parts exactly when the next hop length fits. */
  lemma MpReachRoundTrip(afi: u16, safi: byte, nextHop: seq<byte>, nlri: seq<byte>)
    ensures ReadMpReach(MpReachValue(afi, safi, nextHop, nlri)) == Some(MpReach(afi, safi, nextHop, nlri))
            <==> |nextHop| <= 255
  {
    var v := MpReachValue(afi, safi, nextHop, nlri);
    assert v[..2] == U16(afi);
    Pow256Values();
    NatOfBE(2, afi);
    assert v[2] == safi && v[3] == AsU8(|nextHop|);
    if |nextHop| <= 255 {
      assert v[4..4 + |nextHop|] == nextHop;
      assert v[5 + |nextHop|..] == nlri;
    }
  }

  // ---------------------------------------------------------------- NLRI

  function PlainNlri(addr: seq<byte>, bits: byte): seq<byte>
    requires OctetsFor(bits) <= |addr|
  {
    [bits] + addr[..OctetsFor(bits)]
  }

  /** A prefix off the front of a buffer, padded to full width. */
  datatype PlainRead = PlainRead(bits: byte, addr: seq<byte>, rest: seq<byte>)

  function ReadPlain(width: nat, s: seq<byte>): Option<PlainRead> {
    if s == [] || s[0] > 8 * width then None else
    var (head, rest) :- Take(OctetsFor(s[0]), s[1..]);
    Some(PlainRead(s[0], PadTo(width, head), rest))
  }

  /** Reading a prefix back stays in its network, and recovers the very address exactly when no octet
      past those of the prefix is set, as when it has no host bits. */
  lemma PlainRoundTrip(addr: seq<byte>, bits: byte, tail: seq<byte>)
    requires bits <= 8 * |addr|
    ensures var r := ReadPlain(|addr|, PlainNlri(addr, bits) + tail);
            && r.Some? && r.value.bits == bits && r.value.rest == tail
            && SameNetwork(r.value.addr, addr, bits)
            && (r.value.addr == addr <==> !AnyNonZero(addr[OctetsFor(bits)..]))
            && (!PrefixHasHostBits(addr, bits) ==> r.value.addr == addr)
  {
    var head, s := addr[..OctetsFor(bits)], PlainNlri(addr, bits) + tail;
    assert s[0] == bits && s[1..] == head + tail;
    TakeAppend(head, tail);
    PaddedFacts(addr, bits);
  }

  const LABEL_LIMIT: nat := 0x10_0000

  /** The label stack entry: the label shifted past the traffic class, bottom of stack set. */
  function StackEntry(mpls: u32): u32 { AsU32(0x10 * mpls) + 1 }

  /** The length octet counts label (24 bits) and distinguisher (64 bits) before the prefix. */
  function VpnNlri(mpls: u32, rd: Octets8, addr: seq<byte>, bits: byte): seq<byte>
    requires OctetsFor(bits) <= |addr| && bits <= 128
  {
    [24 + 64 + bits] + BE(3, StackEntry(mpls)) + rd + addr[..OctetsFor(bits)]
  }

  datatype VpnRead = VpnRead(mpls: nat, rd: seq<byte>, bits: byte, addr: seq<byte>, rest: seq<byte>)

  function ReadVpn(width: nat, s: seq<byte>): Option<VpnRead> {
    if |s| < 12 || s[0] < 88 || s[0] - 88 > 8 * width || s[3] % 2 == 0 then None else
    var (head, rest) :- Take(OctetsFor(s[0] - 88), s[12..]);
    Some(VpnRead(Nat(s[1..4]) / 0x10, s[4..12], s[0] - 88, PadTo(width, head), rest))
  }

  lemma ThreeOctets(v: nat)
    ensures BE(3, v) == [v / 0x1_0000 % 0x100, v / 0x100 % 0x100, v % 0x100]
  {
    assert BE(1, v / 0x1_0000) == [v / 0x1_0000 % 0x100];
    assert BE(2, v / 0x100) == BE(1, v / 0x1_0000) + [v / 0x100 % 0x100];
  }

  lemma OctetOfLow(v: nat, m: nat, n: nat)
    requires m > 0 && n > 0 && m * 0x100 * n == 0x100_0000
    ensures v / m % 0x100 == v % 0x100_0000 / m % 0x100
  {
    var q, w := v / 0x100_0000, v % 0x100_0000;
    MulAssoc(m, 0x100 * n, q);
    MulAdd(m, 0x100 * n * q, w / m);
    DivModUnique(v, m, 0x100 * (n * q) + w / m, w % m);
    var x := w / m;
    DivModUnique(0x100 * (n * q) + x, 0x100, n * q + x / 0x100, x % 0x100);
  }

  /** Only the low three octets of an integer reach a three-octet field. */
  lemma LowOctets(v: nat)
    ensures BE(3, v) == BE(3, v % 0x100_0000)
  {
    ThreeOctets(v);
    ThreeOctets(v % 0x100_0000);
    OctetOfLow(v, 0x1_0000, 1);
    OctetOfLow(v, 0x100, 0x100);
    OctetOfLow(v, 1, 0x1_0000);
  }

  lemma StackEntryLow(mpls: u32)
    ensures StackEntry(mpls) % 0x100_0000 == 0x10 * (mpls % LABEL_LIMIT) + 1
  {
    var q, low := mpls / LABEL_LIMIT, 0x10 * (mpls % LABEL_LIMIT);
    DivModUnique(0x10 * mpls, 0x1_0000_0000, q / 0x100, 0x100_0000 * (q % 0x100) + low);
    DivModUnique(StackEntry(mpls), 0x100_0000, q % 0x100, low + 1);
  }

  lemma LabelValue(x: nat)
    requires x < 0x10_0000
    ensures Nat(BE(3, 0x10 * x + 1)) / 0x10 == x
  {
    Pow256Values();
    NatOfBE(3, 0x10 * x + 1);
  }

  lemma LabelBottom(x: nat)
    ensures BE(3, 0x10 * x + 1)[2] % 2 == 1
  {
    ThreeOctets(0x10 * x + 1);
    DivModUnique(0x10 * x + 1, 0x100, x / 0x10, 0x10 * (x % 0x10) + 1);
    DivModUnique(0x10 * (x % 0x10) + 1, 2, 8 * (x % 0x10), 1);
  }

  /** What the label field holds: the low twenty bits of the label, and an odd last octet. */
  lemma LabelField(mpls: u32)
    ensures Nat(BE(3, StackEntry(mpls))) / 0x10 == mpls % LABEL_LIMIT
    ensures BE(3, StackEntry(mpls))[2] % 2 == 1
  {
    LowOctets(StackEntry(mpls));
    StackEntryLow(mpls);
    LabelValue(mpls % LABEL_LIMIT);
    LabelBottom(mpls % LABEL_LIMIT);
  }

  lemma VpnParts(mpls: u32, rd: Octets8, addr: seq<byte>, bits: byte, tail: seq<byte>)
    requires bits <= 8 * |addr| && |addr| <= 16
    ensures var s := VpnNlri(mpls, rd, addr, bits) + tail;
            && |s| >= 12 && s[0] == 88 + bits && s[1..4] == BE(3, StackEntry(mpls))
            && s[4..12] == rd && s[12..] == addr[..OctetsFor(bits)] + tail
  {
  }

  lemma VpnFields(width: nat, s: seq<byte>, bits: byte, head: seq<byte>, tail: seq<byte>)
    requires |s| >= 12 && s[0] == 88 + bits && bits <= 8 * width && s[3] % 2 == 1
    requires s[12..] == head + tail && |head| == OctetsFor(bits)
    ensures ReadVpn(width, s) == Some(VpnRead(Nat(s[1..4]) / 0x10, s[4..12], bits, PadTo(width, head), tail))
  {
    TakeAppend(head, tail);
  }

  lemma VpnReadBack(mpls: u32, rd: Octets8, addr: seq<byte>, bits: byte, tail: seq<byte>)
    requires bits <= 8 * |addr| && |addr| <= 16
    ensures ReadVpn(|addr|, VpnNlri(mpls, rd, addr, bits) + tail) ==
            Some(VpnRead(mpls % LABEL_LIMIT, rd, bits, PadTo(|addr|, addr[..OctetsFor(bits)]), tail))
  {
    var s := VpnNlri(mpls, rd, addr, bits) + tail;
    VpnParts(mpls, rd, addr, bits, tail);
    LabelField(mpls);
    assert s[3] == s[1..4][2];
    VpnFields(|addr|, s, bits, addr[..OctetsFor(bits)], tail);
  }

  lemma LabelLow(mpls: u32)
    ensures mpls % LABEL_LIMIT == mpls <==> mpls < LABEL_LIMIT
  {
  }

  lemma PaddedFacts(addr: seq<byte>, bits: nat)
    requires bits <= 8 * |addr|
    ensures var padded := PadTo(|addr|, addr[..OctetsFor(bits)]);
            && SameNetwork(padded, addr, bits)
            && (padded == addr <==> !AnyNonZero(addr[OctetsFor(bits)..]))
            && (!PrefixHasHostBits(addr, bits) ==> padded == addr)
  {
    PaddedPrefixSameNetwork(addr, bits);
    PadsBackIff(addr, bits);
    if !PrefixHasHostBits(addr, bits) {
      NoHostBitsPadsBack(addr, bits);
    }
  }

  /** The length octet never overflows, and a VPN route gives back its label exactly when that
      fits twenty bits; distinguisher and prefix come back always. */
  lemma VpnRoundTrip(mpls: u32, rd: Octets8, addr: seq<byte>, bits: byte, tail: seq<byte>)
    requires bits <= 8 * |addr| && |addr| <= 16
    ensures var r := ReadVpn(|addr|, VpnNlri(mpls, rd, addr, bits) + tail);
            && r.Some? && r.value.rd == rd && r.value.bits == bits && r.value.rest == tail
            && (r.value.mpls == mpls <==> mpls < 0x10_0000)
            && SameNetwork(r.value.addr, addr, bits)
            && (r.value.addr == addr <==> !AnyNonZero(addr[OctetsFor(bits)..]))
            && (!PrefixHasHostBits(addr, bits) ==> r.value.addr == addr)
  {
    VpnReadBack(mpls, rd, addr, bits, tail);
    LabelLow(mpls);
    PaddedFacts(addr, bits);
  }

  /** The next hop of SAFI 128: an all-zero distinguisher before the address. */
  function VpnNextHop(ip: seq<byte>): seq<byte> { Zeros(8) + ip }

  /** The Path Identifier of RFC 7911 before an NLRI, when there is one. */
  function WithPathId(id: Option<u32>, nlri: seq<byte>): seq<byte> {
    if id.Some? then U32(id.value) + nlri else nlri
  }

  // ---------------------------------------------------------------- messages

  function Ones(n: nat): (s: seq<byte>)
    ensures |s| == n && forall i :: 0 <= i < n ==> s[i] == 0xFF
  {
    seq(n, i => 0xFF)
  }

  function Message(kind: byte, payload: seq<byte>): seq<byte> {
    Ones(16) + U16(AsU16(19 + |payload|)) + [kind] + payload
  }

  function UpdatePayload(withdrawn: seq<byte>, attrs: seq<byte>, nlri: seq<byte>): seq<byte> {
    U16(AsU16(|withdrawn|)) + withdrawn + U16(AsU16(|attrs|)) + attrs + nlri
  }

  function Update(withdrawn: seq<byte>, attrs: seq<byte>, nlri: seq<byte>): (s: seq<byte>)
    ensures |s| == 23 + |withdrawn| + |attrs| + |nlri|
  {
    Message(BGP_UPDATE, UpdatePayload(withdrawn, attrs, nlri))
  }

  method BgpMessage(kind: byte, payload: seq<byte>) returns (s: seq<byte>)
    ensures s == Message(kind, payload)
  {
    var b := new Buf();
    b.PutBytes(Ones(16));
    b.PutU16(AsU16(19 + |payload|));
    b.PutU8(kind);
    b.PutBytes(payload);
    s := b.data;
  }

  method BgpUpdate(withdrawn: seq<byte>, attrs: seq<byte>, nlri: seq<byte>) returns (s: seq<byte>)
    ensures s == Update(withdrawn, attrs, nlri)
  {
    var b := new Buf();
    b.PutU16(AsU16(|withdrawn|));
    b.PutBytes(withdrawn);
    b.PutU16(AsU16(|attrs|));
    b.PutBytes(attrs);
    b.PutBytes(nlri);
    s := BgpMessage(BGP_UPDATE, b.data);
  }

  datatype UpdateParts = UpdateParts(withdrawn: seq<byte>, attrs: seq<byte>, nlri: seq<byte>)

  /** Split the body of an UPDATE. */
  function ReadPayload(s: seq<byte>): Option<UpdateParts> {
    var (w, afterW) :- TakeNat(2, s);
    var (withdrawn, rest) :- Take(w, afterW);
    var (a, afterA) :- TakeNat(2, rest);
    var (attrs, nlri) :- Take(a, afterA);
    Some(UpdateParts(withdrawn, attrs, nlri))
  }

  /** The marker of a message: sixteen octets of ones. */
  predicate IsMarker(s: seq<byte>) { |s| == 16 && forall i :: 0 <= i < 16 ==> s[i] == 0xFF }

  /** An UPDATE whose marker, length and type are as they must be. */
  function ReadUpdate(s: seq<byte>): Option<UpdateParts> {
    if |s| < 19 || !IsMarker(s[..16]) || Nat(s[16..18]) != |s| || s[18] != 2 then None
    else ReadPayload(s[19..])
  }

  lemma PayloadRoundTrip(withdrawn: seq<byte>, attrs: seq<byte>, nlri: seq<byte>)
    requires |withdrawn| <= 0xFFFF && |attrs| <= 0xFFFF
    ensures ReadPayload(UpdatePayload(withdrawn, attrs, nlri)) == Some(UpdateParts(withdrawn, attrs, nlri))
  {
    var rest := U16(|attrs|) + (attrs + nlri);
    assert UpdatePayload(withdrawn, attrs, nlri) == U16(|withdrawn|) + (withdrawn + rest);
    TakeU16(|withdrawn|, withdrawn + rest);
    TakeAppend(withdrawn, rest);
    TakeU16(|attrs|, attrs + nlri);
    TakeAppend(attrs, nlri);
  }

  lemma MessageParts(kind: byte, payload: seq<byte>)
    ensures var s := Message(kind, payload);
            && |s| == 19 + |payload| && s[..16] == Ones(16) && Nat(s[16..18]) == AsU16(|s|)
            && s[18] == kind && s[19..] == payload
  {
    var s, len := Message(kind, payload), U16(AsU16(19 + |payload|));
    assert s == Ones(16) + (len + ([kind] + payload));
    assert s[16..18] == len;
    Pow256Values();
    NatOfBE(2, AsU16(19 + |payload|));
  }

  lemma UpdateFramed(payload: seq<byte>)
    ensures ReadUpdate(Message(BGP_UPDATE, payload)) == if 19 + |payload| <= 0xFFFF then ReadPayload(payload) else None
  {
    MessageParts(BGP_UPDATE, payload);
  }

  /** An UPDATE is accepted and split back into its parts exactly when its own length, checked on
      the finished octets, fits sixteen bits, and refused otherwise: that one check covers the inner
      length fields. */
  lemma UpdateRoundTrip(withdrawn: seq<byte>, attrs: seq<byte>, nlri: seq<byte>)
    ensures ReadUpdate(Update(withdrawn, attrs, nlri)) ==
            if |Update(withdrawn, attrs, nlri)| <= 0xFFFF then Some(UpdateParts(withdrawn, attrs, nlri)) else None
  {
    UpdateFramed(UpdatePayload(withdrawn, attrs, nlri));
    if |Update(withdrawn, attrs, nlri)| <= 0xFFFF {
      PayloadRoundTrip(withdrawn, attrs, nlri);
    }
  }
}
