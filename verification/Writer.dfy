/** MRT record framing (RFC 6396 sections 2 and 3) and the byte buffer the builders write into. */
module Writer {
  import opened Bytes

  /** The growing byte vector every builder appends to. */
  class Buf {
    var data: seq<byte>

    constructor ()
      ensures data == []
    {
      data := [];
    }

    method PutU8(v: byte)
      modifies this
      ensures data == old(data) + [v]
    {
      data := data + [v];
    }

    method PutU16(v: u16)
      modifies this
      ensures data == old(data) + U16(v)
    {
      data := data + U16(v);
    }

    method PutU32(v: u32)
      modifies this
      ensures data == old(data) + U32(v)
    {
      data := data + U32(v);
    }

    method PutBytes(v: seq<byte>)
      modifies this
      ensures data == old(data) + v
    {
      data := data + v;
    }
  }

  datatype MrtRecord = MrtRecord(
    timestamp: u32, mrtType: u16, subtype: u16, microsecond: Option<u32>,
    body: seq<byte>, declaredLength: Option<u32>)

  /** A record whose Length field is computed. */
  function NewRecord(timestamp: u32, mrtType: u16, subtype: u16, body: seq<byte>): MrtRecord {
    MrtRecord(timestamp, mrtType, subtype, None, body, None)
  }

  /** Everything after the common header: the microsecond field of _ET records, then the body. */
  function Payload(r: MrtRecord): seq<byte> {
    (if r.microsecond.Some? then U32(r.microsecond.value) else []) + r.body
  }

  lemma NewPayload(timestamp: u32, mrtType: u16, subtype: u16, body: seq<byte>)
    ensures Payload(NewRecord(timestamp, mrtType, subtype, body)) == body
  {
    assert [] + body == body;
  }

  /** The value of the Length field; the computed one is narrowed to 32 bits. */
  function WireLength(r: MrtRecord): u32 {
    if r.declaredLength.Some? then r.declaredLength.value
    else AsU32(AsU32(|r.body|) + (if r.microsecond.Some? then 4 else 0))
  }

  function EncodedLen(r: MrtRecord): nat {
    12 + (if r.microsecond.Some? then 4 else 0) + |r.body|
  }

  function Header(r: MrtRecord): (h: seq<byte>)
    ensures |h| == 12
  {
    U32(r.timestamp) + U16(r.mrtType) + U16(r.subtype) + U32(WireLength(r))
  }

  function EncodeRecord(r: MrtRecord): (s: seq<byte>)
    ensures |s| == EncodedLen(r)
  {
    Header(r) + Payload(r)
  }

  method EncodeInto(r: MrtRecord, out: Buf)
    modifies out
    ensures out.data == old(out.data) + EncodeRecord(r)
  {
    ghost var before := out.data;
    out.PutU32(r.timestamp);
    out.PutU16(r.mrtType);
    out.PutU16(r.subtype);
    out.PutU32(WireLength(r));
    assert out.data == before + Header(r);
    if r.microsecond.Some? {
      out.PutU32(r.microsecond.value);
    }
    out.PutBytes(r.body);
    assert out.data == before + Header(r) + Payload(r);
    Assoc(before, Header(r), Payload(r));
  }

  /** The Length field says how many octets follow the header. */
  predicate Honest(r: MrtRecord) { WireLength(r) == |Payload(r)| }

  /** A computed Length field is honest exactly when the payload fits 32 bits. */
  lemma ComputedLengthHonest(r: MrtRecord)
    requires r.declaredLength.None?
    ensures Honest(r) <==> |Payload(r)| < 0x1_0000_0000
  {
  }

  lemma HeaderFields(r: MrtRecord)
    ensures var s := EncodeRecord(r);
            && Nat(s[0..4]) == r.timestamp && Nat(s[4..6]) == r.mrtType
            && Nat(s[6..8]) == r.subtype && Nat(s[8..12]) == WireLength(r)
            && s[12..] == Payload(r)
  {
    var s := EncodeRecord(r);
    Pow256Values();
    NatOfBE(4, r.timestamp);
    NatOfBE(2, r.mrtType);
    NatOfBE(2, r.subtype);
    NatOfBE(4, WireLength(r));
    assert s[0..4] == U32(r.timestamp);
    assert s[4..6] == U16(r.mrtType);
    assert s[6..8] == U16(r.subtype);
    assert s[8..12] == U32(WireLength(r));
  }

  lemma MicrosecondsAfter(header: seq<byte>, micro: u32, body: seq<byte>)
    requires |header| == 12
    ensures var s := header + (U32(micro) + body); Nat(s[12..16]) == micro && s[16..] == body
  {
    var s := header + (U32(micro) + body);
    Pow256Values();
    NatOfBE(4, micro);
    assert s[12..16] == U32(micro);
  }

  lemma LengthCounts(r: MrtRecord)
    requires r.declaredLength.None? && |EncodeRecord(r)| - 12 < 0x1_0000_0000
    ensures WireLength(r) == |EncodeRecord(r)| - 12
  {
  }

  /** Where the microseconds and the body stand: behind the header four octets that denote the
      microseconds, when there are any, then the body to the end; and a computed Length field that fits
      32 bits counts both. */
  lemma PayloadFields(r: MrtRecord)
    ensures var s := EncodeRecord(r);
            if r.microsecond.Some? then |s| == 16 + |r.body| && Nat(s[12..16]) == r.microsecond.value && s[16..] == r.body
            else |s| == 12 + |r.body| && s[12..] == r.body
    ensures var s := EncodeRecord(r);
            r.declaredLength.None? && |s| - 12 < 0x1_0000_0000 ==> Nat(s[8..12]) == |s| - 12
  {
    HeaderFields(r);
    if r.microsecond.Some? {
      MicrosecondsAfter(Header(r), r.microsecond.value, r.body);
    }
    if r.declaredLength.None? && |EncodeRecord(r)| - 12 < 0x1_0000_0000 {
      LengthCounts(r);
    }
  }
}
