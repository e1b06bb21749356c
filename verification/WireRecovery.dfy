/** Extracting a FlowSpec NLRI from the octets a manifest entry points at, as the route checker does,
    and what that recovers from a generated BGP4MP file. */
module WireRecovery {
  import opened Bytes
  import opened Writer
  import opened Framing
  import opened Bgp
  import opened Records
  import opened Corpora
  import opened Routes
  import opened RouteChecks
  import UserRoutes
  import UpdateReader
  import FlowSpec
  import FlowSpecReaders
  import FlowSpecMeaning
  import FlowSpecAcceptance

  // ---------------------------------------------------------------- the extraction

  /** Past the MRT header and the session fields of an AS4 record, to the BGP message. */
  function SkipSession(rec: seq<byte>): Option<seq<byte>> {
    var (_, s1) :- Take(12, rec);
    var (_, s2) :- Take(10, s1);
    var (afi, s3) :- TakeNat(2, s2);
    var (_, s4) :- Take(if afi == 1 then 8 else 32, s3);
    Some(s4)
  }

  /** Where the path attributes start, and how many octets they are said to take. */
  datatype AttrsAt = AttrsAt(size: nat, rest: seq<byte>)

  function SkipToAttrs(s: seq<byte>): Option<AttrsAt> {
    var (marker, s1) :- Take(16, s);
    if !IsMarker(marker) then None else
    var (_, s2) :- Take(2, s1);
    var (kind, s3) :- Take(1, s2);
    if kind != [2] then None else
    var (withdrawn, s4) :- TakeNat(2, s3);
    var (_, s5) :- Take(withdrawn, s4);
    var (size, rest) :- TakeNat(2, s5);
    Some(AttrsAt(size, rest))
  }

  /** The NLRI inside an MP_REACH_NLRI value: behind family, next hop and reserved octet. */
  function NlriOf(value: seq<byte>): Option<seq<byte>> {
    if |value| < 5 then None else
    var start: nat := value[3];
    Some(value[(if 5 + start <= |value| then 5 + start else |value|)..])
  }

  /** The value of the first MP_REACH_NLRI among attributes that take `size` octets; `read` takes one
      attribute and always consumes octets. */
  function FindReach(read: seq<byte> -> Option<AttrRead>, s: seq<byte>, size: int): Option<seq<byte>>
    decreases |s|
  {
    if size <= 0 then None else
    var a :- read(s);
    if a.attr.code == 14 then Some(a.attr.value)
    else if |a.rest| < |s| then FindReach(read, a.rest, size - (|s| - |a.rest|))
    else None
  }

  function WireNlri(file: seq<byte>, e: RecordEntry): Option<seq<byte>> {
    if e.meta.subtype != 4 && e.meta.subtype != 9 then None else
    var message :- SkipSession(Extract(file, e));
    var attrs :- SkipToAttrs(message);
    var reach :- FindReach(ReadAttr, attrs.rest, attrs.size);
    NlriOf(reach)
  }

  // ---------------------------------------------------------------- the extraction as written

  /** Advance a cursor over the record by n octets. */
  method TakeAt(rec: seq<byte>, pos: nat, n: nat) returns (ok: bool, head: seq<byte>, next: nat)
    requires pos <= |rec|
    ensures ok == Take(n, rec[pos..]).Some?
    ensures ok ==> next <= |rec| && next == pos + n && Take(n, rec[pos..]) == Some((head, rec[next..]))
  {
    if pos + n > |rec| {
      return false, [], pos;
    }
    next := pos + n;
    head := rec[pos..next];
    assert rec[pos..][..n] == head && rec[pos..][n..] == rec[next..];
    ok := true;
  }

  method SessionEnd(rec: seq<byte>) returns (ok: bool, pos: nat)
    ensures ok == SkipSession(rec).Some?
    ensures ok ==> pos <= |rec| && SkipSession(rec) == Some(rec[pos..])
  {
    var head: seq<byte>;
    assert rec[0..] == rec;
    ok, head, pos := TakeAt(rec, 0, 12);
    if !ok { return; }
    ok, head, pos := TakeAt(rec, pos, 10);
    if !ok { return; }
    ok, head, pos := TakeAt(rec, pos, 2);
    if !ok { return; }
    ok, head, pos := TakeAt(rec, pos, 2 * (if Nat(head) == 1 then 4 else 16));
  }

  method AttrsStart(rec: seq<byte>, start: nat) returns (ok: bool, pos: nat, size: nat)
    requires start <= |rec|
    ensures ok == SkipToAttrs(rec[start..]).Some?
    ensures ok ==> pos <= |rec| && SkipToAttrs(rec[start..]) == Some(AttrsAt(size, rec[pos..]))
  {
    var head: seq<byte>;
    size := 0;
    ok, head, pos := TakeAt(rec, start, 16);
    if !ok { return; }
    if !IsMarker(head) { return false, pos, 0; }
    ok, head, pos := TakeAt(rec, pos, 2);
    if !ok { return; }
    ok, head, pos := TakeAt(rec, pos, 1);
    if !ok { return; }
    if head != [2] { return false, pos, 0; }
    ok, head, pos := TakeAt(rec, pos, 2);
    if !ok { return; }
    ok, head, pos := TakeAt(rec, pos, Nat(head));
    if !ok { return; }
    ok, head, pos := TakeAt(rec, pos, 2);
    if !ok { return; }
    size := Nat(head);
  }

  method AttrAt(rec: seq<byte>, start: nat) returns (ok: bool, code: byte, value: seq<byte>, pos: nat)
    requires start <= |rec|
    ensures ok == ReadAttr(rec[start..]).Some?
    ensures ok ==> start < pos <= |rec| && ReadAttr(rec[start..]).value.rest == rec[pos..]
                   && ReadAttr(rec[start..]).value.attr.code == code && ReadAttr(rec[start..]).value.attr.value == value
  {
    code, value, pos := 0, [], start;
    if start + 2 > |rec| { return false, code, value, pos; }
    var flags := rec[start];
    code := rec[start + 1];
    assert rec[start..][2..] == rec[start + 2..];
    var head: seq<byte>;
    ok, head, pos := TakeAt(rec, start + 2, if ExtLen(flags) then 2 else 1);
    if !ok { return; }
    ok, value, pos := TakeAt(rec, pos, Nat(head));
  }

  ghost predicate ReadsAttr(read: seq<byte> -> Option<AttrRead>, s: seq<byte>) { read(s) == ReadAttr(s) }

  ghost predicate AttrReader(read: seq<byte> -> Option<AttrRead>) {
    forall s :: ReadsAttr(read, s)
  }

  /** One round of the attribute loop: the value looked for, or the place of the next attribute. */
  method ReachStep(rec: seq<byte>, pos: nat, left: nat, ghost read: seq<byte> -> Option<AttrRead>)
    returns (done: bool, r: Option<seq<byte>>, next: nat)
    requires pos <= |rec| && left > 0 && AttrReader(read)
    ensures done ==> r == FindReach(read, rec[pos..], left)
    ensures !done ==> pos < next <= |rec|
                      && FindReach(read, rec[pos..], left) == FindReach(read, rec[next..], left - (next - pos))
  {
    assert ReadsAttr(read, rec[pos..]);
    var ok, code, value, after := AttrAt(rec, pos);
    if !ok {
      return true, None, pos;
    }
    if code == 14 {
      return true, Some(value), pos;
    }
    return false, None, after;
  }

  /** The loop over attributes; it ends because every attribute takes octets. */
  method ReachAt(rec: seq<byte>, start: nat, size: nat, ghost read: seq<byte> -> Option<AttrRead>)
    returns (r: Option<seq<byte>>)
    requires start <= |rec| && AttrReader(read)
    ensures r == FindReach(read, rec[start..], size)
  {
    var pos, end := start, start + size;
    while pos < end
      invariant start <= pos <= |rec|
      invariant FindReach(read, rec[pos..], end - pos) == FindReach(read, rec[start..], size)
      decreases |rec| - pos
    {
      var done, found, next := ReachStep(rec, pos, end - pos, read);
      if done {
        return found;
      }
      pos := next;
    }
    return None;
  }

  method WireFlowspecNlri(file: seq<byte>, e: RecordEntry) returns (r: Option<seq<byte>>)
    ensures r == WireNlri(file, e)
  {
    if e.meta.subtype != 4 && e.meta.subtype != 9 {
      return None;
    }
    var rec := Extract(file, e);
    var ok, pos := SessionEnd(rec);
    if !ok {
      return None;
    }
    var found, start, size := AttrsStart(rec, pos);
    if !found {
      return None;
    }
    assert AttrReader(ReadAttr);
    var reach := ReachAt(rec, start, size, ReadAttr);
    if reach.None? {
      return None;
    }
    r := NlriOf(reach.value);
  }

  // ---------------------------------------------------------------- what the extraction finds

  function PrintAttrs(attrs: seq<Attr>): seq<byte> {
    if attrs == [] then [] else PrintAttr(attrs[0]) + PrintAttrs(attrs[1..])
  }

  /** Attributes of other codes, then one of code 14 that starts before the end of the section. */
  predicate ReachBehind(s: seq<byte>, size: int, reach: Attr, before: seq<Attr>, rest: seq<byte>) {
    && (forall i :: 0 <= i < |before| ==> AttrSized(before[i]) && before[i].code != 14)
    && AttrSized(reach) && reach.code == 14 && |PrintAttrs(before)| < size
    && s == PrintAttrs(before) + (PrintAttr(reach) + rest)
  }

  /** A reader of attributes that finds one exactly where one is laid out. */
  ghost predicate PrintReader(read: seq<byte> -> Option<AttrRead>) {
    forall s, a, rest :: ReadsAs(read, s, a, rest)
  }

  ghost predicate ReadsAs(read: seq<byte> -> Option<AttrRead>, s: seq<byte>, a: Attr, rest: seq<byte>) {
    read(s) == Some(AttrRead(a, rest)) <==> AttrSized(a) && s == PrintAttr(a) + rest
  }

  lemma ReadsPrinted()
    ensures PrintReader(ReadAttr)
  {
    forall s, a, rest
      ensures ReadsAs(ReadAttr, s, a, rest)
    {
      ReadAttrIff(s, a, rest);
    }
  }

  lemma PrintedLength(a: Attr, rest: seq<byte>)
    ensures |PrintAttr(a) + rest| == |PrintAttr(a)| + |rest| && |PrintAttr(a)| >= 3
  {
  }

  lemma FindOne(read: seq<byte> -> Option<AttrRead>, s: seq<byte>, size: int, a: Attr, rest: seq<byte>)
    requires PrintReader(read) && AttrSized(a) && s == PrintAttr(a) + rest && size > 0
    ensures FindReach(read, s, size) ==
            if a.code == 14 then Some(a.value) else FindReach(read, rest, size - |PrintAttr(a)|)
  {
    assert ReadsAs(read, s, a, rest);
    PrintedLength(a, rest);
    FindStep(read, s, size, AttrRead(a, rest));
  }

  lemma BehindOneMore(s: seq<byte>, size: int, a: Attr, reach: Attr, before: seq<Attr>, rest: seq<byte>)
    requires AttrSized(a) && a.code != 14
    ensures ReachBehind(PrintAttr(a) + s, size, reach, [a] + before, rest) <==>
            ReachBehind(s, size - |PrintAttr(a)|, reach, before, rest)
  {
    var all := [a] + before;
    assert all[0] == a && all[1..] == before;
    Assoc(PrintAttr(a), PrintAttrs(before), PrintAttr(reach) + rest);
    if PrintAttr(a) + s == PrintAttr(a) + (PrintAttrs(before) + (PrintAttr(reach) + rest)) {
      assert s == (PrintAttr(a) + s)[|PrintAttr(a)|..];
    }
    if forall i :: 0 <= i < |all| ==> AttrSized(all[i]) && all[i].code != 14 {
      assert forall i :: 0 <= i < |before| ==> before[i] == all[i + 1];
    }
  }

  lemma FirstRead(read: seq<byte> -> Option<AttrRead>, s: seq<byte>, size: int) returns (a: Attr, rest: seq<byte>)
    requires PrintReader(read) && FindReach(read, s, size).Some?
    ensures size > 0 && AttrSized(a) && s == PrintAttr(a) + rest
  {
    a, rest := read(s).value.attr, read(s).value.rest;
    assert ReadsAs(read, s, a, rest);
  }

  lemma {:induction false} FoundBehind(read: seq<byte> -> Option<AttrRead>, s: seq<byte>, size: int)
    returns (reach: Attr, before: seq<Attr>, rest: seq<byte>)
    requires PrintReader(read) && FindReach(read, s, size).Some?
    ensures ReachBehind(s, size, reach, before, rest) && FindReach(read, s, size) == Some(reach.value)
    decreases |s|
  {
    var a, tail := FirstRead(read, s, size);
    FindOne(read, s, size, a, tail);
    if a.code == 14 {
      reach, before, rest := a, [], tail;
      assert s == PrintAttrs([]) + (PrintAttr(reach) + rest);
    } else {
      PrintedLength(a, tail);
      reach, before, rest := FoundBehind(read, tail, size - |PrintAttr(a)|);
      BehindOneMore(tail, size, a, reach, before, rest);
      before := [a] + before;
    }
  }

  lemma BehindSplit(s: seq<byte>, size: int, reach: Attr, before: seq<Attr>, rest: seq<byte>) returns (tail: seq<byte>)
    requires ReachBehind(s, size, reach, before, rest) && before != []
    ensures s == PrintAttr(before[0]) + tail && AttrSized(before[0]) && before[0].code != 14
    ensures ReachBehind(tail, size - |PrintAttr(before[0])|, reach, before[1..], rest)
  {
    tail := PrintAttrs(before[1..]) + (PrintAttr(reach) + rest);
    Assoc(PrintAttr(before[0]), PrintAttrs(before[1..]), PrintAttr(reach) + rest);
    assert before == [before[0]] + before[1..];
    BehindOneMore(tail, size, before[0], reach, before[1..], rest);
  }

  lemma {:induction false} BehindFound(read: seq<byte> -> Option<AttrRead>, s: seq<byte>, size: int, reach: Attr, before: seq<Attr>, rest: seq<byte>)
    requires PrintReader(read) && ReachBehind(s, size, reach, before, rest)
    ensures FindReach(read, s, size) == Some(reach.value)
    decreases |before|
  {
    if before == [] {
      assert s == PrintAttr(reach) + rest;
      FindOne(read, s, size, reach, rest);
    } else {
      var tail := BehindSplit(s, size, reach, before, rest);
      FindOne(read, s, size, before[0], tail);
      BehindFound(read, tail, size - |PrintAttr(before[0])|, reach, before[1..], rest);
    }
  }

  /** Where the session fields of a record end: behind 22 octets, the family and two addresses of it. */
  function SessionSize(rec: seq<byte>): nat
    requires |rec| >= 24
  {
    if Nat(rec[22..24]) == 1 then 32 else 56
  }

  predicate MessageStands(rec: seq<byte>, message: seq<byte>) {
    |rec| >= 24 && |rec| >= SessionSize(rec) && message == rec[SessionSize(rec)..]
  }

  lemma SessionIff(rec: seq<byte>, message: seq<byte>)
    ensures SkipSession(rec) == Some(message) <==> MessageStands(rec, message)
  {
    if |rec| >= 24 {
      assert rec[12..][10..][..2] == rec[22..24] && rec[12..][10..][2..] == rec[24..];
    }
  }

  /** An UPDATE up to its attributes: marker, length, type 2, withdrawn routes, the size of the section. */
  predicate AttrsStand(s: seq<byte>, size: nat, rest: seq<byte>) {
    && |s| >= 21 && IsMarker(s[..16]) && s[18] == 2
    && var w := Nat(s[19..21]);
       |s| >= 23 + w && size == Nat(s[21 + w..23 + w]) && rest == s[23 + w..]
  }

  lemma WithdrawnSkipped(s3: seq<byte>)
    ensures var r := TakeNat(2, s3);
            r.Some? && Take(r.value.0, r.value.1).Some? && TakeNat(2, Take(r.value.0, r.value.1).value.1).Some? <==>
            |s3| >= 2 && |s3| >= 4 + Nat(s3[..2])
    ensures |s3| >= 2 && |s3| >= 4 + Nat(s3[..2]) ==>
              var w := Nat(s3[..2]);
              TakeNat(2, Take(w, s3[2..]).value.1) == Some((Nat(s3[2 + w..4 + w]), s3[4 + w..]))
  {
    if |s3| >= 2 && |s3| >= 4 + Nat(s3[..2]) {
      var w := Nat(s3[..2]);
      assert s3[2..][w..][..2] == s3[2 + w..4 + w] && s3[2..][w..][2..] == s3[4 + w..];
    }
  }

  lemma AttrsIff(s: seq<byte>, size: nat, rest: seq<byte>)
    ensures SkipToAttrs(s) == Some(AttrsAt(size, rest)) <==> AttrsStand(s, size, rest)
  {
    if |s| >= 19 {
      assert s[16..][2..][..1] == [s[18]] && s[16..][2..][1..] == s[19..];
      WithdrawnSkipped(s[19..]);
      if |s| >= 21 {
        var w := Nat(s[19..21]);
        assert s[19..][..2] == s[19..21];
        if |s| >= 23 + w {
          assert s[19..][2 + w..4 + w] == s[21 + w..23 + w] && s[19..][4 + w..] == s[23 + w..];
        }
      }
    }
  }

  /** What is behind the next hop in an MP_REACH_NLRI value. */
  predicate NlriBehind(value: seq<byte>, nlri: seq<byte>) {
    && |value| >= 5
    && var n: nat := value[3];
       nlri == if 5 + n <= |value| then value[5 + n..] else []
  }

  /** A record laid out as a session of its family, an UPDATE, and attributes of which the first of code 14
      starts inside the section and ends in the NLRI. */
  predicate WireHolds(rec: seq<byte>, nlri: seq<byte>, message: seq<byte>, size: nat, attrs: seq<byte>,
                      reach: Attr, before: seq<Attr>, rest: seq<byte>) {
    && MessageStands(rec, message) && AttrsStand(message, size, attrs)
    && ReachBehind(attrs, size, reach, before, rest) && NlriBehind(reach.value, nlri)
  }

  /** The steps of the extraction, whatever each of them does. */
  function Extracted(session: seq<byte> -> Option<seq<byte>>, section: seq<byte> -> Option<AttrsAt>,
                     reach: (seq<byte>, nat) -> Option<seq<byte>>, rec: seq<byte>): Option<seq<byte>> {
    var message :- session(rec);
    var attrs :- section(message);
    var value :- reach(attrs.rest, attrs.size);
    NlriOf(value)
  }

  function Reach(s: seq<byte>, size: nat): Option<seq<byte>> { FindReach(ReadAttr, s, size) }

  lemma WireSteps(file: seq<byte>, e: RecordEntry)
    ensures WireNlri(file, e) ==
            if e.meta.subtype == 4 || e.meta.subtype == 9 then Extracted(SkipSession, SkipToAttrs, Reach, Extract(file, e))
            else None
  {
  }

  /** Each step finds what it looks for exactly where that stands. */
  ghost predicate StepsStand(session: seq<byte> -> Option<seq<byte>>, section: seq<byte> -> Option<AttrsAt>) {
    && (forall rec, message :: session(rec) == Some(message) <==> MessageStands(rec, message))
    && (forall s, size, rest :: section(s) == Some(AttrsAt(size, rest)) <==> AttrsStand(s, size, rest))
  }

  lemma StepsDoStand()
    ensures StepsStand(SkipSession, SkipToAttrs)
  {
    forall rec, message ensures SkipSession(rec) == Some(message) <==> MessageStands(rec, message) {
      SessionIff(rec, message);
    }
    forall s, size, rest ensures SkipToAttrs(s) == Some(AttrsAt(size, rest)) <==> AttrsStand(s, size, rest) {
      AttrsIff(s, size, rest);
    }
  }

  lemma NlriOfIff(value: seq<byte>, nlri: seq<byte>)
    ensures NlriOf(value) == Some(nlri) <==> NlriBehind(value, nlri)
  {
    assert value[|value|..] == [];
  }

  lemma ExtractedFound(session: seq<byte> -> Option<seq<byte>>, section: seq<byte> -> Option<AttrsAt>, rec: seq<byte>, nlri: seq<byte>)
    returns (message: seq<byte>, size: nat, attrs: seq<byte>, reach: Attr, before: seq<Attr>, rest: seq<byte>)
    requires StepsStand(session, section) && Extracted(session, section, Reach, rec) == Some(nlri)
    ensures WireHolds(rec, nlri, message, size, attrs, reach, before, rest)
  {
    message := session(rec).value;
    var at := section(message).value;
    size, attrs := at.size, at.rest;
    assert at == AttrsAt(size, attrs) && Reach(attrs, size).Some?;
    ReadsPrinted();
    reach, before, rest := FoundBehind(ReadAttr, attrs, size);
    NlriOfIff(reach.value, nlri);
  }

  lemma HeldExtracted(session: seq<byte> -> Option<seq<byte>>, section: seq<byte> -> Option<AttrsAt>, rec: seq<byte>, nlri: seq<byte>,
                      message: seq<byte>, size: nat, attrs: seq<byte>, reach: Attr, before: seq<Attr>, rest: seq<byte>)
    requires StepsStand(session, section) && WireHolds(rec, nlri, message, size, attrs, reach, before, rest)
    ensures Extracted(session, section, Reach, rec) == Some(nlri)
  {
    assert session(rec) == Some(message) && section(message) == Some(AttrsAt(size, attrs));
    ReadsPrinted();
    BehindFound(ReadAttr, attrs, size, reach, before, rest);
    NlriOfIff(reach.value, nlri);
  }

  /** The extraction exactly, on any record: it returns some octets if and only if the subtype is 4 or 9 and
      the record is laid out so that they are the NLRI. */
  lemma WireNlriIff(file: seq<byte>, e: RecordEntry, nlri: seq<byte>)
    ensures WireNlri(file, e) == Some(nlri) <==>
            (e.meta.subtype == 4 || e.meta.subtype == 9)
            && exists message, size, attrs, reach, before, rest ::
                 WireHolds(Extract(file, e), nlri, message, size, attrs, reach, before, rest)
  {
    var rec := Extract(file, e);
    WireSteps(file, e);
    StepsDoStand();
    if WireNlri(file, e) == Some(nlri) {
      var message, size, attrs, reach, before, rest := ExtractedFound(SkipSession, SkipToAttrs, rec, nlri);
    }
    if message, size, attrs, reach, before, rest :| WireHolds(rec, nlri, message, size, attrs, reach, before, rest) {
      HeldExtracted(SkipSession, SkipToAttrs, rec, nlri, message, size, attrs, reach, before, rest);
    }
  }

  // ---------------------------------------------------------------- recovery

  lemma ReadsBack(read: seq<byte> -> Option<AttrRead>, a: Attr, rest: seq<byte>)
    requires AttrReader(read) && |a.value| <= 0xFFFF
    ensures read(AttrBytes(a) + rest) == Some(AttrRead(Emitted(a), rest))
  {
    assert ReadsAttr(read, AttrBytes(a) + rest);
    AttrRoundTrip(a, rest);
  }

  lemma FindStep(read: seq<byte> -> Option<AttrRead>, s: seq<byte>, size: int, a: AttrRead)
    requires size > 0 && read(s) == Some(a) && |a.rest| < |s|
    ensures FindReach(read, s, size) ==
            if a.attr.code == 14 then Some(a.attr.value)
            else FindReach(read, a.rest, size - (|s| - |a.rest|))
  {
  }

  lemma NlriOfReach(afi: u16, safi: byte, nextHop: seq<byte>, nlri: seq<byte>)
    requires |nextHop| <= 255
    ensures NlriOf(MpReachValue(afi, safi, nextHop, nlri)) == Some(nlri)
  {
    var v := MpReachValue(afi, safi, nextHop, nlri);
    assert v[3] == AsU8(|nextHop|);
    assert v[5 + |nextHop|..] == nlri;
  }

  lemma ThirdAttr(a: Attr, b: Attr, c: Attr, tail: seq<Attr>)
    ensures AttrsBytes([a, b] + [c] + tail) == AttrBytes(a) + (AttrBytes(b) + (AttrBytes(c) + AttrsBytes(tail)))
  {
    CarrierBetween([a, b], c, tail);
    TwoAttrs(a, b);
    Assoc(AttrBytes(a) + AttrBytes(b), AttrBytes(c), AttrsBytes(tail));
    Assoc(AttrBytes(a), AttrBytes(b), AttrBytes(c) + AttrsBytes(tail));
  }

  lemma ThirdAttrThen(a: Attr, b: Attr, c: Attr, tail: seq<Attr>, more: seq<byte>)
    ensures AttrsBytes([a, b] + [c] + tail) + more ==
            AttrBytes(a) + (AttrBytes(b) + (AttrBytes(c) + (AttrsBytes(tail) + more)))
  {
    ThirdAttr(a, b, c, tail);
    Assoc(AttrBytes(c), AttrsBytes(tail), more);
    Assoc(AttrBytes(b), AttrBytes(c) + AttrsBytes(tail), more);
    Assoc(AttrBytes(a), AttrBytes(b) + (AttrBytes(c) + AttrsBytes(tail)), more);
  }

  lemma ReachInThird(read: seq<byte> -> Option<AttrRead>, a: Attr, b: Attr, c: Attr, rest: seq<byte>, size: int)
    requires AttrReader(read) && size > |AttrBytes(a)| + |AttrBytes(b)|
    requires a.code != 14 && b.code != 14 && c.code == 14
    requires |a.value| <= 0xFFFF && |b.value| <= 0xFFFF && |c.value| <= 0xFFFF
    ensures FindReach(read, AttrBytes(a) + (AttrBytes(b) + (AttrBytes(c) + rest)), size) == Some(c.value)
  {
    var s3 := AttrBytes(c) + rest;
    var s2 := AttrBytes(b) + s3;
    ReadsBack(read, a, s2);
    ReadsBack(read, b, s3);
    ReadsBack(read, c, rest);
    FindStep(read, AttrBytes(a) + s2, size, AttrRead(Emitted(a), s2));
    FindStep(read, s2, size - |AttrBytes(a)|, AttrRead(Emitted(b), s3));
    FindStep(read, s3, size - |AttrBytes(a)| - |AttrBytes(b)|, AttrRead(Emitted(c), rest));
  }

  /** The first multiprotocol attribute is the third one; attributes behind it with the same code
      are never looked at. */
  lemma ReachThird(a: Attr, b: Attr, c: Attr, tail: seq<Attr>, more: seq<byte>)
    requires a.code != 14 && b.code != 14 && c.code == 14
    requires |a.value| <= 0xFFFF && |b.value| <= 0xFFFF && |c.value| <= 0xFFFF
    ensures var attrs := AttrsBytes([a, b] + [c] + tail);
            FindReach(ReadAttr, attrs + more, |attrs|) == Some(c.value)
  {
    ThirdAttr(a, b, c, tail);
    ThirdAttrThen(a, b, c, tail, more);
    assert AttrReader(ReadAttr);
    ReachInThird(ReadAttr, a, b, c, AttrsBytes(tail) + more, |AttrsBytes([a, b] + [c] + tail)|);
  }

  lemma FlowCarrier(p: ParsedRoute, r: RouteSpec)
    requires p.flowNlri.Some? && |AttrsBytes(UpdateAttrs(p, r))| <= 0xFFFF
    ensures var attrs := AttrsBytes(UpdateAttrs(p, r));
            FindReach(ReadAttr, attrs, |attrs|) == Some(UpdateCarrier(p, r).value)
            && NlriOf(UpdateCarrier(p, r).value) == Some(WithPathId(r.pathId, p.flowNlri.value))
  {
    var attrs, carrier := UpdateAttrs(p, r), UpdateCarrier(p, r);
    TotalFits(attrs);
    assert attrs[0] == HeadAttrs(p)[0] && attrs[1] == HeadAttrs(p)[1] && attrs[2] == carrier;
    ReachThird(HeadAttrs(p)[0], HeadAttrs(p)[1], carrier, TailAttrs(p, r), []);
    assert AttrsBytes(attrs) + [] == AttrsBytes(attrs);
    NlriOfReach(Afi(p.v6), SAFI_FLOWSPEC, p.nexthop, WithPathId(r.pathId, p.flowNlri.value));
  }

  lemma SessionSkipped(header: seq<byte>, asns: seq<byte>, afi: u16, ips: seq<byte>, message: seq<byte>)
    requires |header| == 12 && |asns| == 10 && |ips| == if afi == 1 then 8 else 32
    ensures SkipSession(header + (asns + (U16(afi) + (ips + message)))) == Some(message)
  {
    TakeAppend(header, asns + (U16(afi) + (ips + message)));
    TakeAppend(asns, U16(afi) + (ips + message));
    TakeU16(afi, ips + message);
    TakeAppend(ips, message);
  }

  lemma RecordLaidOut(header: seq<byte>, asns: seq<byte>, ifindex: seq<byte>, afi: seq<byte>,
                      peer: seq<byte>, local: seq<byte>, message: seq<byte>)
    ensures header + ([] + (asns + ifindex + afi + peer + local + message))
            == header + ((asns + ifindex) + (afi + ((peer + local) + message)))
  {
  }

  lemma MessageLaidOut(marker: seq<byte>, len: seq<byte>, kind: seq<byte>, payload: seq<byte>)
    ensures marker + len + kind + payload == marker + (len + (kind + payload))
  {
  }

  lemma PayloadLaidOut(w: seq<byte>, a: seq<byte>, attrs: seq<byte>, nlri: seq<byte>)
    ensures w + [] + a + attrs + nlri == w + (a + (attrs + nlri))
  {
  }

  lemma UpdateIs(attrs: seq<byte>, nlri: seq<byte>)
    requires |attrs| <= 0xFFFF
    ensures Update([], attrs, nlri) ==
            Ones(16) + (U16(AsU16(23 + |attrs| + |nlri|))
                        + ([BGP_UPDATE] + (U16(0) + (U16(|attrs|) + (attrs + nlri)))))
  {
    PayloadLaidOut(U16(0), U16(|attrs|), attrs, nlri);
    MessageLaidOut(Ones(16), U16(AsU16(23 + |attrs| + |nlri|)), [BGP_UPDATE], UpdatePayload([], attrs, nlri));
  }

  lemma MessageSkipped(len: seq<byte>, size: u16, rest: seq<byte>)
    requires |len| == 2
    ensures SkipToAttrs(Ones(16) + (len + ([BGP_UPDATE] + (U16(0) + (U16(size) + rest))))) == Some(AttrsAt(size, rest))
  {
    var s5 := U16(size) + rest;
    TakeAppend(Ones(16), len + ([BGP_UPDATE] + (U16(0) + s5)));
    TakeAppend(len, [BGP_UPDATE] + (U16(0) + s5));
    TakeAppend([BGP_UPDATE], U16(0) + s5);
    TakeU16(0, s5);
    TakeAppend([], s5);
    assert [] + s5 == s5;
    TakeU16(size, rest);
  }

  lemma AttrsFound(attrs: seq<byte>, nlri: seq<byte>)
    requires |attrs| <= 0xFFFF
    ensures SkipToAttrs(Update([], attrs, nlri)) == Some(AttrsAt(|attrs|, attrs + nlri))
  {
    UpdateIs(attrs, nlri);
    MessageSkipped(U16(AsU16(23 + |attrs| + |nlri|)), |attrs|, attrs + nlri);
  }

  lemma SessionOfRecord(ts: u32, subtype: u16, peerAs: u32, v6: bool, update: seq<byte>)
    requires IsAs4(subtype)
    ensures SkipSession(EncodeRecord(
              Bgp4mpRecord(ts, BGP4MP, None, subtype, peerAs, LOCAL_AS, 1, PeerIp(v6), LocalIp(v6), update))) == Some(update)
  {
    var rec := Bgp4mpRecord(ts, BGP4MP, None, subtype, peerAs, LOCAL_AS, 1, PeerIp(v6), LocalIp(v6), update);
    var afi, asns := AfiOf(PeerIp(v6)), AsNumbers(peerAs, LOCAL_AS, true);
    RecordLaidOut(Header(rec), asns, U16(1), U16(afi), PeerIp(v6), LocalIp(v6), update);
    SessionSkipped(Header(rec), asns + U16(1), afi, PeerIp(v6) + LocalIp(v6), update);
  }

  /** What the extraction finds in one record that announces a FlowSpec rule. */
  lemma FlowRecordWire(p: ParsedRoute, r: RouteSpec, ts: u32, file: seq<byte>, e: RecordEntry)
    requires p.flowNlri.Some? && UpdateRecord(p, r, ts).Ok?
    requires Extract(file, e) == EncodeRecord(UpdateRecord(p, r, ts).value) && e.meta.subtype == UpdateSubtype(r)
    ensures WireNlri(file, e) == Some(WithPathId(r.pathId, p.flowNlri.value))
  {
    var attrs := AttrsBytes(UpdateAttrs(p, r));
    SessionOfRecord(ts, UpdateSubtype(r), PeerAs(p), p.v6, UpdateBytes(p, r));
    AttrsFound(attrs, UpdateNlri(p, r));
    assert attrs + [] == attrs;
    FlowCarrier(p, r);
  }

  lemma UpdateChunk(p: ParsedRoute, r: RouteSpec, i: nat, ts: u32, ch: Chunk)
    requires RouteChunk(Bgp4mpUpdates, p, r, i, ts) == Ok(ch)
    ensures UpdateRecord(p, r, ts).Ok? && ch.bytes == EncodeRecord(UpdateRecord(p, r, ts).value)
    ensures ch.meta.subtype == UpdateSubtype(r)
  {
  }

  lemma FlowChunkWire(p: ParsedRoute, r: RouteSpec, i: nat, ts: u32, chs: seq<Chunk>)
    requires i < |chs| && RouteChunk(Bgp4mpUpdates, p, r, i, ts) == Ok(chs[i]) && p.flowNlri.Some?
    ensures WireNlri(Assemble(chs).bytes, Assemble(chs).entries[i]) == Some(WithPathId(r.pathId, p.flowNlri.value))
  {
    UpdateChunk(p, r, i, ts, chs[i]);
    ChunkExtent(chs, i);
    FlowRecordWire(p, r, ts, Assemble(chs).bytes, Assemble(chs).entries[i]);
  }

  /** End-to-end wire recovery: for every accepted FlowSpec route in BGP4MP form, the checker's walk
      over the octets at the manifest's offset and size yields exactly the user's path identifier, if any,
      followed by the encoded rule, whatever attributes the user appended, MP_REACH_NLRI included. */
  lemma WireRecovers(routes: seq<RouteSpec>, base: u32, i: nat)
    requires Generate(routes, Bgp4mpUpdates, base).Ok? && i < |routes| && routes[i].flowspec.Some?
    ensures var c := Generate(routes, Bgp4mpUpdates, base).value;
            |c.entries| == |routes|
            && WireNlri(c.bytes, c.entries[i]).Some?
            && UpdateReader.NlriTold(WireNlri(c.bytes, c.entries[i]).value, routes[i])
  {
    var chs, parsed := Listed(routes, Bgp4mpUpdates, base);
    ParsedAt(routes, i);
    UserRoutes.ParsedIff(routes[i]);
    UpdateReader.UpdateIsAt(chs, parsed, routes, base, i);
    FlowChunkWire(parsed[i], routes[i], i, StampOf(base, i), chs);
    UpdateReader.NlriWritten(parsed[i], routes[i]);
  }

  /** Behind the path identifier the NLRI decodes, for the family the checker takes the rule to be of, to
      components that match exactly the packets the user's rule matches. */
  ghost predicate MeansRule(nlri: seq<byte>, r: RouteSpec, packet: FlowSpecMeaning.Packet) {
    && r.flowspec.Some? && (r.pathId.Some? ==> |nlri| >= 4)
    && var got := FlowSpecReaders.Decode(nlri[(if r.pathId.Some? then 4 else 0)..], FlowSpecReaders.FlowV6(r.flowspec.value));
       got.Ok? && (FlowSpecMeaning.ListMatches(got.value, packet) <==> FlowSpecMeaning.RuleMatches(r.flowspec.value, packet))
  }

  lemma ToldMeansRule(nlri: seq<byte>, r: RouteSpec, packet: FlowSpecMeaning.Packet)
    requires UpdateReader.NlriTold(nlri, r) && r.flowspec.Some? && r.flowspec.value.Raw() == []
    ensures MeansRule(nlri, r, packet)
  {
    FlowSpecMeaning.MeaningPreserved(r.flowspec.value, packet);
    FlowSpecAcceptance.EncodedFamily(r.flowspec.value);
    assert nlri[0..] == nlri;
  }

  /** The rule's meaning survives the whole file: what the walk yields for an accepted rule without
      raw octets decodes, and matches exactly the packets the user's rule matches. */
  lemma FileKeepsMeaning(routes: seq<RouteSpec>, base: u32, i: nat, packet: FlowSpecMeaning.Packet)
    requires Generate(routes, Bgp4mpUpdates, base).Ok? && i < |routes| && routes[i].flowspec.Some?
    requires routes[i].flowspec.value.Raw() == []
    ensures var c := Generate(routes, Bgp4mpUpdates, base).value;
            |c.entries| == |routes|
            && WireNlri(c.bytes, c.entries[i]).Some?
            && MeansRule(WireNlri(c.bytes, c.entries[i]).value, routes[i], packet)
  {
    WireRecovers(routes, base, i);
    var c := Generate(routes, Bgp4mpUpdates, base).value;
    ToldMeansRule(WireNlri(c.bytes, c.entries[i]).value, routes[i], packet);
  }
}
