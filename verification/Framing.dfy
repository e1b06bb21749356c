/** The reference walker, which trusts each header's Length field, over files of framed records. */
module Framing {
  import opened Bytes
  import opened Writer

  /** Records walked, and whether the walk ended exactly at end of file. */
  datatype Walked = Walked(count: nat, clean: bool)

  function Walk(s: seq<byte>): Walked
    decreases |s|
  {
    if s == [] then Walked(0, true)
    else if |s| < 12 then Walked(0, false)
    else
      var end := 12 + Nat(s[8..12]);
      if end > |s| then Walked(0, false) else
      var rest := Walk(s[end..]);
      Walked(1 + rest.count, rest.clean)
  }

  /** The offsets at which the walker meets a record it walks past. */
  function Visits(s: seq<byte>, off: nat): seq<nat>
    decreases |s|
  {
    if |s| < 12 || 12 + Nat(s[8..12]) > |s| then [] else
    [off] + Visits(s[12 + Nat(s[8..12])..], off + 12 + Nat(s[8..12]))
  }

  method WalkFile(bytes: seq<byte>) returns (n: nat, clean: bool)
    ensures Walked(n, clean) == Walk(bytes)
  {
    var off := 0;
    n := 0;
    assert bytes[0..] == bytes;
    while off < |bytes|
      invariant off <= |bytes|
      invariant Walk(bytes) == Walked(n + Walk(bytes[off..]).count, Walk(bytes[off..]).clean)
      decreases |bytes| - off
    {
      if |bytes| - off < 12 {
        return n, false;
      }
      assert bytes[off..][8..12] == bytes[off + 8..off + 12];
      var len := Nat(bytes[off + 8..off + 12]);
      var end := off + (12 + len);
      if end > |bytes| {
        return n, false;
      }
      assert bytes[off..][12 + len..] == bytes[end..];
      off := end;
      n := n + 1;
    }
    assert bytes[off..] == [];
    clean := true;
  }

  /** A string of octets that starts with a header whose Length field is honest. */
  predicate Framed(s: seq<byte>) {
    |s| >= 12 && 12 + Nat(s[8..12]) == |s|
  }

  lemma EncodedFramed(r: MrtRecord)
    ensures Framed(EncodeRecord(r)) <==> Honest(r)
  {
    HeaderFields(r);
  }

  predicate AllFramed(parts: seq<seq<byte>>) {
    forall i :: 0 <= i < |parts| ==> Framed(parts[i])
  }

  function Flat(parts: seq<seq<byte>>): seq<byte> {
    if parts == [] then [] else parts[0] + Flat(parts[1..])
  }

  lemma {:induction false} FlatAppend(a: seq<seq<byte>>, b: seq<seq<byte>>)
    ensures Flat(a + b) == Flat(a) + Flat(b)
  {
    if a == [] {
      assert a + b == b;
    } else {
      assert (a + b)[1..] == a[1..] + b;
      FlatAppend(a[1..], b);
      Assoc(a[0], Flat(a[1..]), Flat(b));
    }
  }

  /** A value read off the front of a buffer, and what follows it. */
  datatype Parsed<+T> = Parsed(value: T, rest: seq<byte>)

  /** Read n items, one after the other. */
  function ReadMany<T>(n: nat, read: seq<byte> -> Option<Parsed<T>>, s: seq<byte>): Option<Parsed<seq<T>>> {
    if n == 0 then Some(Parsed([], s)) else
    var first :- read(s);
    var more :- ReadMany(n - 1, read, first.rest);
    Some(Parsed([first.value] + more.value, more.rest))
  }

  /** The item reader takes each part off the front of anything, and finds nothing in nothing. */
  ghost predicate ReadsParts<T>(read: seq<byte> -> Option<Parsed<T>>, parts: seq<seq<byte>>, values: seq<T>) {
    && |parts| == |values| && read([]) == None
    && forall i, tail :: 0 <= i < |parts| ==> read(parts[i] + tail) == Some(Parsed(values[i], tail))
  }

  /** Reading n items off concatenated parts gives the first n and leaves the rest; a count larger
      than there are parts runs out of octets. */
  lemma {:induction false} ReadManyParts<T>(
      n: nat, read: seq<byte> -> Option<Parsed<T>>, parts: seq<seq<byte>>, values: seq<T>)
    requires ReadsParts(read, parts, values)
    ensures ReadMany(n, read, Flat(parts)) ==
            if n > |parts| then None else Some(Parsed(values[..n], Flat(parts[n..])))
  {
    if n == 0 {
      assert parts[0..] == parts;
    } else if parts != [] {
      assert read(parts[0] + Flat(parts[1..])) == Some(Parsed(values[0], Flat(parts[1..])));
      ReadManyParts(n - 1, read, parts[1..], values[1..]);
      if n <= |parts| {
        assert parts[1..][n - 1..] == parts[n..];
        assert [values[0]] + values[1..][..n - 1] == values[..n];
      }
    }
  }

  /** Where part i lies in the concatenation. */
  lemma FlatExtent(parts: seq<seq<byte>>, i: nat)
    requires i < |parts|
    ensures var start := |Flat(parts[..i])|;
            start + |parts[i]| <= |Flat(parts)| && Flat(parts)[start..start + |parts[i]|] == parts[i]
  {
    var before, after := Flat(parts[..i]), Flat(parts[i + 1..]);
    assert parts == parts[..i] + parts[i..] && parts[i..][1..] == parts[i + 1..];
    FlatAppend(parts[..i], parts[i..]);
    assert Flat(parts) == before + (parts[i] + after);
  }

  lemma FlatTwo(a: seq<byte>, b: seq<byte>)
    ensures Flat([a, b]) == a + b
  {
    assert [a, b][1..] == [b];
    assert Flat([b]) == b + [];
  }

  lemma WalkOne(part: seq<byte>, tail: seq<byte>, off: nat)
    requires Framed(part)
    ensures Walk(part + tail) == Walked(1 + Walk(tail).count, Walk(tail).clean)
    ensures Visits(part + tail, off) == [off] + Visits(tail, off + |part|)
  {
    var s := part + tail;
    assert s[8..12] == part[8..12];
    assert s[|part|..] == tail;
  }

  /** However malformed the bodies are, the walker passes every framed record and meets the tail
      as if it stood alone. */
  lemma {:induction false} WalkFlat(parts: seq<seq<byte>>, tail: seq<byte>)
    requires AllFramed(parts)
    ensures Walk(Flat(parts) + tail) == Walked(|parts| + Walk(tail).count, Walk(tail).clean)
  {
    if parts == [] {
      assert [] + tail == tail;
    } else {
      Assoc(parts[0], Flat(parts[1..]), tail);
      WalkOne(parts[0], Flat(parts[1..]) + tail, 0);
      WalkFlat(parts[1..], tail);
    }
  }

  // ---------------------------------------------------------------- prefixes of a file

  /** How many records lie completely within the first k octets. */
  function CompleteWithin(parts: seq<seq<byte>>, k: nat): nat {
    if parts == [] || |parts[0]| > k then 0 else 1 + CompleteWithin(parts[1..], k - |parts[0]|)
  }

  lemma {:induction false} CompleteWithinCounts(parts: seq<seq<byte>>, k: nat)
    ensures var c := CompleteWithin(parts, k);
            && c <= |parts| && |Flat(parts[..c])| <= k
            && (c < |parts| ==> k < |Flat(parts[..c + 1])|)
  {
    if parts == [] || |parts[0]| > k {
      assert parts[..0] == [];
      if parts != [] {
        assert parts[..1][1..] == [] && parts[0] + [] == parts[0];
      }
    } else {
      var c := CompleteWithin(parts[1..], k - |parts[0]|);
      CompleteWithinCounts(parts[1..], k - |parts[0]|);
      assert parts[..c + 1][1..] == parts[1..][..c] && parts[..c + 1][0] == parts[0];
      if c + 1 < |parts| {
        assert parts[..c + 2][1..] == parts[1..][..c + 1] && parts[..c + 2][0] == parts[0];
      }
    }
  }

  lemma WalkCut(part: seq<byte>, k: nat)
    requires Framed(part) && k < |part|
    ensures Walk(part[..k]) == Walked(0, k == 0)
  {
    if k >= 12 {
      assert part[..k][8..12] == part[8..12];
    }
  }

  lemma {:induction false} WalkPrefix(parts: seq<seq<byte>>, k: nat)
    requires AllFramed(parts) && k <= |Flat(parts)|
    ensures var c := CompleteWithin(parts, k);
            c <= |parts| && Walk(Flat(parts)[..k]) == Walked(c, k == |Flat(parts[..c])|)
  {
    if parts != [] {
      var part, rest := parts[0], parts[1..];
      if |part| > k {
        assert Flat(parts)[..k] == part[..k];
        WalkCut(part, k);
        assert parts[..0] == [];
      } else {
        var j := k - |part|;
        var c := CompleteWithin(rest, j);
        WalkPrefix(rest, j);
        assert Flat(parts)[..k] == part + Flat(rest)[..j];
        WalkOne(part, Flat(rest)[..j], 0);
        assert parts[..c + 1][1..] == rest[..c] && parts[..c + 1][0] == part;
      }
    } else {
      assert parts[..0] == [];
    }
  }

  lemma {:induction false} FlatGrows(parts: seq<seq<byte>>, i: nat, j: nat)
    requires AllFramed(parts) && i < j <= |parts|
    ensures |Flat(parts[..i])| < |Flat(parts[..j])|
  {
    assert parts[..j] == parts[..i] + parts[i..j];
    FlatAppend(parts[..i], parts[i..j]);
    assert Framed(parts[i..j][0]);
  }

  /** Prefix-closed framing: on the first k octets of a file of framed records the walker counts
      exactly the complete records, and ends cleanly exactly when k is a record boundary. */
  lemma PrefixClosed(parts: seq<seq<byte>>, k: nat)
    requires AllFramed(parts) && k <= |Flat(parts)|
    ensures var w := Walk(Flat(parts)[..k]);
            && w.count <= |parts|
            && |Flat(parts[..w.count])| <= k
            && (w.count < |parts| ==> k < |Flat(parts[..w.count + 1])|)
            && (w.clean <==> exists j :: 0 <= j <= |parts| && k == |Flat(parts[..j])|)
  {
    var c := CompleteWithin(parts, k);
    CompleteWithinCounts(parts, k);
    WalkPrefix(parts, k);
    if j :| 0 <= j <= |parts| && k == |Flat(parts[..j])| {
      if j < c {
        FlatGrows(parts, j, c);
      } else if j > c {
        if j > c + 1 { FlatGrows(parts, c + 1, j); }
      }
    }
  }

  // ---------------------------------------------------------------- abort tails

  const BGP4MP: u16 := 16
  const BGP4MP_MESSAGE: u16 := 1

  /** A complete header whose Length field is chosen, followed by `actual` zero octets. */
  function TailLengthOverrunsEof(timestamp: u32, declared: u32, actual: nat): seq<byte> {
    EncodeRecord(MrtRecord(timestamp, BGP4MP, BGP4MP_MESSAGE, None, Zeros(actual), Some(declared)))
  }

  /** The first `keep` octets of a header. */
  function TailTruncatedHeader(timestamp: u32, keep: nat): seq<byte>
    requires keep < 12
  {
    EncodeRecord(NewRecord(timestamp, BGP4MP, BGP4MP_MESSAGE, []))[..keep]
  }

  lemma {:induction false} NatOfZeros(s: seq<byte>)
    requires forall i :: 0 <= i < |s| ==> s[i] == 0
    ensures Nat(s) == 0
  {
    if s != [] { NatOfZeros(s[..|s| - 1]); }
  }

  /** Zero octets read as empty records of twelve octets each. */
  lemma {:induction false} WalkZeros(s: seq<byte>)
    requires forall i :: 0 <= i < |s| ==> s[i] == 0
    ensures Walk(s) == Walked(|s| / 12, |s| % 12 == 0)
    decreases |s|
  {
    if |s| >= 12 {
      NatOfZeros(s[8..12]);
      WalkZeros(s[12..]);
    }
  }

  /** The walker stops at once on such a tail exactly when its Length field promises more than
      there is; otherwise it walks past it and through the zero octets behind. */
  lemma OverrunTail(timestamp: u32, declared: u32, actual: nat)
    ensures Walk(TailLengthOverrunsEof(timestamp, declared, actual)) ==
            if declared > actual then Walked(0, false)
            else Walked(1 + (actual - declared) / 12, (actual - declared) % 12 == 0)
  {
    var rec := MrtRecord(timestamp, BGP4MP, BGP4MP_MESSAGE, None, Zeros(actual), Some(declared));
    var s := EncodeRecord(rec);
    HeaderFields(rec);
    assert [] + Zeros(actual) == Zeros(actual);
    if declared <= actual {
      var rest := s[12 + declared..];
      assert rest == s[12..][declared..];
      WalkZeros(rest);
    }
  }

  lemma TruncatedTail(timestamp: u32, keep: nat)
    requires keep < 12
    ensures Walk(TailTruncatedHeader(timestamp, keep)) == Walked(0, keep == 0)
  {
  }

  /** After any framed records, an overrunning Length field or a cut header stops the walk right
      after them, and nothing milder does. */
  lemma AbortTailsStopWalk(parts: seq<seq<byte>>, timestamp: u32, declared: u32, actual: nat, keep: nat)
    requires AllFramed(parts) && keep < 12
    ensures Walk(Flat(parts) + TailLengthOverrunsEof(timestamp, declared, actual)) == Walked(|parts|, false)
            <==> declared > actual
    ensures Walk(Flat(parts) + TailTruncatedHeader(timestamp, keep)) == Walked(|parts|, false) <==> keep >= 1
  {
    WalkFlat(parts, TailLengthOverrunsEof(timestamp, declared, actual));
    WalkFlat(parts, TailTruncatedHeader(timestamp, keep));
    OverrunTail(timestamp, declared, actual);
    TruncatedTail(timestamp, keep);
  }
}
