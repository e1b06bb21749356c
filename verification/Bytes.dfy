/** Octets, big-endian integers, narrowing casts and bit-level views of addresses.
    Every encoder and reader of the project is written over these. */
module Bytes {

  type byte = b: int | 0 <= b < 0x100
  type u16 = n: int | 0 <= n < 0x1_0000
  type u32 = n: int | 0 <= n < 0x1_0000_0000
  type u64 = n: int | 0 <= n < 0x1_0000_0000_0000_0000

  datatype Option<+T> = None | Some(value: T) {
    predicate IsFailure() { None? }
    function PropagateFailure<U>(): Option<U> requires None? { None }
    function Extract(): T requires Some? { value }
    function GetOr(default: T): T { if Some? then value else default }
  }

  /** Outcome of an operation whose error text is not modelled. */
  datatype Result<+T> = Ok(value: T) | Err {
    predicate IsFailure() { Err? }
    function PropagateFailure<U>(): Result<U> requires Err? { Err }
    function Extract(): T requires Ok? { value }
  }

  /** Every element converted, or the first failure (`collect::<Result<_, _>>`). */
  function Collect<A, B>(xs: seq<A>, f: A -> Result<B>): (r: Result<seq<B>>)
    ensures r.Ok? ==> |r.value| == |xs|
  {
    if xs == [] then Ok([]) else
    var init :- Collect(xs[..|xs| - 1], f);
    var last :- f(xs[|xs| - 1]);
    Ok(init + [last])
  }

  lemma {:induction false} CollectAt<A, B>(xs: seq<A>, f: A -> Result<B>, i: nat)
    requires Collect(xs, f).Ok? && i < |xs|
    ensures f(xs[i]) == Ok(Collect(xs, f).value[i])
  {
    if i < |xs| - 1 { CollectAt(xs[..|xs| - 1], f, i); }
  }

  lemma {:induction false} CollectAll<A, B>(xs: seq<A>, f: A -> Result<B>, ys: seq<B>)
    requires |xs| == |ys| && forall i :: 0 <= i < |xs| ==> f(xs[i]) == Ok(ys[i])
    ensures Collect(xs, f) == Ok(ys)
  {
    if xs != [] {
      var n := |xs| - 1;
      CollectAll(xs[..n], f, ys[..n]);
      assert ys[..n] + [ys[n]] == ys;
    }
  }

  lemma {:induction false} CollectIff<A, B>(xs: seq<A>, f: A -> Result<B>)
    ensures Collect(xs, f).Ok? <==> forall i :: 0 <= i < |xs| ==> f(xs[i]).Ok?
  {
    if xs != [] { CollectIff(xs[..|xs| - 1], f); }
  }

  // Rust's narrowing `as` casts.
  function AsU8(n: nat): byte { n % 0x100 }
  function AsU16(n: nat): u16 { n % 0x1_0000 }
  function AsU32(n: nat): u32 { n % 0x1_0000_0000 }

  function Pow2(n: nat): (p: nat)
    ensures p > 0
  {
    if n == 0 then 1 else 2 * Pow2(n - 1)
  }

  function Pow256(n: nat): (p: nat)
    ensures p > 0
  {
    if n == 0 then 1 else 0x100 * Pow256(n - 1)
  }

  lemma Pow256Values()
    ensures Pow256(1) == 0x100 && Pow256(2) == 0x1_0000 && Pow256(3) == 0x100_0000
    ensures Pow256(4) == 0x1_0000_0000 && Pow256(8) == 0x1_0000_0000_0000_0000
  {
    assert Pow256(2) == 0x100 * Pow256(1);
    assert Pow256(3) == 0x100 * Pow256(2);
    assert Pow256(4) == 0x100 * Pow256(3);
    assert Pow256(5) == 0x100 * Pow256(4);
    assert Pow256(6) == 0x100 * Pow256(5);
    assert Pow256(7) == 0x100 * Pow256(6);
  }

  /** Bit i of a number, bit 0 being the least significant. */
  predicate NatBit(n: nat, i: nat) {
    if i == 0 then n % 2 == 1 else NatBit(n / 2, i - 1)
  }

  /** Setting a clear bit adds its weight and changes no other bit. */
  lemma {:induction false} SetClearBit(n: nat, i: nat, j: nat)
    requires !NatBit(n, i)
    ensures NatBit(n + Pow2(i), j) <==> j == i || NatBit(n, j)
  {
    if i > 0 {
      assert (n + Pow2(i)) / 2 == n / 2 + Pow2(i - 1);
      if j > 0 {
        SetClearBit(n / 2, i - 1, j - 1);
      }
    }
  }

  lemma {:induction false} SetClearBitFits(n: nat, i: nat, width: nat)
    requires !NatBit(n, i) && n < Pow2(width) && i < width
    ensures n + Pow2(i) < Pow2(width)
  {
    assert Pow2(width) == 2 * Pow2(width - 1);
    if i > 0 {
      SetClearBitFits(n / 2, i - 1, width - 1);
      assert Pow2(i) == 2 * Pow2(i - 1);
    }
  }

  lemma {:induction false} Pow2Monotone(m: nat, n: nat)
    requires m <= n
    ensures Pow2(m) <= Pow2(n)
  {
    if m < n { Pow2Monotone(m, n - 1); }
  }

  /** The low n octets of v, most significant first (`to_be_bytes`). */
  function BE(n: nat, v: nat): (s: seq<byte>)
    ensures |s| == n
  {
    if n == 0 then [] else BE(n - 1, v / 0x100) + [v % 0x100]
  }

  function U16(v: u16): (s: seq<byte>) { BE(2, v) }
  function U32(v: u32): (s: seq<byte>) { BE(4, v) }
  function U64(v: u64): (s: seq<byte>) { BE(8, v) }

  lemma Assoc(a: seq<byte>, b: seq<byte>, c: seq<byte>)
    ensures (a + b) + c == a + (b + c)
  {
  }

  /** The integer a string of octets denotes, most significant first. */
  function Nat(s: seq<byte>): nat {
    if s == [] then 0 else 0x100 * Nat(s[..|s| - 1]) + s[|s| - 1]
  }

  lemma {:induction false} NatOfBE(n: nat, v: nat)
    requires v < Pow256(n)
    ensures Nat(BE(n, v)) == v
  {
    if n > 0 {
      NatOfBE(n - 1, v / 0x100);
      assert BE(n, v)[..n - 1] == BE(n - 1, v / 0x100);
    }
  }

  lemma {:induction false} BEOfNat(s: seq<byte>)
    ensures Nat(s) < Pow256(|s|)
    ensures BE(|s|, Nat(s)) == s
  {
    if s != [] {
      var init := s[..|s| - 1];
      BEOfNat(init);
      assert Nat(s) / 0x100 == Nat(init);
      assert s == init + [s[|s| - 1]];
    }
  }

  /** Eight octets are two words of four. */
  lemma {:induction false} SplitBE(m: nat, n: nat, hi: nat, lo: nat)
    requires lo < Pow256(n)
    ensures BE(m + n, hi * Pow256(n) + lo) == BE(m, hi) + BE(n, lo)
  {
    if n > 0 {
      var v := hi * Pow256(n) + lo;
      MulAssoc(hi, 0x100, Pow256(n - 1));
      MulAssoc(0x100, hi, Pow256(n - 1));
      assert v / 0x100 == hi * Pow256(n - 1) + lo / 0x100 && v % 0x100 == lo % 0x100;
      SplitBE(m, n - 1, hi, lo / 0x100);
    }
  }

  lemma TwoWords(v: u64)
    ensures U64(v) == U32(v / 0x1_0000_0000) + U32(v % 0x1_0000_0000)
  {
    Pow256Values();
    SplitBE(4, 4, v / 0x1_0000_0000, v % 0x1_0000_0000);
  }

  lemma NatSingle(b: byte)
    ensures Nat([b]) == b
  {
    assert [b][..0] == [];
  }

  // ---------------------------------------------------------------- cursors

  /** Split the next n octets off a buffer, or fail when it is too short. */
  function Take(n: nat, s: seq<byte>): (r: Option<(seq<byte>, seq<byte>)>)
    ensures r.Some? <==> n <= |s|
    ensures r.Some? ==> |r.value.0| == n && |r.value.1| == |s| - n
  {
    if n <= |s| then Some((s[..n], s[n..])) else None
  }

  /** Read an n-octet big-endian integer off the front of a buffer. */
  function TakeNat(n: nat, s: seq<byte>): (r: Option<(nat, seq<byte>)>)
    ensures r.Some? <==> n <= |s|
    ensures r.Some? ==> |r.value.1| == |s| - n
  {
    var (head, rest) :- Take(n, s);
    Some((Nat(head), rest))
  }

  lemma TakeAppend(a: seq<byte>, rest: seq<byte>)
    ensures Take(|a|, a + rest) == Some((a, rest))
  {
    assert (a + rest)[..|a|] == a;
    assert (a + rest)[|a|..] == rest;
  }

  lemma TakeNatAppend(n: nat, v: nat, rest: seq<byte>)
    requires v < Pow256(n)
    ensures TakeNat(n, BE(n, v) + rest) == Some((v, rest))
  {
    TakeAppend(BE(n, v), rest);
    NatOfBE(n, v);
  }

  lemma TakeNatByte(b: byte, rest: seq<byte>)
    ensures TakeNat(1, [b] + rest) == Some((b, rest))
  {
    TakeAppend([b], rest);
    NatSingle(b);
  }

  lemma TakeU16(v: u16, rest: seq<byte>)
    ensures TakeNat(2, U16(v) + rest) == Some((v, rest))
  {
    Pow256Values();
    TakeNatAppend(2, v, rest);
  }

  lemma TakeU32(v: u32, rest: seq<byte>)
    ensures TakeNat(4, U32(v) + rest) == Some((v, rest))
  {
    Pow256Values();
    TakeNatAppend(4, v, rest);
  }

  // ---------------------------------------------------------------- addresses

  function Zeros(n: nat): (s: seq<byte>)
    ensures |s| == n
    ensures forall k :: 0 <= k < n ==> s[k] == 0
  {
    if n == 0 then [] else Zeros(n - 1) + [0]
  }

  /** Octets needed for a prefix of `bits` bits (`div_ceil(8)`): as few as hold them all. */
  function OctetsFor(bits: nat): (n: nat)
    ensures 8 * n - 8 < bits <= 8 * n
  {
    (bits + 7) / 8
  }

  /** Bit k of an address, bit 0 being the most significant. */
  predicate BitSet(addr: seq<byte>, k: nat)
    requires k < 8 * |addr|
  {
    addr[k / 8] / Pow2(7 - k % 8) % 2 == 1
  }

  /** Two addresses of one family lie in the same network of length `bits`. */
  ghost predicate SameNetwork(a: seq<byte>, b: seq<byte>, bits: nat)
  {
    |a| == |b| && bits <= 8 * |a| && forall k :: 0 <= k < bits ==> BitSet(a, k) == BitSet(b, k)
  }

  /** The address a reader rebuilds from the octets on the wire. */
  function PadTo(width: nat, s: seq<byte>): (a: seq<byte>)
    requires |s| <= width
    ensures |a| == width
  {
    s + Zeros(width - |s|)
  }

  /** Truncating an address to the octets of its prefix length and zero padding
      it again stays inside the same network. */
  lemma PaddedPrefixSameNetwork(addr: seq<byte>, bits: nat)
    requires bits <= 8 * |addr|
    ensures SameNetwork(PadTo(|addr|, addr[..OctetsFor(bits)]), addr, bits)
  {
    var padded := PadTo(|addr|, addr[..OctetsFor(bits)]);
    forall k | 0 <= k < bits
      ensures BitSet(padded, k) == BitSet(addr, k)
    {
      assert k / 8 < OctetsFor(bits);
      assert padded[k / 8] == addr[k / 8];
    }
  }

  lemma DivTwice(x: nat, p: nat)
    requires p > 0
    ensures x / (2 * p) == x / p / 2
  {
    var q, r := x / p, x % p;
    MulAssoc(2, p, q / 2);
    MulAssoc(p, 2, q / 2);
    MulAdd(p, 2 * (q / 2), q % 2);
    assert p * (q % 2) + r < 2 * p by { if q % 2 == 0 {} else { assert q % 2 == 1; } }
    DivModUnique(x, 2 * p, q / 2, p * (q % 2) + r);
  }

  predicate SameBit(x: byte, y: byte, k: nat)
    requires k < 8
  {
    x / Pow2(7 - k) % 2 == y / Pow2(7 - k) % 2
  }

  /** The leading m bits of two octets agree exactly when their quotients by the weight of the rest do. */
  lemma {:induction false} LeadingBits(x: byte, y: byte, m: nat)
    requires m <= 8
    ensures (forall k :: 0 <= k < m ==> SameBit(x, y, k)) <==> x / Pow2(8 - m) == y / Pow2(8 - m)
  {
    if m == 0 {
      Pow2Plus8(0);
      assert Pow2(8) == 0x100;
    } else {
      var p := Pow2(8 - m);
      LeadingBits(x, y, m - 1);
      DivTwice(x, p);
      DivTwice(y, p);
      assert Pow2(9 - m) == 2 * p;
      assert SameBit(x, y, m - 1) <==> x / p % 2 == y / p % 2;
      if forall k :: 0 <= k < m - 1 ==> SameBit(x, y, k) {
        if SameBit(x, y, m - 1) {
          assert forall k :: 0 <= k < m ==> SameBit(x, y, k);
        }
      }
    }
  }

  /** What a prefix length asks of two addresses, octet by octet: equality of those it covers whole, and of
      the leading bits of the one it ends in. */
  predicate SamePrefix(a: seq<byte>, b: seq<byte>, bits: nat)
    requires |a| == |b| && bits <= 8 * |a|
  {
    var whole, rem := bits / 8, bits % 8;
    && a[..whole] == b[..whole]
    && (rem > 0 ==> a[whole] / Pow2(8 - rem) == b[whole] / Pow2(8 - rem))
  }

  /** Bit k of octet i is the same in both. */
  predicate SameBitAt(a: seq<byte>, b: seq<byte>, i: nat, k: nat)
    requires i < |a| == |b| && k < 8
  {
    BitSet(a, 8 * i + k) == BitSet(b, 8 * i + k)
  }

  lemma BitOfOctet(a: seq<byte>, b: seq<byte>, i: nat, k: nat)
    requires i < |a| == |b| && k < 8
    ensures SameBitAt(a, b, i, k) <==> SameBit(a[i], b[i], k)
  {
    assert (8 * i + k) / 8 == i && (8 * i + k) % 8 == k;
  }

  lemma OctetBits(a: seq<byte>, b: seq<byte>, i: nat, m: nat)
    requires i < |a| == |b| && m <= 8
    ensures (forall k :: 0 <= k < m ==> SameBitAt(a, b, i, k)) <==> a[i] / Pow2(8 - m) == b[i] / Pow2(8 - m)
  {
    LeadingBits(a[i], b[i], m);
    forall k | 0 <= k < m
      ensures SameBitAt(a, b, i, k) <==> SameBit(a[i], b[i], k)
    {
      BitOfOctet(a, b, i, k);
    }
    if forall k :: 0 <= k < m ==> SameBitAt(a, b, i, k) {
      forall k | 0 <= k < m ensures SameBit(a[i], b[i], k) { assert SameBitAt(a, b, i, k); }
    }
  }

  lemma NetworkToOctets(a: seq<byte>, b: seq<byte>, bits: nat, i: nat, m: nat)
    requires SameNetwork(a, b, bits) && i < |a| && m <= 8 && 8 * i + m <= bits
    ensures a[i] / Pow2(8 - m) == b[i] / Pow2(8 - m)
  {
    forall k | 0 <= k < m ensures SameBitAt(a, b, i, k) { }
    OctetBits(a, b, i, m);
  }

  lemma OctetsToBit(a: seq<byte>, b: seq<byte>, bits: nat, k: nat)
    requires |a| == |b| && k < bits <= 8 * |a| && SamePrefix(a, b, bits)
    ensures BitSet(a, k) == BitSet(b, k)
  {
    var whole, rem := bits / 8, bits % 8;
    if k / 8 < whole {
      assert a[..whole][k / 8] == b[..whole][k / 8];
    } else {
      OctetBits(a, b, whole, rem);
      assert SameBitAt(a, b, whole, k - 8 * whole);
    }
  }

  /** The bit-by-bit comparison of networks is the comparison by whole octets and leading bits. */
  lemma SameNetworkOctets(a: seq<byte>, b: seq<byte>, bits: nat)
    requires |a| == |b| && bits <= 8 * |a|
    ensures SameNetwork(a, b, bits) <==> SamePrefix(a, b, bits)
  {
    var whole, rem := bits / 8, bits % 8;
    if SameNetwork(a, b, bits) {
      forall i | 0 <= i < whole
        ensures a[i] == b[i]
      {
        NetworkToOctets(a, b, bits, i, 8);
      }
      if rem > 0 { NetworkToOctets(a, b, bits, whole, rem); }
    }
    if SamePrefix(a, b, bits) {
      forall k | 0 <= k < bits ensures BitSet(a, k) == BitSet(b, k) { OctetsToBit(a, b, bits, k); }
    }
  }

  // ---------------------------------------------------------------- host bits

  predicate AnyNonZero(s: seq<byte>) {
    exists k :: 0 <= k < |s| && s[k] != 0
  }

  /** `prefix_has_host_bits`: some bit past the prefix length is set. */
  predicate PrefixHasHostBits(addr: seq<byte>, bits: nat)
    requires bits <= 8 * |addr|
  {
    var whole, rem := bits / 8, bits % 8;
    if rem == 0 then AnyNonZero(addr[whole..])
    else addr[whole] % Pow2(8 - rem) != 0 || AnyNonZero(addr[whole + 1..])
  }

  lemma MultipleAtLeast(m: int, d: int)
    requires m > 0
    ensures d >= 1 ==> m * d >= m
    ensures d <= -1 ==> m * d <= -m
  {
    assert m * d == m + m * (d - 1);
    assert m * d == -m + m * (d + 1);
  }

  lemma DivModUnique(x: int, m: int, q: int, r: int)
    requires m > 0 && x == m * q + r && 0 <= r < m
    ensures x / m == q && x % m == r
  {
    var q', r' := x / m, x % m;
    assert x == m * q' + r';
    assert m * (q - q') == m * q - m * q';
    MultipleAtLeast(m, q - q');
  }

  lemma ModByMultiple(a: nat, b: nat, p: nat)
    requires b < 0x100 && p > 0
    ensures (0x100 * a + b) % (0x100 * p) == 0x100 * (a % p) + b
  {
    var q, r := a / p, a % p;
    assert a == p * q + r;
    assert 0x100 * a + b == (0x100 * p) * q + (0x100 * r + b);
    DivModUnique(0x100 * a + b, 0x100 * p, q, 0x100 * r + b);
  }

  lemma AnyNonZeroSnoc(s: seq<byte>, from: nat)
    requires s != [] && from < |s|
    ensures AnyNonZero(s[from..]) <==> AnyNonZero(s[..|s| - 1][from..]) || s[|s| - 1] != 0
  {
    var init := s[..|s| - 1][from..];
    assert s[from..] == init + [s[|s| - 1]];
    var whole := s[from..];
    if AnyNonZero(init) {
      var k :| 0 <= k < |init| && init[k] != 0;
      assert whole[k] != 0;
    }
    if s[|s| - 1] != 0 {
      assert whole[|whole| - 1] != 0;
    }
  }

  lemma Pow2Small(h: nat)
    requires h < 8
    ensures Pow2(h) == [1, 2, 4, 8, 16, 32, 64, 128][h]
  {
    if h > 0 { Pow2Small(h - 1); }
  }

  lemma MulAssoc(x: int, y: int, z: int)
    ensures x * y * z == x * (y * z)
  {
  }

  lemma MulAdd(x: int, y: int, z: int)
    ensures x * (y + z) == x * y + x * z
  {
  }

  lemma SubOctetMod(a: nat, b: nat, h: nat)
    requires b < 0x100 && h < 8
    ensures (0x100 * a + b) % Pow2(h) == b % Pow2(h)
  {
    Pow2Small(h);
    var p, k := Pow2(h), [0x100, 0x80, 0x40, 0x20, 0x10, 8, 4, 2][h];
    MulAssoc(p, k, a);
    MulAdd(p, k * a, b / p);
    DivModUnique(0x100 * a + b, p, k * a + b / p, b % p);
  }

  lemma Pow2Plus8(n: nat)
    ensures Pow2(n + 8) == 0x100 * Pow2(n)
  {
    assert Pow2(n + 2) == 2 * Pow2(n + 1);
    assert Pow2(n + 4) == 2 * Pow2(n + 3);
    assert Pow2(n + 6) == 2 * Pow2(n + 5);
    assert Pow2(n + 8) == 2 * Pow2(n + 7);
  }

  /** The octet-and-mask test agrees with arithmetic on the whole address: host bits are
      present exactly when the address is not a multiple of the network size. */
  lemma {:induction false} HostBitsArithmetic(addr: seq<byte>, bits: nat)
    requires bits <= 8 * |addr|
    ensures PrefixHasHostBits(addr, bits) <==> Nat(addr) % Pow2(8 * |addr| - bits) != 0
  {
    var host := 8 * |addr| - bits;
    if host == 0 {
      assert bits / 8 == |addr|;
    } else {
      var init, last := addr[..|addr| - 1], addr[|addr| - 1];
      if host >= 8 {
        HostBitsArithmetic(init, bits);
        Pow2Plus8(host - 8);
        ModByMultiple(Nat(init), last, Pow2(host - 8));
        var whole := bits / 8;
        if bits % 8 == 0 {
          AnyNonZeroSnoc(addr, whole);
        } else {
          AnyNonZeroSnoc(addr, whole + 1);
        }
      } else {
        SubOctetMod(Nat(init), last, host);
        assert bits / 8 == |addr| - 1 && 8 - bits % 8 == host;
      }
    }
  }

  /** Truncation and zero padding give the very same address back exactly when no octet past those
      of the prefix is set; a host bit in the last kept octet does no harm. */
  lemma PadsBackIff(addr: seq<byte>, bits: nat)
    requires bits <= 8 * |addr|
    ensures PadTo(|addr|, addr[..OctetsFor(bits)]) == addr <==> !AnyNonZero(addr[OctetsFor(bits)..])
  {
    var n := OctetsFor(bits);
    var padded, tail := PadTo(|addr|, addr[..n]), addr[n..];
    if !AnyNonZero(tail) {
      forall k | n <= k < |addr|
        ensures addr[k] == 0
      {
        assert tail[k - n] == 0;
      }
      assert padded == addr;
    } else {
      var k :| 0 <= k < |tail| && tail[k] != 0;
      assert padded[n + k] == 0 && addr[n + k] != 0;
    }
  }

  /** Without host bits the address comes back. */
  lemma NoHostBitsPadsBack(addr: seq<byte>, bits: nat)
    requires bits <= 8 * |addr| && !PrefixHasHostBits(addr, bits)
    ensures PadTo(|addr|, addr[..OctetsFor(bits)]) == addr
  {
    assert OctetsFor(bits) == if bits % 8 == 0 then bits / 8 else bits / 8 + 1;
    PadsBackIff(addr, bits);
  }
}
