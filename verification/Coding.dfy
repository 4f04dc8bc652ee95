/** Integers as bytes (base/coding.h): fixed width, varints and zigzag. */
module Coding {
  import opened Keys
  import opened Products

  // ---------------------------------------------------------------- fixed width

  function Pow256(n: nat): (r: nat)
    ensures r > 0
  {
    if n == 0 then 1 else 256 * Pow256(n - 1)
  }

  /** EncodeFixed32 and EncodeFixed64: n bytes, lowest first. */
  function Fixed(v: nat, n: nat): (b: seq<Byte>)
    ensures |b| == n
  {
    if n == 0 then [] else [v % 256] + Fixed(v / 256, n - 1)
  }

  /** DecodeFixed32 and DecodeFixed64. */
  function FixedValue(b: seq<Byte>): (v: nat)
    ensures v < Pow256(|b|)
  {
    if b == [] then 0 else b[0] + 256 * FixedValue(b[1..])
  }

  lemma {:induction false} FixedRoundTrip(v: nat, n: nat)
    requires v < Pow256(n)
    ensures FixedValue(Fixed(v, n)) == v
  {
    if n > 0 {
      assert Fixed(v, n)[1..] == Fixed(v / 256, n - 1);
      FixedRoundTrip(v / 256, n - 1);
    }
  }

  /** A 32-bit value in four bytes, the lowest first. */
  function FourBytesOf(v: nat): seq<Byte> {
    [v % 256, v / 256 % 256, v / 0x1_0000 % 256, v / 0x100_0000 % 256]
  }

  lemma {:induction false} FixedInBytes(v: nat)
    ensures Fixed(v, 4) == FourBytesOf(v)
    ensures Fixed(v, 8) == FourBytesOf(v) + FourBytesOf(v / TWO_32)
  {
    QuotientTwice(v, 256, 256);
    QuotientTwice(v, 0x1_0000, 256);
    QuotientTwice(v, 0x100_0000, 256);
    var w := v / TWO_32;
    QuotientTwice(w, 256, 256);
    QuotientTwice(w, 0x1_0000, 256);
    FixedFour(v);
    FixedFour(w);
    FixedSplit(v);
  }

  lemma FixedFour(v: nat)
    requires v / 256 / 256 == v / 0x1_0000 && v / 0x1_0000 / 256 == v / 0x100_0000
    ensures Fixed(v, 4) == FourBytesOf(v)
  {
    assert Fixed(v / 0x100_0000, 1) == [v / 0x100_0000 % 256];
    assert Fixed(v / 0x1_0000, 2) == [v / 0x1_0000 % 256] + Fixed(v / 0x100_0000, 1);
    assert Fixed(v / 256, 3) == [v / 256 % 256] + Fixed(v / 0x1_0000, 2);
  }

  lemma {:induction false} FixedSplit(v: nat)
    requires v / 256 / 256 == v / 0x1_0000 && v / 0x1_0000 / 256 == v / 0x100_0000 && v / 0x100_0000 / 256 == v / TWO_32
    ensures Fixed(v, 8) == Fixed(v, 4) + Fixed(v / TWO_32, 4)
  {
    assert Fixed(v / 0x100_0000, 5) == [v / 0x100_0000 % 256] + Fixed(v / TWO_32, 4);
    assert Fixed(v / 0x1_0000, 6) == [v / 0x1_0000 % 256] + Fixed(v / 0x100_0000, 5);
    assert Fixed(v / 256, 7) == [v / 256 % 256] + Fixed(v / 0x1_0000, 6);
    FixedFour(v);
  }

  lemma QuotientTwice(v: nat, a: nat, b: nat)
    requires a > 0 && b > 0
    ensures a * b > 0 && v / a / b == v / (a * b)
  {
    var q1, q2 := v / a, v / a / b;
    var r1, r2 := v % a, v / a % b;
    MulLe(a, r2 + 1, b);
    MulLe(a, 1, b);
    ProductOfSum(a, q2, b, r2);
    assert v == a * q1 + r1 && q1 == b * q2 + r2;
    QuotientIs(v, a * b, q2, a * r2 + r1);
  }

  lemma ProductOfSum(a: int, q: int, b: int, r: int)
    ensures a * (b * q + r) == q * (a * b) + a * r && a * (r + 1) == a * r + a
  {
  }

  lemma QuotientIs(v: nat, a: nat, q: nat, r: nat)
    requires a > 0 && v == q * a + r && r < a
    ensures v / a == q
  {
    var d := v / a - q;
    assert a * d == r - v % a by {
      assert v == v / a * a + v % a;
      assert a * d == a * (v / a) - a * q;
    }
    NoMultiple(a, d);
  }

  /** What four bytes spell, the lowest first. */
  lemma {:induction false} FixedValueOfFour(b: seq<Byte>)
    requires |b| == 4
    ensures FixedValue(b) == b[0] as int + 0x100 * (b[1] as int) + 0x1_0000 * (b[2] as int) + 0x100_0000 * (b[3] as int)
  {
    assert b[1..][1..] == b[2..] && b[2..][1..] == b[3..] && b[3..][1..] == [];
    assert FixedValue(b[3..]) == b[3];
    assert FixedValue(b[2..]) == b[2] + 256 * FixedValue(b[3..]);
    assert FixedValue(b[1..]) == b[1] + 256 * FixedValue(b[2..]);
  }

  // ---------------------------------------------------------------- varints

  function Pow128(n: nat): (r: nat)
    ensures r > 0
  {
    if n == 0 then 1 else 128 * Pow128(n - 1)
  }

  /** Seven bits to a byte, lowest first, the high bit set on all but the last. */
  function Varint(v: nat): (b: seq<Byte>)
    ensures |b| > 0
  {
    if v < 128 then [v] else [v % 128 + 128] + Varint(v / 128)
  }

  /** The i-th byte holds the i-th seven bits, and says whether more follow. */
  lemma {:induction false} VarintByte(v: nat, i: nat)
    requires i < |Varint(v)|
    ensures v / Pow128(i) % 128 == Varint(v)[i] % 128
    ensures Varint(v)[i] >= 128 <==> i < |Varint(v)| - 1
    ensures |Varint(v)| > 1 ==> Varint(v)[|Varint(v)| - 1] > 0
  {
    if v >= 128 {
      VarintByte(v / 128, if i == 0 then 0 else i - 1);
      if i > 0 {
        QuotientTwice(v, 128, Pow128(i - 1));
      }
    }
  }

  /** n bytes are enough for v exactly when v has at most 7 n bits. */
  lemma {:induction false} VarintFits(v: nat, n: nat)
    requires n > 0
    ensures |Varint(v)| <= n <==> v < Pow128(n)
  {
    if n == 1 {
      assert Pow128(1) == 128;
    } else if v < 128 {
      Pow128Big(n);
    } else {
      VarintFits(v / 128, n - 1);
    }
  }

  lemma {:induction false} Pow128Big(n: nat)
    requires n > 0
    ensures Pow128(n) >= 128
  {
    if n > 1 {
      Pow128Big(n - 1);
    }
  }

  /** VarintLength. */
  method VarintLength(v: nat) returns (len: nat)
    ensures len == |Varint(v)|
  {
    len := 1;
    var rest := v;
    while rest >= 128
      invariant len - 1 + |Varint(rest)| == |Varint(v)|
    {
      rest := rest / 128;
      len := len + 1;
    }
  }

  /** EncodeVarint64. */
  method EncodeVarint64(v: nat) returns (dst: seq<Byte>)
    ensures dst == Varint(v)
  {
    dst := [];
    var rest := v;
    while rest >= 128
      invariant dst + Varint(rest) == Varint(v)
    {
      dst := dst + [rest % 128 + 128];
      rest := rest / 128;
    }
    dst := dst + [rest];
  }

  /** The byte `v | B`, cut to eight bits: the low seven bits, and the mark. */
  function Marked(v: nat): Byte {
    v % 128 + 128
  }

  /** EncodeVarint32, unrolled; it writes what the loop writes. */
  method EncodeVarint32(v: nat) returns (dst: seq<Byte>)
    requires v < TWO_32
    ensures dst == Varint(v)
  {
    Unrolled(v);
    if v < 0x80 {
      dst := [v];
    } else if v < 0x4000 {
      dst := [Marked(v), v / 0x80];
    } else if v < 0x20_0000 {
      dst := [Marked(v), Marked(v / 0x80), v / 0x4000];
    } else if v < 0x1000_0000 {
      dst := [Marked(v), Marked(v / 0x80), Marked(v / 0x4000), v / 0x20_0000];
    } else {
      dst := [Marked(v), Marked(v / 0x80), Marked(v / 0x4000), Marked(v / 0x20_0000), v / 0x1000_0000];
    }
  }

  lemma VarintStep(v: nat)
    ensures v >= 128 ==> Varint(v) == [Marked(v)] + Varint(v / 128)
  {
  }

  lemma {:induction false} Unrolled(v: nat)
    requires v < TWO_32
    ensures v >= 0x80 ==> Varint(v) == [Marked(v)] + Varint(v / 0x80)
    ensures v >= 0x4000 ==> Varint(v / 0x80) == [Marked(v / 0x80)] + Varint(v / 0x4000)
    ensures v >= 0x20_0000 ==> Varint(v / 0x4000) == [Marked(v / 0x4000)] + Varint(v / 0x20_0000)
    ensures v >= 0x1000_0000 ==> Varint(v / 0x20_0000) == [Marked(v / 0x20_0000)] + Varint(v / 0x1000_0000)
  {
    hide Varint, Marked;
    VarintStep(v);
    VarintStep(v / 0x80);
    VarintStep(v / 0x4000);
    VarintStep(v / 0x20_0000);
  }

  /** What the first n bytes spell: the value and how many bytes it took, if it ends within them. */
  function Parse(p: seq<Byte>, n: nat): (r: Option<(nat, nat)>)
    ensures r.Some? ==> 0 < r.value.1 <= |p| && r.value.1 <= n
    decreases n
  {
    if n == 0 || p == [] then None
    else if p[0] < 128 then Some((p[0], 1))
    else
      match Parse(p[1..], n - 1)
      case Some((v, used)) => Some((p[0] - 128 + 128 * v, used + 1))
      case None => None
  }

  /** Encoded values parse back, whatever follows. */
  lemma {:induction false} VarintRoundTrip(v: nat, rest: seq<Byte>, n: nat)
    requires n > 0 && v < Pow128(n)
    ensures Parse(Varint(v) + rest, n) == Some((v, |Varint(v)|))
    decreases n
  {
    if v >= 128 {
      assert (Varint(v) + rest)[1..] == Varint(v / 128) + rest;
      assert n > 1 by {
        assert Pow128(1) == 128;
      }
      VarintRoundTrip(v / 128, rest, n - 1);
    }
  }

  /** A prefix of marked bytes, and what it adds. */
  lemma {:induction false} ParseFrom(p: seq<Byte>, n: nat, i: nat)
    requires i <= n && i <= |p| && forall j :: 0 <= j < i ==> p[j] >= 128
    ensures var r := Parse(p[i..], n - i);
            Parse(p, n) == if r.Some? then Some((LowBits(p, i) + Pow128(i) * r.value.0, i + r.value.1)) else None
    decreases i
  {
    if i > 0 {
      ParseFrom(p[1..], n - 1, i - 1);
      assert p[1..][i - 1..] == p[i..];
      var r := Parse(p[i..], n - i);
      if r.Some? {
        Distribute(LowBits(p[1..], i - 1), Pow128(i - 1), r.value.0);
      }
    }
  }

  function LowBits(p: seq<Byte>, i: nat): int
    requires i <= |p|
    decreases i
  {
    if i == 0 then 0 else p[0] as int - 128 + 128 * LowBits(p[1..], i - 1)
  }

  lemma Distribute(a: int, b: int, c: int)
    ensures 128 * (a + b * c) == 128 * a + 128 * b * c
  {
  }

  lemma {:induction false} LowBitsNext(p: seq<Byte>, i: nat)
    requires i < |p|
    ensures LowBits(p, i + 1) == LowBits(p, i) + Pow128(i) * (p[i] as int - 128)
  {
    if i > 0 {
      LowBitsNext(p[1..], i - 1);
      Distribute(LowBits(p[1..], i - 1), Pow128(i - 1), p[i] as int - 128);
    } else {
      assert LowBits(p, 1) == p[0] as int - 128 + 128 * LowBits(p[1..], 0);
    }
  }

  /** Adding bits at a higher position, in arithmetic that wraps at m. */
  lemma WrapAdd(a: int, b: int, m: nat)
    requires m > 0
    ensures (a % m + b) % m == (a + b) % m
  {
    SameRemainder(a % m + b, a / m, m);
    assert a % m + b + m * (a / m) == a + b;
  }

  lemma SameRemainder(x: int, k: int, m: nat)
    requires m > 0
    ensures (x + m * k) % m == x % m
  {
    var y := x + m * k;
    var d := y / m - x / m - k;
    assert m * d == x % m - y % m by {
      assert m * d == m * (y / m) - m * (x / m) - m * k;
    }
    NoMultiple(m, d);
  }

  /** Only 0 is a multiple of m nearer to 0 than m. */
  lemma NoMultiple(m: nat, d: int)
    requires m > 0
    ensures -(m as int) < m * d < m ==> m * d == 0
  {
    if d >= 1 {
      assert m * d >= m * 1;
    } else if d <= -1 {
      assert m * d <= m * -1;
    }
  }

  /** The loop of GetVarint32PtrFallback and of GetVarint64Ptr: at most n bytes, in arithmetic that
      wraps at m. */
  method GetVarintLoop(p: seq<Byte>, n: nat, m: nat) returns (r: Option<(nat, nat)>)
    requires m > 0
    ensures Parse(p, n) == None ==> r == None
    ensures Parse(p, n).Some? ==> r == Some((Parse(p, n).value.0 % m, Parse(p, n).value.1))
  {
    hide LowBits, Pow128;
    var result: nat := 0;
    var i := 0;
    var weight: nat := 1;
    StartOfLoop(p, m);
    while i < n && i < |p|
      invariant 0 <= i <= n && i <= |p| && weight == Pow128(i)
      invariant forall j :: 0 <= j < i ==> p[j] >= 128
      invariant result == LowBits(p, i) % m
    {
      var byte: int := p[i];
      ParseFrom(p, n, i);
      hide Parse;
      if byte >= 128 {
        NextInLoop(p, i, m);
        result := (result + weight * (byte - 128)) % m;
      } else {
        LastInLoop(p, n, i, m);
        return Some(((result + weight * byte) % m, i + 1));
      }
      i := i + 1;
      weight := 128 * weight;
    }
    ParseFrom(p, n, i);
    r := None;
  }

  lemma StartOfLoop(p: seq<Byte>, m: nat)
    requires m > 0
    ensures LowBits(p, 0) % m == 0 && Pow128(0) == 1
  {
  }

  lemma {:induction false} NextInLoop(p: seq<Byte>, i: nat, m: nat)
    requires i < |p| && m > 0
    ensures LowBits(p, i + 1) % m == (LowBits(p, i) % m + Pow128(i) * (p[i] as int - 128)) % m
    ensures Pow128(i + 1) == 128 * Pow128(i)
  {
    LowBitsNext(p, i);
    WrapAdd(LowBits(p, i), Pow128(i) * (p[i] as int - 128), m);
  }

  lemma {:induction false} LastInLoop(p: seq<Byte>, n: nat, i: nat, m: nat)
    requires i < |p| && i < n && m > 0 && p[i] < 128 && forall j :: 0 <= j < i ==> p[j] >= 128
    ensures Parse(p, n).Some? && Parse(p, n).value.1 == i + 1
    ensures Parse(p, n).value.0 % m == (LowBits(p, i) % m + Pow128(i) * p[i]) % m
  {
    ParseFrom(p, n, i);
    assert Parse(p[i..], n - i) == Some((p[i], 1));
    WrapAdd(LowBits(p, i), Pow128(i) * p[i], m);
  }

  /** GetVarint32Ptr. */
  method GetVarint32(p: seq<Byte>) returns (r: Option<(nat, nat)>)
    ensures Parse(p, 5) == None ==> r == None
    ensures Parse(p, 5).Some? ==> r == Some((Parse(p, 5).value.0 % TWO_32, Parse(p, 5).value.1))
  {
    if |p| > 0 {
      if p[0] < 128 {
        return Some((p[0], 1));
      }
    }
    r := GetVarintLoop(p, 5, TWO_32);
  }

  /** GetVarint64Ptr. */
  method GetVarint64(p: seq<Byte>) returns (r: Option<(nat, nat)>)
    ensures Parse(p, 10) == None ==> r == None
    ensures Parse(p, 10).Some? ==> r == Some((Parse(p, 10).value.0 % TWO_64, Parse(p, 10).value.1))
  {
    r := GetVarintLoop(p, 10, TWO_64);
  }

  /** Reading back an encoded 32-bit value consumes exactly its VarintLength. */
  method RoundTrip32(v: nat, rest: seq<Byte>) returns (value: nat, used: nat)
    requires v < TWO_32
    ensures value == v && used == |Varint(v)|
  {
    var dst := EncodeVarint32(v);
    FiveBytes();
    VarintRoundTrip(v, rest, 5);
    var r := GetVarint32(dst + rest);
    value, used := r.value.0, r.value.1;
  }

  method RoundTrip64(v: nat, rest: seq<Byte>) returns (value: nat, used: nat)
    requires v < TWO_64
    ensures value == v && used == |Varint(v)|
  {
    var dst := EncodeVarint64(v);
    TenBytes();
    VarintRoundTrip(v, rest, 10);
    var r := GetVarint64(dst + rest);
    value, used := r.value.0, r.value.1;
  }

  lemma FiveBytes()
    ensures Pow128(5) == 0x8_0000_0000
  {
    assert Pow128(2) == 0x4000;
  }

  lemma TenBytes()
    ensures Pow128(10) == 0x40_0000_0000_0000_0000
  {
    FiveBytes();
    assert Pow128(7) == 0x2_0000_0000_0000;
  }

  // ---------------------------------------------------------------- zigzag

  const TWO_31 := 0x8000_0000
  const TWO_32 := 0x1_0000_0000
  const TWO_63 := 0x8000_0000_0000_0000
  const TWO_64 := 0x1_0000_0000_0000_0000

  type Int64 = n: int | -TWO_63 <= n < TWO_63
  type Int32 = n: int | -TWO_31 <= n < TWO_31

  /** x ^ s for s all zeros or all ones, in arithmetic: x itself or its complement. */
  function XorSign(x: nat, ones: bool, size: nat): (r: int)
  {
    if ones then size - 1 - x else x
  }

  /** encodeZigzag64: twice the number, its bits flipped if it was negative. */
  function EncodeZigzag64(n: Int64): int {
    XorSign(2 * n % TWO_64, n < 0, TWO_64)
  }

  /** decodeZigzag64: half the number, its bits flipped if it was odd, read as signed. */
  function DecodeZigzag64(u: nat): int {
    var bits := XorSign(u / 2, u % 2 == 1, TWO_64);
    if bits >= TWO_63 then bits - TWO_64 else bits
  }

  function EncodeZigzag32(n: Int32): int {
    XorSign(2 * n % TWO_32, n < 0, TWO_32)
  }

  function DecodeZigzag32(u: nat): int {
    var bits := XorSign(u / 2, u % 2 == 1, TWO_32);
    if bits >= TWO_31 then bits - TWO_32 else bits
  }

  /** Numbers of either sign alternate by growing size, and each comes back. */
  lemma {:induction false} Zigzag64RoundTrip(n: Int64)
    ensures EncodeZigzag64(n) == if n >= 0 then 2 * n else -2 * n - 1
    ensures 0 <= EncodeZigzag64(n) < TWO_64 && DecodeZigzag64(EncodeZigzag64(n)) == n
  {
    assert n < 0 ==> 2 * n % TWO_64 == 2 * n + TWO_64;
  }

  /** Every unsigned number is the code of one signed number. */
  lemma {:induction false} Zigzag64IsOnto(u: nat)
    requires u < TWO_64
    ensures -TWO_63 <= DecodeZigzag64(u) < TWO_63 && EncodeZigzag64(DecodeZigzag64(u)) == u
  {
    var n := DecodeZigzag64(u);
    assert n == if u % 2 == 0 then u / 2 else -(u / 2) - 1;
    Zigzag64RoundTrip(n);
  }

  lemma {:induction false} Zigzag32RoundTrip(n: Int32)
    ensures EncodeZigzag32(n) == if n >= 0 then 2 * n else -2 * n - 1
    ensures 0 <= EncodeZigzag32(n) < TWO_32 && DecodeZigzag32(EncodeZigzag32(n)) == n
  {
    assert n < 0 ==> 2 * n % TWO_32 == 2 * n + TWO_32;
  }

  lemma {:induction false} Zigzag32IsOnto(u: nat)
    requires u < TWO_32
    ensures -TWO_31 <= DecodeZigzag32(u) < TWO_31 && EncodeZigzag32(DecodeZigzag32(u)) == u
  {
    var n := DecodeZigzag32(u);
    assert n == if u % 2 == 0 then u / 2 else -(u / 2) - 1;
    Zigzag32RoundTrip(n);
  }
}
