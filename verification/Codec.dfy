/**
  The typed codecs on top of ByteArray: fixed-width integers in either byte order, varints,
  zigzag and length-prefixed strings (sylar/bytearray.cpp, sylar/endian.h). Integers are
  mathematical; every place where the source wraps or reinterprets is written out.
 */
module Codec {
  import opened Blocks

  function Pow2(n: nat): (r: nat)
    ensures r > 0
  {
    if n == 0 then 1 else 2 * Pow2(n - 1)
  }

  lemma {:induction false} Pow2Add(m: nat, n: nat)
    ensures Pow2(m + n) == Pow2(m) * Pow2(n)
  {
    if m > 0 {
      Pow2Add(m - 1, n);
      assert Pow2(m + n) == 2 * Pow2(m - 1 + n);
      assert 2 * (Pow2(m - 1) * Pow2(n)) == (2 * Pow2(m - 1)) * Pow2(n);
    } else {
      assert Pow2(0) * Pow2(n) == Pow2(n);
    }
  }

  lemma Pow2Values()
    ensures Pow2(7) == 128 && Pow2(8) == 256 && Pow2(16) == 0x1_0000
    ensures Pow2(32) == 0x1_0000_0000 && Pow2(64) == 0x1_0000_0000_0000_0000
  {
    assert Pow2(7) == 128 && Pow2(8) == 256 && Pow2(16) == 0x1_0000;
    Pow2Add(16, 16);
    Pow2Add(32, 32);
  }

  // ---------------------------------------------------------------- byte order

  datatype Order = Little | Big

  /** The n low-order bytes of v, least significant first. */
  function LittleBytes(n: nat, v: nat): (s: seq<Byte>)
    ensures |s| == n
  {
    if n == 0 then [] else [v % 256] + LittleBytes(n - 1, v / 256)
  }

  function LittleValue(s: seq<Byte>): nat {
    if s == [] then 0 else s[0] + 256 * LittleValue(s[1..])
  }

  function Reverse(s: seq<Byte>): (r: seq<Byte>)
    ensures |r| == |s|
  {
    seq(|s|, i requires 0 <= i < |s| => s[|s| - 1 - i])
  }

  /** The object representation of an n-byte integer on a host of the given order. */
  function HostBytes(host: Order, n: nat, v: nat): (s: seq<Byte>)
    ensures |s| == n
  {
    if host == Little then LittleBytes(n, v) else Reverse(LittleBytes(n, v))
  }

  function HostValue(host: Order, s: seq<Byte>): nat {
    if host == Little then LittleValue(s) else LittleValue(Reverse(s))
  }

  /** bswap: the value whose bytes are those of v in the opposite order. */
  function ByteSwap(n: nat, v: nat): nat {
    LittleValue(Reverse(LittleBytes(n, v)))
  }

  /** The integer the writers hand to write: swapped when the orders differ. */
  function ForWire(host: Order, order: Order, n: nat, v: nat): nat {
    if order != host then ByteSwap(n, v) else v
  }

  lemma {:induction false} LittleInverse(n: nat, v: nat)
    requires v < Pow2(8 * n)
    ensures LittleValue(LittleBytes(n, v)) == v
  {
    if n > 0 {
      Pow2Add(8, 8 * (n - 1));
      Pow2Values();
      assert Pow2(8 * n) == 256 * Pow2(8 * (n - 1));
      LittleInverse(n - 1, v / 256);
      assert LittleBytes(n, v)[1..] == LittleBytes(n - 1, v / 256);
    }
  }

  lemma {:induction false} LittleBytesValue(s: seq<Byte>)
    ensures LittleBytes(|s|, LittleValue(s)) == s
  {
    if s != [] {
      LittleBytesValue(s[1..]);
      var v := LittleValue(s[1..]);
      DivUnique(s[0] + 256 * v, 256, v, s[0]);
      assert s == [s[0]] + s[1..];
    }
  }

  lemma {:induction false} LittleBound(s: seq<Byte>)
    ensures LittleValue(s) < Pow2(8 * |s|)
  {
    if s != [] {
      LittleBound(s[1..]);
      Pow2Add(8, 8 * (|s| - 1));
      Pow2Values();
    }
  }

  lemma ReverseReverse(s: seq<Byte>)
    ensures Reverse(Reverse(s)) == s
  {
  }

  lemma DivDiv(v: nat, a: nat, b: nat)
    requires a > 0 && b > 0
    ensures a * b > 0 && v / a / b == v / (a * b)
  {
    DivParts(v, a);
    DivParts(v / a, b);
    NestedDiv(v, a, b, v % a, v / a / b, (v / a) % b);
  }

  lemma DivParts(v: nat, a: nat)
    requires a > 0
    ensures v == (v / a) * a + v % a && 0 <= v % a < a && v / a >= 0
  {
  }

  lemma NestedDiv(v: nat, a: nat, b: nat, r: nat, i: nat, m: nat)
    requires a > 0 && b > 0 && v == (i * b + m) * a + r && m < b && r < a
    ensures a * b > 0 && v / (a * b) == i
  {
    Regroup(a, b, i, m, r);
    DivUnique(v, a * b, i, m * a + r);
  }

  lemma Regroup(a: nat, b: nat, i: nat, m: nat, r: nat)
    requires a > 0 && m < b && r < a
    ensures (i * b + m) * a + r == i * (a * b) + (m * a + r)
    ensures 0 <= m * a + r < a * b
  {
    Spread(i, b, m, a);
    Monotone(m + 1, b, a);
  }

  lemma Spread(i: nat, b: nat, m: nat, a: nat)
    ensures (i * b + m) * a == i * (a * b) + m * a
  {
    assert (i * b) * a == i * (b * a);
  }

  lemma Monotone(x: nat, y: nat, a: nat)
    requires x <= y
    ensures x * a <= y * a && 0 <= (x - 1) * a + a == x * a
  {
  }

  /** Byte i holds the bits from 8 * i on. */
  lemma {:induction false} LittleDigit(n: nat, v: nat, i: nat)
    requires i < n
    ensures LittleBytes(n, v)[i] == v / Pow2(8 * i) % 256
    decreases n
  {
    if i == 0 {
      assert Pow2(0) == 1;
    } else {
      LittleDigit(n - 1, v / 256, i - 1);
      Pow2Values();
      Pow2Add(8, 8 * (i - 1));
      DivDiv(v, 256, Pow2(8 * (i - 1)));
    }
  }

  /** Where the byte of weight 256^i of an n-byte integer stands. */
  function WireIndex(order: Order, n: nat, i: nat): nat
    requires i < n
  {
    if order == Little then i else n - 1 - i
  }

  /** s holds the n-byte integer v: least significant byte first in little-endian order, most
      significant first in big-endian order. */
  predicate Holds(order: Order, n: nat, v: nat, s: seq<Byte>) {
    |s| == n && forall i :: 0 <= i < n ==> s[i] == v / Pow2(8 * WireIndex(order, n, i)) % 256
  }

  lemma HostHolds(order: Order, n: nat, v: nat)
    ensures Holds(order, n, v, HostBytes(order, n, v))
  {
    forall i | 0 <= i < n ensures HostBytes(order, n, v)[i] == v / Pow2(8 * WireIndex(order, n, i)) % 256 {
      LittleDigit(n, v, WireIndex(order, n, i));
    }
  }

  /** byteswap: an n-byte value whose bytes are those of v in the opposite order. */
  lemma ByteSwapReverses(n: nat, v: nat)
    ensures ByteSwap(n, v) < Pow2(8 * n)
    ensures forall i: nat :: i < n ==> ByteSwap(n, v) / Pow2(8 * i) % 256 == v / Pow2(8 * (n - 1 - i)) % 256
  {
    var s := LittleBytes(n, v);
    LittleBound(Reverse(s));
    LittleBytesValue(Reverse(s));
    forall i: nat | i < n ensures ByteSwap(n, v) / Pow2(8 * i) % 256 == v / Pow2(8 * (n - 1 - i)) % 256 {
      LittleDigit(n, ByteSwap(n, v), i);
      LittleDigit(n, v, n - 1 - i);
    }
  }

  /** Any n bytes are read as the integer they hold. */
  lemma AnyBytesHold(host: Order, order: Order, s: seq<Byte>)
    ensures var v := ForWire(host, order, |s|, HostValue(host, s));
      v < Pow2(8 * |s|) && Holds(order, |s|, v, s)
  {
    var n := |s|;
    var u := HostValue(host, s);
    LittleBound(s);
    LittleBound(Reverse(s));
    LittleBytesValue(s);
    LittleBytesValue(Reverse(s));
    ReverseReverse(s);
    assert HostBytes(host, n, u) == s;
    if order != host {
      var v := ByteSwap(n, u);
      LittleBound(Reverse(LittleBytes(n, u)));
      WireIsHostFree(order, host, n, u);
      SwapBack(host, order, n, u);
      HostHolds(order, n, v);
    } else {
      HostHolds(order, n, u);
    }
  }

  lemma SwapBack(host: Order, order: Order, n: nat, u: nat)
    requires order != host
    ensures HostBytes(order, n, ByteSwap(n, u)) == HostBytes(host, n, u)
  {
    var s := LittleBytes(n, u);
    LittleBytesValue(Reverse(s));
    ReverseReverse(s);
  }

  /** What goes on the wire depends on the chosen order only, not on the host. */
  lemma WireIsHostFree(host: Order, order: Order, n: nat, v: nat)
    ensures HostBytes(host, n, ForWire(host, order, n, v)) == HostBytes(order, n, v)
  {
    var s := LittleBytes(n, v);
    if order != host {
      LittleBytesValue(Reverse(s));
      assert LittleBytes(n, ByteSwap(n, v)) == Reverse(s);
      ReverseReverse(s);
    }
  }

  /** The readers undo the writers, on every host. */
  lemma FixedInverse(host: Order, order: Order, n: nat, v: nat)
    requires v < Pow2(8 * n)
    ensures ForWire(host, order, n, HostValue(host, HostBytes(host, n, ForWire(host, order, n, v)))) == v
  {
    var s := LittleBytes(n, v);
    LittleInverse(n, v);
    ReverseReverse(s);
    if order != host {
      LittleBytesValue(Reverse(s));
      var u := ByteSwap(n, v);
      assert LittleBytes(n, u) == Reverse(s);
      LittleBound(Reverse(s));
      LittleInverse(n, u);
      ReverseReverse(Reverse(s));
    }
  }

  /** An n-bit two's complement reinterpretation and its inverse. */
  function ToUnsigned(bits: nat, v: int): int {
    if v < 0 then v + Pow2(bits) else v
  }

  function ToSigned(bits: nat, u: int): int
    requires bits > 0
  {
    if u >= Pow2(bits - 1) then u - Pow2(bits) else u
  }

  // ---------------------------------------------------------------- zigzag

  predicate InSigned(bits: nat, v: int)
    requires bits > 0
  {
    0 <= v + Pow2(bits - 1) && v < Pow2(bits - 1)
  }

  /** Unsigned arithmetic on `bits` bits. */
  function Wrap(bits: nat, x: int): (r: int)
    ensures 0 <= r < Pow2(bits) && (0 <= x < Pow2(bits) ==> r == x)
  {
    ModFacts(x, Pow2(bits));
    x % Pow2(bits)
  }

  lemma ModFacts(x: int, m: int)
    requires m > 0
    ensures 0 <= x % m < m && (0 <= x < m ==> x % m == x)
  {
  }

  /** EncodeZigzag32/64: negate in two's complement, double, subtract one; or double. */
  function EncodeZigzag(bits: nat, v: int): int
    requires bits > 0
  {
    if v < 0 then Wrap(bits, Wrap(bits, -v) * 2 - 1) else Wrap(bits, v * 2)
  }

  /** DecodeZigzag32/64: (v >> 1) ^ -(v & 1). The right operand is 0 or all ones, so the
      xor keeps v >> 1 or complements its bits. */
  function DecodeZigzag(bits: nat, u: int): int
    requires bits > 0
  {
    ToSigned(bits, if u % 2 == 0 then u / 2 else Pow2(bits) - 1 - u / 2)
  }

  /** Encoded, v >= 0 is 2v and v < 0 is -2v - 1, also for the minimum value. */
  lemma ZigzagValue(bits: nat, v: int)
    requires bits > 0 && InSigned(bits, v)
    ensures EncodeZigzag(bits, v) == if v < 0 then -2 * v - 1 else 2 * v
    ensures 0 <= EncodeZigzag(bits, v) < Pow2(bits)
  {
    assert Pow2(bits) == 2 * Pow2(bits - 1);
  }

  /** Zigzag is a bijection between the whole signed and the whole unsigned range. */
  lemma ZigzagDecodes(bits: nat, v: int)
    requires bits > 0 && InSigned(bits, v)
    ensures DecodeZigzag(bits, EncodeZigzag(bits, v)) == v
  {
    ZigzagValue(bits, v);
    assert Pow2(bits) == 2 * Pow2(bits - 1);
  }

  lemma ZigzagEncodes(bits: nat, u: int)
    requires bits > 0 && 0 <= u < Pow2(bits)
    ensures InSigned(bits, DecodeZigzag(bits, u))
    ensures EncodeZigzag(bits, DecodeZigzag(bits, u)) == u
  {
    assert Pow2(bits) == 2 * Pow2(bits - 1);
    ZigzagValue(bits, DecodeZigzag(bits, u));
  }

  // ---------------------------------------------------------------- varint

  /** The base-128 form, least significant group first, high bit on all but the last byte. */
  function Varint(v: nat): (s: seq<Byte>)
    ensures |s| > 0
  {
    if v < 128 then [v] else [v % 128 + 128] + Varint(v / 128)
  }

  /** A complete varint: every byte but the last announces another. */
  predicate WellFormed(s: seq<Byte>) {
    |s| > 0 && s[|s| - 1] < 128 && forall i :: 0 <= i < |s| - 1 ==> s[i] >= 128
  }

  function VarintValue(s: seq<Byte>): nat {
    if s == [] then 0 else s[0] % 128 + 128 * VarintValue(s[1..])
  }

  lemma LowGroup(v: nat)
    ensures v == v % 128 + 128 * (v / 128) && (v % 128 + 128) % 128 == v % 128
  {
  }

  lemma {:induction false} VarintWellFormed(v: nat)
    ensures WellFormed(Varint(v))
    ensures |Varint(v)| == 1 || Varint(v)[|Varint(v)| - 1] != 0
  {
    if v >= 128 {
      VarintWellFormed(v / 128);
      var s, t := Varint(v), Varint(v / 128);
      assert forall i :: 1 <= i < |s| ==> s[i] == t[i - 1];
    }
  }

  lemma {:induction false} VarintRoundTrip(v: nat)
    ensures VarintValue(Varint(v)) == v
  {
    if v >= 128 {
      VarintRoundTrip(v / 128);
      LowGroup(v);
      assert Varint(v)[1..] == Varint(v / 128);
    } else {
      assert VarintValue([]) == 0;
    }
  }

  lemma Pow2Seven()
    ensures Pow2(0) == 1 && Pow2(7) == 128
  {
    Pow2Values();
  }

  /** s holds v in base 128, lowest group first, in as few bytes as possible; every byte but
      the last has its high bit set. */
  predicate Groups(v: nat, s: seq<Byte>) {
    && |s| > 0 && v < Pow2(7 * |s|) && (|s| > 1 ==> v >= Pow2(7 * (|s| - 1)))
    && forall i :: 0 <= i < |s| ==> s[i] == v / Pow2(7 * i) % 128 + (if i < |s| - 1 then 128 else 0)
  }

  lemma VarintGroups(v: nat)
    ensures Groups(v, Varint(v))
  {
    VarintBounds(v);
    forall i | 0 <= i < |Varint(v)|
      ensures Varint(v)[i] == v / Pow2(7 * i) % 128 + (if i < |Varint(v)| - 1 then 128 else 0)
    {
      VarintGroup(v, i);
    }
  }

  lemma {:induction false} VarintBounds(v: nat)
    ensures v < Pow2(7 * |Varint(v)|) && (|Varint(v)| > 1 ==> v >= Pow2(7 * (|Varint(v)| - 1)))
  {
    Pow2Seven();
    if v >= 128 {
      VarintBounds(v / 128);
      GroupsBound(v, |Varint(v / 128)|);
    }
  }

  lemma {:induction false} VarintGroup(v: nat, i: nat)
    requires i < |Varint(v)|
    ensures Varint(v)[i] == v / Pow2(7 * i) % 128 + (if i < |Varint(v)| - 1 then 128 else 0)
    decreases i
  {
    Pow2Seven();
    if i > 0 {
      assert v >= 128;
      VarintGroup(v / 128, i - 1);
      Pow2Add(7, 7 * (i - 1));
      DivDiv(v, 128, Pow2(7 * (i - 1)));
    }
  }

  lemma GroupsBound(v: nat, n: nat)
    requires v >= 128 && n > 0 && v / 128 < Pow2(7 * n) && (n > 1 ==> v / 128 >= Pow2(7 * (n - 1)))
    ensures Pow2(7 * n) <= v < Pow2(7 * (n + 1))
  {
    Pow2Seven();
    Pow2Add(7, 7 * n);
    Pow2Add(7, 7 * (n - 1));
    assert Pow2(7 * (n + 1)) == 128 * Pow2(7 * n);
    assert Pow2(7 * n) == 128 * Pow2(7 * (n - 1));
  }

  /** The writer's form is the only complete varint of its value without a redundant last
      group, and every other one is longer. */
  lemma {:induction false} VarintMinimal(s: seq<Byte>)
    requires WellFormed(s)
    ensures |s| == 1 || s[|s| - 1] != 0 ==> s == Varint(VarintValue(s))
    ensures s != Varint(VarintValue(s)) ==> |s| > |Varint(VarintValue(s))|
  {
    if |s| > 1 {
      var t := s[1..];
      VarintMinimal(t);
      assert s == [s[0]] + t && s[0] >= 128;
      VarintCons(s[0], t, VarintValue(t));
    }
  }

  /** One more group in front. */
  lemma VarintCons(b: Byte, t: seq<Byte>, v: nat)
    requires b >= 128 && t != [] && v == VarintValue(t)
    ensures VarintValue([b] + t) == b % 128 + 128 * v
    ensures v > 0 ==> Varint(VarintValue([b] + t)) == [b] + Varint(v)
    ensures v == 0 ==> |Varint(VarintValue([b] + t))| == 1 && Varint(v) == [0]
  {
    assert ([b] + t)[1..] == t;
    DivUnique(b % 128 + 128 * v, 128, v, b % 128);
  }

  /** v < 2^(7n) needs at most n bytes; hence 5 for 32 bits and 10 for 64. */
  lemma {:induction false} VarintLength(v: nat, n: nat)
    requires n > 0 && v < Pow2(7 * n)
    ensures |Varint(v)| <= n
  {
    if v >= 128 {
      Pow2Values();
      if n > 1 {
        Pow2Add(7, 7 * (n - 1));
        assert v / 128 < Pow2(7 * (n - 1));
        VarintLength(v / 128, n - 1);
      }
    }
  }

  lemma VarintFits(v: nat)
    ensures v < 0x1_0000_0000 ==> |Varint(v)| <= 5
    ensures v < 0x1_0000_0000_0000_0000 ==> |Varint(v)| <= 10
  {
    Pow2Values();
    Pow2Add(32, 3);
    Pow2Add(64, 6);
    assert Pow2(3) == 8 && Pow2(6) == 64;
    if v < 0x1_0000_0000 { VarintLength(v, 5); }
    if v < 0x1_0000_0000_0000_0000 { VarintLength(v, 10); }
  }
}
