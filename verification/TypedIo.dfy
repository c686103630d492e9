/**
  Reading a list back, for any type of value and any reader that inverts its encoder one
  value at a time.
 */
module ListRoundTrip {
  import opened Blocks

  /** The outcome of a typed read: a value and the new position, an exception and the
      position it leaves behind, or the null cursor being dereferenced. */
  datatype Got<+T> = Done(value: T, position: nat) | Threw(position: nat) | Crashed

  /** The bytes s stand at offset p. */
  predicate At(f: seq<Byte>, p: nat, s: seq<Byte>) {
    p + |s| <= |f| && f[p..p + |s|] == s
  }

  lemma AtSplit(f: seq<Byte>, p: nat, a: seq<Byte>, b: seq<Byte>)
    requires At(f, p, a + b)
    ensures At(f, p, a) && At(f, p + |a|, b)
  {
    var w := f[p..p + |a| + |b|];
    assert f[p..p + |a|] == w[..|a|];
    assert f[p + |a|..p + |a| + |b|] == w[|a|..];
  }

  function EncodeAll<X(!new)>(enc: X -> seq<Byte>, xs: seq<X>): seq<Byte> {
    if xs == [] then [] else enc(xs[0]) + EncodeAll(enc, xs[1..])
  }

  lemma EncodeAllNone<X(!new)>(enc: X -> seq<Byte>, xs: seq<X>)
    ensures EncodeAll(enc, xs[..0]) == []
  {
  }

  lemma {:induction false} EncodeAllSnoc<X(!new)>(enc: X -> seq<Byte>, xs: seq<X>, n: nat)
    requires n < |xs|
    ensures EncodeAll(enc, xs[..n + 1]) == EncodeAll(enc, xs[..n]) + enc(xs[n])
  {
    var t := xs[1..];
    assert xs[..n + 1][1..] == t[..n];
    if n > 0 {
      assert xs[..n][1..] == t[..n - 1] && xs[n] == t[n - 1];
      EncodeAllSnoc(enc, t, n - 1);
    }
  }

  /** Read one value of each kind in turn. */
  function ReadAll<X, K>(rd: (nat, K) -> Got<X>, p: nat, ks: seq<K>): Got<seq<X>>
    decreases |ks|
  {
    if ks == [] then Done([], p)
    else
      match rd(p, ks[0])
      case Threw(e) => Threw(e)
      case Crashed => Crashed
      case Done(x, q) => Prepend(x, ReadAll(rd, q, ks[1..]))
  }

  function Prepend<X>(x: X, g: Got<seq<X>>): Got<seq<X>> {
    match g
    case Done(ys, r) => Done([x] + ys, r)
    case Threw(e) => Threw(e)
    case Crashed => Crashed
  }

  function Each<X, K>(kind: X -> K, xs: seq<X>): (ks: seq<K>)
    ensures |ks| == |xs| && forall i :: 0 <= i < |xs| ==> ks[i] == kind(xs[i])
  {
    seq(|xs|, i requires 0 <= i < |xs| => kind(xs[i]))
  }

  predicate EndsIn<X>(empty: X -> bool, xs: seq<X>) {
    xs != [] && empty(xs[|xs| - 1])
  }

  /** The reader inverts the encoder wherever a value stands in f, but for an `empty` one
      at the very end. */
  ghost predicate Inverts<X(!new), K>(rd: (nat, K) -> Got<X>, enc: X -> seq<Byte>, ok: X -> bool, kind: X -> K,
                                empty: X -> bool, f: seq<Byte>, size: nat)
  {
    forall x: X, p: nat :: ok(x) && At(f, p, enc(x)) && p + |enc(x)| <= size ==>
      rd(p, kind(x)) == if empty(x) && p + |enc(x)| == |f| then Crashed else Done(x, p + |enc(x)|)
  }

  ghost predicate NeverEmpty<X(!new)>(enc: X -> seq<Byte>, ok: X -> bool) {
    forall x: X :: ok(x) ==> |enc(x)| > 0
  }

  lemma {:induction false} ListInverts<X(!new), K>(rd: (nat, K) -> Got<X>, enc: X -> seq<Byte>, ok: X -> bool,
                                     kind: X -> K, empty: X -> bool, f: seq<Byte>, size: nat, p: nat, xs: seq<X>)
    requires Inverts(rd, enc, ok, kind, empty, f, size) && NeverEmpty(enc, ok)
    requires (forall i :: 0 <= i < |xs| ==> ok(xs[i])) && At(f, p, EncodeAll(enc, xs))
    requires p + |EncodeAll(enc, xs)| <= size <= |f|
    ensures var q := p + |EncodeAll(enc, xs)|;
      ReadAll(rd, p, Each(kind, xs)) == if EndsIn(empty, xs) && q == |f| then Crashed else Done(xs, q)
    decreases |xs|
  {
    if xs != [] {
      var x, t := xs[0], xs[1..];
      var e, rest := enc(x), EncodeAll(enc, t);
      AtSplit(f, p, e, rest);
      if t != [] { assert |enc(t[0])| > 0; }
      ListInverts(rd, enc, ok, kind, empty, f, size, p + |e|, t);
      ListStep(rd, kind, empty, p, xs, p + |e|, p + |EncodeAll(enc, xs)|, |f|);
    }
  }

  /** The first value reads back, and so do the others. */
  lemma ListStep<X, K>(rd: (nat, K) -> Got<X>, kind: X -> K, empty: X -> bool, p: nat, xs: seq<X>, q: nat, end: nat, cap: nat)
    requires xs != [] && (xs[1..] == [] ==> q == end) && (xs[1..] != [] ==> q < cap)
    requires rd(p, kind(xs[0])) == if empty(xs[0]) && q == cap then Crashed else Done(xs[0], q)
    requires ReadAll(rd, q, Each(kind, xs[1..])) == if EndsIn(empty, xs[1..]) && end == cap then Crashed else Done(xs[1..], end)
    ensures ReadAll(rd, p, Each(kind, xs)) == if EndsIn(empty, xs) && end == cap then Crashed else Done(xs, end)
  {
    ReadFirst(rd, kind, p, xs);
  }

  /** The first value, then the others. */
  lemma ReadFirst<X, K>(rd: (nat, K) -> Got<X>, kind: X -> K, p: nat, xs: seq<X>)
    requires xs != []
    ensures [xs[0]] + xs[1..] == xs
    ensures ReadAll(rd, p, Each(kind, xs)) == match rd(p, kind(xs[0]))
      case Threw(e) => Threw(e)
      case Crashed => Crashed
      case Done(x, q) => Prepend(x, ReadAll(rd, q, Each(kind, xs[1..])))
  {
    assert Each(kind, xs)[1..] == Each(kind, xs[1..]);
  }
}

/**
  Typed writes and reads through a ByteArray, and their round trip: for every block size,
  host byte order and list of values.
 */
module TypedIo {
  import opened Blocks
  import opened ByteArrays
  import opened Codec
  import opened ListRoundTrip

  /** A string's length: a fixed number of bytes, or a varint of so many bits. */
  datatype Prefix = FixedLen(width: nat) | VarLen(bits: nat)

  /** One value of the typed interface. Widths are in bytes for Fixed, in bits for the
      variable-length forms. */
  datatype Item =
    | Fixed(width: nat, signed: bool, v: int)
    | Unsigned(bits: nat, u: int)
    | Zigzag(bits: nat, v: int)
    | Text(prefix: Prefix, s: seq<Byte>)

  datatype Kind =
    | FixedKind(width: nat, signed: bool)
    | UnsignedKind(bits: nat)
    | ZigzagKind(bits: nat)
    | TextKind(prefix: Prefix)

  function KindOf(x: Item): Kind {
    match x
    case Fixed(w, sg, _) => FixedKind(w, sg)
    case Unsigned(b, _) => UnsignedKind(b)
    case Zigzag(b, _) => ZigzagKind(b)
    case Text(p, _) => TextKind(p)
  }

  predicate WidthOk(w: nat) { w in {1, 2, 4, 8} }

  predicate BitsOk(b: nat) { b in {32, 64} }

  /** writeStringF16, F32, F64 and Vint. */
  predicate PrefixOk(p: Prefix) {
    match p case FixedLen(w) => w in {2, 4, 8} case VarLen(b) => b == 64
  }

  function PrefixBits(p: Prefix): nat {
    match p case FixedLen(w) => 8 * w case VarLen(b) => b
  }

  predicate Fits(n: nat, p: Prefix) { PrefixOk(p) && n < Pow2(PrefixBits(p)) }

  /** The value is one its C++ type can hold; a string's length fits its prefix. */
  predicate ItemOk(x: Item) {
    match x
    case Fixed(w, sg, v) => WidthOk(w) && if sg then InSigned(8 * w, v) else 0 <= v < Pow2(8 * w)
    case Unsigned(b, u) => BitsOk(b) && 0 <= u < Pow2(b)
    case Zigzag(b, v) => BitsOk(b) && InSigned(b, v)
    case Text(p, s) => Fits(|s|, p)
  }

  predicate KindOk(k: Kind) {
    match k
    case FixedKind(w, _) => WidthOk(w)
    case UnsignedKind(b) => BitsOk(b)
    case ZigzagKind(b) => BitsOk(b)
    case TextKind(p) => PrefixOk(p)
  }

  // ---------------------------------------------------------------- what is written

  function PrefixBytes(order: Order, p: Prefix, n: nat): (s: seq<Byte>)
    ensures PrefixOk(p) ==> |s| > 0
  {
    match p case FixedLen(w) => HostBytes(order, w, n) case VarLen(_) => Varint(n)
  }

  function Encode(order: Order, x: Item): (s: seq<Byte>)
    requires ItemOk(x)
    ensures |s| > 0
  {
    match x
    case Fixed(w, _, v) => HostBytes(order, w, ToUnsigned(8 * w, v))
    case Unsigned(_, u) => Varint(u)
    case Zigzag(b, v) => ZigzagValue(b, v); Varint(EncodeZigzag(b, v))
    case Text(p, s) => PrefixBytes(order, p, |s|) + s
  }

  /** x on the wire, byte by byte: a fixed-width integer in two's complement and the array's
      order; an unsigned varint in groups of seven bits; a signed one as the varint of 2v, or
      of -2v - 1 if it is negative; a string after its length. */
  predicate Laid(order: Order, x: Item, s: seq<Byte>)
    requires ItemOk(x)
  {
    match x
    case Fixed(w, _, v) => Holds(order, w, if v < 0 then v + Pow2(8 * w) else v, s)
    case Unsigned(_, u) => Groups(u, s)
    case Zigzag(_, v) => Groups(if v < 0 then -2 * v - 1 else 2 * v, s)
    case Text(p, t) =>
      && |t| <= |s| && s[|s| - |t|..] == t
      && var h := s[..|s| - |t|];
         match p case FixedLen(w) => Holds(order, w, |t|, h) case VarLen(_) => Groups(|t|, h)
  }

  lemma EncodeLaid(order: Order, x: Item)
    requires ItemOk(x)
    ensures Laid(order, x, Encode(order, x))
  {
    match x
    case Fixed(w, sg, v) => FixedLaid(order, w, sg, v);
    case Unsigned(_, u) => VarintGroups(u);
    case Zigzag(b, v) => ZigzagLaid(order, b, v);
    case Text(p, t) => TextLaid(order, p, t, PrefixBytes(order, p, |t|));
  }

  lemma FixedLaid(order: Order, w: nat, sg: bool, v: int)
    requires ItemOk(Fixed(w, sg, v))
    ensures Laid(order, Fixed(w, sg, v), HostBytes(order, w, ToUnsigned(8 * w, v)))
  {
    UnsignedRange(8 * w, v);
    HostHolds(order, w, ToUnsigned(8 * w, v));
  }

  lemma ZigzagLaid(order: Order, b: nat, v: int)
    requires ItemOk(Zigzag(b, v))
    ensures Laid(order, Zigzag(b, v), Encode(order, Zigzag(b, v)))
  {
    ZigzagValue(b, v);
    VarintGroups(EncodeZigzag(b, v));
  }

  lemma TextLaid(order: Order, p: Prefix, t: seq<Byte>, h: seq<Byte>)
    requires Fits(|t|, p) && h == PrefixBytes(order, p, |t|)
    ensures Laid(order, Text(p, t), h + t)
  {
    assert (h + t)[|h|..] == t && (h + t)[..|h|] == h;
    match p
    case FixedLen(w) => HostHolds(order, w, |t|);
    case VarLen(_) => VarintGroups(|t|);
  }

  // ---------------------------------------------------------------- what is read

  function GetBytes(f: seq<Byte>, size: nat, p: nat, n: nat): (r: Got<seq<Byte>>)
    requires p <= size <= |f|
    ensures r.Done? ==> r.position == p + n <= size && |r.value| == n
  {
    match ReadSpec(p, size, f, n)
    case Bytes(d) => Done(d, p + n)
    case OutOfRange => Threw(p)
    case NullCursor => Crashed
  }

  function GetFixed(host: Order, order: Order, f: seq<Byte>, size: nat, p: nat, n: nat): (r: Got<nat>)
    requires p <= size <= |f|
    ensures !r.Crashed? ==> p <= r.position <= size
  {
    match GetBytes(f, size, p, n)
    case Done(d, q) => Done(ForWire(host, order, n, HostValue(host, d)), q)
    case Threw(e) => Threw(e)
    case Crashed => Crashed
  }

  /** readUint32/64 from shift i on. Each group is shifted inside `bits` bits; the groups do
      not overlap, so or-ing them is adding them. */
  function GetVarint(f: seq<Byte>, size: nat, p: nat, bits: nat, i: nat, acc: nat): (r: Got<nat>)
    requires p <= size <= |f|
    ensures !r.Crashed? ==> p <= r.position <= size
    decreases bits - i
  {
    if i >= bits then Done(acc, p)
    else
      match GetByte(f, size, p)
      case Threw(e) => Threw(e)
      case Crashed => Crashed
      case Done(b, q) =>
        var acc' := acc + Group(bits, b, i);
        if b < 128 then Done(acc', q) else GetVarint(f, size, q, bits, i + 7, acc')
  }

  /** readFuint8. */
  function GetByte(f: seq<Byte>, size: nat, p: nat): (r: Got<Byte>)
    requires p <= size <= |f|
    ensures !r.Crashed? ==> p <= r.position <= size
    ensures r.Done? ==> r.position == p + 1
  {
    match GetBytes(f, size, p, 1)
    case Threw(e) => Threw(e)
    case Crashed => Crashed
    case Done(d, q) => Done(d[0], q)
  }

  /** The seven bits of b, shifted by i inside `bits` bits. */
  function Group(bits: nat, b: Byte, i: nat): nat {
    Wrap(bits, b % 128 * Pow2(i))
  }

  function GetPrefix(host: Order, order: Order, f: seq<Byte>, size: nat, p: nat, x: Prefix): (r: Got<nat>)
    requires p <= size <= |f|
    ensures !r.Crashed? ==> p <= r.position <= size
  {
    match x case FixedLen(w) => GetFixed(host, order, f, size, p, w) case VarLen(b) => GetVarint(f, size, p, b, 0, 0)
  }

  function GetItem(host: Order, order: Order, f: seq<Byte>, size: nat, p: nat, k: Kind): (r: Got<Item>)
    requires p <= size <= |f| && KindOk(k)
    ensures !r.Crashed? ==> p <= r.position <= size
  {
    match k
    case FixedKind(w, sg) => (
      match GetFixed(host, order, f, size, p, w)
      case Done(u, q) => Done(Fixed(w, sg, if sg then ToSigned(8 * w, u) else u), q)
      case Threw(e) => Threw(e)
      case Crashed => Crashed)
    case UnsignedKind(b) => (
      match GetVarint(f, size, p, b, 0, 0)
      case Done(u, q) => Done(Unsigned(b, u), q)
      case Threw(e) => Threw(e)
      case Crashed => Crashed)
    case ZigzagKind(b) => (
      match GetVarint(f, size, p, b, 0, 0)
      case Done(u, q) => Done(Zigzag(b, DecodeZigzag(b, u)), q)
      case Threw(e) => Threw(e)
      case Crashed => Crashed)
    case TextKind(x) => GetText(host, order, f, size, p, x)
  }

  function GetText(host: Order, order: Order, f: seq<Byte>, size: nat, p: nat, x: Prefix): (r: Got<Item>)
    requires p <= size <= |f|
    ensures !r.Crashed? ==> p <= r.position <= size
  {
    GetBody(f, size, GetPrefix(host, order, f, size, p, x), x)
  }

  /** The string after its length was read, or failed to be. */
  function GetBody(f: seq<Byte>, size: nat, n: Got<nat>, x: Prefix): (r: Got<Item>)
    requires size <= |f| && (!n.Crashed? ==> n.position <= size)
    ensures !r.Crashed? ==> !n.Crashed? && n.position <= r.position <= size
  {
    match n
    case Threw(e) => Threw(e)
    case Crashed => Crashed
    case Done(len, q) =>
      match GetBytes(f, size, q, len)
      case Done(s, r) => Done(Text(x, s), r)
      case Threw(e) => Threw(e)
      case Crashed => Crashed
  }

  // ---------------------------------------------------------------- one item

  lemma GetStands(f: seq<Byte>, size: nat, p: nat, s: seq<Byte>)
    requires s != [] && At(f, p, s) && p + |s| <= size <= |f|
    ensures GetBytes(f, size, p, |s|) == Done(s, p + |s|)
  {
  }

  lemma WireValue(host: Order, order: Order, n: nat, u: nat)
    requires u < Pow2(8 * n)
    ensures ForWire(host, order, n, HostValue(host, HostBytes(order, n, u))) == u
  {
    WireIsHostFree(host, order, n, u);
    FixedInverse(host, order, n, u);
  }

  lemma FixedReadsBack(host: Order, order: Order, f: seq<Byte>, size: nat, p: nat, n: nat, u: nat)
    requires u < Pow2(8 * n) && n > 0 && At(f, p, HostBytes(order, n, u)) && p + n <= size <= |f|
    ensures GetFixed(host, order, f, size, p, n) == Done(u, p + n)
  {
    GetStands(f, size, p, HostBytes(order, n, u));
    WireValue(host, order, n, u);
  }

  lemma {:induction false} VarintReadsBack(f: seq<Byte>, size: nat, p: nat, bits: nat, i: nat, acc: nat, v: nat)
    requires i < bits && v * Pow2(i) < Pow2(bits) && At(f, p, Varint(v)) && p + |Varint(v)| <= size <= |f|
    ensures GetVarint(f, size, p, bits, i, acc) == Done(acc + v * Pow2(i), p + |Varint(v)|)
    decreases v
  {
    if v < 128 {
      GroupReads(f, size, p, bits, i, acc, v, v * Pow2(i), []);
    } else {
      VarintShift(v, bits, i);
      var x, t := v % 128 * Pow2(i), Varint(v / 128);
      assert Varint(v) == [v % 128 + 128] + t;
      GroupReads(f, size, p, bits, i, acc, v % 128 + 128, x, t);
      VarintReadsBack(f, size, p + 1, bits, i + 7, acc + x, v / 128);
    }
  }

  /** One turn of the reader's loop on byte b, followed by t. */
  lemma GroupReads(f: seq<Byte>, size: nat, p: nat, bits: nat, i: nat, acc: nat, b: Byte, x: nat, t: seq<Byte>)
    requires i < bits && x == b % 128 * Pow2(i) && x < Pow2(bits)
    requires At(f, p, [b] + t) && p + 1 + |t| <= size <= |f|
    ensures At(f, p + 1, t)
    ensures GetVarint(f, size, p, bits, i, acc)
      == if b < 128 then Done(acc + x, p + 1) else GetVarint(f, size, p + 1, bits, i + 7, acc + x)
  {
    AtSplit(f, p, [b], t);
    GetStands(f, size, p, [b]);
  }

  /** Splitting off the lowest group. */
  lemma VarintShift(v: nat, bits: nat, i: nat)
    requires v >= 128 && i < bits && v * Pow2(i) < Pow2(bits)
    ensures v % 128 * Pow2(i) + v / 128 * Pow2(i + 7) == v * Pow2(i)
    ensures v % 128 * Pow2(i) < Pow2(bits) && v / 128 * Pow2(i + 7) < Pow2(bits) && i + 7 < bits
  {
    Pow2Add(i, 7);
    Pow2Values();
    SplitProduct(v % 128, v / 128, Pow2(i));
    if i + 7 >= bits { Pow2Add(bits, i + 7 - bits); Grows(Pow2(bits), Pow2(i + 7 - bits)); }
  }

  lemma SplitProduct(a: nat, b: nat, x: nat)
    requires b >= 1 && x >= 1
    ensures a * x + b * (x * 128) == (a + b * 128) * x
    ensures b * (x * 128) >= x * 128 > 0 && a * x >= 0
  {
  }

  lemma Grows(a: nat, b: nat)
    requires b >= 1
    ensures a * b >= a
  {
  }

  // ---------------------------------------------------------------- any bytes at all

  /** Whatever stands in the buffer, a fixed-width reader takes the integer it holds in the
      array's order, or throws where it is. */
  lemma FixedReadsAny(host: Order, order: Order, f: seq<Byte>, size: nat, p: nat, n: nat)
    requires n > 0 && p <= size <= |f|
    ensures p + n > size ==> GetFixed(host, order, f, size, p, n) == Threw(p)
    ensures p + n <= size ==>
      var r := GetFixed(host, order, f, size, p, n);
      r.Done? && r.position == p + n && r.value < Pow2(8 * n) && Holds(order, n, r.value, f[p..p + n])
  {
    if p + n <= size { AnyBytesHold(host, order, f[p..p + n]); }
  }

  /** m bytes of a varint stand at p: all but the last announce another, and the last one does
      not, or is the last that fits into `bits` bits from shift i on. */
  predicate VarintStands(f: seq<Byte>, p: nat, m: nat, bits: nat, i: nat) {
    && m > 0 && p + m <= |f| && i + 7 * (m - 1) < bits
    && (forall j :: p <= j < p + m - 1 ==> f[j] >= 128)
    && (f[p + m - 1] < 128 || i + 7 * m >= bits)
  }

  /** (g * 2^i) mod 2^bits, with something below 2^i added. */
  lemma WrapLast(g: nat, i: nat, bits: nat, acc: nat)
    requires i < bits && acc < Pow2(i)
    ensures acc + Wrap(bits, g * Pow2(i)) == Wrap(bits, acc + g * Pow2(i))
  {
    var a, b := Pow2(i), Pow2(bits - i);
    Pow2Add(i, bits - i);
    DivParts(g, b);
    var q, r := g / b, g % b;
    Spread(q, b, r, a);
    Regroup(a, b, q, r, acc);
    Regroup(a, b, q, r, 0);
    DivUnique(g * a, a * b, q, r * a);
    DivUnique(g * a + acc, a * b, q, r * a + acc);
  }

  lemma AddGroup(acc: nat, g: nat, i: nat)
    requires acc < Pow2(i) && g < 128
    ensures acc + g * Pow2(i) < Pow2(i + 7)
    ensures forall v: nat :: acc + g * Pow2(i) + v * Pow2(i + 7) == acc + (g + 128 * v) * Pow2(i)
  {
    Pow2Seven();
    Pow2Add(i, 7);
    Monotone(g + 1, 128, Pow2(i));
    forall v: nat ensures g * Pow2(i) + v * Pow2(i + 7) == (g + 128 * v) * Pow2(i) {
      Spread(v, 128, g, Pow2(i));
    }
  }

  /** Whatever stands in the buffer, the varint reader takes bytes up to the first that
      announces no other, or as many as can matter, and returns their value in so many bits. */
  lemma {:induction false} VarintReadsAny(f: seq<Byte>, size: nat, p: nat, bits: nat, i: nat, acc: nat, m: nat)
    requires i < bits && acc < Pow2(i) && size <= |f| && p + m <= size && VarintStands(f, p, m, bits, i)
    ensures GetVarint(f, size, p, bits, i, acc)
      == Done(Wrap(bits, acc + VarintValue(f[p..p + m]) * Pow2(i)), p + m)
    decreases m
  {
    var g := f[p] % 128;
    FirstGroup(f, p, m);
    OneByte(f, size, p, bits, i, acc);
    if m == 1 {
      WrapLast(g, i, bits, acc);
    } else {
      AddGroup(acc, g, i);
      GroupFits(acc, g, i, bits);
      VarintReadsAny(f, size, p + 1, bits, i + 7, acc + g * Pow2(i), m - 1);
    }
  }

  lemma FirstGroup(f: seq<Byte>, p: nat, m: nat)
    requires m > 0 && p + m <= |f|
    ensures VarintValue(f[p..p + m])
      == f[p] % 128 + 128 * if m == 1 then 0 else VarintValue(f[p + 1..p + 1 + (m - 1)])
  {
    var s := f[p..p + m];
    assert s[1..] == f[p + 1..p + 1 + (m - 1)];
    if m == 1 { assert s[1..] == []; }
  }

  lemma GroupFits(acc: nat, g: nat, i: nat, bits: nat)
    requires acc < Pow2(i) && g < 128 && i + 7 <= bits
    ensures Wrap(bits, g * Pow2(i)) == g * Pow2(i)
  {
    AddGroup(acc, g, i);
    Pow2Add(i + 7, bits - i - 7);
    Grows(Pow2(i + 7), Pow2(bits - i - 7));
  }

  lemma OneByte(f: seq<Byte>, size: nat, p: nat, bits: nat, i: nat, acc: nat)
    requires i < bits && p < size <= |f|
    ensures GetVarint(f, size, p, bits, i, acc)
      == if f[p] < 128 || i + 7 >= bits then Done(acc + Group(bits, f[p], i), p + 1)
         else GetVarint(f, size, p + 1, bits, i + 7, acc + Group(bits, f[p], i))
  {
    GetStands(f, size, p, [f[p]]);
  }

  /** If the readable bytes end before the varint does, the reader throws at their end. */
  lemma {:induction false} VarintRunsOut(f: seq<Byte>, size: nat, p: nat, bits: nat, i: nat, acc: nat)
    requires p <= size <= |f| && i + 7 * (size - p) < bits && forall j :: p <= j < size ==> f[j] >= 128
    ensures GetVarint(f, size, p, bits, i, acc) == Threw(size)
    decreases size - p
  {
    if p < size {
      OneByte(f, size, p, bits, i, acc);
      VarintRunsOut(f, size, p + 1, bits, i + 7, acc + Group(bits, f[p], i));
    }
  }

  predicate EmptyText(x: Item) { x.Text? && x.s == [] }

  /** An item reads back as written, except that an empty string whose prefix ends exactly at
      the end of the buffer makes read dereference a null cursor. */
  lemma ItemReadsBack(host: Order, order: Order, f: seq<Byte>, size: nat, p: nat, x: Item)
    requires ItemOk(x) && At(f, p, Encode(order, x)) && p + |Encode(order, x)| <= size <= |f|
    ensures var q := p + |Encode(order, x)|;
      GetItem(host, order, f, size, p, KindOf(x)) == if EmptyText(x) && q == |f| then Crashed else Done(x, q)
  {
    match x
    case Fixed(w, sg, v) => FixedItem(host, order, f, size, p, w, sg, v);
    case Unsigned(b, u) => VarintFromStart(f, size, p, b, u);
    case Zigzag(b, v) => ZigzagItem(host, order, f, size, p, b, v);
    case Text(pr, s) => TextItem(host, order, f, size, p, pr, s);
  }

  lemma TextItem(host: Order, order: Order, f: seq<Byte>, size: nat, p: nat, pr: Prefix, s: seq<Byte>)
    requires ItemOk(Text(pr, s)) && At(f, p, Encode(order, Text(pr, s)))
    requires p + |Encode(order, Text(pr, s))| <= size <= |f|
    ensures var q := p + |Encode(order, Text(pr, s))|;
      GetText(host, order, f, size, p, pr) == if s == [] && q == |f| then Crashed else Done(Text(pr, s), q)
  {
    TextReadsBack(host, order, f, size, p, pr, s, PrefixBytes(order, pr, |s|));
  }

  lemma FixedItem(host: Order, order: Order, f: seq<Byte>, size: nat, p: nat, w: nat, sg: bool, v: int)
    requires ItemOk(Fixed(w, sg, v)) && At(f, p, Encode(order, Fixed(w, sg, v))) && p + w <= size <= |f|
    ensures GetItem(host, order, f, size, p, FixedKind(w, sg)) == Done(Fixed(w, sg, v), p + w)
  {
    UnsignedRange(8 * w, v);
    FixedReadsBack(host, order, f, size, p, w, ToUnsigned(8 * w, v));
  }

  lemma ZigzagItem(host: Order, order: Order, f: seq<Byte>, size: nat, p: nat, b: nat, v: int)
    requires ItemOk(Zigzag(b, v)) && At(f, p, Encode(order, Zigzag(b, v)))
    requires p + |Encode(order, Zigzag(b, v))| <= size <= |f|
    ensures GetItem(host, order, f, size, p, ZigzagKind(b)) == Done(Zigzag(b, v), p + |Encode(order, Zigzag(b, v))|)
  {
    ZigzagValue(b, v);
    ZigzagDecodes(b, v);
    VarintFromStart(f, size, p, b, EncodeZigzag(b, v));
  }

  lemma UnsignedRange(bits: nat, v: int)
    requires bits > 0 && (InSigned(bits, v) || 0 <= v < Pow2(bits))
    ensures 0 <= ToUnsigned(bits, v) < Pow2(bits)
    ensures InSigned(bits, v) ==> ToSigned(bits, ToUnsigned(bits, v)) == v
  {
    assert Pow2(bits) == 2 * Pow2(bits - 1);
  }

  lemma VarintFromStart(f: seq<Byte>, size: nat, p: nat, bits: nat, v: nat)
    requires bits > 0 && v < Pow2(bits) && At(f, p, Varint(v)) && p + |Varint(v)| <= size <= |f|
    ensures GetVarint(f, size, p, bits, 0, 0) == Done(v, p + |Varint(v)|)
  {
    assert v * Pow2(0) == v;
    VarintReadsBack(f, size, p, bits, 0, 0, v);
  }

  lemma PrefixReadsBack(host: Order, order: Order, f: seq<Byte>, size: nat, p: nat, pr: Prefix, n: nat)
    requires Fits(n, pr) && At(f, p, PrefixBytes(order, pr, n))
    requires p + |PrefixBytes(order, pr, n)| <= size <= |f|
    ensures GetPrefix(host, order, f, size, p, pr) == Done(n, p + |PrefixBytes(order, pr, n)|)
  {
    match pr
    case FixedLen(w) => FixedReadsBack(host, order, f, size, p, w, n);
    case VarLen(b) => VarintFromStart(f, size, p, b, n);
  }

  /** A string's body, empty ones at the very end excepted. */
  lemma TextBody(f: seq<Byte>, size: nat, q: nat, s: seq<Byte>, pr: Prefix)
    requires q + |s| <= size <= |f| && At(f, q, s)
    ensures GetBody(f, size, Done(|s|, q), pr) == if s == [] && q == |f| then Crashed else Done(Text(pr, s), q + |s|)
  {
    assert GetBytes(f, size, q, |s|) == if q == |f| then Crashed else Done(s, q + |s|);
  }

  lemma TextReadsBack(host: Order, order: Order, f: seq<Byte>, size: nat, p: nat, pr: Prefix, s: seq<Byte>, h: seq<Byte>)
    requires Fits(|s|, pr) && h == PrefixBytes(order, pr, |s|) && At(f, p, h + s)
    requires p + |h| + |s| <= size <= |f|
    ensures GetText(host, order, f, size, p, pr)
      == if s == [] && p + |h| + |s| == |f| then Crashed else Done(Text(pr, s), p + |h| + |s|)
  {
    TextPrefix(host, order, f, size, p, pr, s, h);
    TextAfter(host, order, f, size, p, pr, s, p + |h|);
  }

  lemma TextAfter(host: Order, order: Order, f: seq<Byte>, size: nat, p: nat, pr: Prefix, s: seq<Byte>, q: nat)
    requires p <= size && q + |s| <= size <= |f| && At(f, q, s)
    requires GetPrefix(host, order, f, size, p, pr) == Done(|s|, q)
    ensures GetText(host, order, f, size, p, pr) == if s == [] && q == |f| then Crashed else Done(Text(pr, s), q + |s|)
  {
    TextBody(f, size, q, s, pr);
  }

  lemma TextPrefix(host: Order, order: Order, f: seq<Byte>, size: nat, p: nat, pr: Prefix, s: seq<Byte>, h: seq<Byte>)
    requires Fits(|s|, pr) && h == PrefixBytes(order, pr, |s|) && At(f, p, h + s)
    requires p + |h| + |s| <= size <= |f|
    ensures GetPrefix(host, order, f, size, p, pr) == Done(|s|, p + |h|) && At(f, p + |h|, s)
  {
    AtSplit(f, p, h, s);
    PrefixReadsBack(host, order, f, size, p, pr, |s|);
  }

  // ---------------------------------------------------------------- lists of items

  predicate AllOk(xs: seq<Item>) {
    forall i :: 0 <= i < |xs| ==> ItemOk(xs[i])
  }

  /** The encoder and the reader as function values. */
  function Encoder(order: Order): Item -> seq<Byte> {
    x => if ItemOk(x) then Encode(order, x) else []
  }

  function Reader(host: Order, order: Order, f: seq<Byte>, size: nat): (nat, Kind) -> Got<Item>
    requires size <= |f|
  {
    (p: nat, k: Kind) => if p <= size && KindOk(k) then GetItem(host, order, f, size, p, k) else Threw(p)
  }

  lemma ReaderInverts(host: Order, order: Order, f: seq<Byte>, size: nat)
    requires size <= |f|
    ensures Inverts(Reader(host, order, f, size), Encoder(order), ItemOk, KindOf, EmptyText, f, size)
    ensures NeverEmpty(Encoder(order), ItemOk)
  {
    var rd, enc := Reader(host, order, f, size), Encoder(order);
    forall x: Item, p: nat | ItemOk(x) && At(f, p, enc(x)) && p + |enc(x)| <= size
      ensures rd(p, KindOf(x)) == if EmptyText(x) && p + |enc(x)| == |f| then Crashed else Done(x, p + |enc(x)|)
    {
      ItemReadsBack(host, order, f, size, p, x);
    }
  }

  /** A list that stands in the buffer reads back as it is, with the position after it, if
      and only if it does not end in an empty string at the very end of the buffer. */
  lemma ListReadsBack(host: Order, order: Order, f: seq<Byte>, size: nat, p: nat, xs: seq<Item>)
    requires AllOk(xs) && At(f, p, EncodeAll(Encoder(order), xs))
    requires p + |EncodeAll(Encoder(order), xs)| <= size <= |f|
    ensures var q := p + |EncodeAll(Encoder(order), xs)|;
      ReadAll(Reader(host, order, f, size), p, Each(KindOf, xs))
        == if EndsIn(EmptyText, xs) && q == |f| then Crashed else Done(xs, q)
  {
    ReaderInverts(host, order, f, size);
    ListInverts(Reader(host, order, f, size), Encoder(order), ItemOk, KindOf, EmptyText, f, size, p, xs);
  }

  // ---------------------------------------------------------------- the methods

  /** The byte loop of writeUint32 and writeUint64, with its 5- or 10-byte array. */
  method VarintBytes(bits: nat, v: nat) returns (out: seq<Byte>)
    requires BitsOk(bits) && v < Pow2(bits)
    ensures out == Varint(v)
  {
    VarintRoom(bits, v);
    var tmp := new Byte[if bits == 32 then 5 else 10];
    var i: nat := 0;
    var value := v;
    while value >= 0x80
      invariant i + |Varint(value)| <= tmp.Length
      invariant tmp[..i] + Varint(value) == Varint(v)
    {
      ghost var done := tmp[..i];
      VarintGroup(done, value);
      tmp[i] := value % 0x80 + 0x80;
      assert tmp[..i + 1] == done + [value % 0x80 + 0x80];
      i := i + 1;
      value := value / 0x80;
    }
    ghost var done := tmp[..i];
    tmp[i] := value;
    i := i + 1;
    assert tmp[..i] == done + [value];
    out := tmp[..i];
  }

  lemma VarintRoom(bits: nat, v: nat)
    requires BitsOk(bits) && v < Pow2(bits)
    ensures |Varint(v)| <= if bits == 32 then 5 else 10
  {
    Pow2Values();
    VarintFits(v);
  }

  lemma VarintGroup(done: seq<Byte>, value: nat)
    requires value >= 0x80
    ensures done + [value % 0x80 + 0x80] + Varint(value / 0x80) == done + Varint(value)
    ensures |Varint(value)| == 1 + |Varint(value / 0x80)|
  {
  }

  method FixedBytes(host: Order, order: Order, n: nat, u: nat) returns (out: seq<Byte>)
    ensures out == HostBytes(order, n, u)
  {
    WireIsHostFree(host, order, n, u);
    var value := u;
    if order != host { value := ByteSwap(n, value); }
    out := HostBytes(host, n, value);
  }

  /** The typed write of one value. */
  method WriteItem(ba: ByteArray, host: Order, order: Order, x: Item)
    requires ba.Valid() && ItemOk(x)
    modifies ba`position, ba`capacity, ba`size, ba`blocks, ba`cur, ba`flat, ba.blocks
    ensures ba.Valid() && old(ba.blocks) <= ba.blocks
    ensures forall j :: |old(ba.blocks)| <= j < |ba.blocks| ==> fresh(ba.blocks[j])
    ensures Written(old(ba.flat), old(ba.position), old(ba.size), ba.flat, ba.position, ba.size, Encode(order, x))
    ensures Laid(order, x, ba.flat[old(ba.position)..ba.position])
    ensures Grew(old(ba.capacity), ba.capacity, ba.baseSize, ba.position)
  {
    EncodeLaid(order, x);
    if x.Text? {
      WriteText(ba, host, order, x.prefix, x.s);
    } else {
      var s := NumberBytes(host, order, x);
      ba.Write(s);
    }
  }

  method NumberBytes(host: Order, order: Order, x: Item) returns (s: seq<Byte>)
    requires ItemOk(x) && !x.Text?
    ensures s == Encode(order, x)
  {
    match x
    case Fixed(w, sg, v) =>
      UnsignedRange(8 * w, v);
      s := FixedBytes(host, order, w, ToUnsigned(8 * w, v));
    case Unsigned(b, u) =>
      s := VarintBytes(b, u);
    case Zigzag(b, v) =>
      ZigzagValue(b, v);
      s := VarintBytes(b, EncodeZigzag(b, v));
  }

  method LengthBytes(host: Order, order: Order, p: Prefix, n: nat) returns (h: seq<Byte>)
    requires Fits(n, p)
    ensures h == PrefixBytes(order, p, n)
  {
    match p
    case FixedLen(w) => h := FixedBytes(host, order, w, n);
    case VarLen(b) => h := VarintBytes(b, n);
  }

  method WriteText(ba: ByteArray, host: Order, order: Order, p: Prefix, s: seq<Byte>)
    requires ba.Valid() && Fits(|s|, p)
    modifies ba`position, ba`capacity, ba`size, ba`blocks, ba`cur, ba`flat, ba.blocks
    ensures ba.Valid() && old(ba.blocks) <= ba.blocks
    ensures forall j :: |old(ba.blocks)| <= j < |ba.blocks| ==> fresh(ba.blocks[j])
    ensures Written(old(ba.flat), old(ba.position), old(ba.size), ba.flat, ba.position, ba.size, PrefixBytes(order, p, |s|) + s)
    ensures Grew(old(ba.capacity), ba.capacity, ba.baseSize, ba.position)
  {
    var h := LengthBytes(host, order, p, |s|);
    ba.Write(h);
    ghost var g, q, m := ba.flat, ba.position, ba.size;
    ba.Write(s);
    GrewTwice(old(ba.capacity), |g|, ba.capacity, ba.baseSize, q, ba.position);
    WrittenTwice(old(ba.flat), old(ba.position), old(ba.size), g, q, m, ba.flat, ba.position, ba.size, h, s);
  }

  /** readFixed: n bytes, swapped when the array's order is not the host's. */
  method ReadFixed(ba: ByteArray, host: Order, order: Order, n: nat) returns (r: Got<nat>)
    requires ba.Valid()
    modifies ba`position, ba`cur
    ensures ba.Valid()
    ensures r == GetFixed(host, order, ba.flat, ba.size, old(ba.position), n)
    ensures !r.Crashed? ==> ba.position == r.position
  {
    var got := ba.Read(n);
    match got
    case OutOfRange => r := Threw(ba.position);
    case NullCursor => r := Crashed;
    case Bytes(d) =>
      var u := HostValue(host, d);
      if order != host { u := ByteSwap(n, u); }
      r := Done(u, ba.position);
  }

  method ReadByte(ba: ByteArray) returns (r: Got<Byte>)
    requires ba.Valid()
    modifies ba`position, ba`cur
    ensures ba.Valid()
    ensures r == GetByte(ba.flat, ba.size, old(ba.position))
    ensures !r.Crashed? ==> ba.position == r.position
  {
    var got := ba.Read(1);
    match got
    case OutOfRange => r := Threw(ba.position);
    case NullCursor => r := Crashed;
    case Bytes(d) => r := Done(d[0], ba.position);
  }

  /** The byte loop of readUint32 and readUint64. */
  method ReadVarint(ba: ByteArray, bits: nat) returns (r: Got<nat>)
    requires ba.Valid()
    modifies ba`position, ba`cur
    ensures ba.Valid()
    ensures r == GetVarint(ba.flat, ba.size, old(ba.position), bits, 0, 0)
    ensures !r.Crashed? ==> ba.position == r.position
  {
    var acc: nat, i: nat := 0, 0;
    while i < bits
      invariant ba.Valid()
      invariant GetVarint(ba.flat, ba.size, old(ba.position), bits, 0, 0)
             == GetVarint(ba.flat, ba.size, ba.position, bits, i, acc)
    {
      var b := ReadByte(ba);
      if b.Threw? { return Threw(b.position); }
      if b.Crashed? { return Crashed; }
      acc := acc + Group(bits, b.value, i);
      if b.value < 0x80 { return Done(acc, ba.position); }
      i := i + 7;
    }
    r := Done(acc, ba.position);
  }

  method ReadPrefix(ba: ByteArray, host: Order, order: Order, p: Prefix) returns (r: Got<nat>)
    requires ba.Valid()
    modifies ba`position, ba`cur
    ensures ba.Valid()
    ensures r == GetPrefix(host, order, ba.flat, ba.size, old(ba.position), p)
    ensures !r.Crashed? ==> ba.position == r.position
  {
    match p
    case FixedLen(w) => r := ReadFixed(ba, host, order, w);
    case VarLen(b) => r := ReadVarint(ba, b);
  }

  method ReadText(ba: ByteArray, host: Order, order: Order, p: Prefix) returns (r: Got<Item>)
    requires ba.Valid()
    modifies ba`position, ba`cur
    ensures ba.Valid()
    ensures r == GetText(host, order, ba.flat, ba.size, old(ba.position), p)
    ensures !r.Crashed? ==> ba.position == r.position
  {
    var n := ReadPrefix(ba, host, order, p);
    if n.Threw? { return Threw(n.position); }
    if n.Crashed? { return Crashed; }
    var got := ba.Read(n.value);
    match got
    case OutOfRange => r := Threw(ba.position);
    case NullCursor => r := Crashed;
    case Bytes(s) => r := Done(Text(p, s), ba.position);
  }

  function MapGot<A, B>(g: Got<A>, f: A -> B): Got<B> {
    match g
    case Done(v, p) => Done(f(v), p)
    case Threw(e) => Threw(e)
    case Crashed => Crashed
  }

  /** The typed read of one value. */
  method ReadItem(ba: ByteArray, host: Order, order: Order, k: Kind) returns (r: Got<Item>)
    requires ba.Valid() && KindOk(k)
    modifies ba`position, ba`cur
    ensures ba.Valid()
    ensures r == GetItem(host, order, ba.flat, ba.size, old(ba.position), k)
    ensures !r.Crashed? ==> ba.position == r.position
  {
    match k
    case FixedKind(w, sg) =>
      var u := ReadFixed(ba, host, order, w);
      r := MapGot(u, (u: nat) => Fixed(w, sg, if sg && w > 0 then ToSigned(8 * w, u) else u));
    case UnsignedKind(b) =>
      var u := ReadVarint(ba, b);
      r := MapGot(u, (u: nat) => Unsigned(b, u));
    case ZigzagKind(b) =>
      var u := ReadVarint(ba, b);
      r := MapGot(u, (u: nat) => Zigzag(b, if b > 0 then DecodeZigzag(b, u) else 0));
    case TextKind(p) =>
      r := ReadText(ba, host, order, p);
  }

  // ---------------------------------------------------------------- whole lists

  method WriteItems(ba: ByteArray, host: Order, order: Order, xs: seq<Item>)
    requires ba.Valid() && AllOk(xs)
    modifies ba`position, ba`capacity, ba`size, ba`blocks, ba`cur, ba`flat, ba.blocks
    ensures ba.Valid()
    ensures Written(old(ba.flat), old(ba.position), old(ba.size), ba.flat, ba.position, ba.size, EncodeAll(Encoder(order), xs))
    ensures Grew(old(ba.capacity), ba.capacity, ba.baseSize, ba.position)
  {
    EncodeAllNone(Encoder(order), xs);
    var i: nat := 0;
    while i < |xs|
      invariant i <= |xs| && ba.Valid() && old(ba.blocks) <= ba.blocks
      invariant forall j :: |old(ba.blocks)| <= j < |ba.blocks| ==> fresh(ba.blocks[j])
      invariant Written(old(ba.flat), old(ba.position), old(ba.size), ba.flat, ba.position, ba.size,
                        EncodeAll(Encoder(order), xs[..i]))
      invariant Grew(old(ba.capacity), ba.capacity, ba.baseSize, ba.position)
    {
      ghost var g, q, m := ba.flat, ba.position, ba.size;
      WriteItem(ba, host, order, xs[i]);
      GrewTwice(old(ba.capacity), |g|, ba.capacity, ba.baseSize, q, ba.position);
      WrittenTwice(old(ba.flat), old(ba.position), old(ba.size), g, q, m, ba.flat, ba.position, ba.size,
                   EncodeAll(Encoder(order), xs[..i]), Encode(order, xs[i]));
      EncodeAllSnoc(Encoder(order), xs, i);
      i := i + 1;
    }
    assert xs[..i] == xs;
  }

  lemma KindsOk(xs: seq<Item>)
    requires AllOk(xs)
    ensures AllKindsOk(Each(KindOf, xs))
  {
  }

  predicate AllKindsOk(ks: seq<Kind>) { forall i :: 0 <= i < |ks| ==> KindOk(ks[i]) }

  method ReadItems(ba: ByteArray, host: Order, order: Order, ks: seq<Kind>) returns (r: Got<seq<Item>>)
    requires ba.Valid() && AllKindsOk(ks)
    modifies ba`position, ba`cur
    ensures ba.Valid()
    ensures r == ReadAll(Reader(host, order, ba.flat, ba.size), old(ba.position), ks)
    ensures !r.Crashed? ==> ba.position == r.position
    decreases |ks|
  {
    if ks == [] { return Done([], ba.position); }
    var x := ReadItem(ba, host, order, ks[0]);
    if x.Threw? { return Threw(x.position); }
    if x.Crashed? { return Crashed; }
    var rest := ReadItems(ba, host, order, ks[1..]);
    r := Prepend(x.value, rest);
  }

  /** What was written from p on reads back from p on. */
  lemma WrittenReads(host: Order, order: Order, xs: seq<Item>, f: seq<Byte>, p: nat, n: nat, g: seq<Byte>, q: nat, m: nat)
    requires AllOk(xs) && Written(f, p, n, g, q, m, EncodeAll(Encoder(order), xs)) && m <= |g|
    ensures q == p + |EncodeAll(Encoder(order), xs)|
    ensures ReadAll(Reader(host, order, g, m), p, Each(KindOf, xs))
      == if EndsIn(EmptyText, xs) && q == |g| then Crashed else Done(xs, q)
  {
    ListReadsBack(host, order, g, m, p, xs);
  }

  /** Where a list of writes ends. */
  ghost function EndOf(start: nat, order: Order, xs: seq<Item>): nat {
    start + |EncodeAll(Encoder(order), xs)|
  }

  /** The one failing family: the list ends in an empty string, on a block boundary at or
      beyond the present capacity. */
  ghost predicate EndsBadly(start: nat, capacity: nat, base: nat, order: Order, xs: seq<Item>)
    requires base > 0
  {
    EndsIn(EmptyText, xs) && EndOf(start, order, xs) % base == 0 && EndOf(start, order, xs) >= capacity
  }

  method WriteReadable(ba: ByteArray, host: Order, order: Order, xs: seq<Item>)
    requires ba.Valid() && AllOk(xs)
    modifies ba`position, ba`capacity, ba`size, ba`blocks, ba`cur, ba`flat, ba.blocks
    ensures ba.Valid() && ba.position == EndOf(old(ba.position), order, xs)
    ensures ReadAll(Reader(host, order, ba.flat, ba.size), old(ba.position), Each(KindOf, xs))
      == if EndsBadly(old(ba.position), old(ba.capacity), ba.baseSize, order, xs) then Crashed else Done(xs, ba.position)
  {
    WriteItems(ba, host, order, xs);
    WrittenReads(host, order, xs, old(ba.flat), old(ba.position), old(ba.size), ba.flat, ba.position, ba.size);
    EndsAtCapacity(old(ba.capacity), ba.capacity, ba.baseSize, |ba.blocks|, ba.position);
  }

  /** Any list of typed writes, setPosition back to where they began, and the same typed
      reads: the same values and the same end position, for every block size, host and array
      order, and whatever the array held before. The one exception is exact, and can be told
      before the call. */
  method RoundTrip(ba: ByteArray, host: Order, order: Order, xs: seq<Item>) returns (r: Got<seq<Item>>)
    requires ba.Valid() && AllOk(xs)
    modifies ba`position, ba`capacity, ba`size, ba`blocks, ba`cur, ba`flat, ba.blocks
    ensures ba.Valid()
    ensures r == if EndsBadly(old(ba.position), old(ba.capacity), ba.baseSize, order, xs) then Crashed
                 else Done(xs, EndOf(old(ba.position), order, xs))
    ensures !r.Crashed? ==> ba.position == r.position
  {
    var start := ba.position;
    KindsOk(xs);
    WriteReadable(ba, host, order, xs);
    var ok := ba.SetPosition(start);
    r := ReadItems(ba, host, order, Each(KindOf, xs));
  }

  /** The exception occurs: an empty string in an array of two-byte blocks. */
  method EmptyStringCrashes(host: Order, order: Order) returns (r: Got<seq<Item>>)
    ensures r == Crashed
  {
    var ba := new ByteArray(2);
    var xs := [Text(FixedLen(2), [])];
    EmptyStringEnds(order, xs);
    r := RoundTrip(ba, host, order, xs);
  }

  lemma EmptyStringEnds(order: Order, xs: seq<Item>)
    requires xs == [Text(FixedLen(2), [])]
    ensures AllOk(xs) && EndsBadly(0, 2, 2, order, xs)
  {
    assert xs[1..] == [];
    assert EncodeAll(Encoder(order), xs[1..]) == [];
    assert |Encoder(order)(xs[0])| == 2;
  }
}
