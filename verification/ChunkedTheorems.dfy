/**
  When the reassembled body is right. A size line that is only partly buffered when it is
  parsed loses what was parsed; the body is right as long as no digit that counts is lost.
 */
module ChunkedTheorems {
  import opened Basics
  import opened Blocks
  import opened Percent
  import opened Chunked

  // ---------------------------------------------------------------- numbers in base 16

  /** The digits of n, most significant first, without leading zeros. */
  function HexDigits(n: nat): (r: seq<nat>)
    ensures |r| > 0 && forall i :: 0 <= i < |r| ==> r[i] < 16
  {
    if n < 16 then [n] else HexDigits(n / 16) + [n % 16]
  }

  function ZeroDigits(n: nat): (r: seq<nat>)
    ensures |r| == n
  {
    seq(n, _ => 0)
  }

  function Padded(n: nat, zeros: nat): seq<nat> { ZeroDigits(zeros) + HexDigits(n) }

  /** The characters of s are these digits, letters in either case. */
  predicate DigitsAre(s: Text, ds: seq<nat>) {
    |s| == |ds| && forall i :: 0 <= i < |s| ==> DigitIs(s[i], ds[i])
  }

  /** s is n written in base 16, with any number of leading zeros and letters of either case. */
  ghost predicate Spells(s: Text, n: nat) {
    exists zeros: nat :: DigitsAre(s, Padded(n, zeros))
  }

  predicate AllHex(s: Text) { forall i :: 0 <= i < |s| ==> IsHex(s[i]) }

  function Value(ds: seq<nat>): nat {
    if ds == [] then 0 else Value(ds[..|ds| - 1]) * 16 + ds[|ds| - 1]
  }

  lemma ValueSnoc(ds: seq<nat>, d: nat)
    ensures Value(ds + [d]) == Value(ds) * 16 + d
  {
    assert (ds + [d])[..|ds|] == ds;
  }

  lemma {:induction false} ZeroValue(n: nat)
    ensures Value(ZeroDigits(n)) == 0
  {
    if n > 0 {
      ZeroValue(n - 1);
      assert ZeroDigits(n) == ZeroDigits(n - 1) + [0];
      ValueSnoc(ZeroDigits(n - 1), 0);
    }
  }

  lemma {:induction false} PaddedValue(n: nat, zeros: nat)
    ensures Value(Padded(n, zeros)) == n
  {
    if n < 16 {
      ZeroValue(zeros);
      ValueSnoc(ZeroDigits(zeros), n);
    } else {
      PaddedValue(n / 16, zeros);
      assert Padded(n, zeros) == Padded(n / 16, zeros) + [n % 16];
      ValueSnoc(Padded(n / 16, zeros), n % 16);
    }
  }

  lemma {:induction false} NumberIsValue(s: Text, ds: seq<nat>)
    requires DigitsAre(s, ds)
    ensures AllHex(s) && Number(s) == Value(ds)
    decreases |s|
  {
    forall i | 0 <= i < |s| ensures IsHex(s[i]) { HexValueIff(s[i], ds[i]); }
    if s != [] {
      var m := |s| - 1;
      HexValueIff(s[m], ds[m]);
      NumberIsValue(s[..m], ds[..m]);
    }
  }

  lemma {:induction false} NumberSpelled(s: Text)
    requires s != [] && AllHex(s)
    ensures Spells(s, Number(s))
    decreases |s|
  {
    var m := |s| - 1;
    if m == 0 {
      OneDigit(s, HexValue(s[m]));
    } else {
      NumberSpelled(s[..m]);
      LastDigit(s, s[..m], Number(s[..m]), HexValue(s[m]));
    }
  }

  lemma OneDigit(s: Text, d: nat)
    requires |s| == 1 && IsHex(s[0]) && d == HexValue(s[0])
    ensures Spells(s, Number(s))
  {
    HexValueIff(s[0], d);
    assert s[..0] == [] && Number(s) == d;
    assert Padded(d, 0) == [d];
    assert DigitsAre(s, Padded(d, 0));
  }

  lemma LastDigit(s: Text, p: Text, n: nat, d: nat)
    requires s != [] && IsHex(s[|s| - 1]) && d == HexValue(s[|s| - 1]) && p == s[..|s| - 1] && Spells(p, n)
    ensures Spells(s, n * 16 + d)
  {
    HexValueIff(s[|s| - 1], d);
    assert s == p + [s[|s| - 1]];
    var zeros: nat :| DigitsAre(p, Padded(n, zeros));
    SpelledMore(p, s[|s| - 1], n, d, zeros);
  }

  /** One more digit. */
  lemma SpelledMore(p: Text, c: Byte, n: nat, d: nat, zeros: nat)
    requires DigitsAre(p, Padded(n, zeros)) && DigitIs(c, d)
    ensures Spells(p + [c], n * 16 + d)
  {
    var v := n * 16 + d;
    var z := if n == 0 then zeros + 1 else zeros;
    assert v / 16 == n && v % 16 == d;
    PaddedMore(n, d, zeros, z);
    assert DigitsAre(p + [c], Padded(v, z));
  }

  lemma PaddedMore(n: nat, d: nat, zeros: nat, z: nat)
    requires d < 16 && z == if n == 0 then zeros + 1 else zeros
    ensures Padded(n * 16 + d, z) == Padded(n, zeros) + [d]
  {
    var v := n * 16 + d;
    assert v / 16 == n && v % 16 == d;
    if n == 0 {
      assert HexDigits(0) == [0] && HexDigits(v) == [d];
      assert ZeroDigits(z) == ZeroDigits(zeros) + [0];
    } else {
      assert HexDigits(v) == HexDigits(n) + [d];
    }
  }

  /** What the parser takes for the number of a text is the number it spells. */
  lemma SpellsIff(s: Text, n: nat)
    ensures Spells(s, n) <==> s != [] && AllHex(s) && Number(s) == n
  {
    if zeros: nat :| DigitsAre(s, Padded(n, zeros)) {
      NumberIsValue(s, Padded(n, zeros));
      PaddedValue(n, zeros);
    }
    if s != [] && AllHex(s) { NumberSpelled(s); }
  }

  /** These digits in one case. */
  function Written(ds: seq<nat>, upper: bool): (s: Text)
    requires forall i :: 0 <= i < |ds| ==> ds[i] < 16
    ensures DigitsAre(s, ds)
  {
    if ds == [] then [] else [HexChar(ds[0], upper)] + Written(ds[1..], upper)
  }

  function HexChar(d: nat, upper: bool): (c: Byte)
    requires d < 16
    ensures DigitIs(c, d)
  {
    if d < 8 then LowDigits(d); UPPER_HEX[d] as int
    else HighDigits(d); if upper then UPPER_HEX[d] as int else LOWER_HEX[d] as int
  }

  /** Every number has its spellings: either case, any number of zeros before it. */
  lemma HexNumber(n: nat, upper: bool, zeros: nat)
    ensures Spells(Written(Padded(n, zeros), upper), n) && Number(Written(Padded(n, zeros), upper)) == n
  {
    var s := Written(Padded(n, zeros), upper);
    assert DigitsAre(s, Padded(n, zeros));
    SpellsIff(s, n);
  }

  lemma SpellsOne(s: Text, m: nat, n: nat)
    requires Spells(s, m) && Spells(s, n)
    ensures m == n
  {
    SpellsIff(s, m);
    SpellsIff(s, n);
  }

  // ---------------------------------------------------------------- messages

  /** A chunk: its size as written, and its data. */
  datatype Chunk = Chunk(digits: Text, data: Text)

  /** The size is the length of the data in base 16. */
  ghost predicate ChunkOk(c: Chunk) { Spells(c.digits, |c.data|) }

  lemma ChunkDigits(c: Chunk)
    ensures ChunkOk(c) <==> c.digits != [] && AllHex(c.digits) && Number(c.digits) == |c.data|
  {
    SpellsIff(c.digits, |c.data|);
  }

  function Line(c: Chunk): Text { c.digits + CrLf() }

  function Frames(cs: seq<Chunk>): Text {
    if cs == [] then [] else Line(cs[0]) + (cs[0].data + CrLf()) + Frames(cs[1..])
  }

  function Data(cs: seq<Chunk>): Text {
    if cs == [] then [] else cs[0].data + Data(cs[1..])
  }

  /** A message, or what is left of one: the last chunk, and no other, is empty. */
  ghost predicate Message(cs: seq<Chunk>) {
    && cs != []
    && (forall i :: 0 <= i < |cs| ==> ChunkOk(cs[i]))
    && (forall i :: 0 <= i < |cs| ==> (cs[i].data == [] <==> i == |cs| - 1))
  }

  /** The run ends with the message's data as the body and exactly the message consumed. */
  predicate Right(o: Outcome, cs: seq<Chunk>, extra: Text) {
    o.Body? && o.body == Data(cs) && o.rest.buf + o.rest.wire == extra
  }

  // ---------------------------------------------------------------- where size lines are cut

  /** How many bytes are buffered, and the pieces to come. Nothing here looks at a byte. */
  datatype Place = Place(b: nat, cuts: seq<nat>)

  function PlaceOf(s: Stream): Place { Place(|s.buf|, s.cuts) }

  function FilledAt(p: Place, size: nat): Place {
    if p.b != 0 then p else Place(Grab(p.cuts, size), Drop(p.cuts, Grab(p.cuts, size)))
  }

  /** How many of the next l bytes, a size line, are parsed in parts before the rest is, and
      the place after the line. */
  datatype Cut = Cut(lost: nat, after: Place)

  function CutOf(p: Place, size: nat, l: nat): Cut
    decreases l
  {
    var q := FilledAt(p, size);
    if q.b == 0 || q.b >= l then Cut(0, Place(if q.b >= l then q.b - l else 0, q.cuts))
    else
      var c := CutOf(Place(0, q.cuts), size, l - q.b);
      Cut(q.b + c.lost, c.after)
  }

  function AfterData(p: Place, m: nat): Place {
    if m <= p.b then Place(p.b - m, p.cuts) else Place(0, Drop(p.cuts, m - p.b))
  }

  /** Losing so much of its size line changes the number read for chunk c, or leaves none. */
  ghost predicate Spoils(c: Chunk, lost: nat) {
    lost >= |c.digits| || !Spells(c.digits[lost..], |c.data|)
  }

  /** No size line of the message is cut so that a digit that counts is lost. */
  ghost predicate Clean(p: Place, size: nat, cs: seq<Chunk>)
    decreases |cs|
  {
    cs == [] ||
    (var cut := CutOf(p, size, |Line(cs[0])|);
     !Spoils(cs[0], cut.lost) && Clean(AfterData(cut.after, |cs[0].data| + 2), size, cs[1..]))
  }

  // ---------------------------------------------------------------- parsing a size line

  lemma {:induction false} DigitsRun(buf: Text, i: nat, d: nat)
    requires i <= d <= |buf| && (forall j :: i <= j < d ==> IsHex(buf[j])) && (d < |buf| ==> !IsHex(buf[d]))
    ensures DigitsEnd(buf, i) == d
    decreases d - i
  {
    if i < d { DigitsRun(buf, i + 1, d); }
  }

  /** A line of which `gone` was parsed before is read as if it began there. */
  lemma RestOfLine(buf: Text, c: Chunk, gone: Text, l: Text)
    requires ChunkOk(c) && Line(c) == gone + l && |gone| < |c.digits| && buf != []
    ensures l <= buf ==> ParseSize(buf).Whole? && ParseSize(buf).used == |l| && Spells(c.digits[|gone|..], ParseSize(buf).size)
    ensures buf < l ==> ParseSize(buf) == Part
  {
    var ds := c.digits[|gone|..];
    ChunkDigits(c);
    SpellsIff(ds, Number(ds));
    assert l == Line(c)[|gone|..] == ds + CrLf();
    if l <= buf {
      forall j | 0 <= j < |ds| ensures IsHex(buf[j]) { assert buf[j] == l[j] == ds[j] == c.digits[|gone| + j]; }
      assert buf[|ds|] == l[|ds|] == CR && buf[|ds| + 1] == l[|ds| + 1] == LF;
      DigitsRun(buf, 0, |ds|);
      assert buf[..|ds|] == l[..|ds|] == ds;
    } else if buf < l {
      PartOfLine(buf, ds, c, |gone|);
    }
  }

  lemma PartOfLine(buf: Text, ds: Text, c: Chunk, g: nat)
    requires ChunkOk(c) && g < |c.digits| && ds == c.digits[g..] && buf != [] && buf < ds + CrLf()
    ensures ParseSize(buf) == Part
  {
    var l := ds + CrLf();
    ChunkDigits(c);
    assert buf == l[..|buf|];
    forall j | 0 <= j < |buf| && j < |ds| ensures IsHex(buf[j]) { assert buf[j] == l[j] == ds[j] == c.digits[g + j]; }
    if |buf| <= |ds| {
      DigitsRun(buf, 0, |buf|);
    } else {
      assert buf[|ds|] == l[|ds|] == CR;
      DigitsRun(buf, 0, |ds|);
    }
  }

  /** The parser on any buffer: digits ds, then what is not a digit. */
  lemma SizeLineIs(ds: Text, t: Text)
    requires (forall i :: 0 <= i < |ds| ==> AnyDigit(ds[i])) && (t != [] ==> !AnyDigit(t[0]))
    ensures var p := ParseSize(ds + t);
      if t == [] || (ds != [] && t == ['\r' as int]) then p == Part
      else if ds != [] && t[0] == '\n' as int then p.Whole? && p.used == |ds| + 1 && Spells(ds, p.size)
      else if ds != [] && |t| > 1 && t[0] == '\r' as int && t[1] == '\n' as int then
        p.Whole? && p.used == |ds| + 2 && Spells(ds, p.size)
      else p == Malformed
  {
    var buf := ds + t;
    forall i | 0 <= i < |ds| ensures IsHex(buf[i]) && IsHex(ds[i]) { IsHexIff(ds[i]); }
    if t != [] { IsHexIff(t[0]); }
    DigitsRun(buf, 0, |ds|);
    assert buf[..|ds|] == ds;
    SpellsIff(ds, Number(ds));
  }

  lemma NoDigitFirst(buf: Text)
    requires buf != [] && !IsHex(buf[0])
    ensures ParseSize(buf) == Malformed
  {
    assert DigitsEnd(buf, 0) == 0;
  }

  /** Without a digit left the rest of the line is malformed. */
  lemma NoDigitLeft(buf: Text, c: Chunk, gone: Text, l: Text)
    requires Line(c) == gone + l && |c.digits| <= |gone| && l != [] && buf != [] && (l <= buf || buf < l)
    ensures ParseSize(buf) == Malformed
  {
    var i := |gone| - |c.digits|;
    assert l[0] == Line(c)[|gone|] == CrLf()[i];
    assert buf[0] == l[0];
    NoDigitFirst(buf);
  }

  /** Either the buffer holds all of l, or l goes on in what is still to come. */
  lemma WholeOrPart(buf: Text, wire: Text, l: Text, rest: Text)
    requires buf + wire == l + rest
    ensures |l| <= |buf| ==> l <= buf && buf[|l|..] + wire == rest
    ensures |buf| < |l| ==> buf < l && wire == l[|buf|..] + rest && l == buf + l[|buf|..]
  {
    if |l| <= |buf| {
      assert buf[..|l|] == (buf + wire)[..|l|] == l;
      assert buf[|l|..] + wire == (buf + wire)[|l|..] == rest;
    } else {
      assert buf == (buf + wire)[..|buf|] == l[..|buf|];
      assert wire == (buf + wire)[|buf|..] == l[|buf|..] + rest;
    }
  }

  /** The stream goes on with what is left of chunk c's size line. */
  ghost predicate AtLine(s: Stream, c: Chunk, gone: Text, rest: Text) {
    StreamOk(s) && ChunkOk(c) && gone < Line(c) && s.buf + s.wire == Line(c)[|gone|..] + rest
  }

  lemma FilledPlace(s: Stream, size: nat)
    requires StreamOk(s) && size > 0
    ensures PlaceOf(Filled(s, size)) == FilledAt(PlaceOf(s), size)
  {
    GrabOk(s.cuts, size);
  }

  /** One turn of the loop around the parser, once something is buffered. */
  lemma LineTurn(s: Stream, c: Chunk, gone: Text, rest: Text)
    requires AtLine(s, c, gone, rest) && s.buf != []
    ensures var l := |Line(c)| - |gone|;
      if |gone| >= |c.digits| then ParseSize(s.buf) == Malformed
      else if |s.buf| >= l then
        && ParseSize(s.buf).Whole? && ParseSize(s.buf).used == l && s.buf[l..] + s.wire == rest
        && Spells(c.digits[|gone|..], ParseSize(s.buf).size)
      else ParseSize(s.buf) == Part && AtLine(s.(buf := []), c, gone + s.buf, rest)
  {
    var l := Line(c)[|gone|..];
    assert Line(c) == gone + l;
    WholeOrPart(s.buf, s.wire, l, rest);
    if |gone| >= |c.digits| {
      NoDigitLeft(s.buf, c, gone, l);
    } else {
      RestOfLine(s.buf, c, gone, l);
      if |s.buf| < |l| {
        assert gone + s.buf + l[|s.buf|..] == Line(c);
        assert Line(c)[|gone + s.buf|..] == l[|s.buf|..];
        assert [] + s.wire == s.wire;
      }
    }
  }

  /** The number of the digits that were not lost, with the stream after the line. */
  ghost predicate SizeIs(r: Sized, c: Chunk, lost: nat, rest: Text, after: Place) {
    if lost >= |c.digits| then r == Broken
    else r.Sized? && Spells(c.digits[lost..], r.n) && r.rest.buf + r.rest.wire == rest && PlaceOf(r.rest) == after
  }

  /** With `gone` lost already: what will have been lost, and the place after the line. */
  function Lost(s: Stream, size: nat, c: Chunk, gone: Text): nat
    requires |gone| <= |Line(c)|
  {
    |gone| + CutOf(PlaceOf(s), size, |Line(c)| - |gone|).lost
  }

  function After(s: Stream, size: nat, c: Chunk, gone: Text): Place
    requires |gone| <= |Line(c)|
  {
    CutOf(PlaceOf(s), size, |Line(c)| - |gone|).after
  }

  lemma SizeUnfolds(s: Stream, size: nat, t: Stream)
    requires size > 0 && StreamOk(s) && t == Filled(s, size) && t.buf != []
    ensures SizeRun(s, size) == match ParseSize(t.buf)
      case Whole(n, used) => Sized(n, t.(buf := t.buf[used..]))
      case Part => SizeRun(t.(buf := []), size)
      case Malformed => Broken
  {
  }

  /** The line is whole, or has no digit left. */
  lemma SizeEnds(s: Stream, size: nat, c: Chunk, gone: Text, rest: Text, t: Stream)
    requires size > 0 && AtLine(s, c, gone, rest) && t == Filled(s, size) && t.buf != []
    requires |gone| >= |c.digits| || |t.buf| >= |Line(c)| - |gone|
    ensures SizeIs(SizeRun(s, size), c, Lost(s, size, c, gone), rest, After(s, size, c, gone))
  {
    FilledPlace(s, size);
    LineTurn(t, c, gone, rest);
    SizeUnfolds(s, size, t);
  }

  /** The size taken is the number of the digits that were not lost. */
  lemma {:induction false} SizeMatches(s: Stream, size: nat, c: Chunk, gone: Text, rest: Text)
    requires size > 0 && AtLine(s, c, gone, rest)
    ensures SizeIs(SizeRun(s, size), c, Lost(s, size, c, gone), rest, After(s, size, c, gone))
    decreases |Line(c)| - |gone|
  {
    var t := Filled(s, size);
    SomethingFilled(s, size, c, gone, rest);
    if |gone| >= |c.digits| || |t.buf| >= |Line(c)| - |gone| {
      SizeEnds(s, size, c, gone, rest, t);
    } else {
      SizeGoesOn(s, size, c, gone, rest, t);
      SizeMatches(Emptied(t), size, c, gone + t.buf, rest);
    }
  }

  lemma SomethingFilled(s: Stream, size: nat, c: Chunk, gone: Text, rest: Text)
    requires size > 0 && AtLine(s, c, gone, rest)
    ensures Filled(s, size).buf != []
  {
    assert |s.buf + s.wire| == |Line(c)[|gone|..] + rest| > 0;
  }

  function Emptied(s: Stream): Stream { s.(buf := []) }

  /** The line is parsed in part, and the run starts over with the next piece. */
  lemma SizeGoesOn(s: Stream, size: nat, c: Chunk, gone: Text, rest: Text, t: Stream)
    requires size > 0 && AtLine(s, c, gone, rest) && t == Filled(s, size) && t.buf != []
    requires |gone| < |c.digits| && |t.buf| < |Line(c)| - |gone|
    ensures AtLine(Emptied(t), c, gone + t.buf, rest) && SizeRun(s, size) == SizeRun(Emptied(t), size)
    ensures Lost(s, size, c, gone) == Lost(Emptied(t), size, c, gone + t.buf)
    ensures After(s, size, c, gone) == After(Emptied(t), size, c, gone + t.buf)
  {
    LineTurn(t, c, gone, rest);
    SizeUnfolds(s, size, t);
    CutGoesOn(s, size, c, gone, t);
  }

  lemma CutGoesOn(s: Stream, size: nat, c: Chunk, gone: Text, t: Stream)
    requires size > 0 && StreamOk(s) && t == Filled(s, size) && 0 < |t.buf| < |Line(c)| - |gone|
    ensures Lost(s, size, c, gone) == Lost(Emptied(t), size, c, gone + t.buf)
    ensures After(s, size, c, gone) == After(Emptied(t), size, c, gone + t.buf)
  {
    FilledPlace(s, size);
    CutMore(PlaceOf(s), size, |Line(c)| - |gone|, |t.buf|, t.cuts);
  }

  lemma CutMore(p: Place, size: nat, l: nat, b: nat, cuts: seq<nat>)
    requires FilledAt(p, size) == Place(b, cuts) && 0 < b < l
    ensures CutOf(p, size, l).lost == b + CutOf(Place(0, cuts), size, l - b).lost
    ensures CutOf(p, size, l).after == CutOf(Place(0, cuts), size, l - b).after
  {
  }

  // ---------------------------------------------------------------- a chunk's data

  lemma SplitAt(a: Text, b: Text, c: Text, d: Text)
    requires a + b == c + d && |a| == |c|
    ensures a == c && b == d
  {
    assert a == (a + b)[..|a|] && c == (c + d)[..|c|];
    assert b == (a + b)[|a|..] && d == (c + d)[|c|..];
  }

  /** n bytes, two more, and the rest, wherever the buffer ends. */
  lemma DataMatches(s: Stream, n: nat, data: Text, end: Text, rest: Text)
    requires StreamOk(s) && |data| == n && |end| == 2 && s.buf + s.wire == (data + end) + rest
    ensures var r := DataRun(s, n);
      r.Taken? && r.data == data && r.rest.buf + r.rest.wire == rest && PlaceOf(r.rest) == AfterData(PlaceOf(s), n + 2)
  {
    assert |s.buf + s.wire| == |(data + end) + rest|;
    if n + 2 <= |s.buf| {
      var all := s.buf + s.wire;
      assert s.buf[..n] == all[..n] == data;
      assert s.buf[n + 2..] + s.wire == all[n + 2..] == rest;
    } else {
      var m := n + 2 - |s.buf|;
      assert (s.buf + s.wire[..m]) + s.wire[m..] == s.buf + s.wire;
      SplitAt(s.buf + s.wire[..m], s.wire[m..], data + end, rest);
      assert (data + end)[..n] == data;
      assert [] + s.wire[m..] == s.wire[m..];
    }
  }

  // ---------------------------------------------------------------- one chunk

  /** What follows chunk 0's size line, and what follows its data. */
  function AfterLine(cs: seq<Chunk>, extra: Text): Text
    requires cs != []
  {
    (cs[0].data + CrLf()) + (Frames(cs[1..]) + extra)
  }

  lemma FramesFirst(s: Stream, cs: seq<Chunk>, extra: Text)
    requires cs != [] && ChunkOk(cs[0]) && StreamOk(s) && s.buf + s.wire == Frames(cs) + extra
    ensures AtLine(s, cs[0], [], AfterLine(cs, extra))
  {
    FramesSplit(Line(cs[0]), cs[0].data + CrLf(), Frames(cs[1..]), extra);
    assert [] < Line(cs[0]);
  }

  lemma FramesSplit(a: Text, b: Text, c: Text, d: Text)
    ensures (a + b + c) + d == a[0..] + (b + (c + d))
  {
  }

  /** The size taken for the first chunk. */
  lemma FirstSize(s: Stream, size: nat, cs: seq<Chunk>, extra: Text)
    requires size > 0 && cs != [] && ChunkOk(cs[0]) && StreamOk(s) && s.buf + s.wire == Frames(cs) + extra
    ensures var cut := CutOf(PlaceOf(s), size, |Line(cs[0])|);
      SizeIs(SizeRun(s, size), cs[0], cut.lost, (cs[0].data + CrLf()) + (Frames(cs[1..]) + extra), cut.after)
  {
    FramesFirst(s, cs, extra);
    SizeMatches(s, size, cs[0], [], AfterLine(cs, extra));
  }

  lemma MessageTail(cs: seq<Chunk>)
    requires Message(cs)
    ensures ChunkOk(cs[0]) && (cs[0].data == [] <==> |cs| == 1) && (|cs| > 1 ==> Message(cs[1..]))
  {
    var t := cs[1..];
    assert forall i :: 0 <= i < |t| ==> t[i] == cs[i + 1];
  }

  /** A line that keeps its number: the chunk is taken as it is. */
  lemma ChunkTaken(s: Stream, size: nat, cs: seq<Chunk>, extra: Text, cut: Cut) returns (u: Stream)
    requires size > 0 && Message(cs) && StreamOk(s) && s.buf + s.wire == Frames(cs) + extra
    requires cut == CutOf(PlaceOf(s), size, |Line(cs[0])|) && !Spoils(cs[0], cut.lost)
    ensures StreamOk(u) && u.buf + u.wire == Frames(cs[1..]) + extra
    ensures PlaceOf(u) == AfterData(cut.after, |cs[0].data| + 2)
    ensures BodyRun(s, size) == if |cs| == 1 then Body(cs[0].data, u) else Prepend(cs[0].data, BodyRun(u, size))
  {
    MessageTail(cs);
    FirstSize(s, size, cs, extra);
    SpellsOne(cs[0].digits[cut.lost..], SizeRun(s, size).n, |cs[0].data|);
    var t := SizeRun(s, size).rest;
    DataMatches(t, |cs[0].data|, cs[0].data, CrLf(), Frames(cs[1..]) + extra);
    u := DataRun(t, |cs[0].data|).rest;
  }

  /** If no size line is spoilt the body is right, whatever the data. */
  lemma {:induction false} CleanIsRight(s: Stream, size: nat, cs: seq<Chunk>, extra: Text)
    requires size > 0 && Message(cs) && StreamOk(s) && s.buf + s.wire == Frames(cs) + extra
    requires Clean(PlaceOf(s), size, cs)
    ensures Right(BodyRun(s, size), cs, extra)
    decreases |cs|
  {
    var u := ChunkTaken(s, size, cs, extra, CutOf(PlaceOf(s), size, |Line(cs[0])|));
    MessageTail(cs);
    if |cs| == 1 {
      assert Frames(cs[1..]) + extra == extra && cs[0].data + Data(cs[1..]) == cs[0].data;
    } else {
      CleanIsRight(u, size, cs[1..], extra);
    }
  }

  // ---------------------------------------------------------------- a spoilt line

  /** Losing leading digits loses a multiple of 16. */
  lemma {:induction false} NumberSplits(a: Text, b: Text) returns (k: nat)
    requires b != []
    ensures Number(a + b) == Number(b) + 16 * k
    decreases |b|
  {
    var n := |b| - 1;
    assert (a + b)[..|a| + n] == a + b[..n] && (a + b)[|a| + n] == b[n];
    if n == 0 {
      assert a + b[..n] == a && b[..n] == [];
      k := Number(a);
    } else {
      var j := NumberSplits(a, b[..n]);
      k := 16 * j;
    }
  }

  lemma LostDigits(c: Chunk, lost: nat, n: nat)
    requires ChunkOk(c) && lost < |c.digits| && Spells(c.digits[lost..], n) && !Spells(c.digits[lost..], |c.data|)
    ensures n + 16 <= |c.data|
  {
    ChunkDigits(c);
    SpellsIff(c.digits[lost..], n);
    LostNumber(c.digits, c.digits[..lost], c.digits[lost..]);
  }

  lemma LostNumber(s: Text, a: Text, b: Text)
    requires s == a + b && b != []
    ensures Number(b) == Number(s) || Number(b) + 16 <= Number(s)
  {
    var k := NumberSplits(a, b);
  }

  predicate NoHex(s: Text) { forall i :: 0 <= i < |s| ==> !IsHex(s[i]) }

  /** A smaller size was taken: what follows it is data, on which the parser fails. */
  lemma Derails(s: Stream, size: nat, data: Text, n: nat, rest: Text)
    requires size > 0 && StreamOk(s) && s.buf + s.wire == (data + CrLf()) + rest && n + 2 < |data| && NoHex(data)
    ensures var r := DataRun(s, n); r.Taken? && r.data == data[..n] && BodyRun(r.rest, size) == Closed
  {
    var after := data[n + 2..] + (CrLf() + rest);
    assert (data + CrLf()) + rest == (data[..n] + data[n..n + 2]) + after;
    DataMatches(s, n, data[..n], data[n..n + 2], after);
    Stuck(DataRun(s, n).rest, size, after);
  }

  lemma Stuck(u: Stream, size: nat, text: Text)
    requires size > 0 && StreamOk(u) && u.buf + u.wire == text && text != [] && !IsHex(text[0])
    ensures BodyRun(u, size) == Closed
  {
    var t := Filled(u, size);
    assert t.buf + t.wire == text;
    assert |t.buf + t.wire| > 0;
    assert t.buf[0] == (t.buf + t.wire)[0];
    NoDigitFirst(t.buf);
    SizeUnfolds(u, size, t);
  }

  /** The run ended early, or with a closed connection. */
  predicate CutShort(o: Outcome) { o == Closed || (o.Body? && o.body == []) }

  lemma TooSmall(s: Stream, size: nat, t: Stream, n: nat, data: Text, rest: Text)
    requires size > 0 && StreamOk(s) && SizeRun(s, size) == Sized(n, t)
    requires t.buf + t.wire == (data + CrLf()) + rest && n + 16 <= |data| && NoHex(data)
    ensures CutShort(BodyRun(s, size))
  {
    Derails(t, size, data, n, rest);
  }

  /** A spoilt size line cuts the run short, provided the data cannot be taken for a size
      line. */
  lemma SpoiltIsWrong(s: Stream, size: nat, cs: seq<Chunk>, extra: Text)
    requires size > 0 && Message(cs) && StreamOk(s) && s.buf + s.wire == Frames(cs) + extra
    requires NoHex(cs[0].data) && Spoils(cs[0], CutOf(PlaceOf(s), size, |Line(cs[0])|).lost)
    ensures CutShort(BodyRun(s, size)) && (cs[0].data == [] ==> BodyRun(s, size) == Closed)
  {
    var cut := CutOf(PlaceOf(s), size, |Line(cs[0])|);
    FirstSize(s, size, cs, extra);
    SpoiltRun(s, size, cs[0], cut.lost, Frames(cs[1..]) + extra, cut.after);
  }

  lemma SpoiltRun(s: Stream, size: nat, c: Chunk, lost: nat, rest: Text, after: Place)
    requires size > 0 && StreamOk(s) && ChunkOk(c) && NoHex(c.data) && Spoils(c, lost)
    requires SizeIs(SizeRun(s, size), c, lost, (c.data + CrLf()) + rest, after)
    ensures CutShort(BodyRun(s, size)) && (c.data == [] ==> BodyRun(s, size) == Closed)
  {
    if lost < |c.digits| {
      var r := SizeRun(s, size);
      LostDigits(c, lost, r.n);
      TooSmall(s, size, r.rest, r.n, c.data, rest);
    }
  }

  lemma ShortIsWrong(o: Outcome, cs: seq<Chunk>, extra: Text)
    requires cs != [] && CutShort(o) && (cs[0].data == [] ==> o == Closed)
    ensures !Right(o, cs, extra)
  {
  }

  predicate NoHexData(cs: seq<Chunk>) { forall i :: 0 <= i < |cs| ==> NoHex(cs[i].data) }

  /** For messages whose data holds no hexadecimal digit: the body is right if and only if no
      size line is spoilt. */
  lemma {:induction false} RightIffClean(s: Stream, size: nat, cs: seq<Chunk>, extra: Text)
    requires size > 0 && Message(cs) && StreamOk(s) && s.buf + s.wire == Frames(cs) + extra && NoHexData(cs)
    ensures Right(BodyRun(s, size), cs, extra) <==> Clean(PlaceOf(s), size, cs)
    decreases |cs|
  {
    var cut := CutOf(PlaceOf(s), size, |Line(cs[0])|);
    MessageTail(cs);
    if Clean(PlaceOf(s), size, cs) {
      CleanIsRight(s, size, cs, extra);
    } else if Spoils(cs[0], cut.lost) {
      SpoiltIsWrong(s, size, cs, extra);
      ShortIsWrong(BodyRun(s, size), cs, extra);
    } else {
      var u := ChunkTaken(s, size, cs, extra, cut);
      if |cs| > 1 {
        RightIffClean(u, size, cs[1..], extra);
        PrependRight(cs, BodyRun(u, size), extra);
      }
    }
  }

  lemma PrependRight(cs: seq<Chunk>, o: Outcome, extra: Text)
    requires cs != []
    ensures Right(Prepend(cs[0].data, o), cs, extra) ==> Right(o, cs[1..], extra)
  {
    if Right(Prepend(cs[0].data, o), cs, extra) { SplitAt(cs[0].data, o.body, cs[0].data, Data(cs[1..])); }
  }

  // ---------------------------------------------------------------- whatever the data

  /** The same sizes, written the same way. */
  predicate Alike(cs: seq<Chunk>, ds: seq<Chunk>) {
    |cs| == |ds| && forall i :: 0 <= i < |cs| ==> cs[i].digits == ds[i].digits && |cs[i].data| == |ds[i].data|
  }

  lemma {:induction false} CleanAlike(p: Place, size: nat, cs: seq<Chunk>, ds: seq<Chunk>)
    requires Alike(cs, ds)
    ensures Clean(p, size, cs) == Clean(p, size, ds)
    decreases |cs|
  {
    if cs != [] {
      var cut := CutOf(p, size, |Line(cs[0])|);
      assert forall i :: 0 <= i < |cs[1..]| ==> cs[1..][i] == cs[i + 1] && ds[1..][i] == ds[i + 1];
      CleanAlike(AfterData(cut.after, |cs[0].data| + 2), size, cs[1..], ds[1..]);
    }
  }

  lemma {:induction false} FramesLength(cs: seq<Chunk>, ds: seq<Chunk>)
    requires Alike(cs, ds)
    ensures |Frames(cs)| == |Frames(ds)|
    decreases |cs|
  {
    if cs != [] {
      assert forall i :: 0 <= i < |cs[1..]| ==> cs[1..][i] == cs[i + 1] && ds[1..][i] == ds[i + 1];
      FramesLength(cs[1..], ds[1..]);
    }
  }

  /** The body is right for every message with these sizes that arrives in these pieces. */
  ghost predicate AlwaysRight(p: Place, size: nat, cs: seq<Chunk>)
    requires size > 0
  {
    forall ds: seq<Chunk>, s: Stream, extra: Text ::
      Alike(ds, cs) && Message(ds) && StreamOk(s) && PlaceOf(s) == p && s.buf + s.wire == Frames(ds) + extra ==>
        Right(BodyRun(s, size), ds, extra)
  }

  function Zeros(n: nat): Text { seq(n, _ => 0) }

  function Blank(c: Chunk): Chunk { Chunk(c.digits, Zeros(|c.data|)) }

  function Blanked(cs: seq<Chunk>): (ds: seq<Chunk>)
    ensures |ds| == |cs| && forall i :: 0 <= i < |cs| ==> ds[i] == Blank(cs[i])
  {
    seq(|cs|, i requires 0 <= i < |cs| => Blank(cs[i]))
  }

  lemma BlankedMessage(cs: seq<Chunk>)
    requires Message(cs)
    ensures Message(Blanked(cs)) && Alike(Blanked(cs), cs) && NoHexData(Blanked(cs))
  {
    var ds := Blanked(cs);
    forall i | 0 <= i < |ds| ensures ChunkOk(ds[i]) && (ds[i].data == [] <==> i == |ds| - 1) { assert ChunkOk(cs[i]); }
  }

  /** The body is right whatever the data, if and only if no size line is cut so that a digit
      that counts is lost. */
  lemma AlwaysRightIffClean(p: Place, size: nat, cs: seq<Chunk>)
    requires size > 0 && Message(cs) && CutsOk(p.cuts) && p.b + Sum(p.cuts) >= |Frames(cs)|
    ensures AlwaysRight(p, size, cs) <==> Clean(p, size, cs)
  {
    if Clean(p, size, cs) {
      forall ds: seq<Chunk>, s: Stream, extra: Text |
        Alike(ds, cs) && Message(ds) && StreamOk(s) && PlaceOf(s) == p && s.buf + s.wire == Frames(ds) + extra
        ensures Right(BodyRun(s, size), ds, extra)
      {
        CleanAlike(p, size, ds, cs);
        CleanIsRight(s, size, ds, extra);
      }
    } else {
      BlankWrong(p, size, cs);
    }
  }

  lemma BlankWrong(p: Place, size: nat, cs: seq<Chunk>)
    requires size > 0 && Message(cs) && CutsOk(p.cuts) && p.b + Sum(p.cuts) >= |Frames(cs)| && !Clean(p, size, cs)
    ensures !AlwaysRight(p, size, cs)
  {
    var ds := Blanked(cs);
    BlankedMessage(cs);
    FramesLength(ds, cs);
    CleanAlike(p, size, ds, cs);
    var extra := Zeros(p.b + Sum(p.cuts) - |Frames(ds)|);
    var s := Placed(p, Frames(ds) + extra);
    RightIffClean(s, size, ds, extra);
  }

  /** A text laid out at a place. */
  function Placed(p: Place, text: Text): (s: Stream)
    requires CutsOk(p.cuts) && p.b + Sum(p.cuts) == |text|
    ensures StreamOk(s) && PlaceOf(s) == p && s.buf + s.wire == text
  {
    Stream(text[..p.b], text[p.b..], p.cuts)
  }

  // ---------------------------------------------------------------- two cases

  /** A size line that is buffered whole when it is first parsed loses nothing. */
  predicate WholeLines(p: Place, size: nat, cs: seq<Chunk>)
    decreases |cs|
  {
    cs == [] ||
    (var cut := CutOf(p, size, |Line(cs[0])|);
     cut.lost == 0 && WholeLines(AfterData(cut.after, |cs[0].data| + 2), size, cs[1..]))
  }

  /** If every size line is fully buffered when it is first parsed, the body is right. */
  lemma {:induction false} WholeLinesClean(p: Place, size: nat, cs: seq<Chunk>)
    requires WholeLines(p, size, cs) && forall i :: 0 <= i < |cs| ==> ChunkOk(cs[i])
    ensures Clean(p, size, cs)
    decreases |cs|
  {
    if cs != [] {
      var cut := CutOf(p, size, |Line(cs[0])|);
      assert cs[0].digits[0..] == cs[0].digits;
      assert forall i :: 0 <= i < |cs[1..]| ==> cs[1..][i] == cs[i + 1];
      WholeLinesClean(AfterData(cut.after, |cs[0].data| + 2), size, cs[1..]);
    }
  }

  /** In particular if the whole message is buffered. */
  lemma {:induction false} BufferedClean(p: Place, size: nat, cs: seq<Chunk>)
    requires p.b >= |Frames(cs)|
    ensures WholeLines(p, size, cs)
    decreases |cs|
  {
    if cs != [] {
      var cut := CutOf(p, size, |Line(cs[0])|);
      assert |Frames(cs)| == |Line(cs[0])| + |cs[0].data| + 2 + |Frames(cs[1..])|;
      BufferedClean(AfterData(cut.after, |cs[0].data| + 2), size, cs[1..]);
    }
  }

  /** The 16 bytes of one chunk, whose size line 10 arrives as 1 and then 0. */
  function CutStream(data: Text): Stream {
    var text := Frames([Chunk([49, 48], data), Chunk([48], [])]);
    Stream([], text, [1, |text| - 1])
  }

  /** A run with a wrong body: the second piece is taken for the size 0, and the body ends
      before it has begun. */
  lemma CutEndsBody(data: Text, size: nat)
    requires |data| == 16 && size >= 3
    ensures StreamOk(CutStream(data))
    ensures BodyRun(CutStream(data), size).Body? && BodyRun(CutStream(data), size).body == []
  {
    var s := CutStream(data);
    var t := CutSize(data, size);
    ZeroEnds(s, size, t);
  }

  /** The second piece is parsed as the size 0. */
  lemma CutSize(data: Text, size: nat) returns (t: Stream)
    requires |data| == 16 && size >= 3
    ensures StreamOk(CutStream(data)) && SizeRun(CutStream(data), size) == Sized(0, t) && |t.buf| + |t.wire| >= 2
  {
    var c, s := Chunk([49, 48], data), CutStream(data);
    var cs := [c, Chunk([48], [])];
    TenOk(data);
    SumTwo(1, |s.wire| - 1);
    assert s.buf + s.wire == Frames(cs) + [] by { assert Frames(cs) + [] == Frames(cs); }
    CutAfterOne(s.cuts, size);
    FirstSize(s, size, cs, []);
    t := CutTaken(s, size, c, (data + CrLf()) + (Frames(cs[1..]) + []));
  }

  lemma CutTaken(s: Stream, size: nat, c: Chunk, after: Text) returns (t: Stream)
    requires size > 0 && StreamOk(s) && c.digits == [49, 48] && |after| >= 2
    requires CutOf(PlaceOf(s), size, |Line(c)|).lost == 1
    requires SizeIs(SizeRun(s, size), c, 1, after, CutOf(PlaceOf(s), size, |Line(c)|).after)
    ensures SizeRun(s, size) == Sized(0, t) && |t.buf| + |t.wire| >= 2
  {
    t := SizeRun(s, size).rest;
    assert c.digits[1..] == [48] && [48][..0] == [];
    SpellsIff([48], SizeRun(s, size).n);
    assert |t.buf + t.wire| == |after|;
  }

  /** Size 0 ends the body. */
  lemma ZeroEnds(s: Stream, size: nat, t: Stream)
    requires size > 0 && StreamOk(s) && SizeRun(s, size) == Sized(0, t) && |t.buf| + |t.wire| >= 2
    ensures BodyRun(s, size).Body? && BodyRun(s, size).body == []
  {
    assert DataRun(t, 0).Taken? && |DataRun(t, 0).data| == 0;
  }

  lemma SumTwo(a: nat, b: nat)
    ensures Sum([a, b]) == a + b
  {
    assert [a, b][1..] == [b] && [b][1..] == [];
    assert Sum([b]) == b;
  }

  lemma TenOk(data: Text)
    requires |data| == 16
    ensures ChunkOk(Chunk([49, 48], data)) && Number([48]) == 0
  {
    assert [49, 48][..1] == [49] && [49][..0] == [] && [48][..0] == [];
    assert Number([49]) == 1;
    assert Number([49, 48]) == 16;
    ChunkDigits(Chunk([49, 48], data));
  }

  lemma CutAfterOne(cuts: seq<nat>, size: nat)
    requires |cuts| == 2 && cuts[0] == 1 && cuts[1] >= 3 && size >= 3
    ensures CutOf(Place(0, cuts), size, 4).lost == 1
  {
    var q := FilledAt(Place(0, cuts), size);
    assert Drop(cuts[1..], 0) == [cuts[1]];
    assert q == Place(1, [cuts[1]]);
    CutMore(Place(0, cuts), size, 4, 1, [cuts[1]]);
  }
}
