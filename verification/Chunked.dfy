/**
  Reassembly of a chunked body: the chunked branch of HttpConnection::recvResponse
  (sylar/http/http_connection.cpp; section 4.1 of RFC 7230, without extensions and
  trailers), for every way the stream arrives in pieces.
 */
module Chunked {
  import opened Basics
  import opened Blocks
  import opened Percent

  type Text = seq<Byte>

  const CR: Byte := 13
  const LF: Byte := 10

  function CrLf(): Text { [CR, LF] }

  // ---------------------------------------------------------------- size lines

  function Number(digits: Text): nat {
    if digits == [] then 0 else Number(digits[..|digits| - 1]) * 16 + HexValue(digits[|digits| - 1])
  }

  /** The first position from i on that holds no hexadecimal digit. */
  function DigitsEnd(buf: Text, i: nat): (r: nat)
    requires i <= |buf|
    ensures i <= r <= |buf|
    decreases |buf| - i
  {
    if i < |buf| && IsHex(buf[i]) then DigitsEnd(buf, i + 1) else i
  }

  /** The parser on the start of the buffer: a whole size line, part of one, or neither. It
      starts over at every call. */
  datatype SizeLine = Whole(size: nat, used: nat) | Part | Malformed

  function ParseSize(buf: Text): (r: SizeLine)
    ensures r.Whole? ==> 0 < r.used <= |buf|
  {
    var d := DigitsEnd(buf, 0);
    if d == |buf| then Part
    else if d == 0 then Malformed
    else if buf[d] == LF then Whole(Number(buf[..d]), d + 1)
    else if buf[d] != CR then Malformed
    else if d + 1 == |buf| then Part
    else if buf[d + 1] == LF then Whole(Number(buf[..d]), d + 2)
    else Malformed
  }

  // ---------------------------------------------------------------- the stream

  /** Bytes in the buffer, bytes to come, and the sizes of the pieces in which they come. */
  datatype Stream = Stream(buf: Text, wire: Text, cuts: seq<nat>)

  function Sum(cuts: seq<nat>): nat {
    if cuts == [] then 0 else cuts[0] + Sum(cuts[1..])
  }

  predicate CutsOk(cuts: seq<nat>) { forall i :: 0 <= i < |cuts| ==> cuts[i] > 0 }

  predicate StreamOk(s: Stream) { CutsOk(s.cuts) && Sum(s.cuts) == |s.wire| }

  /** How much one read of up to n bytes delivers. */
  function Grab(cuts: seq<nat>, n: nat): (k: nat)
    ensures k <= n && (cuts != [] ==> k <= cuts[0])
  {
    if cuts == [] then 0 else if cuts[0] <= n then cuts[0] else n
  }

  /** The pieces left when m bytes have been delivered. */
  function Drop(cuts: seq<nat>, m: nat): seq<nat> {
    if m == 0 || cuts == [] then cuts
    else if cuts[0] <= m then Drop(cuts[1..], m - cuts[0])
    else [cuts[0] - m] + cuts[1..]
  }

  lemma {:induction false} DropOk(cuts: seq<nat>, m: nat)
    requires CutsOk(cuts) && m <= Sum(cuts)
    ensures CutsOk(Drop(cuts, m)) && Sum(Drop(cuts, m)) == Sum(cuts) - m
  {
    if m > 0 && cuts != [] {
      if cuts[0] <= m {
        DropOk(cuts[1..], m - cuts[0]);
      } else {
        var r := [cuts[0] - m] + cuts[1..];
        assert r[1..] == cuts[1..];
      }
    }
  }

  lemma {:induction false} DropTwice(cuts: seq<nat>, a: nat, b: nat)
    requires CutsOk(cuts) && a + b <= Sum(cuts)
    ensures Drop(Drop(cuts, a), b) == Drop(cuts, a + b)
    decreases |cuts|
  {
    if a > 0 && cuts != [] {
      if cuts[0] <= a {
        DropTwice(cuts[1..], a - cuts[0], b);
      } else {
        var r := [cuts[0] - a] + cuts[1..];
        assert r[1..] == cuts[1..];
      }
    }
  }

  lemma GrabOk(cuts: seq<nat>, n: nat)
    requires CutsOk(cuts)
    ensures Grab(cuts, n) <= Sum(cuts) && (n > 0 && cuts != [] ==> Grab(cuts, n) > 0)
    ensures Sum(cuts) > 0 <==> cuts != []
  {
  }

  // ---------------------------------------------------------------- what the code computes

  /** A read into the empty buffer. */
  function Filled(s: Stream, size: nat): (r: Stream)
    requires StreamOk(s)
    ensures StreamOk(r) && r.buf + r.wire == s.buf + s.wire
    ensures size > 0 && r.buf == [] ==> s.buf == [] && s.wire == []
  {
    if s.buf != [] then s
    else
      var k := Grab(s.cuts, size);
      GrabOk(s.cuts, size);
      DropOk(s.cuts, k);
      Stream(s.wire[..k], s.wire[k..], Drop(s.cuts, k))
  }

  datatype Sized = Sized(n: nat, rest: Stream) | Broken

  /** The loop around the parser: read when nothing is buffered, parse, and start over while
      the line is not whole. */
  function SizeRun(s: Stream, size: nat): (r: Sized)
    requires StreamOk(s) && size > 0
    ensures r.Sized? ==> StreamOk(r.rest) && |r.rest.buf| + |r.rest.wire| < |s.buf| + |s.wire|
    decreases |s.buf| + |s.wire|
  {
    var t := Filled(s, size);
    if t.buf == [] then Broken
    else
      match ParseSize(t.buf)
      case Whole(n, used) => assert |t.buf + t.wire| == |s.buf + s.wire|; Sized(n, t.(buf := t.buf[used..]))
      case Part => assert |t.buf + t.wire| == |s.buf + s.wire|; SizeRun(t.(buf := []), size)
      case Malformed => Broken
  }

  datatype Taken = Taken(data: Text, rest: Stream) | Short

  /** n bytes of data and the two after them. */
  function DataRun(s: Stream, n: nat): (r: Taken)
    requires StreamOk(s)
    ensures r.Taken? ==> StreamOk(r.rest) && |r.rest.buf| + |r.rest.wire| + n + 2 == |s.buf| + |s.wire|
  {
    if n + 2 <= |s.buf| then Taken(s.buf[..n], s.(buf := s.buf[n + 2..]))
    else if n + 2 - |s.buf| <= |s.wire| then
      var m := n + 2 - |s.buf|;
      DropOk(s.cuts, m);
      Taken((s.buf + s.wire[..m])[..n], Stream([], s.wire[m..], Drop(s.cuts, m)))
    else Short
  }

  datatype Outcome = Body(body: Text, rest: Stream) | Closed

  function Prepend(data: Text, o: Outcome): Outcome {
    match o
    case Body(b, r) => Body(data + b, r)
    case Closed => Closed
  }

  /** The whole branch. */
  function BodyRun(s: Stream, size: nat): Outcome
    requires StreamOk(s) && size > 0
    decreases |s.buf| + |s.wire|
  {
    match SizeRun(s, size)
    case Broken => Closed
    case Sized(n, t) =>
      match DataRun(t, n)
      case Short => Closed
      case Taken(data, u) => if n == 0 then Body(data, u) else Prepend(data, BodyRun(u, size))
  }

  // ---------------------------------------------------------------- the loops

  class Socket {
    var wire: Text
    var cuts: seq<nat>

    constructor (bytes: Text, pieces: seq<nat>)
      requires CutsOk(pieces) && Sum(pieces) == |bytes|
      ensures wire == bytes && cuts == pieces && Valid()
    {
      wire, cuts := bytes, pieces;
    }

    ghost predicate Valid()
      reads this
    {
      CutsOk(cuts) && Sum(cuts) == |wire|
    }

    /** read: the next piece, or as much of it as is asked for. */
    method Read(n: nat) returns (d: Text)
      requires Valid()
      modifies this
      ensures Valid() && |d| == Grab(old(cuts), n) && cuts == Drop(old(cuts), |d|) && old(wire) == d + wire
    {
      GrabOk(cuts, n);
      var k := Grab(cuts, n);
      DropOk(cuts, k);
      d := wire[..k];
      wire := wire[k..];
      cuts := Drop(cuts, k);
    }
  }

  /** The loop around the parser. */
  method ReadSize(sock: Socket, size: nat, buf: Text) returns (line: SizeLine, now: Text)
    requires size > 0 && sock.Valid() && |buf| <= size
    modifies sock
    ensures sock.Valid() && !line.Part? && |now| <= size
    ensures SizeRun(Stream(buf, old(sock.wire), old(sock.cuts)), size)
      == if line.Whole? then Sized(line.size, Stream(now, sock.wire, sock.cuts)) else Broken
  {
    now := buf;
    line := Part;
    ghost var s := Stream(buf, sock.wire, sock.cuts);
    while line == Part
      invariant sock.Valid() && |now| <= size
      invariant line == Part ==> SizeRun(Stream(now, sock.wire, sock.cuts), size) == SizeRun(s, size)
      invariant line != Part ==>
        SizeRun(s, size) == if line.Whole? then Sized(line.size, Stream(now, sock.wire, sock.cuts)) else Broken
      decreases line == Part, |now| + |sock.wire|
    {
      if now == [] {
        ghost var before := Stream(now, sock.wire, sock.cuts);
        now := sock.Read(size);
        FillReads(before, size, now, sock.wire, sock.cuts);
        if now == [] { return Malformed, now; }
      }
      assert Filled(Stream(now, sock.wire, sock.cuts), size) == Stream(now, sock.wire, sock.cuts);
      line := ParseSize(now);
      if line.Whole? {
        now := now[line.used..];
      } else if line.Part? {
        now := [];
      }
      if |now| == size && !line.Malformed? { return Malformed, now; }
    }
  }

  /** Reading into the empty buffer is what SizeRun begins with. */
  lemma FillReads(s: Stream, size: nat, now: Text, wire: Text, cuts: seq<nat>)
    requires size > 0 && StreamOk(s) && s.buf == [] && |now| == Grab(s.cuts, size) && s.wire == now + wire
    requires cuts == Drop(s.cuts, |now|) && StreamOk(Stream(now, wire, cuts))
    ensures now == [] ==> SizeRun(s, size) == Broken
    ensures now != [] ==> SizeRun(s, size) == SizeRun(Stream(now, wire, cuts), size)
  {
    assert Filled(s, size) == Stream(now, wire, cuts);
  }

  /** The end of a chunk and its CRLF, when the buffer does not hold them. */
  method ReadRest(sock: Socket, size: nat, left: nat) returns (ok: bool, got: Text)
    requires size > 0 && sock.Valid()
    modifies sock
    ensures sock.Valid() && (ok <==> left <= |old(sock.wire)|)
    ensures ok ==> |got| == left && old(sock.wire) == got + sock.wire && sock.cuts == Drop(old(sock.cuts), left)
  {
    got := [];
    var more: nat := left;
    while more > 0
      invariant sock.Valid() && |got| == left - more && old(sock.wire) == got + sock.wire
      invariant sock.cuts == Drop(old(sock.cuts), |got|)
    {
      ghost var w, c := sock.wire, sock.cuts;
      GrabOk(c, if more > size then size else more);
      var d := sock.Read(if more > size then size else more);
      if d == [] { return false, got; }
      Shift(got, d, sock.wire, w, old(sock.wire));
      DropTwice(old(sock.cuts), |got|, |d|);
      got := got + d;
      more := more - |d|;
    }
    ok := true;
  }

  lemma Shift(a: Text, d: Text, w: Text, was: Text, all: Text)
    requires was == d + w && a + was == all
    ensures (a + d) + w == all
  {
  }

  method ReadData(sock: Socket, size: nat, buf: Text, n: nat) returns (ok: bool, data: Text, left: Text)
    requires size > 0 && sock.Valid() && |buf| <= size
    modifies sock
    ensures sock.Valid() && |left| <= size
    ensures DataRun(Stream(buf, old(sock.wire), old(sock.cuts)), n)
      == if ok then Taken(data, Stream(left, sock.wire, sock.cuts)) else Short
  {
    if n + 2 <= |buf| {
      ok, data, left := true, buf[..n], buf[n + 2..];
    } else {
      data, left := buf, [];
      var got;
      ok, got := ReadRest(sock, size, n + 2 - |buf|);
      if ok {
        data := data + got;
        data := data[..|data| - 2];
      }
    }
  }

  /** The chunked branch of recvResponse, given what is buffered when it begins. */
  method ReadChunked(sock: Socket, size: nat, buffered: Text) returns (r: Outcome)
    requires size > 0 && sock.Valid() && |buffered| <= size
    modifies sock
    ensures r == BodyRun(Stream(buffered, old(sock.wire), old(sock.cuts)), size)
    ensures r.Body? ==> r.rest == Stream(r.rest.buf, sock.wire, sock.cuts)
  {
    var body: Text := [];
    var left := buffered;
    ghost var s := Stream(buffered, sock.wire, sock.cuts);
    var done := false;
    PrependNone(BodyRun(s, size));
    while !done
      invariant sock.Valid() && |left| <= size
      invariant !done ==> Prepend(body, BodyRun(Stream(left, sock.wire, sock.cuts), size)) == BodyRun(s, size)
      invariant done ==> Body(body, Stream(left, sock.wire, sock.cuts)) == BodyRun(s, size)
      decreases !done, |left| + |sock.wire|
    {
      var line;
      line, left := ReadSize(sock, size, left);
      if line.Malformed? { return Closed; }
      var ok, data;
      ok, data, left := ReadData(sock, size, left, line.size);
      if !ok { return Closed; }
      PrependTwice(body, data, BodyRun(Stream(left, sock.wire, sock.cuts), size));
      body := body + data;
      done := line.size <= 0;
    }
    r := Body(body, Stream(left, sock.wire, sock.cuts));
  }

  lemma PrependNone(o: Outcome)
    ensures Prepend([], o) == o
  {
    if o.Body? { assert [] + o.body == o.body; }
  }

  lemma PrependTwice(a: Text, b: Text, o: Outcome)
    ensures Prepend(a, Prepend(b, o)) == Prepend(a + b, o)
  {
    if o.Body? { assert a + (b + o.body) == (a + b) + o.body; }
  }
}
