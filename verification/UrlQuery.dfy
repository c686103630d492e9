/**
  Percent-encoding (StringUtil::UrlEncode and UrlDecode in sylar/util.cpp; section 2.1 of
  RFC 3986). The per-character map is the specification; the methods are the source's loops,
  which copy nothing until the first character that changes.
 */
module Percent {
  import opened Basics
  import opened Blocks

  const PLUS: Byte := 43
  const SPACE: Byte := 32
  const PERCENT: Byte := 37

  /** uri_chars: letters, digits and - . = _ ~ */
  predicate Unreserved(c: Byte) {
    c == 45 || c == 46 || 48 <= c <= 57 || c == 61 || 65 <= c <= 90 || c == 95 || 97 <= c <= 122 || c == 126
  }

  function HexDigit(d: nat): Byte
    requires d < 16
  {
    if d < 10 then 48 + d else 55 + d
  }

  predicate IsHex(c: Byte) { 48 <= c <= 57 || 65 <= c <= 70 || 97 <= c <= 102 }

  /** xdigit_chars. */
  function HexValue(c: Byte): (d: nat)
    ensures d < 16
  {
    if 48 <= c <= 57 then c - 48 else if 65 <= c <= 70 then c - 55 else if 97 <= c <= 102 then c - 87 else 0
  }

  function EncodeChar(c: Byte, plus: bool): (r: seq<Byte>)
    ensures |r| > 0
  {
    if Unreserved(c) then [c]
    else if c == SPACE && plus then [PLUS]
    else [PERCENT, HexDigit(c / 16), HexDigit(c % 16)]
  }

  function Encode(s: seq<Byte>, plus: bool): seq<Byte> {
    if s == [] then [] else EncodeChar(s[0], plus) + Encode(s[1..], plus)
  }

  /** An escape starts here. */
  predicate Escape(s: seq<Byte>) {
    |s| > 2 && s[0] == PERCENT && IsHex(s[1]) && IsHex(s[2])
  }

  function Decode(s: seq<Byte>, plus: bool): seq<Byte> {
    if s == [] then []
    else if s[0] == PLUS && plus then [SPACE] + Decode(s[1..], plus)
    else if Escape(s) then [HexValue(s[1]) * 16 + HexValue(s[2])] + Decode(s[3..], plus)
    else [s[0]] + Decode(s[1..], plus)
  }

  // ---------------------------------------------------------------- the characters meant

  const UPPER_HEX: string := "0123456789ABCDEF"
  const LOWER_HEX: string := "0123456789abcdef"

  /** The character c is the hexadecimal digit d, in either case. */
  predicate DigitIs(c: Byte, d: nat) {
    d < 16 && (c == UPPER_HEX[d] as int || c == LOWER_HEX[d] as int)
  }

  lemma HexValueIff(c: Byte, d: nat)
    ensures IsHex(c) && HexValue(c) == d <==> DigitIs(c, d)
  {
    if d < 8 { LowDigits(d); } else if d < 16 { HighDigits(d); }
  }

  lemma LowDigits(d: nat)
    requires d < 8
    ensures UPPER_HEX[d] as int == LOWER_HEX[d] as int == 48 + d
  {
  }

  lemma HighDigits(d: nat)
    requires 8 <= d < 16
    ensures UPPER_HEX[d] as int == if d < 10 then 48 + d else 55 + d
    ensures LOWER_HEX[d] as int == if d < 10 then 48 + d else 87 + d
  {
  }

  lemma HexDigitIs(d: nat)
    requires d < 16
    ensures HexDigit(d) == UPPER_HEX[d] as int
  {
    if d < 8 { LowDigits(d); } else { HighDigits(d); }
  }

  /** Letters, digits and five marks stay as they are. */
  predicate Kept(c: char) {
    'a' <= c <= 'z' || 'A' <= c <= 'Z' || '0' <= c <= '9' || c == '-' || c == '.' || c == '_' || c == '~' || c == '='
  }

  /** The text of one byte: itself, a plus for a space if asked for, or a percent sign and two
      upper-case digits. */
  lemma EncodeCharIs(c: Byte, plus: bool)
    ensures EncodeChar(c, plus)
      == if Kept(c as char) then [c]
         else if c == ' ' as int && plus then ['+' as int]
         else ['%' as int, UPPER_HEX[c / 16] as int, UPPER_HEX[c % 16] as int]
  {
    HexDigitIs(c / 16);
    HexDigitIs(c % 16);
  }

  ghost predicate AnyDigit(c: Byte) { exists d :: DigitIs(c, d) }

  lemma IsHexIff(c: Byte)
    ensures IsHex(c) <==> AnyDigit(c)
  {
    if IsHex(c) { HexValueIff(c, HexValue(c)); }
    if d :| DigitIs(c, d) { HexValueIff(c, d); }
  }

  /** A percent sign with two digits after it stands at i. */
  ghost predicate Escapes(s: seq<Byte>, i: nat) {
    i + 2 < |s| && s[i] == '%' as int && AnyDigit(s[i + 1]) && AnyDigit(s[i + 2])
  }

  lemma EscapeIff(s: seq<Byte>)
    ensures Escapes(s, 0) <==> Escape(s)
  {
    if |s| > 2 {
      IsHexIff(s[1]);
      IsHexIff(s[2]);
    }
  }

  /** An escape is the byte its two digits name, in either case. */
  lemma DecodeEscape(s: seq<Byte>, plus: bool, h: nat, l: nat)
    requires |s| > 2 && s[0] == '%' as int && DigitIs(s[1], h) && DigitIs(s[2], l)
    ensures 16 * h + l < 256 && Decode(s, plus) == [16 * h + l] + Decode(s[3..], plus)
  {
    HexValueIff(s[1], h);
    HexValueIff(s[2], l);
  }

  /** Any other byte stays, a percent sign without two digits after it included; but a plus
      may mean a space. */
  lemma DecodeOther(s: seq<Byte>, plus: bool)
    requires s != [] && !Escapes(s, 0)
    ensures Decode(s, plus) == [if plus && s[0] == '+' as int then ' ' as int else s[0]] + Decode(s[1..], plus)
  {
    EscapeIff(s);
  }

  /** A text without a whole escape, and without a plus that means a space, is not changed. */
  lemma {:induction false} DecodePlain(s: seq<Byte>, plus: bool)
    requires forall i: nat :: i < |s| ==> !Escapes(s, i) && !(plus && s[i] == '+' as int)
    ensures Decode(s, plus) == s
  {
    if s != [] {
      var t := s[1..];
      forall i: nat | i < |t| ensures !Escapes(t, i) && !(plus && t[i] == '+' as int) {
        assert !Escapes(s, i + 1) && t[i] == s[i + 1];
      }
      DecodePlain(t, plus);
      assert !Escapes(s, 0);
      DecodeOther(s, plus);
    }
  }

  lemma DecodeOne(c: Byte, plus: bool, rest: seq<Byte>)
    ensures Decode(EncodeChar(c, plus) + rest, plus) == [c] + Decode(rest, plus)
  {
    var s := EncodeChar(c, plus) + rest;
    assert s[|EncodeChar(c, plus)|..] == rest;
  }

  /** Decoding undoes encoding, for every byte string and either treatment of spaces. */
  lemma {:induction false} RoundTrip(s: seq<Byte>, plus: bool)
    ensures Decode(Encode(s, plus), plus) == s
  {
    if s != [] {
      RoundTrip(s[1..], plus);
      DecodeOne(s[0], plus, Encode(s[1..], plus));
    }
  }

  /** Encoded text holds unreserved characters, percent signs and plus signs only. */
  lemma {:induction false} EncodedAlphabet(s: seq<Byte>, plus: bool)
    ensures forall i :: 0 <= i < |Encode(s, plus)| ==>
      var c := Encode(s, plus)[i]; Unreserved(c) || c == PERCENT || (plus && c == PLUS)
  {
    if s != [] { EncodedAlphabet(s[1..], plus); }
  }

  lemma {:induction false} EncodeSnoc(s: seq<Byte>, i: nat, plus: bool)
    requires i < |s|
    ensures Encode(s[..i + 1], plus) == Encode(s[..i], plus) + EncodeChar(s[i], plus)
  {
    var t := s[1..];
    assert s[..i + 1][1..] == t[..i];
    if i > 0 {
      assert s[..i][1..] == t[..i - 1];
      EncodeSnoc(t, i - 1, plus);
    }
  }

  /** What has been produced so far: nothing was copied while nothing changed. */
  function SoFar(s: seq<Byte>, i: nat, ss: Option<seq<Byte>>): seq<Byte>
    requires i <= |s|
  {
    if ss.Some? then ss.value else s[..i]
  }

  method UrlEncode(s: seq<Byte>, plus: bool) returns (r: seq<Byte>)
    ensures r == Encode(s, plus)
  {
    var ss: Option<seq<Byte>> := None;
    var i: nat := 0;
    while i < |s|
      invariant i <= |s| && SoFar(s, i, ss) == Encode(s[..i], plus)
    {
      EncodeSnoc(s, i, plus);
      var c := s[i];
      if !Unreserved(c) {
        if ss.None? { ss := Some(s[..i]); }
        if c == SPACE && plus {
          ss := Some(ss.value + [PLUS]);
        } else {
          ss := Some(ss.value + [PERCENT, HexDigit(c / 16), HexDigit(c % 16)]);
        }
      } else if ss.Some? {
        ss := Some(ss.value + [c]);
      }
      i := i + 1;
    }
    assert s[..i] == s;
    r := if ss.None? then s else ss.value;
  }

  method UrlDecode(s: seq<Byte>, plus: bool) returns (r: seq<Byte>)
    ensures r == Decode(s, plus)
  {
    var ss: Option<seq<Byte>> := None;
    var i: nat := 0;
    while i < |s|
      invariant i <= |s| && SoFar(s, i, ss) + Decode(s[i..], plus) == Decode(s, plus)
    {
      DecodeStep(s, i, plus, SoFar(s, i, ss));
      assert s[..i + 1] == s[..i] + [s[i]];
      if s[i] == PLUS && plus {
        if ss.None? { ss := Some(s[..i]); }
        ss := Some(ss.value + [SPACE]);
      } else if s[i] == PERCENT && i + 2 < |s| && IsHex(s[i + 1]) && IsHex(s[i + 2]) {
        if ss.None? { ss := Some(s[..i]); }
        ss := Some(ss.value + [HexValue(s[i + 1]) * 16 + HexValue(s[i + 2])]);
        i := i + 2;
      } else if ss.Some? {
        ss := Some(ss.value + [s[i]]);
      }
      i := i + 1;
    }
    r := if ss.None? then s else ss.value;
  }

  lemma DecodeStep(s: seq<Byte>, i: nat, plus: bool, done: seq<Byte>)
    requires i < |s|
    ensures s[i] == PLUS && plus ==> done + Decode(s[i..], plus) == done + [SPACE] + Decode(s[i + 1..], plus)
    ensures !(s[i] == PLUS && plus) && Escape(s[i..]) ==>
      done + Decode(s[i..], plus) == done + [HexValue(s[i + 1]) * 16 + HexValue(s[i + 2])] + Decode(s[i + 3..], plus)
    ensures !(s[i] == PLUS && plus) && !Escape(s[i..]) ==>
      done + Decode(s[i..], plus) == done + [s[i]] + Decode(s[i + 1..], plus)
  {
    assert s[i..][1..] == s[i + 1..];
    if Escape(s[i..]) { assert s[i..][3..] == s[i + 3..]; }
  }
}

/**
  Query parameters: the PARSE_PARAM loop of sylar/http/http.cpp, and the parameter map it
  fills, whose keys are compared without regard to case.
 */
module Query {
  import opened Basics
  import opened Blocks
  import opened Percent

  const EQUALS: Byte := 61
  const AMP: Byte := 38

  type Text = seq<Byte>

  function Lower(c: Byte): Byte { if 65 <= c <= 90 then c + 32 else c }

  /** What strcasecmp compares: the lower-case bytes up to the first NUL. */
  function CaseKey(k: Text): Text {
    if k == [] || k[0] == 0 then [] else [Lower(k[0])] + CaseKey(k[1..])
  }

  datatype Pair = Pair(key: Text, value: Text)

  /** m_params: a map up to CaseInsensitiveLess. Each entry keeps the key it was made with. */
  type Params = map<Text, Pair>

  /** std::map::insert: an equivalent key keeps its entry. */
  function Insert(m: Params, k: Text, v: Text): Params {
    if CaseKey(k) in m then m else m[CaseKey(k) := Pair(k, v)]
  }

  /** std::map::find. */
  function Get(m: Params, k: Text): Option<Pair> {
    if CaseKey(k) in m then Some(m[CaseKey(k)]) else None
  }

  // ---------------------------------------------------------------- splitting

  /** std::string::find: the first c from i on, or |s|. */
  function IndexOf(s: Text, c: Byte, i: nat): (r: nat)
    requires i <= |s|
    ensures i <= r <= |s| && (r < |s| ==> s[r] == c)
    decreases |s| - i
  {
    if i == |s| || s[i] == c then i else IndexOf(s, c, i + 1)
  }

  lemma {:induction false} IndexIs(s: Text, c: Byte, i: nat, r: nat)
    requires i <= r <= |s| && (forall j :: i <= j < r ==> s[j] != c) && (r < |s| ==> s[r] == c)
    ensures IndexOf(s, c, i) == r
    decreases r - i
  {
    if i < r { IndexIs(s, c, i + 1, r); }
  }

  /** The key and raw value pairs of a query, from position `pos` on. */
  function Pairs(s: Text, pos: nat): seq<Pair>
    requires pos <= |s|
    decreases |s| - pos, 1
  {
    var e := IndexOf(s, EQUALS, pos);
    if e == |s| then []
    else [Pair(s[pos..e], s[e + 1..IndexOf(s, AMP, e)])] + After(s, IndexOf(s, AMP, e))
  }

  /** The pairs after the separator at a. */
  function After(s: Text, a: nat): seq<Pair>
    requires a <= |s|
    decreases |s| - a, 0
  {
    if a == |s| then [] else Pairs(s, a + 1)
  }

  function InsertAll(m: Params, ps: seq<Pair>): Params
    decreases |ps|
  {
    if ps == [] then m else InsertAll(Insert(m, ps[0].key, Decode(ps[0].value, true)), ps[1..])
  }

  method ParseParam(s: Text, m: Params) returns (r: Params)
    ensures r == InsertAll(m, Pairs(s, 0))
  {
    r := m;
    var pos: nat := 0;
    ghost var todo := Pairs(s, 0);
    while true
      invariant pos <= |s| && todo == Pairs(s, pos) && InsertAll(r, todo) == InsertAll(m, Pairs(s, 0))
      decreases |s| - pos
    {
      var last := pos;
      pos := IndexOf(s, EQUALS, pos);
      if pos == |s| { break; }
      var key := pos;
      pos := IndexOf(s, AMP, pos);
      r := InsertOne(r, s, last, key, pos);
      todo := After(s, pos);
      if pos == |s| { break; }
      pos := pos + 1;
    }
    InsertNone(r, todo);
  }

  lemma InsertNone(m: Params, ps: seq<Pair>)
    requires ps == []
    ensures InsertAll(m, ps) == m
  {
  }

  /** m.insert of one key and its decoded value. */
  method InsertOne(m: Params, s: Text, last: nat, key: nat, pos: nat) returns (r: Params)
    requires last <= |s| && key == IndexOf(s, EQUALS, last) < |s| && pos == IndexOf(s, AMP, key)
    ensures InsertAll(m, Pairs(s, last)) == InsertAll(r, After(s, pos))
  {
    var v := UrlDecode(s[key + 1..pos], true);
    r := Insert(m, s[last..key], v);
    PairsUnfold(s, last, key, pos);
    InsertPairs(m, s, last, s[last..key], s[key + 1..pos], pos);
  }

  lemma PairsUnfold(s: Text, pos: nat, e: nat, a: nat)
    requires pos <= |s| && e == IndexOf(s, EQUALS, pos) < |s| && a == IndexOf(s, AMP, e)
    ensures Pairs(s, pos) == [Pair(s[pos..e], s[e + 1..a])] + After(s, a)
  {
  }

  /** One turn of the loop. */
  lemma InsertPairs(m: Params, s: Text, pos: nat, k: Text, v: Text, a: nat)
    requires pos <= |s| && a <= |s| && Pairs(s, pos) == [Pair(k, v)] + After(s, a)
    ensures InsertAll(m, Pairs(s, pos)) == InsertAll(Insert(m, k, Decode(v, true)), After(s, a))
  {
    InsertFirst(m, Pair(k, v), After(s, a));
  }

  lemma InsertFirst(m: Params, p: Pair, rest: seq<Pair>)
    ensures InsertAll(m, [p] + rest) == InsertAll(Insert(m, p.key, Decode(p.value, true)), rest)
  {
    assert ([p] + rest)[1..] == rest;
  }

  // ---------------------------------------------------------------- rendering

  /** key=value&key=value..., the values percent-encoded. */
  function Render(ps: seq<Pair>): Text
    decreases |ps|, 1
  {
    if ps == [] then []
    else ps[0].key + [EQUALS] + Encode(ps[0].value, true) + Tail(ps)
  }

  /** What follows the first pair. */
  function Tail(ps: seq<Pair>): Text
    decreases |ps|, 0
  {
    if |ps| <= 1 then [] else [AMP] + Render(ps[1..])
  }

  predicate PlainKey(k: Text) { forall i :: 0 <= i < |k| ==> k[i] != EQUALS && k[i] != AMP }

  predicate PlainKeys(ps: seq<Pair>) { forall i :: 0 <= i < |ps| ==> PlainKey(ps[i].key) }

  function Encoded(ps: seq<Pair>): (r: seq<Pair>)
    ensures |r| == |ps| && forall i :: 0 <= i < |ps| ==> r[i] == EncodedPair(ps[i])
  {
    seq(|ps|, i requires 0 <= i < |ps| => EncodedPair(ps[i]))
  }

  function EncodedPair(p: Pair): Pair { Pair(p.key, Encode(p.value, true)) }

  lemma EncodedHasNoAmp(v: Text)
    ensures forall i :: 0 <= i < |Encode(v, true)| ==> Encode(v, true)[i] != AMP
  {
    EncodedAlphabet(v, true);
  }

  /** Where the first pair's parts lie. */
  lemma FirstSlices(s: Text, pos: nat, k: Text, v: Text, tail: Text)
    requires pos <= |s| && s[pos..] == k + [EQUALS] + v + tail
    ensures var e := pos + |k|;
      var a := e + 1 + |v|;
      e < |s| && a <= |s| && s[e] == EQUALS && s[pos..e] == k && s[e + 1..a] == v && s[a..] == tail
  {
    var t := s[pos..];
    var e, a := pos + |k|, pos + |k| + 1 + |v|;
    assert s[e] == t[|k|];
    assert s[pos..e] == t[..|k|] == k;
    assert s[e + 1..a] == t[|k| + 1..|k| + 1 + |v|] == v;
    assert s[a..] == t[a - pos..] == tail;
  }

  lemma FirstPair(s: Text, pos: nat, k: Text, v: Text, tail: Text, e: nat, a: nat)
    requires e == pos + |k| && a == e + 1 + |v| && a <= |s| && s[e] == EQUALS
    requires s[pos..e] == k && s[e + 1..a] == v && s[a..] == tail
    requires PlainKey(k) && (forall i :: 0 <= i < |v| ==> v[i] != AMP) && (tail == [] || tail[0] == AMP)
    ensures IndexOf(s, EQUALS, pos) == e && IndexOf(s, AMP, e) == a
  {
    forall i | pos <= i < e ensures s[i] != EQUALS { assert s[i] == k[i - pos]; }
    forall i | e <= i < a ensures s[i] != AMP { assert i > e ==> s[i] == v[i - e - 1]; }
    assert a < |s| ==> s[a] == tail[0];
    IndexIs(s, EQUALS, pos, e);
    IndexIs(s, AMP, e, a);
  }

  lemma RenderFirst(s: Text, pos: nat, ps: seq<Pair>, k: Text, v: Text, a: nat)
    requires ps != [] && pos <= |s| && s[pos..] == Render(ps)
    requires k == ps[0].key && v == Encode(ps[0].value, true) && PlainKey(k) && a == pos + |k| + 1 + |v|
    ensures a <= |s| && Pairs(s, pos) == [Pair(k, v)] + After(s, a)
    ensures if |ps| == 1 then a == |s| else a < |s| && s[a + 1..] == Render(ps[1..])
  {
    EncodedHasNoAmp(ps[0].value);
    PairsFrom(s, pos, k, v, Tail(ps), a);
    if |ps| > 1 { SuffixOf(s, a, Render(ps[1..])); }
  }

  lemma PairsFrom(s: Text, pos: nat, k: Text, v: Text, tail: Text, a: nat)
    requires pos <= |s| && s[pos..] == k + [EQUALS] + v + tail && a == pos + |k| + 1 + |v|
    requires PlainKey(k) && (forall i :: 0 <= i < |v| ==> v[i] != AMP) && (tail == [] || tail[0] == AMP)
    ensures a <= |s| && s[a..] == tail && Pairs(s, pos) == [Pair(k, v)] + After(s, a)
  {
    FirstSlices(s, pos, k, v, tail);
    FirstPair(s, pos, k, v, tail, pos + |k|, a);
    PairsUnfold(s, pos, pos + |k|, a);
  }

  /** The first pair, and where the second begins. */
  lemma RenderStep(s: Text, pos: nat, ps: seq<Pair>) returns (a: nat)
    requires ps != [] && pos <= |s| && s[pos..] == Render(ps) && PlainKey(ps[0].key)
    ensures a <= |s| && Pairs(s, pos) == [EncodedPair(ps[0])] + After(s, a)
    ensures if |ps| == 1 then a == |s| else a < |s| && s[a + 1..] == Render(ps[1..])
  {
    var k, v := ps[0].key, Encode(ps[0].value, true);
    a := pos + |k| + 1 + |v|;
    RenderFirst(s, pos, ps, k, v, a);
  }

  lemma NoPairs(s: Text)
    ensures Pairs(s, |s|) == []
  {
  }

  lemma {:induction false} RenderSplits(s: Text, pos: nat, ps: seq<Pair>)
    requires pos <= |s| && s[pos..] == Render(ps) && PlainKeys(ps)
    ensures Pairs(s, pos) == Encoded(ps)
    decreases |ps|
  {
    if ps == [] {
      NoPairs(s);
    } else {
      var a := RenderStep(s, pos, ps);
      if |ps| > 1 { RenderSplits(s, a + 1, ps[1..]); }
      SplitsStep(Pairs(s, pos), After(s, a), ps);
    }
  }

  lemma SplitsStep(all: seq<Pair>, rest: seq<Pair>, ps: seq<Pair>)
    requires ps != [] && all == [EncodedPair(ps[0])] + rest
    requires rest == Encoded(ps[1..])
    ensures all == Encoded(ps)
  {
  }

  lemma SuffixOf(s: Text, a: nat, t: Text)
    requires a <= |s| && s[a..] == [AMP] + t
    ensures a < |s| && s[a + 1..] == t
  {
    assert s[a + 1..] == s[a..][1..];
  }

  /** The same byte, or the same letter in the other case. */
  predicate SameLetter(a: Byte, b: Byte) {
    || a == b
    || ('A' <= a as char <= 'Z' && b == a + ('a' as int - 'A' as int))
    || ('A' <= b as char <= 'Z' && a == b + ('a' as int - 'A' as int))
  }

  /** The keys agree, up to case, as far as their first NUL. */
  ghost predicate SameKey(j: Text, k: Text) {
    exists n: nat :: EndsAt(j, n) && EndsAt(k, n) && forall i :: 0 <= i < n ==> SameLetter(j[i], k[i])
  }

  predicate EndsAt(k: Text, n: nat) {
    n <= |k| && (n < |k| ==> k[n] == 0) && forall i :: 0 <= i < n ==> k[i] != 0
  }

  lemma {:induction false} CaseKeyIs(k: Text) returns (n: nat)
    ensures EndsAt(k, n) && |CaseKey(k)| == n && forall i :: 0 <= i < n ==> CaseKey(k)[i] == Lower(k[i])
  {
    if k == [] || k[0] == 0 {
      n := 0;
    } else {
      var m := CaseKeyIs(k[1..]);
      n := m + 1;
      forall i | 0 <= i < n ensures k[i] != 0 && CaseKey(k)[i] == Lower(k[i]) {
        assert i > 0 ==> k[i] == k[1..][i - 1];
      }
      assert n < |k| ==> k[n] == k[1..][m];
    }
  }

  /** m_params takes two keys for one exactly if they differ in the case of letters only. */
  lemma CaseKeyIff(j: Text, k: Text)
    ensures CaseKey(j) == CaseKey(k) <==> SameKey(j, k)
  {
    var m := CaseKeyIs(j);
    var n := CaseKeyIs(k);
    if CaseKey(j) == CaseKey(k) {
      forall i | 0 <= i < n ensures SameLetter(j[i], k[i]) { assert CaseKey(j)[i] == CaseKey(k)[i]; }
    }
    if l: nat :| EndsAt(j, l) && EndsAt(k, l) && forall i :: 0 <= i < l ==> SameLetter(j[i], k[i]) {
      assert l == m && l == n;
      forall i | 0 <= i < n ensures CaseKey(j)[i] == CaseKey(k)[i] { assert SameLetter(j[i], k[i]); }
    }
  }

  /** The first pair whose key is k, up to case. */
  ghost function FirstFor(ps: seq<Pair>, k: Text): Option<Pair> {
    if ps == [] then None
    else if SameKey(ps[0].key, k) then Some(ps[0])
    else FirstFor(ps[1..], k)
  }

  lemma {:induction false} InsertAllGets(m: Params, ps: seq<Pair>, k: Text)
    ensures Get(InsertAll(m, Encoded(ps)), k) == if Get(m, k).Some? then Get(m, k) else FirstFor(ps, k)
    decreases |ps|
  {
    if ps != [] {
      RoundTrip(ps[0].value, true);
      CaseKeyIff(ps[0].key, k);
      assert Encoded(ps)[1..] == Encoded(ps[1..]);
      InsertAllGets(Insert(m, ps[0].key, ps[0].value), ps[1..], k);
    }
  }

  /** In a parsed rendered query one finds for a key, up to case, the first pair with it, and
      nothing else: values are any bytes, keys any bytes but '=' and '&'. */
  lemma QueryRoundTrip(ps: seq<Pair>, k: Text)
    requires PlainKeys(ps)
    ensures Get(InsertAll(map[], Pairs(Render(ps), 0)), k) == FirstFor(ps, k)
  {
    assert Render(ps)[0..] == Render(ps);
    RenderSplits(Render(ps), 0, ps);
    InsertAllGets(map[], ps, k);
  }
}
