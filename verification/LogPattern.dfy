/**
  LogFormatter::init (sylar/log.cpp): the scan of a log pattern into literals and format
  items, and its round trip with the obvious way of writing a list of items down.
 */
module LogPattern {
  /** A tuple of `vec`: a literal (type 0) or an item with key and argument (type 1). */
  datatype Piece = Literal(text: string) | Item(key: string, arg: string)

  const ERROR: string := "<<pattern_error>>"

  predicate Alpha(c: char) { 'a' <= c <= 'z' || 'A' <= c <= 'Z' }

  predicate InKey(c: char) { Alpha(c) || c == '{' || c == '}' }

  /** How the inner loop ends: where, in which state, and with what key and argument. */
  datatype Found = Found(n: nat, open: bool, key: string, arg: string)

  /** The inner loop in state 0, at n, for an item that starts at i. */
  function Key(p: string, i: nat, n: nat): (f: Found)
    requires i < n <= |p|
    ensures n <= f.n <= |p|
    decreases |p| - n
  {
    if n == |p| then Found(n, false, "", "")
    else if !InKey(p[n]) then Found(n, false, p[i + 1..n], "")
    else if p[n] == '{' then Arg(p, i, n + 1, n, p[i + 1..n])
    else if n + 1 == |p| then Found(n + 1, false, p[i + 1..], "")
    else Key(p, i, n + 1)
  }

  /** The inner loop in state 1: the argument's brace is at b. */
  function Arg(p: string, i: nat, n: nat, b: nat, key: string): (f: Found)
    requires i < b < n <= |p|
    ensures n <= f.n <= |p|
    decreases |p| - n
  {
    if n == |p| then Found(n, true, key, "")
    else if p[n] == '}' then Found(n + 1, false, key, p[b + 1..n])
    else Arg(p, i, n + 1, b, if n + 1 == |p| && key == "" then p[i + 1..] else key)
  }

  function Flush(vec: seq<Piece>, text: string): seq<Piece> {
    if text == "" then vec else vec + [Literal(text)]
  }

  /** The outer loop from i on, with the pieces and the pending text so far. */
  function Scan(p: string, i: nat, vec: seq<Piece>, text: string, error: bool): (seq<Piece>, bool)
    requires i <= |p|
    decreases |p| - i
  {
    if i == |p| then (Flush(vec, text), error)
    else if p[i] != '%' then Scan(p, i + 1, vec, text + [p[i]], error)
    else if i + 1 < |p| && p[i + 1] == '%' then Scan(p, i + 2, vec, text + "%", error)
    else
      var f := Key(p, i, i + 1);
      if f.open then Scan(p, i + 1, vec + [Literal(ERROR)], text, true)
      else Scan(p, f.n, Flush(vec, text) + [Item(f.key, f.arg)], "", error)
  }

  // ---------------------------------------------------------------- the loops

  method FindItem(p: string, i: nat) returns (f: Found)
    requires i < |p|
    ensures f == Key(p, i, i + 1)
  {
    var n := i + 1;
    var status := 0;
    var begin: nat := 0;
    var str, fmt := "", "";
    while n < |p|
      invariant i < n <= |p| && fmt == "" && status in {0, 1}
      invariant status == 0 && n < |p| ==> str == "" && Key(p, i, n) == Key(p, i, i + 1)
      invariant status == 0 && n == |p| ==> Found(n, false, str, "") == Key(p, i, i + 1)
      invariant status == 1 ==> i < begin < n && Arg(p, i, n, begin, str) == Key(p, i, i + 1)
      decreases |p| - n
    {
      if status == 0 && !InKey(p[n]) {
        str := p[i + 1..n];
        break;
      }
      if status == 0 {
        if p[n] == '{' {
          str := p[i + 1..n];
          status := 1;
          begin := n;
          n := n + 1;
          continue;
        }
      } else {
        if p[n] == '}' {
          fmt := p[begin + 1..n];
          status := 0;
          n := n + 1;
          break;
        }
      }
      n := n + 1;
      if n == |p| && str == "" { str := p[i + 1..]; }
    }
    f := Found(n, status == 1, str, fmt);
  }

  method Init(p: string) returns (vec: seq<Piece>, error: bool)
    ensures (vec, error) == Scan(p, 0, [], "", false)
  {
    vec, error := [], false;
    var nstr := "";
    var i: nat := 0;
    while i < |p|
      invariant i <= |p| && Scan(p, i, vec, nstr, error) == Scan(p, 0, [], "", false)
      decreases |p| - i
    {
      if p[i] != '%' {
        nstr := nstr + [p[i]];
        i := i + 1;
        continue;
      }
      if i + 1 < |p| && p[i + 1] == '%' {
        nstr := nstr + "%";
        i := i + 2;
        continue;
      }
      var f := FindItem(p, i);
      if !f.open {
        if nstr != "" {
          vec := vec + [Literal(nstr)];
          nstr := "";
        }
        vec := vec + [Item(f.key, f.arg)];
        i := f.n;
      } else {
        error := true;
        vec := vec + [Literal(ERROR)];
        i := i + 1;
      }
    }
    if nstr != "" { vec := vec + [Literal(nstr)]; }
  }

  // ---------------------------------------------------------------- writing a pattern

  /** A literal text, or an item written %key or %key{arg}. */
  datatype Part = Text(text: string) | Fmt(key: string, arg: string, braced: bool)

  function EscapeChar(c: char): string { if c == '%' then "%%" else [c] }

  function Escape(t: string): string {
    if t == "" then "" else EscapeChar(t[0]) + Escape(t[1..])
  }

  function Write(x: Part): string {
    match x
    case Text(t) => Escape(t)
    case Fmt(key, arg, braced) => if braced then Braced(key, arg) else Plain(key)
  }

  function Plain(key: string): string { "%" + key }

  function Braced(key: string, arg: string): string { "%" + key + ("{" + arg + "}") }

  function WriteAll(xs: seq<Part>): string {
    if xs == [] then "" else Write(xs[0]) + WriteAll(xs[1..])
  }

  function PieceOf(x: Part): Piece {
    match x
    case Text(t) => Literal(t)
    case Fmt(key, arg, _) => Item(key, arg)
  }

  function Pieces(xs: seq<Part>): seq<Piece> {
    if xs == [] then [] else [PieceOf(xs[0])] + Pieces(xs[1..])
  }

  predicate AllAlpha(k: string) { forall i :: 0 <= i < |k| ==> Alpha(k[i]) }

  predicate NoBrace(a: string) { forall i :: 0 <= i < |a| ==> a[i] != '}' }

  predicate PartOk(x: Part) {
    match x
    case Text(t) => t != ""
    case Fmt(key, arg, braced) => AllAlpha(key) && if braced then NoBrace(arg) else key != "" && arg == ""
  }

  /** What may stand after x: no text after text, and nothing that could continue an unbraced
      key. */
  predicate MayFollow(x: Part, y: Part) {
    match x
    case Text(_) => y.Fmt?
    case Fmt(_, _, braced) => braced || y.Fmt? || (y.text != "" && !InKey(y.text[0]))
  }

  predicate Normal(xs: seq<Part>) {
    && (forall i :: 0 <= i < |xs| ==> PartOk(xs[i]))
    && (forall i: nat :: i + 1 < |xs| ==> Follows(xs, i))
  }

  predicate Follows(xs: seq<Part>, i: nat)
    requires i + 1 < |xs|
  {
    MayFollow(xs[i], xs[i + 1])
  }

  // ---------------------------------------------------------------- reading it back

  /** t stands at i in p. */
  predicate At(p: string, i: nat, t: string) {
    i + |t| <= |p| && forall j: nat :: j < |t| ==> SameAt(p, i, t, j)
  }

  predicate SameAt(p: string, i: nat, t: string, j: nat)
    requires i + |t| <= |p| && j < |t|
  {
    p[i + j] == t[j]
  }

  lemma AtItself(p: string)
    ensures At(p, 0, p)
  {
  }

  lemma AtAppend(p: string, i: nat, a: string, b: string)
    requires At(p, i, a + b)
    ensures At(p, i, a) && At(p, i + |a|, b)
  {
    forall j: nat | j < |a| ensures SameAt(p, i, a, j) { assert SameAt(p, i, a + b, j); }
    var m := i + |a|;
    forall j: nat | j < |b| ensures SameAt(p, m, b, j) { assert SameAt(p, i, a + b, |a| + j); }
  }

  lemma AtSlice(p: string, i: nat, t: string)
    requires At(p, i, t)
    ensures p[i..i + |t|] == t
  {
    forall j: nat | j < |t| ensures p[i..i + |t|][j] == t[j] { assert SameAt(p, i, t, j); }
  }

  lemma {:induction false} ScanText(p: string, i: nat, t: string, vec: seq<Piece>, text: string, error: bool)
    requires At(p, i, Escape(t))
    ensures Scan(p, i, vec, text, error) == Scan(p, i + |Escape(t)|, vec, text + t, error)
    decreases |t|
  {
    if t == "" {
      assert text + t == text;
    } else {
      var e := EscapeChar(t[0]);
      AtAppend(p, i, e, Escape(t[1..]));
      assert SameAt(p, i, e, 0);
      if t[0] == '%' { assert SameAt(p, i, e, 1); }
      ScanText(p, i + |e|, t[1..], vec, text + [t[0]], error);
      assert text + [t[0]] + t[1..] == text + t;
    }
  }

  lemma {:induction false} KeyRuns(p: string, i: nat, n: nat, m: nat)
    requires i < n <= m <= |p| && forall j :: n <= j < m ==> Alpha(p[j])
    ensures m < |p| ==> Key(p, i, n) == Key(p, i, m)
    ensures m == |p| && n < m ==> Key(p, i, n) == Found(m, false, p[i + 1..], "")
    decreases m - n
  {
    if n < m {
      assert Alpha(p[n]);
      if n + 1 < m { KeyRuns(p, i, n + 1, m); }
    }
  }

  lemma {:induction false} ArgRuns(p: string, i: nat, n: nat, b: nat, key: string, m: nat)
    requires i < b < n <= m < |p| && p[m] == '}' && forall j :: n <= j < m ==> p[j] != '}'
    ensures Arg(p, i, n, b, key) == Found(m + 1, false, key, p[b + 1..m])
    decreases m - n
  {
    if n < m { ArgRuns(p, i, n + 1, b, key, m); }
  }

  lemma KeyStands(p: string, i: nat, key: string)
    requires At(p, i + 1, key) && AllAlpha(key) && i < |p|
    ensures forall j :: i + 1 <= j < i + 1 + |key| ==> Alpha(p[j])
    ensures p[i + 1..i + 1 + |key|] == key
  {
    AtSlice(p, i + 1, key);
    forall j | i + 1 <= j < i + 1 + |key| ensures Alpha(p[j]) { assert SameAt(p, i + 1, key, j - i - 1); }
  }

  lemma FindBraced(p: string, i: nat, key: string, arg: string)
    requires AllAlpha(key) && NoBrace(arg) && At(p, i, Braced(key, arg))
    ensures i + 1 < |p| && p[i] == '%' && p[i + 1] != '%'
    ensures Key(p, i, i + 1) == Found(i + |Braced(key, arg)|, false, key, arg)
  {
    AtAppend(p, i, "%" + key, "{" + arg + "}");
    AtAppend(p, i, "%", key);
    assert SameAt(p, i, "%", 0);
    var b := i + 1 + |key|;
    AtAppend(p, b, "{" + arg, "}");
    AtAppend(p, b, "{", arg);
    assert SameAt(p, b, "{", 0);
    var m := b + 1 + |arg|;
    assert SameAt(p, m, "}", 0);
    KeyStands(p, i, key);
    KeyRuns(p, i, i + 1, b);
    AtSlice(p, b + 1, arg);
    forall j | b + 1 <= j < m ensures p[j] != '}' { assert SameAt(p, b + 1, arg, j - b - 1); }
    ArgRuns(p, i, b + 1, b, key, m);
  }

  lemma FindPlain(p: string, i: nat, key: string)
    requires AllAlpha(key) && key != "" && At(p, i, Plain(key))
    requires i + 1 + |key| < |p| ==> !InKey(p[i + 1 + |key|])
    ensures i + 1 < |p| && p[i] == '%' && p[i + 1] != '%'
    ensures Key(p, i, i + 1) == Found(i + 1 + |key|, false, key, "")
  {
    AtAppend(p, i, "%", key);
    assert SameAt(p, i, "%", 0);
    KeyStands(p, i, key);
    assert Alpha(p[i + 1]);
    KeyRuns(p, i, i + 1, i + 1 + |key|);
  }

  /** What comes first in a non-empty rest. */
  lemma RestStart(p: string, i: nat, xs: seq<Part>)
    requires xs != [] && PartOk(xs[0]) && At(p, i, WriteAll(xs))
    ensures i < |p| && (xs[0].Fmt? ==> p[i] == '%') && (xs[0].Text? ==> p[i] == xs[0].text[0])
  {
    AtAppend(p, i, Write(xs[0]), WriteAll(xs[1..]));
    assert SameAt(p, i, Write(xs[0]), 0);
  }

  lemma ScanFound(p: string, i: nat, f: Found, vec: seq<Piece>, text: string)
    requires i + 1 < |p| && p[i] == '%' && p[i + 1] != '%' && Key(p, i, i + 1) == f && !f.open
    ensures Scan(p, i, vec, text, false) == Scan(p, f.n, Flush(vec, text) + [Item(f.key, f.arg)], "", false)
  {
  }

  /** The pattern ends at i, or goes on with something that cannot belong to a key. */
  predicate EndsAt(p: string, i: nat) {
    i <= |p| && (i < |p| ==> !InKey(p[i]))
  }

  lemma FindUnbraced(p: string, i: nat, key: string, xs: seq<Part>)
    requires AllAlpha(key) && key != "" && (xs != [] ==> PartOk(xs[0]) && MayFollow(Fmt(key, "", false), xs[0]))
    requires At(p, i, Plain(key)) && At(p, i + |Plain(key)|, WriteAll(xs)) && EndsAt(p, i + |Plain(key)| + |WriteAll(xs)|)
    ensures i + 1 < |p| && p[i] == '%' && p[i + 1] != '%'
    ensures Key(p, i, i + 1) == Found(i + |Plain(key)|, false, key, "")
  {
    assert |Plain(key)| == 1 + |key|;
    EndsKey(p, i + |Plain(key)|, Fmt(key, "", false), xs);
    FindPlain(p, i, key);
  }

  /** What may follow an unbraced item cannot continue its key. */
  lemma EndsKey(p: string, i: nat, x: Part, xs: seq<Part>)
    requires x.Fmt? && !x.braced && (xs != [] ==> PartOk(xs[0]) && MayFollow(x, xs[0]))
    requires At(p, i, WriteAll(xs)) && EndsAt(p, i + |WriteAll(xs)|)
    ensures i < |p| ==> !InKey(p[i])
  {
    if xs != [] { RestStart(p, i, xs); }
  }

  lemma FindFmt(p: string, i: nat, x: Part, xs: seq<Part>)
    requires x.Fmt? && PartOk(x) && (xs != [] ==> PartOk(xs[0]) && MayFollow(x, xs[0]))
    requires At(p, i, Write(x)) && At(p, i + |Write(x)|, WriteAll(xs)) && EndsAt(p, i + |Write(x)| + |WriteAll(xs)|)
    ensures i + 1 < |p| && p[i] == '%' && p[i + 1] != '%'
    ensures Key(p, i, i + 1) == Found(i + |Write(x)|, false, x.key, x.arg)
  {
    if x.braced {
      FindBraced(p, i, x.key, x.arg);
    } else {
      FindUnbraced(p, i, x.key, xs);
    }
  }

  lemma NormalTail(xs: seq<Part>)
    requires Normal(xs) && xs != []
    ensures Normal(xs[1..]) && PartOk(xs[0]) && (|xs| > 1 ==> PartOk(xs[1]) && MayFollow(xs[0], xs[1]))
  {
    var rest := xs[1..];
    forall i: nat | i + 1 < |rest| ensures Follows(rest, i) { assert Follows(xs, i + 1); }
    if |xs| > 1 { assert Follows(xs, 0); }
  }

  /** The scan's state after one part. */
  function VecAfter(vec: seq<Piece>, text: string, x: Part): seq<Piece> {
    if x.Text? then vec else Flush(vec, text) + [PieceOf(x)]
  }

  function TextAfter(x: Part): string { if x.Text? then x.text else "" }

  lemma FirstText(p: string, i: nat, n: nat, t: string, vec: seq<Piece>)
    requires At(p, i, Escape(t)) && n == i + |Escape(t)|
    ensures Scan(p, i, vec, "", false) == Scan(p, n, vec, t, false)
  {
    ScanText(p, i, t, vec, "", false);
    assert "" + t == t;
  }

  lemma FirstPart(p: string, i: nat, n: nat, x: Part, rest: seq<Part>, vec: seq<Piece>, text: string)
    requires PartOk(x) && (rest != [] ==> PartOk(rest[0]) && MayFollow(x, rest[0])) && (x.Text? ==> text == "")
    requires n == i + |Write(x)| && At(p, i, Write(x)) && At(p, n, WriteAll(rest)) && EndsAt(p, n + |WriteAll(rest)|)
    ensures Scan(p, i, vec, text, false) == Scan(p, n, VecAfter(vec, text, x), TextAfter(x), false)
  {
    if x.Text? {
      FirstText(p, i, n, x.text, vec);
    } else {
      FindFmt(p, i, x, rest);
      ScanFound(p, i, Found(n, false, x.key, x.arg), vec, text);
    }
  }

  lemma PiecesCons(vec: seq<Piece>, text: string, xs: seq<Part>)
    requires xs != [] && PartOk(xs[0]) && (xs[0].Text? ==> text == "")
    ensures Flush(VecAfter(vec, text, xs[0]), TextAfter(xs[0])) + Pieces(xs[1..]) == Flush(vec, text) + Pieces(xs)
  {
  }

  /** The scan's state after all of xs. */
  function VecAll(vec: seq<Piece>, text: string, xs: seq<Part>): seq<Piece>
    decreases |xs|
  {
    if xs == [] then vec else VecAll(VecAfter(vec, text, xs[0]), TextAfter(xs[0]), xs[1..])
  }

  function TextAll(text: string, xs: seq<Part>): string
    decreases |xs|
  {
    if xs == [] then text else TextAll(TextAfter(xs[0]), xs[1..])
  }

  lemma {:induction false} ScanParts(p: string, i: nat, xs: seq<Part>, vec: seq<Piece>, text: string, end: nat)
    requires Normal(xs) && At(p, i, WriteAll(xs)) && end == i + |WriteAll(xs)| && EndsAt(p, end)
    requires text != "" && xs != [] ==> xs[0].Fmt?
    ensures Scan(p, i, vec, text, false) == Scan(p, end, VecAll(vec, text, xs), TextAll(text, xs), false)
    decreases |xs|
  {
    if xs != [] {
      var x, rest := xs[0], xs[1..];
      var n := i + |Write(x)|;
      NormalTail(xs);
      ScanFirst(p, i, n, xs, vec, text, end);
      ScanParts(p, n, rest, VecAfter(vec, text, x), TextAfter(x), end);
    }
  }

  lemma ScanFirst(p: string, i: nat, n: nat, xs: seq<Part>, vec: seq<Piece>, text: string, end: nat)
    requires Normal(xs) && xs != [] && At(p, i, WriteAll(xs)) && end == i + |WriteAll(xs)| && EndsAt(p, end)
    requires (text != "" ==> xs[0].Fmt?) && n == i + |Write(xs[0])|
    ensures At(p, n, WriteAll(xs[1..])) && end == n + |WriteAll(xs[1..])|
    ensures Scan(p, i, vec, text, false) == Scan(p, n, VecAfter(vec, text, xs[0]), TextAfter(xs[0]), false)
  {
    NormalTail(xs);
    AtBoth(p, i, Write(xs[0]), WriteAll(xs[1..]), end);
    FirstPart(p, i, n, xs[0], xs[1..], vec, text);
  }

  lemma AtBoth(p: string, i: nat, a: string, b: string, end: nat)
    requires At(p, i, a + b) && end == i + |a + b|
    ensures At(p, i, a) && At(p, i + |a|, b) && end == i + |a| + |b|
  {
    AtAppend(p, i, a, b);
  }

  lemma {:induction false} PiecesAll(vec: seq<Piece>, text: string, xs: seq<Part>)
    requires Normal(xs) && (text != "" && xs != [] ==> xs[0].Fmt?)
    ensures Flush(VecAll(vec, text, xs), TextAll(text, xs)) == Flush(vec, text) + Pieces(xs)
    decreases |xs|
  {
    if xs == [] {
      assert Flush(vec, text) + Pieces(xs) == Flush(vec, text);
    } else {
      NormalTail(xs);
      PiecesAll(VecAfter(vec, text, xs[0]), TextAfter(xs[0]), xs[1..]);
      PiecesCons(vec, text, xs);
    }
  }

  /** Writing any normal list down and scanning it gives the list back, without error. */
  lemma PatternRoundTrip(xs: seq<Part>)
    requires Normal(xs)
    ensures Scan(WriteAll(xs), 0, [], "", false) == (Pieces(xs), false)
  {
    ScanWhole(WriteAll(xs), xs);
    PiecesAll([], "", xs);
    assert Flush([], "") + Pieces(xs) == Pieces(xs);
  }

  lemma ScanWhole(p: string, xs: seq<Part>)
    requires Normal(xs) && p == WriteAll(xs)
    ensures Scan(p, 0, [], "", false) == (Flush(VecAll([], "", xs), TextAll("", xs)), false)
  {
    AtItself(p);
    ScanParts(p, 0, xs, [], "", |p|);
  }

  // ---------------------------------------------------------------- a brace that is never closed

  predicate NoPercent(t: string) { forall i :: 0 <= i < |t| ==> t[i] != '%' }

  lemma {:induction false} EscapePlain(t: string)
    requires NoPercent(t)
    ensures Escape(t) == t
  {
    if t != "" { EscapePlain(t[1..]); }
  }

  lemma {:induction false} ArgStaysOpen(p: string, i: nat, n: nat, b: nat, key: string)
    requires i < b < n <= |p| && forall j :: n <= j < |p| ==> p[j] != '}'
    ensures Arg(p, i, n, b, key).open
    decreases |p| - n
  {
    if n < |p| { ArgStaysOpen(p, i, n + 1, b, if n + 1 == |p| && key == "" then p[i + 1..] else key); }
  }

  /** An item whose brace is never closed, at the end of the pattern. */
  function Unclosed(key: string, tail: string): string { "%" + (key + "{" + tail) }

  lemma FindUnclosed(p: string, i: nat, key: string, tail: string)
    requires AllAlpha(key) && NoBrace(tail) && At(p, i, Unclosed(key, tail)) && i + |Unclosed(key, tail)| == |p|
    ensures i + 1 < |p| && p[i] == '%' && p[i + 1] != '%' && Key(p, i, i + 1).open
  {
    AtAppend(p, i, "%", key + "{" + tail);
    assert SameAt(p, i, "%", 0);
    var b := i + 1 + |key|;
    AtAppend(p, i + 1, key + "{", tail);
    AtAppend(p, i + 1, key, "{");
    assert SameAt(p, b, "{", 0);
    KeyStands(p, i, key);
    KeyRuns(p, i, i + 1, b);
    forall j | b + 1 <= j < |p| ensures p[j] != '}' { assert SameAt(p, b + 1, tail, j - b - 1); }
    ArgStaysOpen(p, i, b + 1, b, p[i + 1..b]);
  }

  /** The error is noted at once, ahead of the text before it, and the scan goes on behind the
      percent sign. */
  lemma ScanUnclosed(p: string, i: nat, key: string, tail: string, vec: seq<Piece>, text: string)
    requires AllAlpha(key) && NoBrace(tail) && NoPercent(tail)
    requires At(p, i, Unclosed(key, tail)) && i + |Unclosed(key, tail)| == |p|
    ensures Scan(p, i, vec, text, false)
      == (vec + [Literal(ERROR)] + [Literal(text + (key + "{" + tail))], true)
  {
    var t := key + "{" + tail;
    FindUnclosed(p, i, key, tail);
    AtAppend(p, i, "%", t);
    assert NoPercent(t);
    EscapePlain(t);
    ScanText(p, i + 1, t, vec + [Literal(ERROR)], text, true);
  }

  /** What init makes of a normal list and such an item: the pieces of the list, then the error
      text, then, as text, what follows the percent sign; but a text that ends the list comes
      after the error text, together with that. */
  lemma UnclosedBrace(xs: seq<Part>, key: string, tail: string)
    requires Normal(xs) && AllAlpha(key) && NoBrace(tail) && NoPercent(tail)
    ensures Scan(WriteAll(xs) + Unclosed(key, tail), 0, [], "", false)
      == (if xs != [] && xs[|xs| - 1].Text? then
            Pieces(xs[..|xs| - 1]) + [Literal("<<pattern_error>>")] + [Literal(xs[|xs| - 1].text + (key + "{" + tail))]
          else Pieces(xs) + [Literal("<<pattern_error>>")] + [Literal(key + "{" + tail)],
          true)
  {
    var p := WriteAll(xs) + Unclosed(key, tail);
    ScanUpTo(p, WriteAll(xs), Unclosed(key, tail), xs);
    ScanUnclosed(p, |WriteAll(xs)|, key, tail, VecAll([], "", xs), TextAll("", xs));
    Pending(xs);
    if !(xs != [] && xs[|xs| - 1].Text?) { assert "" + (key + "{" + tail) == key + "{" + tail; }
  }

  /** The scan reaches what follows xs. */
  lemma ScanUpTo(p: string, a: string, b: string, xs: seq<Part>)
    requires Normal(xs) && p == a + b && a == WriteAll(xs) && b != "" && b[0] == '%'
    ensures At(p, |a|, b)
    ensures Scan(p, 0, [], "", false) == Scan(p, |a|, VecAll([], "", xs), TextAll("", xs), false)
  {
    AtItself(p);
    AtAppend(p, 0, a, b);
    ScanParts(p, 0, xs, [], "", |a|);
  }

  /** The text of the last part, if it is one, is still pending when xs has been scanned. */
  lemma Pending(xs: seq<Part>)
    requires Normal(xs)
    ensures if xs != [] && xs[|xs| - 1].Text?
      then VecAll([], "", xs) == Pieces(xs[..|xs| - 1]) && TextAll("", xs) == xs[|xs| - 1].text
      else VecAll([], "", xs) == Pieces(xs) && TextAll("", xs) == ""
  {
    LastText("", xs);
    AllFlushed(xs, Pieces(xs));
    if xs != [] && xs[|xs| - 1].Text? {
      assert PartOk(xs[|xs| - 1]);
      PiecesPrefix(xs, |xs| - 1);
      WithoutLast(VecAll([], "", xs), Literal(xs[|xs| - 1].text), Pieces(xs));
    }
  }

  lemma AllFlushed(xs: seq<Part>, ps: seq<Piece>)
    requires Normal(xs) && ps == Pieces(xs)
    ensures Flush(VecAll([], "", xs), TextAll("", xs)) == ps
  {
    PiecesAll([], "", xs);
    assert Flush([], "") + ps == ps;
  }

  lemma PiecesPrefix(xs: seq<Part>, n: nat)
    requires n <= |xs|
    ensures |Pieces(xs)| == |xs| && Pieces(xs[..n]) == Pieces(xs)[..n]
  {
    PiecesAt(xs);
    PiecesAt(xs[..n]);
  }

  lemma WithoutLast(vec: seq<Piece>, x: Piece, all: seq<Piece>)
    requires vec + [x] == all
    ensures vec == all[..|all| - 1]
  {
  }

  lemma {:induction false} LastText(text: string, xs: seq<Part>)
    ensures TextAll(text, xs) == if xs == [] then text else TextAfter(xs[|xs| - 1])
    decreases |xs|
  {
    if xs != [] { LastText(TextAfter(xs[0]), xs[1..]); }
  }

  // ---------------------------------------------------------------- the items

  /** An element of m_items: a fixed string, or the formatter for a key. */
  datatype Made = Fixed(text: string) | Formatter(key: string, arg: string)

  /** s_format_items. */
  predicate Known(key: string) {
    key in {"m", "p", "r", "c", "t", "n", "d", "f", "l", "T", "F", "N"}
  }

  function Make(x: Piece): Made {
    match x
    case Literal(t) => Fixed(t)
    case Item(key, arg) => if Known(key) then Formatter(key, arg) else Fixed("<<error_format %" + key + ">>")
  }

  predicate AnyUnknown(vec: seq<Piece>) {
    exists i :: 0 <= i < |vec| && vec[i].Item? && !Known(vec[i].key)
  }

  function MakeAll(vec: seq<Piece>): (items: seq<Made>)
    ensures |items| == |vec| && forall i :: 0 <= i < |vec| ==> items[i] == Make(vec[i])
  {
    seq(|vec|, i requires 0 <= i < |vec| => Make(vec[i]))
  }

  /** The loop over vec. */
  method BuildItems(vec: seq<Piece>, error: bool) returns (items: seq<Made>, err: bool)
    ensures items == MakeAll(vec)
    ensures err <==> error || AnyUnknown(vec)
  {
    items, err := [], error;
    var i: nat := 0;
    while i < |vec|
      invariant i <= |vec| && |items| == i && forall j :: 0 <= j < i ==> items[j] == Make(vec[j])
      invariant err <==> error || AnyUnknown(vec[..i])
    {
      if vec[i].Item? && !Known(vec[i].key) { err := true; }
      items := items + [Make(vec[i])];
      assert vec[..i + 1][i] == vec[i];
      assert forall j :: 0 <= j < i ==> vec[..i + 1][j] == vec[..i][j];
      i := i + 1;
    }
    assert vec[..i] == vec;
  }

  /** All of init: m_items and m_error. */
  method InitItems(p: string) returns (items: seq<Made>, err: bool)
    ensures var scan := Scan(p, 0, [], "", false);
      items == MakeAll(scan.0) && (err <==> scan.1 || AnyUnknown(scan.0))
  {
    var vec, error := Init(p);
    items, err := BuildItems(vec, error);
  }

  lemma {:induction false} PiecesAt(xs: seq<Part>)
    ensures |Pieces(xs)| == |xs| && forall i :: 0 <= i < |xs| ==> Pieces(xs)[i] == PieceOf(xs[i])
  {
    if xs != [] {
      PiecesAt(xs[1..]);
      forall i | 0 < i < |xs| ensures Pieces(xs)[i] == PieceOf(xs[i]) { assert xs[i] == xs[1..][i - 1]; }
    }
  }

  const KEYS: string := "mprctndflTFN"

  /** One of the twelve keys. */
  predicate IsKey(key: string) { |key| == 1 && key[0] in KEYS }

  lemma KnownIff(key: string)
    ensures Known(key) <==> IsKey(key)
  {
    if |key| == 1 { assert key == [key[0]]; }
  }

  /** The item a part stands for: its text; the formatter of its key, with its argument; or,
      for any other key, an error text. */
  predicate StandsFor(item: Made, x: Part) {
    match x
    case Text(t) => item == Fixed(t)
    case Fmt(key, arg, _) =>
      item == if IsKey(key) then Formatter(key, arg) else Fixed("<<error_format %" + key + ">>")
  }

  lemma MakesIt(x: Part)
    ensures StandsFor(Make(PieceOf(x)), x)
  {
    if x.Fmt? { KnownIff(x.key); }
  }

  /** A pattern written from a normal list gives that list's items, and the error flag exactly
      if some key has no formatter. */
  lemma FormatterRoundTrip(xs: seq<Part>)
    requires Normal(xs)
    ensures var scan := Scan(WriteAll(xs), 0, [], "", false);
      && |MakeAll(scan.0)| == |xs| && (forall i :: 0 <= i < |xs| ==> StandsFor(MakeAll(scan.0)[i], xs[i]))
      && (scan.1 || AnyUnknown(scan.0) <==> exists i :: 0 <= i < |xs| && xs[i].Fmt? && !IsKey(xs[i].key))
  {
    PatternRoundTrip(xs);
    PiecesAt(xs);
    forall i | 0 <= i < |xs| ensures StandsFor(Make(PieceOf(xs[i])), xs[i]) { MakesIt(xs[i]); }
    forall i | 0 <= i < |xs| && xs[i].Fmt? ensures Known(xs[i].key) <==> IsKey(xs[i].key) { KnownIff(xs[i].key); }
    var vec := Pieces(xs);
    assert forall i :: 0 <= i < |xs| ==> (vec[i].Item? <==> xs[i].Fmt?) && (xs[i].Fmt? ==> vec[i].key == xs[i].key);
    assert AnyUnknown(vec) <==> exists i :: 0 <= i < |xs| && vec[i].Item? && !Known(vec[i].key);
  }
}
