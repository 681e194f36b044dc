/** What the text of an address means, and how an address is printed (section 2.2 of RFC 4291 and
    section 4 of RFC 5952). Both are described by pieces: what stands between the separators. */
module InetText {
  import opened Common
  import opened Separated
  import opened Numbers

  type Text = string

  const INADDR_NONE: nat := 0xffffffff

  // ----- IPv4 text -----

  predicate IsOctet(p: Text) {
    AllDigits(false, p) && Number(false, p) <= 255
  }

  /** Four decimal numbers up to 255; an empty one is 0. INADDR_NONE if it is anything else, and also
      for 255.255.255.255. */
  function QuadValue(t: Text): (r: nat)
    ensures r <= INADDR_NONE
  {
    var ps := Split('.', t);
    if |ps| == 4 && forall i :: 0 <= i < 4 ==> IsOctet(ps[i]) then
      ((Number(false, ps[0]) * 256 + Number(false, ps[1])) * 256 + Number(false, ps[2])) * 256 + Number(false, ps[3])
    else INADDR_NONE
  }

  // ----- IPv6 text -----

  type Word = w: nat | w < 0x10000

  predicate IsWord(p: Text) {
    1 <= |p| <= 4 && AllDigits(true, p)
  }

  lemma WordValue(p: Text)
    requires |p| <= 4 && AllDigits(true, p)
    ensures Number(true, p) < 0x10000
  {
    NumberStep(p, 0x1000);
    if |p| > 1 { NumberStep(p[..|p| - 1], 0x100); }
    if |p| > 2 { NumberStep(p[..|p| - 1][..|p| - 2], 0x10); }
    if |p| > 3 { NumberStep(p[..|p| - 1][..|p| - 2][..|p| - 3], 1); }
  }

  lemma NumberStep(p: Text, m: nat)
    requires AllDigits(true, p) && m > 0
    ensures p == "" ==> Number(true, p) == 0
    ensures p != "" && Number(true, p[..|p| - 1]) < m ==> Number(true, p) < m * 16
  {
  }

  /** The words before the last piece, and how many of them are before the "::"; -1 without one. */
  datatype Front = Front(words: seq<Word>, gap: int)

  /** What the pieces before the last one say: one of them may be empty, and there are at most seven words. */
  function Scan(ps: seq<Text>): (r: Option<Front>)
    ensures r.Some? ==> |r.value.words| <= 7 && -1 <= r.value.gap <= |r.value.words|
  {
    if ps == [] then Some(Front([], -1))
    else
      var p := ps[|ps| - 1];
      match Scan(ps[..|ps| - 1])
      case None => None
      case Some(f) =>
        if p == "" then if f.gap < 0 then Some(Front(f.words, |f.words|)) else None
        else if IsWord(p) && |f.words| < 7 then WordValue(p); Some(Front(f.words + [Number(true, p)], f.gap))
        else None
  }

  // Where the first dot is.
  function DotAt(p: Text): (n: nat)
    ensures n <= |p| && (n < |p| ==> p[n] == '.') && forall i :: 0 <= i < n ==> p[i] != '.'
  {
    if p == "" || p[0] == '.' then 0 else 1 + DotAt(p[1..])
  }

  predicate IsQuad(p: Text) {
    1 <= DotAt(p) <= 4 && DotAt(p) < |p| && QuadValue(p) != INADDR_NONE
  }

  /** What the last piece says: a word; nothing, which is a zero word if there is a "::"; or the four
      numbers of an IPv4 address, if some colon is before them. */
  function Last(p: Text, gap: bool, colon: bool): (r: Option<seq<Word>>)
    ensures r.Some? ==> 1 <= |r.value| <= 2
  {
    if p == "" then if gap then Some([0]) else None
    else if IsWord(p) then WordValue(p); Some([Number(true, p)])
    else if IsQuad(p) && colon then Some([QuadValue(p) / 0x10000, QuadValue(p) % 0x10000])
    else None
  }

  // A colon at the start is skipped.
  function Stripped(t: Text): Text {
    if t != "" && t[0] == ':' then t[1..] else t
  }

  function Zeros(n: nat): seq<Word> {
    seq(n, _ => 0)
  }

  /** Zero words fill the gap; without a gap there must be eight words. */
  function Filled(words: seq<Word>, gap: int): Option<seq<Word>>
    requires gap <= |words|
  {
    if gap < 0 then if |words| == 8 then Some(words) else None
    else if |words| < 8 then Some(words[..gap] + Zeros(8 - |words|) + words[gap..])
    else None
  }

  /** The address the pieces between the colons mean, if they mean one. */
  function Address(ps: seq<Text>): Option<seq<Word>>
    requires |ps| > 0
  {
    var k := |ps| - 1;
    match Scan(ps[..k])
    case None => None
    case Some(f) =>
      match Last(ps[k], f.gap >= 0, k > 0)
      case None => None
      case Some(ws) => Filled(f.words + ws, f.gap)
  }

  /** The address a text means, if it means one. */
  function Meaning(t: Text): Option<seq<Word>> {
    if t == "" then None else Address(Split(':', Stripped(t)))
  }

  // ----- the printed form -----

  ghost predicate IsZero(a: seq<Word>, j: nat, l: nat) {
    j + l <= |a| && forall i :: j <= i < j + l ==> a[i] == 0
  }

  /** The first longest run of zero words, if it is two words or more; `z` is -1 otherwise. */
  ghost predicate IsGap(a: seq<Word>, z: int, m: nat) {
    if z < 0 then m == 1 && z == -1 && forall j: nat, l: nat :: IsZero(a, j, l) ==> l <= 1
    else m >= 2 && IsZero(a, z, m) && forall j: nat, l: nat :: IsZero(a, j, l) ==> l < m || (l == m && z <= j)
  }

  lemma GapIsUnique(a: seq<Word>, z: int, m: nat, y: int, n: nat)
    requires IsGap(a, z, m) && IsGap(a, y, n)
    ensures z == y && m == n
  {
    if z >= 0 {
      assert IsZero(a, z, m);
    }
    if y >= 0 {
      assert IsZero(a, y, n);
    }
  }

  /** IPv4 notation: for addresses with 96 zero bits, or 80 zero bits and 16 one bits, at the start. */
  predicate Mixed(a: seq<Word>, z: int, m: nat)
    requires |a| == 8
  {
    z == 0 && ((m == 5 && a[5] == 0xffff) || m == 6 || (m == 7 && a[7] / 256 != 0 && a[7] % 256 != 1))
  }

  function Hexes(a: seq<Word>): (ps: seq<Text>)
    ensures |ps| == |a|
  {
    seq(|a|, i requires 0 <= i < |a| => Digits(true, a[i]))
  }

  function Quad(v: Word, w: Word): Text {
    Digits(false, v / 256) + "." + Digits(false, v % 256) + "." + Digits(false, w / 256) + "." + Digits(false, w % 256)
  }

  // What stands behind the "::".
  function Behind(a: seq<Word>, z: nat, m: nat): (ps: seq<Text>)
    requires |a| == 8 && z + m <= 8
    ensures |ps| > 0
  {
    if Mixed(a, z, m) then (if m == 5 then Hexes(a[5..6]) else []) + [Quad(a[6], a[7])]
    else if z + m == 8 then [""]
    else Hexes(a[z + m..])
  }

  function Pieces(a: seq<Word>, z: int, m: nat): (ps: seq<Text>)
    requires |a| == 8 && z + m <= 8
    ensures |ps| > 0
  {
    if z < 0 then Hexes(a)
    else (if z == 0 then [""] else Hexes(a[..z])) + [""] + Behind(a, z, m)
  }

  function Printed(a: seq<Word>, z: int, m: nat): Text
    requires |a| == 8 && z + m <= 8
  {
    Join(':', Pieces(a, z, m))
  }

  /** Pieces, each with a colon behind it. */
  function Lead(ps: seq<Text>): Text {
    if ps == [] then "" else Lead(ps[..|ps| - 1]) + ps[|ps| - 1] + ":"
  }

  lemma LeadMore(ps: seq<Text>, p: Text)
    ensures Lead(ps + [p]) == Lead(ps) + p + ":"
  {
    assert (ps + [p])[..|ps|] == ps;
  }

  lemma {:induction false} JoinIsLead(ps: seq<Text>, p: Text)
    ensures Join(':', ps + [p]) == Lead(ps) + p
  {
    var n := |ps|;
    assert (ps + [p])[..n] == ps;
    if n > 0 {
      JoinIsLead(ps[..n - 1], ps[n - 1]);
      assert ps[..n - 1] + [ps[n - 1]] == ps;
    }
  }

  // ----- the round trip -----

  lemma HexIsWord(v: Word)
    ensures IsWord(Digits(true, v)) && Number(true, Digits(true, v)) == v && Free(':', Digits(true, v))
  {
    NumberOfDigits(true, v);
    LengthStep(true, v);
    LengthStep(true, v / 16);
    LengthStep(true, v / 16 / 16);
    LengthStep(true, v / 16 / 16 / 16);
  }

  lemma OctetIsShort(v: nat)
    requires v < 256
    ensures |Digits(false, v)| <= 3 && IsOctet(Digits(false, v)) && Number(false, Digits(false, v)) == v
    ensures Free(':', Digits(false, v)) && Free('.', Digits(false, v))
  {
    NumberOfDigits(false, v);
    LengthStep(false, v);
    LengthStep(false, v / 10);
    LengthStep(false, v / 10 / 10);
  }

  lemma QuadParts(a: Text, b: Text, c: Text, d: Text)
    requires Free('.', a) && Free('.', b) && Free('.', c) && Free('.', d)
    ensures Split('.', a + "." + b + "." + c + "." + d) == [a, b, c, d]
  {
    hide Split;
    JoinMore('.', [a], b);
    JoinMore('.', [a] + [b], c);
    JoinMore('.', [a] + [b] + [c], d);
    assert [a] + [b] + [c] + [d] == [a, b, c, d];
    SplitOfJoin('.', [a, b, c, d]);
  }

  /** The dotted tail reads back, unless it looks like INADDR_NONE. */
  lemma QuadReads(v: Word, w: Word)
    ensures QuadValue(Quad(v, w)) == v * 0x10000 + w
    ensures IsQuad(Quad(v, w)) <==> v != 0xffff || w != 0xffff
    ensures !IsWord(Quad(v, w)) && Quad(v, w) != "" && Free(':', Quad(v, w))
  {
    hide QuadValue, Quad;
    QuadNumber(v, w);
    QuadShape(v, w);
  }

  lemma QuadNumber(v: Word, w: Word)
    ensures QuadValue(Quad(v, w)) == v * 0x10000 + w
  {
    hide Split, Digits;
    OctetIsShort(v / 256);
    OctetIsShort(v % 256);
    OctetIsShort(w / 256);
    OctetIsShort(w % 256);
    QuadParts(Digits(false, v / 256), Digits(false, v % 256), Digits(false, w / 256), Digits(false, w % 256));
  }

  lemma QuadShape(v: Word, w: Word)
    ensures 1 <= DotAt(Quad(v, w)) <= 3 && DotAt(Quad(v, w)) < |Quad(v, w)|
    ensures !IsWord(Quad(v, w)) && Free(':', Quad(v, w))
  {
    hide Digits;
    OctetIsShort(v / 256);
    OctetIsShort(v % 256);
    OctetIsShort(w / 256);
    OctetIsShort(w % 256);
    var a, b, c, d := Digits(false, v / 256), Digits(false, v % 256), Digits(false, w / 256), Digits(false, w % 256);
    DotBehind(a, b + "." + c + "." + d);
    assert Quad(v, w) == a + "." + (b + "." + c + "." + d);
  }

  lemma DotBehind(a: Text, b: Text)
    requires Free('.', a)
    ensures DotAt(a + "." + b) == |a| && !AllDigits(true, a + "." + b)
  {
    assert (a + "." + b)[|a|] == '.';
    assert forall i :: 0 <= i < |a| ==> (a + "." + b)[i] == a[i];
    assert Worth(true, (a + "." + b)[|a|]) < 0;
  }

  lemma ScanMore(ps: seq<Text>, p: Text)
    ensures Scan(ps + [p]) ==
      match Scan(ps)
      case None => None
      case Some(f) =>
        if p == "" then if f.gap < 0 then Some(Front(f.words, |f.words|)) else None
        else if IsWord(p) && |f.words| < 7 then WordValue(p); Some(Front(f.words + [Number(true, p)], f.gap))
        else None
  {
    assert (ps + [p])[..|ps|] == ps;
  }

  /** Words before the gap and words behind it. */
  lemma {:induction false} ScanHexes(ps: seq<Text>, a: seq<Word>)
    requires Scan(ps).Some? && |Scan(ps).value.words| + |a| <= 7
    ensures Scan(ps + Hexes(a)) == Some(Front(Scan(ps).value.words + a, Scan(ps).value.gap))
  {
    hide Scan;
    var w := Scan(ps).value.words;
    if a == [] {
      assert ps + Hexes(a) == ps && w + a == w;
    } else {
      var n := |a| - 1;
      ScanHexes(ps, a[..n]);
      HexIsWord(a[n]);
      ScanMore(ps + Hexes(a[..n]), Digits(true, a[n]));
      assert ps + Hexes(a) == ps + Hexes(a[..n]) + [Digits(true, a[n])];
      assert w + a[..n] + [a[n]] == w + a;
    }
  }

  // ----- all pieces together -----

  /** The words of the pieces behind the "::" but for the last piece. */
  function Middle(a: seq<Word>, z: nat, m: nat): seq<Word>
    requires |a| == 8 && z + m <= 8
  {
    if Mixed(a, z, m) then if m == 5 then [a[5]] else []
    else if z + m == 8 then []
    else a[z + m..7]
  }

  lemma BehindParts(a: seq<Word>, z: nat, m: nat)
    requires |a| == 8 && z + m <= 8
    ensures var b := Behind(a, z, m); var k := |b| - 1;
      && b[..k] == Hexes(Middle(a, z, m)) && (forall i :: 0 <= i < |b| ==> Free(':', b[i]))
      && b[k] == if Mixed(a, z, m) then Quad(a[6], a[7]) else if z + m == 8 then "" else Digits(true, a[7])
  {
    hide Digits, Quad, Hexes;
    QuadReads(a[6], a[7]);
    assert a[5..6] == [a[5]];
    NoHexes();
    HexesAreFree([a[5]]);
    if !Mixed(a, z, m) && z + m < 8 {
      HexesMore(a, z + m, 7);
      assert a[z + m..8] == a[z + m..];
      HexesAreFree(a[z + m..]);
    }
  }

  lemma NoHexes()
    ensures Hexes([]) == []
  {
  }

  lemma HexesMore(a: seq<Word>, from: nat, to: nat)
    requires from <= to < |a|
    ensures Hexes(a[from..to + 1]) == Hexes(a[from..to]) + [Digits(true, a[to])]
  {
    hide Digits;
    assert a[from..to + 1] == a[from..to] + [a[to]];
  }

  lemma HexesAreFree(a: seq<Word>)
    ensures forall i :: 0 <= i < |a| ==> Free(':', Hexes(a)[i]) && Hexes(a)[i] != ""
  {
    forall i | 0 <= i < |a|
      ensures Free(':', Hexes(a)[i]) && Hexes(a)[i] != ""
    {
      HexIsWord(a[i]);
    }
  }

  /** An empty first piece is a separator at the start. */
  lemma {:induction false} JoinFirst(sep: char, ps: seq<Text>)
    requires |ps| > 0
    ensures Join(sep, [""] + ps) == [sep] + Join(sep, ps)
  {
    var n := |ps| - 1;
    if n == 0 {
      JoinMore(sep, [""], ps[0]);
      assert [""] + ps == [""] + [ps[0]];
      assert Join(sep, [""] + [ps[0]]) == "" + [sep] + ps[0];
    } else {
      JoinFirst(sep, ps[..n]);
      JoinMore(sep, [""] + ps[..n], ps[n]);
      JoinMore(sep, ps[..n], ps[n]);
      assert [""] + ps == [""] + ps[..n] + [ps[n]] && ps == ps[..n] + [ps[n]];
    }
  }

  /** The text starts with its first piece. */
  lemma {:induction false} JoinStarts(sep: char, ps: seq<Text>)
    requires |ps| > 0 && ps[0] != ""
    ensures Join(sep, ps) != "" && Join(sep, ps)[0] == ps[0][0]
  {
    if |ps| > 1 {
      JoinStarts(sep, ps[..|ps| - 1]);
    }
  }

  // The pieces the parser sees.
  function Seen(a: seq<Word>, z: int, m: nat): (ps: seq<Text>)
    requires |a| == 8 && z + m <= 8
    ensures |ps| > 0
  {
    if z < 0 then Hexes(a) else Hexes(a[..z]) + [""] + Behind(a, z, m)
  }

  lemma SeenPieces(a: seq<Word>, z: int, m: nat)
    requires |a| == 8 && z + m <= 8
    ensures Printed(a, z, m) != "" && Split(':', Stripped(Printed(a, z, m))) == Seen(a, z, m)
  {
    hide Split, Join, Digits, Behind;
    var ps := Seen(a, z, m);
    HexesAreFree(a);
    if z >= 0 {
      BehindParts(a, z, m);
      HexesAreFree(a[..z]);
    }
    assert forall i :: 0 <= i < |ps| ==> Free(':', ps[i]);
    SplitOfJoin(':', ps);
    if z == 0 {
      assert Pieces(a, z, m) == [""] + ps;
      JoinFirst(':', ps);
      assert Printed(a, z, m)[1..] == Join(':', ps);
    } else {
      JoinStarts(':', ps);
      assert Free(':', ps[0]);
      assert ps[0][0] != ':';
    }
  }

  /** What the parser has read before the last piece. */
  lemma SeenFront(a: seq<Word>, z: int, m: nat)
    requires |a| == 8 && IsGap(a, z, m) && z + m <= 8
    ensures var ps := Seen(a, z, m);
      Scan(ps[..|ps| - 1]) == Some(if z < 0 then Front(a[..7], -1) else Front(a[..z] + Middle(a, z, m), z))
  {
    hide Scan, Behind, IsGap, Middle;
    var ps := Seen(a, z, m);
    if z < 0 {
      ScanWords(a[..7]);
      assert Hexes(a[..7]) == ps[..7];
    } else {
      GapIsLong(a, z, m);
      FrontOfGap(a, z, m);
      var b := Behind(a, z, m);
      BehindParts(a, z, m);
      assert ps[..|ps| - 1] == Hexes(a[..z]) + [""] + b[..|b| - 1];
    }
  }

  lemma FrontOfGap(a: seq<Word>, z: nat, m: nat)
    requires |a| == 8 && z + m <= 8 && m >= 2
    ensures Scan(Hexes(a[..z]) + [""] + Hexes(Middle(a, z, m))) == Some(Front(a[..z] + Middle(a, z, m), z))
  {
    hide Scan;
    ScanWords(a[..z]);
    ScanMore(Hexes(a[..z]), "");
    ScanHexes(Hexes(a[..z]) + [""], Middle(a, z, m));
  }

  lemma ScanWords(a: seq<Word>)
    requires |a| <= 7
    ensures Scan(Hexes(a)) == Some(Front(a, -1))
  {
    hide Scan;
    ScanNothing();
    ScanHexes([], a);
    assert [] + Hexes(a) == Hexes(a) && [] + a == a;
  }

  lemma ScanNothing()
    ensures Scan([]) == Some(Front([], -1))
  {
  }

  lemma GapIsLong(a: seq<Word>, z: nat, m: nat)
    requires IsGap(a, z, m)
    ensures m >= 2 && IsZero(a, z, m)
  {
  }

  // What the last piece says.
  function Final(a: seq<Word>, z: int, m: nat): seq<Word>
    requires |a| == 8
  {
    if Mixed(a, z, m) then [a[6], a[7]] else if z >= 0 && z + m == 8 then [0] else [a[7]]
  }

  lemma SeenLast(a: seq<Word>, z: int, m: nat)
    requires |a| == 8 && IsGap(a, z, m) && z + m <= 8
    ensures var ps := Seen(a, z, m);
      Last(ps[|ps| - 1], z >= 0, |ps| > 1) ==
        if Mixed(a, z, m) && a[6] == 0xffff && a[7] == 0xffff then None else Some(Final(a, z, m))
  {
    hide Digits, Quad, Behind, QuadValue, IsQuad, IsGap;
    HexIsWord(a[7]);
    QuadReads(a[6], a[7]);
    if z >= 0 {
      BehindParts(a, z, m);
    }
  }

  lemma FilledBack(a: seq<Word>, z: nat, m: nat)
    requires |a| == 8 && z + m <= 8 && m >= 2 && IsZero(a, z, m)
    ensures Filled(a[..z] + Middle(a, z, m) + Final(a, z, m), z) == Some(a)
  {
    var all := a[..z] + Middle(a, z, m) + Final(a, z, m);
    assert all[..z] == a[..z];
    assert all[..z] + Zeros(8 - |all|) + all[z..] == a;
  }

  /** The printed text reads back, unless its dotted tail looks like INADDR_NONE. */
  lemma ReadsBack(a: seq<Word>, z: int, m: nat)
    requires |a| == 8 && IsGap(a, z, m) && z + m <= 8
    ensures Meaning(Printed(a, z, m)) ==
      if Mixed(a, z, m) && a[6] == 0xffff && a[7] == 0xffff then None else Some(a)
  {
    hide Scan, Last, Split, Printed, Seen, Stripped, IsGap, Middle;
    SeenPieces(a, z, m);
    SeenFront(a, z, m);
    SeenLast(a, z, m);
    assert |Seen(a, z, m)| > 1 by { SeveralPieces(a, z, m); }
    if z < 0 {
      assert a[..7] + [a[7]] == a;
    } else {
      GapIsLong(a, z, m);
      FilledBack(a, z, m);
    }
  }

  lemma SeveralPieces(a: seq<Word>, z: int, m: nat)
    requires |a| == 8 && z + m <= 8
    ensures |Seen(a, z, m)| > 1
  {
  }

  /** The two addresses that do not read back: ::255.255.255.255 and ::ffff:255.255.255.255. */
  predicate LooksLikeNone(a: seq<Word>)
    requires |a| == 8
  {
    (forall i :: 0 <= i < 5 ==> a[i] == 0) && (a[5] == 0 || a[5] == 0xffff) && a[6] == 0xffff && a[7] == 0xffff
  }

  /** Every address but these two is what its printed form means. */
  lemma RoundTrip(a: seq<Word>, z: int, m: nat)
    requires |a| == 8 && IsGap(a, z, m) && z + m <= 8
    ensures Meaning(Printed(a, z, m)) == Some(a) <==> !LooksLikeNone(a)
    ensures LooksLikeNone(a) ==> Meaning(Printed(a, z, m)) == None
  {
    ReadsBack(a, z, m);
    if LooksLikeNone(a) {
      assert IsZero(a, 0, if a[5] == 0 then 6 else 5);
      assert forall j: nat, l: nat :: IsZero(a, j, l) && l >= 1 ==> a[j] == 0 && a[j + l - 1] == 0;
    } else if z >= 0 {
      GapIsLong(a, z, m);
    }
  }
}
