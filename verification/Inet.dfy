/** Address text: ngx_inet_addr, ngx_inet6_addr and ngx_inet6_ntop. */
module Inet {
  import opened Common
  import opened Separated
  import opened Numbers
  import opened Sprintf
  import opened InetText

  const TEXT_LEN: nat := 45       // bjrk-edge_INET6_ADDRSTRLEN

  function Pair(high: Octet, low: Octet): Word {
    var h: nat, l: nat := high, low;
    h * 256 + l
  }

  function WordsOf(b: seq<Octet>): (a: seq<Word>)
    ensures |a| == |b| / 2
  {
    seq(|b| / 2, i requires 0 <= i < |b| / 2 => Pair(b[2 * i], b[2 * i + 1]))
  }

  // ----- IPv4 -----

  function Value(ps: seq<Text>): (v: nat)
    requires forall i :: 0 <= i < |ps| ==> IsOctet(ps[i])
  {
    if ps == [] then 0 else assert IsOctet(ps[|ps| - 1]); Value(ps[..|ps| - 1]) * 256 + Number(false, ps[|ps| - 1])
  }

  lemma ValueFits(ps: seq<Text>)
    requires |ps| <= 4 && forall i :: 0 <= i < |ps| ==> IsOctet(ps[i])
    ensures Value(ps) < if |ps| == 4 then 0x1_0000_0000 else 0x100_0000
    ensures |ps| == 4 ==>
      Value(ps) ==
        ((Number(false, ps[0]) * 256 + Number(false, ps[1])) * 256 + Number(false, ps[2])) * 256 + Number(false, ps[3])
  {
    if |ps| > 0 { assert Value(ps[..0]) == 0; }
    if |ps| > 1 { assert ps[..|ps| - 1][..|ps| - 2] == ps[..|ps| - 2]; }
    if |ps| > 2 { assert ps[..|ps| - 2][..|ps| - 3] == ps[..|ps| - 3]; }
    if |ps| > 3 { assert ps[..|ps| - 3][..|ps| - 4] == ps[..|ps| - 4]; }
  }

  lemma ValueMore(ps: seq<Text>, p: Text)
    requires IsOctet(p) && forall i :: 0 <= i < |ps| ==> IsOctet(ps[i])
    ensures Value(ps + [p]) == Value(ps) * 256 + Number(false, p)
  {
    assert (ps + [p])[..|ps|] == ps;
  }

  /** A piece that already is no octet makes the whole text none. */
  lemma NoOctet(t: Text, i: nat)
    requires i <= |t| && var ps := Split('.', t[..i]); !IsOctet(ps[|ps| - 1])
    ensures QuadValue(t) == INADDR_NONE
  {
    hide Split;
    SplitPrefix('.', t, i);
    var ps, qs := Split('.', t[..i]), Split('.', t);
    var k := |ps| - 1;
    if IsOctet(qs[k]) {
      assert ps[k] == qs[k][..|ps[k]|];
      LongerNumber(false, qs[k], |ps[k]|);
    }
  }

  /** The first `p` characters are read: `n` numbers are in `addr`, the next one so far is `octet`. */
  ghost predicate Reading(t: Text, p: nat, n: nat, octet: nat, addr: nat) {
    p <= |t| &&
    var ps := Split('.', t[..p]);
    && |ps| == n + 1 && (forall i :: 0 <= i < |ps| ==> IsOctet(ps[i]))
    && octet == Number(false, ps[n]) && (n <= 3 ==> addr == Value(ps[..n]))
  }

  /** ngx_inet_addr, in host order: the value of the four numbers, or INADDR_NONE. */
  method InetAddr(text: Text) returns (addr: nat)
    ensures addr == QuadValue(text)
  {
    hide Reading, QuadValue;
    addr := 0;
    var octet: nat, n: nat := 0, 0;
    NothingRead(text);
    var p := 0;
    while p < |text|
      invariant Reading(text, p, n, octet, addr) && p <= |text|
    {
      var c := text[p];
      if '0' <= c <= '9' {
        ReadDigit(text, p, n, octet, addr);
        octet := octet * 10 + (c as int - '0' as int);
        if octet > 255 {
          return INADDR_NONE;
        }
        p := p + 1;
        continue;
      }
      if c == '.' {
        ReadDot(text, p, n, octet, addr);
        addr := (addr * 256 + octet) % 0x1_0000_0000;
        octet := 0;
        n := n + 1;
        p := p + 1;
        continue;
      }
      ReadOther(text, p);
      return INADDR_NONE;
    }
    AllRead(text, n, octet, addr);
    if n == 3 {
      addr := (addr * 256 + octet) % 0x1_0000_0000;
      return addr;
    }
    return INADDR_NONE;
  }

  lemma NothingRead(t: Text)
    ensures Reading(t, 0, 0, 0, 0)
  {
    assert Split('.', t[..0]) == [""];
  }

  lemma ReadDigit(t: Text, p: nat, n: nat, octet: nat, addr: nat)
    requires p < |t| && '0' <= t[p] <= '9' && Reading(t, p, n, octet, addr)
    ensures var o := octet * 10 + (t[p] as int - '0' as int);
      if o > 255 then QuadValue(t) == INADDR_NONE else Reading(t, p + 1, n, o, addr)
  {
    hide Split, QuadValue, Number, Value;
    var ps, qs := Split('.', t[..p]), Split('.', t[..p + 1]);
    assert IsOctet(ps[n]);
    SplitStep('.', t[..p], t[p]);
    assert t[..p + 1] == t[..p] + [t[p]];
    NumberOfMore(false, ps[n], t[p]);
    assert qs[..n] == ps[..n];
    if !IsOctet(qs[n]) {
      NoOctet(t, p + 1);
    }
  }

  lemma NoDigits()
    ensures IsOctet("") && Number(false, "") == 0
  {
  }

  lemma ReadDot(t: Text, p: nat, n: nat, octet: nat, addr: nat)
    requires p < |t| && t[p] == '.' && Reading(t, p, n, octet, addr)
    ensures Reading(t, p + 1, n + 1, 0, (addr * 256 + octet) % 0x1_0000_0000)
  {
    hide Split, Value, Number, IsOctet;
    SplitStep('.', t[..p], t[p]);
    assert t[..p + 1] == t[..p] + [t[p]];
    var ps, qs := Split('.', t[..p]), Split('.', t[..p + 1]);
    NoDigits();
    assert qs == ps + [""] && qs[..n + 1] == ps == ps[..n] + [ps[n]];
    ValueMore(ps[..n], ps[n]);
    if n <= 2 {
      ValueFits(ps[..n] + [ps[n]]);
    }
  }

  lemma ReadOther(t: Text, p: nat)
    requires p < |t| && t[p] != '.' && Worth(false, t[p]) < 0
    ensures QuadValue(t) == INADDR_NONE
  {
    hide Split, QuadValue;
    SplitStep('.', t[..p], t[p]);
    assert t[..p + 1] == t[..p] + [t[p]];
    var qs := Split('.', t[..p + 1]);
    assert qs[|qs| - 1][|qs[|qs| - 1]| - 1] == t[p];
    NoOctet(t, p + 1);
  }

  lemma AllRead(t: Text, n: nat, octet: nat, addr: nat)
    requires Reading(t, |t|, n, octet, addr)
    ensures QuadValue(t) == if n == 3 then (addr * 256 + octet) % 0x1_0000_0000 else INADDR_NONE
  {
    hide Split;
    assert t[..|t|] == t;
    var ps := Split('.', t);
    if n == 3 {
      ValueMore(ps[..3], ps[3]);
      assert ps[..3] + [ps[3]] == ps;
      ValueFits(ps);
    }
  }

  // ----- IPv6 -----

  /** The first `i` characters are read: `f` is what the pieces say that ended, and the piece being read
      has `nibbles` digits worth `word`. */
  ghost predicate Parsing(b: Text, i: nat, f: Front, nibbles: nat, word: nat) {
    i <= |b| && nibbles <= i &&
    var ps := Split(':', b[..i]);
    var k := |ps| - 1;
    && Scan(ps[..k]) == Some(f) && ps[k] == b[i - nibbles..i] && nibbles <= 4
    && AllDigits(true, ps[k]) && word == Number(true, ps[k])
  }

  ghost predicate ColonRead(b: Text, i: nat) {
    i <= |b| && |Split(':', b[..i])| > 1
  }

  ghost predicate Fails(b: Text) {
    Address(Split(':', b)) == None
  }

  lemma NothingParsed(b: Text)
    ensures Parsing(b, 0, Front([], -1), 0, 0) && !ColonRead(b, 0)
  {
    assert Split(':', b[..0]) == [""];
    assert b[0 - 0..0] == "" && [""][..0] == [];
  }

  /** The first pieces decide alone when they are wrong. */
  lemma {:induction false} ScanFails(ps: seq<Text>, k: nat)
    requires k <= |ps| && Scan(ps[..k]) == None
    ensures Scan(ps) == None
  {
    if k < |ps| {
      assert ps[..|ps| - 1][..k] == ps[..k];
      ScanFails(ps[..|ps| - 1], k);
    } else {
      assert ps[..k] == ps;
    }
  }

  lemma WrongFront(b: Text, i: nat)
    requires i <= |b| && var ps := Split(':', b[..i]); Scan(ps[..|ps| - 1]) == None
    ensures Fails(b)
  {
    hide Scan, Split;
    var ps, qs := Split(':', b[..i]), Split(':', b);
    SplitPrefix(':', b, i);
    var k, n := |ps| - 1, |qs| - 1;
    assert qs[..n][..k] == ps[..k];
    ScanFails(qs[..n], k);
  }

  /** A piece that is neither nothing nor a word nor an address in IPv4 notation. */
  lemma WrongPiece(b: Text, i: nat, f: Front, nibbles: nat, word: nat)
    requires Parsing(b, i, f, nibbles, word)
    requires var k := |Split(':', b[..i])| - 1; k < |Split(':', b)| && var p := Split(':', b)[k];
      p != "" && !IsWord(p) && (k + 1 == |Split(':', b)| ==> !IsQuad(p) || k == 0 || |f.words| == 7)
    ensures Fails(b)
  {
    hide Scan, Split, IsWord, IsQuad;
    SplitPrefix(':', b, i);
    var qs := Split(':', b);
    var n, k := |qs| - 1, |Split(':', b[..i])| - 1;
    if k < n {
      ScanMore(qs[..k], qs[k]);
      assert qs[..n][..k + 1] == qs[..k] + [qs[k]];
      ScanFails(qs[..n], k + 1);
    }
  }

  /** The piece being read goes on at least to the next colon. */
  lemma PieceGoesOn(b: Text, i: nat)
    requires i < |b| && b[i] != ':'
    ensures var k := |Split(':', b[..i])| - 1;
      k < |Split(':', b)| && Split(':', b[..i])[k] + [b[i]] <= Split(':', b)[k]
  {
    hide Split;
    SplitStep(':', b[..i], b[i]);
    assert b[..i + 1] == b[..i] + [b[i]];
    SplitPrefix(':', b, i + 1);
  }

  lemma ParseDigit(b: Text, i: nat, f: Front, nibbles: nat, word: nat)
    requires i < |b| && Parsing(b, i, f, nibbles, word) && nibbles < 4
    requires b[i] != ':' && Worth(true, b[i]) >= 0
    ensures Parsing(b, i + 1, f, nibbles + 1, word * 16 + Worth(true, b[i]))
    ensures ColonRead(b, i + 1) == ColonRead(b, i)
  {
    hide Scan, Split;
    SplitStep(':', b[..i], b[i]);
    assert b[..i + 1] == b[..i] + [b[i]];
    var ps := Split(':', b[..i]);
    NumberOfMore(true, ps[|ps| - 1], b[i]);
    assert b[i + 1 - (nibbles + 1)..i + 1] == b[i - nibbles..i] + [b[i]];
    var qs := Split(':', b[..i + 1]);
    assert qs[..|qs| - 1] == ps[..|ps| - 1];
  }

  lemma ParseColon(b: Text, i: nat, f: Front, nibbles: nat, word: nat)
    requires i < |b| && Parsing(b, i, f, nibbles, word) && b[i] == ':'
    ensures word < 0x10000 && ColonRead(b, i + 1) && (nibbles == 0 ==> word == 0)
    ensures if nibbles > 0 then
        if |f.words| < 7 then Parsing(b, i + 1, Front(f.words + [word], f.gap), 0, 0) else Fails(b)
      else if f.gap < 0 then Parsing(b, i + 1, Front(f.words, |f.words|), 0, 0) else Fails(b)
  {
    hide Scan, Split, Fails;
    SplitStep(':', b[..i], b[i]);
    assert b[..i + 1] == b[..i] + [b[i]];
    var ps, qs := Split(':', b[..i]), Split(':', b[..i + 1]);
    var k := |ps| - 1;
    WordValue(ps[k]);
    ScanMore(ps[..k], ps[k]);
    assert qs[..k + 1] == ps && ps == ps[..k] + [ps[k]];
    assert b[i + 1 - 0..i + 1] == "" && Number(true, "") == 0;
    if Scan(qs[..k + 1]) == None {
      WrongFront(b, i + 1);
    }
  }

  lemma ParseBad(b: Text, i: nat, f: Front, nibbles: nat, word: nat)
    requires i < |b| && Parsing(b, i, f, nibbles, word)
    requires b[i] != ':' && (b[i] == '.' ==> nibbles == 0) && (nibbles == 4 || Worth(true, b[i]) < 0)
    ensures Fails(b)
  {
    hide Scan, Split;
    PieceGoesOn(b, i);
    var k := |Split(':', b[..i])| - 1;
    var p := Split(':', b)[k];
    assert p[nibbles] == b[i];
    assert !IsWord(p) by {
      if AllDigits(true, p) {
        assert Worth(true, p[nibbles]) >= 0;
      }
    }
    if IsQuad(p) {
      NoDotYet(p, nibbles);
      BeforeDot(p);
      assert false;
    }
    WrongPiece(b, i, f, nibbles, word);
  }

  lemma NoDotYet(p: Text, n: nat)
    requires n < |p| && AllDigits(true, p[..n]) && (p[n] == '.' ==> n == 0)
    ensures DotAt(p) == 0 || DotAt(p) > n
  {
    forall j | 0 <= j < n
      ensures p[j] != '.'
    {
      assert p[..n][j] == p[j] && Worth(true, p[..n][j]) >= 0;
    }
  }

  /** What is before the first dot of an address is a number. */
  lemma BeforeDot(p: Text)
    requires DotAt(p) < |p| && QuadValue(p) != INADDR_NONE
    ensures forall i :: 0 <= i < DotAt(p) ==> Worth(false, p[i]) >= 0
  {
    hide Split, Number;
    var n := DotAt(p);
    var qs := Split('.', p);
    SplitPrefix('.', p, n);
    FreeSplit('.', p[..n]);
    assert p[..n] <= qs[0] && IsOctet(qs[0]);
    forall i | 0 <= i < n
      ensures Worth(false, p[i]) >= 0
    {
      assert p[i] == p[..n][i] == qs[0][i];
    }
  }

  lemma FreeSplit(sep: char, p: Text)
    requires Free(sep, p)
    ensures Split(sep, p) == [p]
  {
    SplitMore(sep, "", p);
    SplitNil(sep);
    assert "" + p == p && [""][..0] + [p] == [p];
  }

  /** Only the last piece can be an address in IPv4 notation. */
  lemma {:induction false} QuadHasNoColon(t: Text)
    requires forall i :: 0 <= i < |Split('.', t)| ==> Free(':', Split('.', t)[i])
    ensures Free(':', t)
  {
    if t != "" {
      var n := |t| - 1;
      SplitStep('.', t[..n], t[n]);
      assert t == t[..n] + [t[n]];
      var ps, qs := Split('.', t[..n]), Split('.', t);
      var k := |ps| - 1;
      forall i | 0 <= i < |ps|
        ensures Free(':', ps[i])
      {
        assert Free(':', qs[i]);
        assert i < k ==> qs[i] == ps[i];
        assert t[n] != '.' ==> qs[k] == ps[k] + [t[n]] && qs[k][|ps[k]|] == t[n] && forall j :: 0 <= j < |ps[k]| ==>
          qs[k][j] == ps[k][j];
      }
      QuadHasNoColon(t[..n]);
      assert t[n] != '.' ==> qs[k][|ps[k]|] == t[n];
    }
  }

  lemma QuadIsLast(b: Text, i: nat)
    requires i <= |b| && var k := |Split(':', b[..i])| - 1; |Split(':', b[..i])[k]| <= i
    requires var p := Split(':', b[..i]); var k := |p| - 1; p[k] == b[i - |p[k]|..i] && Free(':', b[i..])
    ensures var ps := Split(':', b[..i]); var k := |ps| - 1;
      Split(':', b) == ps[..k] + [b[i - |ps[k]|..]]
  {
    hide Split;
    SplitMore(':', b[..i], b[i..]);
    assert b == b[..i] + b[i..];
    var ps := Split(':', b[..i]);
    var k := |ps| - 1;
    assert b[i - |ps[k]|..] == ps[k] + b[i..];
  }

  lemma QuadIsFree(t: Text)
    requires QuadValue(t) != INADDR_NONE
    ensures Free(':', t)
  {
    hide Split;
    forall i | 0 <= i < |Split('.', t)|
      ensures Free(':', Split('.', t)[i])
    {
      assert IsOctet(Split('.', t)[i]);
    }
    QuadHasNoColon(t);
  }

  lemma ParseQuad(b: Text, i: nat, f: Front, nibbles: nat, word: nat)
    requires i < |b| && Parsing(b, i, f, nibbles, word) && b[i] == '.' && nibbles > 0
    ensures var q := QuadValue(b[i - nibbles..]);
      if |f.words| == 7 || !ColonRead(b, i) || q == INADDR_NONE then Fails(b)
      else Address(Split(':', b)) == Filled(f.words + [q / 0x10000] + [q % 0x10000], f.gap)
  {
    hide Scan, Address, Split, QuadValue, Filled;
    if QuadValue(b[i - nibbles..]) != INADDR_NONE {
      ParseGoodQuad(b, i, f, nibbles, word);
    } else {
      ParseBadQuad(b, i, f, nibbles, word);
    }
  }

  lemma ParseGoodQuad(b: Text, i: nat, f: Front, nibbles: nat, word: nat)
    requires i < |b| && Parsing(b, i, f, nibbles, word) && b[i] == '.' && nibbles > 0
    requires QuadValue(b[i - nibbles..]) != INADDR_NONE
    ensures var q := QuadValue(b[i - nibbles..]);
      if |f.words| == 7 || !ColonRead(b, i) then Fails(b)
      else Address(Split(':', b)) == Filled(f.words + [q / 0x10000] + [q % 0x10000], f.gap)
  {
    hide Scan, Split, QuadValue, Filled, Address, DotAt, IsWord;
    GoodQuadIsLast(b, i, f, nibbles, word);
    if |f.words| == 7 || !ColonRead(b, i) {
      WrongPiece(b, i, f, nibbles, word);
    } else {
      AddressOfQuad(Split(':', b), f, b[i - nibbles..]);
    }
  }

  lemma GoodQuadIsLast(b: Text, i: nat, f: Front, nibbles: nat, word: nat)
    requires i < |b| && Parsing(b, i, f, nibbles, word) && b[i] == '.' && nibbles > 0
    requires QuadValue(b[i - nibbles..]) != INADDR_NONE
    ensures var t, ps, qs := b[i - nibbles..], Split(':', b[..i]), Split(':', b);
      && |qs| == |ps| && qs[|qs| - 1] == t && qs[..|qs| - 1] == ps[..|ps| - 1]
      && t != "" && !IsWord(t) && IsQuad(t)
  {
    hide Scan, Split, QuadValue, IsWord;
    var t := b[i - nibbles..];
    var ps := Split(':', b[..i]);
    assert ps[|ps| - 1] == t[..nibbles] && t[nibbles] == '.';
    DotIsHere(t, nibbles);
    QuadIsFree(t);
    assert forall j :: 0 <= j < |b[i..]| ==> b[i..][j] == t[nibbles + j];
    QuadIsLast(b, i);
  }

  lemma AddressOfQuad(qs: seq<Text>, f: Front, t: Text)
    requires |qs| > 1 && Scan(qs[..|qs| - 1]) == Some(f) && qs[|qs| - 1] == t && t != "" && !IsWord(t) && IsQuad(t)
    ensures Address(qs) == Filled(f.words + [QuadValue(t) / 0x10000] + [QuadValue(t) % 0x10000], f.gap)
  {
    hide Scan, QuadValue, Filled, IsWord, IsQuad;
    var high: Word, low: Word := QuadValue(t) / 0x10000, QuadValue(t) % 0x10000;
    assert f.words + [high] + [low] == f.words + [high, low];
  }

  lemma ParseBadQuad(b: Text, i: nat, f: Front, nibbles: nat, word: nat)
    requires i < |b| && Parsing(b, i, f, nibbles, word) && b[i] == '.' && nibbles > 0
    requires QuadValue(b[i - nibbles..]) == INADDR_NONE
    ensures Fails(b)
  {
    hide Scan, Split, QuadValue, Address;
    PieceGoesOn(b, i);
    var ps, qs := Split(':', b[..i]), Split(':', b);
    var k := |ps| - 1;
    assert qs[k][nibbles] == '.' && qs[k][..nibbles] == ps[k];
    DotIsHere(qs[k], nibbles);
    if k + 1 == |qs| {
      LastIsRest(b, i);
    }
    WrongPiece(b, i, f, nibbles, word);
  }

  lemma DotIsHere(t: Text, n: nat)
    requires 1 <= n < |t| && t[n] == '.' && AllDigits(true, t[..n])
    ensures DotAt(t) == n && !IsWord(t) && t != ""
  {
    forall j | 0 <= j < n
      ensures t[j] != '.'
    {
      assert Worth(true, t[..n][j]) >= 0;
    }
    assert Worth(true, t[n]) < 0;
  }

  /** If the piece being read is the last, it is the whole rest of the text. */
  lemma LastIsRest(b: Text, i: nat)
    requires i <= |b| && |Split(':', b)| == |Split(':', b[..i])|
    requires var ps := Split(':', b[..i]); var k := |ps| - 1; |ps[k]| <= i && ps[k] == b[i - |ps[k]|..i]
    ensures var ps := Split(':', b[..i]); var k := |ps| - 1; Split(':', b)[k] == b[i - |ps[k]|..]
  {
    hide Split;
    NoMoreColons(b, i);
    QuadIsLast(b, i);
  }

  lemma {:induction false} NoMoreColons(b: Text, i: nat)
    requires i <= |b| && |Split(':', b)| == |Split(':', b[..i])|
    ensures Free(':', b[i..])
  {
    hide Split;
    forall j | 0 <= j < |b[i..]|
      ensures b[i..][j] != ':'
    {
      SplitPrefix(':', b[..i + j], i);
      assert b[..i + j][..i] == b[..i];
      SplitStep(':', b[..i + j], b[i + j]);
      assert b[..i + j + 1] == b[..i + j] + [b[i + j]];
      SplitPrefix(':', b, i + j + 1);
    }
  }

  lemma ParseEnd(b: Text, f: Front, nibbles: nat, word: nat)
    requires Parsing(b, |b|, f, nibbles, word)
    ensures word < 0x10000
    ensures Address(Split(':', b)) == if nibbles == 0 && f.gap < 0 then None else Filled(f.words + [word], f.gap)
  {
    hide Scan, Split, Filled;
    assert b[..|b|] == b;
    var ps := Split(':', b);
    WordValue(ps[|ps| - 1]);
  }

  lemma WordsMore(b: seq<Octet>, h: Octet, l: Octet)
    requires |b| % 2 == 0
    ensures WordsOf(b + [h, l]) == WordsOf(b) + [Pair(h, l)]
  {
    var w := WordsOf(b + [h, l]);
    assert |w| == |WordsOf(b)| + 1;
    forall i | 0 <= i < |w|
      ensures w[i] == (WordsOf(b) + [Pair(h, l)])[i]
    {
      assert i < |b| / 2 ==> (b + [h, l])[2 * i] == b[2 * i] && (b + [h, l])[2 * i + 1] == b[2 * i + 1];
    }
  }

  // *addr++ = word >> 8; *addr++ = word & 0xff
  method PutWord(addr: array<Octet>, a: nat, word: nat)
    requires a + 2 <= addr.Length && a % 2 == 0
    modifies addr
    ensures WordsOf(addr[..a + 2]) == WordsOf(old(addr[..a])) + [word % 0x10000]
  {
    hide WordsOf, Pair;
    ghost var b := addr[..a];
    addr[a] := word / 256 % 256;
    addr[a + 1] := word % 256;
    WordsMore(b, word / 256 % 256, word % 256);
    PairOfWord(word);
    assert addr[..a + 2] == b + [word / 256 % 256, word % 256];
  }

  lemma PairOfWord(word: nat)
    ensures Pair(word / 256 % 256, word % 256) == word % 0x10000
  {
  }

  // The words behind the "::" move to the end, and zero bytes fill the gap.
  method OpenGap(addr: array<Octet>, zero: nat, a: nat, n: nat)
    requires zero <= a && a + n == addr.Length && n > 0
    modifies addr
    ensures forall i {:trigger addr[i]} :: 0 <= i < addr.Length ==>
      addr[i] == if i < zero then old(addr[i]) else if i < zero + n then 0 else old(addr[i - n])
  {
    var s: int, d: int := a - 1, a - 1 + n;
    while s >= zero
      invariant zero - 1 <= s < a && d == s + n
      invariant forall i :: 0 <= i < addr.Length ==>
        addr[i] == if i <= d then old(addr[i]) else old(addr[i - n])
    {
      addr[d] := addr[s];
      d, s := d - 1, s - 1;
    }
    var i := zero;
    while i < zero + n
      invariant zero <= i <= zero + n
      invariant forall j :: 0 <= j < addr.Length ==>
        addr[j] ==
          if j < zero then old(addr[j])
          else if j < i then 0 else if j < zero + n then old(addr[j]) else old(addr[j - n])
    {
      addr[i] := 0;
      i := i + 1;
    }
  }

  /** Zero words between the first words and the others. */
  lemma GapInWords(b: seq<Octet>, c: seq<Octet>, z: nat, h: nat)
    requires |b| % 2 == 0 && 2 * z <= |b| && |c| == |b| + 2 * h
    requires forall i {:trigger c[i]} :: 0 <= i < |c| ==>
      c[i] == if i < 2 * z then b[i] else if i < 2 * z + 2 * h then 0 else b[i - 2 * h]
    ensures WordsOf(c) == WordsOf(b)[..z] + Zeros(h) + WordsOf(b)[z..]
  {
    var w := WordsOf(b)[..z] + Zeros(h) + WordsOf(b)[z..];
    assert |w| == |WordsOf(c)|;
    forall i | 0 <= i < |w|
      ensures WordsOf(c)[i] == w[i]
    {
      assert WordsOf(c)[i] == Pair(c[2 * i], c[2 * i + 1]);
      if i < z {
        assert w[i] == WordsOf(b)[i] == Pair(b[2 * i], b[2 * i + 1]);
      } else if i < z + h {
        assert w[i] == 0 && c[2 * i] == 0 && c[2 * i + 1] == 0;
      } else {
        var k := i - h;
        assert w[i] == WordsOf(b)[z..][k - z] == WordsOf(b)[k] == Pair(b[2 * k], b[2 * k + 1]);
      }
    }
  }

  /** The address as far as it was parsed. */
  ghost predicate Stored(b: seq<Octet>, f: Front, a: nat, zero: int) {
    && a == 2 * |f.words| && a <= |b| && WordsOf(b[..a]) == f.words
    && -1 <= f.gap <= |f.words| && zero == if f.gap < 0 then -1 else 2 * f.gap
  }

  // The end of the parser: eight words, or a gap to be filled.
  method Complete(addr: array<Octet>, a: nat, n: nat, zero: int, ghost f: Front) returns (ok: bool)
    requires addr.Length == 16 && n == 8 - |f.words| && |f.words| <= 8 && Stored(addr[..], f, a, zero)
    modifies addr
    ensures ok <==> Filled(f.words, f.gap).Some?
    ensures ok ==> WordsOf(addr[..]) == Filled(f.words, f.gap).value
  {
    hide WordsOf;
    assert addr[..][..a] == addr[..a];
    if n > 0 {
      if zero >= 0 {
        ghost var b := addr[..a];
        OpenGap(addr, zero, a, 2 * n);
        GapInWords(b, addr[..], zero / 2, n);
        return true;
      }
      return false;
    }
    assert addr[..a] == addr[..];
    return zero < 0;
  }

  method HexDigit(c: char) returns (v: int)
    ensures v == Worth(true, c) && v < 16
  {
    if '0' <= c <= '9' {
      return c as int - '0' as int;
    }
    var l := Lowered(c);
    if 'a' <= l <= 'f' {
      return l as int - 'a' as int + 10;
    }
    return -1;
  }

  /** ngx_inet6_addr: the address the text means, or an error exactly if it means none. */
  method Inet6Addr(text: Text, addr: array<Octet>) returns (ok: bool)
    requires addr.Length == 16
    modifies addr
    ensures ok <==> Meaning(text).Some?
    ensures ok ==> WordsOf(addr[..]) == Meaning(text).value
  {
    hide Parsing, ColonRead, Address, Worth, QuadValue, Meaning, Filled, WordsOf, Split;
    MeaningIs(text);
    if text == "" {
      return false;
    }
    var b := if text[0] == ':' then text[1..] else text;
    var zero: int, digit: int := -1, -1;
    var nibbles: nat, word: nat, n: nat, a: nat := 0, 0, 8, 0;
    ghost var f, quad := Front([], -1), false;
    NothingParsed(b);
    NoWords(addr[..]);
    var p := 0;
    while p < |b|
      invariant !quad && p <= |b| && nibbles <= 4 && nibbles <= p && |f.words| <= 7 && n == 8 - |f.words|
      invariant Parsing(b, p, f, nibbles, word) && Stored(addr[..], f, a, zero)
      invariant if ColonRead(b, p) then digit == p - nibbles else digit == -1
    {
      var c := b[p];
      if c == ':' {
        ParseColon(b, p, f, nibbles, word);
        if nibbles > 0 {
          digit := p + 1;
          StoreWord(addr, a, word, f, zero);
          a, n := a + 2, n - 1;
          if n > 0 {
            f := Front(f.words + [word], f.gap);
            nibbles, word, p := 0, 0, p + 1;
            continue;
          }
        } else if zero < 0 {
          digit, zero := p + 1, a;
          f := Front(f.words, |f.words|);
          p := p + 1;
          continue;
        }
        return false;
      }
      if c == '.' && nibbles > 0 {
        ParseQuad(b, p, f, nibbles, word);
        if n < 2 || digit < 0 {
          return false;
        }
        word := InetAddr(b[digit..]);
        if word == INADDR_NONE {
          return false;
        }
        StoreWord(addr, a, word / 0x10000, f, zero);
        f := Front(f.words + [word / 0x10000], f.gap);
        a, n := a + 2, n - 1;
        quad := true;
        break;
      }
      if nibbles == 4 {
        ParseBad(b, p, f, nibbles, word);
        return false;
      }
      var v := HexDigit(c);
      if v < 0 {
        ParseBad(b, p, f, nibbles, word);
        return false;
      }
      ParseDigit(b, p, f, nibbles, word);
      word := word * 16 + v;
      nibbles, p := nibbles + 1, p + 1;
    }
    if !quad {
      ParseEnd(b, f, nibbles, word);
    }
    if nibbles == 0 && zero < 0 {
      return false;
    }
    StoreWord(addr, a, word, f, zero);
    ok := Complete(addr, a + 2, n - 1, zero, Front(f.words + [word % 0x10000], f.gap));
  }

  lemma MeaningIs(t: Text)
    ensures t == "" ==> Meaning(t) == None
    ensures t != "" ==> Meaning(t) == Address(Split(':', if t[0] == ':' then t[1..] else t))
  {
  }

  lemma NoWords(b: seq<Octet>)
    ensures Stored(b, Front([], -1), 0, -1)
  {
  }

  method StoreWord(addr: array<Octet>, a: nat, word: nat, ghost f: Front, zero: int)
    requires a + 2 <= addr.Length && Stored(addr[..], f, a, zero)
    modifies addr
    ensures Stored(addr[..], Front(f.words + [word % 0x10000], f.gap), a + 2, zero)
  {
    assert addr[..][..a] == addr[..a];
    PutWord(addr, a, word);
    assert addr[..][..a + 2] == addr[..a + 2];
  }

  // ----- printing -----

  lemma StaysLeft(a: seq<Word>, k: nat, n: nat, j: nat, l: nat)
    requires k + n <= |a| && IsZero(a[..k + n], j, l) && l > 0 && (n > 0 && k > 0 ==> a[k - 1] != 0)
    ensures (j >= k && l <= n) || (j + l <= k && IsZero(a[..k], j, l))
  {
    assert forall i :: j <= i < j + l ==> a[i] == a[..k + n][i];
    assert j + l <= k ==> forall i :: j <= i < j + l ==> a[..k][i] == a[i];
  }

  /** The best run of zero words before word `k`, where a run of `n` zero words starts. */
  lemma GapStep(a: seq<Word>, k: nat, n: nat, z: int, m: nat)
    requires k + n <= |a| && IsGap(a[..k], z, m) && IsZero(a, k, n) && (n > 0 && k > 0 ==> a[k - 1] != 0)
    ensures var e := if n > m then k + n else k;
      IsGap(a[..k + n], if n > m then k else z, if n > m then n else m)
  {
    var b, c := a[..k], a[..k + n];
    forall j: nat, l: nat | IsZero(c, j, l) && l > 0
      ensures (j >= k && l <= n) || (j + l <= k && IsZero(b, j, l))
    {
      StaysLeft(a, k, n, j, l);
    }
    if n > m {
      assert IsZero(c, k, n);
      if z >= 0 { assert IsZero(b, z, m); }
    } else if z >= 0 {
      assert IsZero(b, z, m);
      assert forall i :: z <= i < z + m ==> c[i] == b[i];
    }
  }

  /** A word that is not zero ends a run. */
  lemma GapEnds(a: seq<Word>, k: nat, z: int, m: nat)
    requires k < |a| && a[k] != 0 && IsGap(a[..k], z, m)
    ensures IsGap(a[..k + 1], z, m)
  {
    var b, c := a[..k], a[..k + 1];
    forall j: nat, l: nat | IsZero(c, j, l) && l > 0
      ensures j + l <= k && IsZero(b, j, l)
    {
      assert c[k] == a[k];
      assert forall i :: j <= i < j + l ==> c[i] == 0;
      assert j + l <= k;
      assert forall i :: j <= i < j + l ==> b[i] == c[i];
    }
    if z >= 0 {
      assert IsZero(b, z, m);
      assert forall i :: z <= i < z + m ==> c[i] == b[i];
    }
  }

  lemma NoGapYet(a: seq<Word>)
    ensures Looking(a, 0, 0, -1, -1, 1)
  {
  }

  // A byte offset as a word offset.
  function Half(zero: int): int {
    if zero < 0 then -1 else zero / 2
  }

  /** The first `g` words are seen; a run of `n` zero words has just been read, the best one before it is
      at byte `zero` and has `max` words. */
  ghost predicate Looking(a: seq<Word>, g: nat, n: nat, last: int, zero: int, max: nat) {
    && n <= g <= |a| && (zero == -1 || (zero >= 0 && zero % 2 == 0))
    && IsGap(a[..g - n], Half(zero), max) && IsZero(a, g - n, n)
    && (n > 0 ==> last == 2 * (g - n) && (g > n ==> a[g - n - 1] != 0))
  }

  lemma LookZero(a: seq<Word>, g: nat, n: nat, last: int, zero: int, max: nat)
    requires Looking(a, g, n, last, zero, max) && g < |a| && a[g] == 0 && (n == 0 && g > 0 ==> a[g - 1] != 0)
    ensures Looking(a, g + 1, n + 1, if n == 0 then 2 * g else last, zero, max)
  {
    hide IsGap;
    assert g + 1 - (n + 1) == g - n;
  }

  lemma LookEnd(a: seq<Word>, g: nat, n: nat, last: int, zero: int, max: nat)
    requires Looking(a, g, n, last, zero, max)
    ensures IsGap(a[..g], Half(if max < n then last else zero), if max < n then n else max)
  {
    GapStep(a, g - n, n, Half(zero), max);
  }

  lemma LookOther(a: seq<Word>, g: nat, n: nat, last: int, zero: int, max: nat)
    requires Looking(a, g, n, last, zero, max) && g < |a| && a[g] != 0
    ensures Looking(a, g + 1, 0, last, if max < n then last else zero, if max < n then n else max)
  {
    hide IsGap;
    LookEnd(a, g, n, last, zero, max);
    GapEnds(a, g, Half(if max < n then last else zero), if max < n then n else max);
  }

  /** The first loop of ngx_inet6_ntop: the first longest run of zero words, if it is two or more. */
  method FindGap(p: seq<Octet>) returns (zero: int, max: nat)
    requires |p| == 16
    ensures zero == -1 || (zero >= 0 && zero % 2 == 0)
    ensures IsGap(WordsOf(p), Half(zero), max)
  {
    hide IsGap, Looking;
    ghost var a := WordsOf(p);
    zero, max := -1, 1;
    var last: int, n: nat := -1, 0;
    var i := 0;
    NoGapYet(a);
    while i < 16
      invariant 0 <= i <= 16 && i % 2 == 0
      invariant Looking(a, i / 2, n, last, zero, max) && (n == 0 && i > 0 ==> a[i / 2 - 1] != 0)
    {
      assert a[i / 2] == Pair(p[i], p[i + 1]);
      if p[i] != 0 || p[i + 1] != 0 {
        LookOther(a, i / 2, n, last, zero, max);
        if max < n {
          zero, max := last, n;
        }
        n := 0;
        i := i + 2;
        continue;
      }
      LookZero(a, i / 2, n, last, zero, max);
      if n == 0 {
        last := i;
      }
      n := n + 1;
      i := i + 2;
    }
    assert a[..8] == a;
    LookEnd(a, 8, n, last, zero, max);
    EvenStart(a, n, last, zero, max);
    if max < n {
      zero, max := last, n;
    }
  }

  lemma EvenStart(a: seq<Word>, n: nat, last: int, zero: int, max: nat)
    requires Looking(a, 8, n, last, zero, max)
    ensures zero == -1 || (zero >= 0 && zero % 2 == 0)
    ensures n > 0 ==> last >= 0 && last % 2 == 0
  {
  }

  // "%xd", and a colon behind all words but the last
  method PutHex(buf: array<char>, at: nat, w: Word, colon: bool) returns (end: nat)
    requires at + |Digits(true, w)| < buf.Length
    modifies buf
    ensures end <= buf.Length && buf[..end] == old(buf[..at]) + Digits(true, w) + (if colon then ":" else "")
  {
    hide Digits;
    end := PutNumber(buf, at, true, w);
    if colon {
      end := Put(buf, end, ':');
    }
  }

  // "%ud.%ud"
  method PutPair(buf: array<char>, at: nat, a: Octet, b: Octet) returns (end: nat)
    requires at + 7 <= buf.Length
    modifies buf
    ensures end <= at + 7 && buf[..end] == old(buf[..at]) + PairText(a, b)
  {
    hide Digits;
    OctetIsShort(a);
    OctetIsShort(b);
    end := PutNumber(buf, at, false, a);
    end := Put(buf, end, '.');
    end := PutNumber(buf, end, false, b);
  }

  function PairText(a: Octet, b: Octet): Text {
    Digits(false, a) + "." + Digits(false, b)
  }

  // "%ud.%ud.%ud.%ud"
  method PutQuad(buf: array<char>, at: nat, a: Octet, b: Octet, c: Octet, d: Octet) returns (end: nat)
    requires at + 15 <= buf.Length
    modifies buf
    ensures end <= at + 15 && buf[..end] == old(buf[..at]) + Quad(Pair(a, b), Pair(c, d))
  {
    hide PairText, Quad, Pair;
    QuadText(a, b, c, d);
    end := PutPair(buf, at, a, b);
    end := Put(buf, end, '.');
    end := PutPair(buf, end, c, d);
  }

  lemma QuadText(a: Octet, b: Octet, c: Octet, d: Octet)
    ensures Quad(Pair(a, b), Pair(c, d)) == PairText(a, b) + "." + PairText(c, d)
  {
    hide Digits, Pair;
    PairParts(a, b);
    PairParts(c, d);
  }

  lemma PairParts(a: Octet, b: Octet)
    ensures Pair(a, b) / 256 == a && Pair(a, b) % 256 == b
  {
  }

  /** The pieces that are complete when the printer is at word `g`. */
  function PiecesTo(a: seq<Word>, z: int, m: nat, g: nat): seq<Text>
    requires g <= |a| && (z < 0 || g <= z || z + m <= g)
  {
    if z < 0 || (g <= z && z > 0) then Hexes(a[..g])
    else if g <= z then [""]
    else (if z == 0 then [""] else Hexes(a[..z])) + [""] + Hexes(a[z + m..g])
  }

  lemma WordDone(a: seq<Word>, z: int, m: nat, g: nat)
    requires |a| == 8 && g < 8 && (z < 0 || g < z || (z + m <= g && m > 0))
    ensures PiecesTo(a, z, m, g + 1) == PiecesTo(a, z, m, g) + [Digits(true, a[g])]
    ensures Lead(PiecesTo(a, z, m, g + 1)) == Lead(PiecesTo(a, z, m, g)) + Digits(true, a[g]) + ":"
  {
    hide Digits, Lead, Hexes;
    HexesMore(a, if z < 0 || g < z then 0 else z + m, g);
    LeadMore(PiecesTo(a, z, m, g), Digits(true, a[g]));
  }

  lemma GapDone(a: seq<Word>, z: nat, m: nat)
    requires |a| == 8 && z + m <= 8 && m > 0
    ensures Lead(PiecesTo(a, z, m, z + m)) == Lead(PiecesTo(a, z, m, z)) + ":"
  {
    hide Digits, Lead;
    assert Hexes(a[z + m..z + m]) == [];
    assert PiecesTo(a, z, m, z + m) == PiecesTo(a, z, m, z) + [""];
    LeadMore(PiecesTo(a, z, m, z), "");
  }

  lemma PrintStart(a: seq<Word>, z: int, m: nat)
    requires |a| == 8 && -1 <= z
    ensures Lead(PiecesTo(a, z, m, 0)) == if z == 0 then ":" else ""
  {
    assert Hexes(a[..0]) == [];
    LeadMore([], "");
  }

  /** The last piece has no colon behind it. */
  lemma PrintEnd(a: seq<Word>, z: int, m: nat)
    requires |a| == 8 && IsGap(a, z, m) && z + m <= 8
    ensures !Mixed(a, z, m) && (z < 0 || z + m < 8) ==>
      Printed(a, z, m) == Lead(PiecesTo(a, z, m, 7)) + Digits(true, a[7])
    ensures !Mixed(a, z, m) && z >= 0 && z + m == 8 ==> Printed(a, z, m) == Lead(PiecesTo(a, z, m, 8))
    ensures Mixed(a, z, m) ==> Printed(a, z, m) == Lead(PiecesTo(a, z, m, if m == 7 then 7 else 6)) + Quad(a[6], a[7])
  {
    hide Digits, Lead, Join, IsGap, Quad, Mixed, Printed, PiecesTo;
    if z >= 0 {
      GapIsLong(a, z, m);
    }
    if Mixed(a, z, m) {
      MixedEnd(a, z, m);
    } else if z >= 0 && z + m == 8 {
      GapEnd(a, z, m);
    } else {
      WordEnd(a, z, m);
    }
  }

  lemma MixedEnd(a: seq<Word>, z: int, m: nat)
    requires |a| == 8 && z + m <= 8 && Mixed(a, z, m)
    ensures Printed(a, z, m) == Lead(PiecesTo(a, z, m, if m == 7 then 7 else 6)) + Quad(a[6], a[7])
  {
    hide Digits, Lead, Join, Quad;
    assert Hexes(a[6..6]) == [] && Hexes(a[7..7]) == [];
    assert Pieces(a, z, m) == PiecesTo(a, z, m, if m == 7 then 7 else 6) + [Quad(a[6], a[7])];
    JoinIsLead(PiecesTo(a, z, m, if m == 7 then 7 else 6), Quad(a[6], a[7]));
  }

  lemma GapEnd(a: seq<Word>, z: nat, m: nat)
    requires |a| == 8 && z + m == 8 && m >= 2 && !Mixed(a, z, m)
    ensures Printed(a, z, m) == Lead(PiecesTo(a, z, m, 8))
  {
    hide Digits, Lead, Join, Mixed;
    assert Hexes(a[8..8]) == [];
    assert Pieces(a, z, m) == PiecesTo(a, z, m, 8) + [""];
    JoinIsLead(PiecesTo(a, z, m, 8), "");
    assert Lead(PiecesTo(a, z, m, 8)) + "" == Lead(PiecesTo(a, z, m, 8));
  }

  lemma WordEnd(a: seq<Word>, z: int, m: nat)
    requires |a| == 8 && (z < 0 || (z + m < 8 && m >= 2)) && !Mixed(a, z, m)
    ensures z + m <= 8 ==> Printed(a, z, m) == Lead(PiecesTo(a, z, m, 7)) + Digits(true, a[7])
  {
    hide Digits, Lead, Join, Mixed, Hexes;
    var from := if z < 0 then 0 else z + m;
    HexesMore(a, from, 7);
    assert a[from..8] == a[from..] && a[0..] == a;
    if z + m <= 8 {
      assert Pieces(a, z, m) == PiecesTo(a, z, m, 7) + [Digits(true, a[7])];
      JoinIsLead(PiecesTo(a, z, m, 7), Digits(true, a[7]));
    }
  }

  /** The words up to byte `i` are printed, and `t` is the text so far; at the end it is complete unless
      the address ends in IPv4 notation. */
  ghost predicate Printing(a: seq<Word>, z: int, m: nat, i: nat, t: Text, done: bool) {
    && |a| == 8 && IsGap(a, z, m) && z + m <= 8 && (z >= 0 ==> m >= 2)
    && i <= 16 && i % 2 == 0 && (z < 0 || i <= 2 * z || 2 * (z + m) <= i)
    && |t| <= (if z >= 0 && i > 2 * z then 2 + 5 * (i / 2 - m) else 1 + 5 * (i / 2))
    && (if done then i == 16 && !Mixed(a, z, m) && t == Printed(a, z, m)
        else t == Lead(PiecesTo(a, z, m, i / 2)) && (i == 16 ==> z >= 0 && z + m == 8))
  }

  lemma StartPrinting(a: seq<Word>, z: int, m: nat)
    requires |a| == 8 && IsGap(a, z, m)
    ensures z + m <= 8 && -1 <= z && (z >= 0 ==> m >= 2) && Printing(a, z, m, 0, if z == 0 then ":" else "", false)
  {
    hide Lead;
    PrintStart(a, z, m);
  }

  lemma PrintGap(a: seq<Word>, z: nat, m: nat, t: Text, done: bool)
    requires Printing(a, z, m, 2 * z, t, done)
    ensures |t| < TEXT_LEN && Printing(a, z, m, 2 * z + 2 * m, t + ":", false)
  {
    hide Lead, IsGap;
    GapDone(a, z, m);
  }

  lemma PrintWord(a: seq<Word>, z: int, m: nat, i: nat, t: Text, done: bool)
    requires Printing(a, z, m, i, t, done) && i < 16 && i != 2 * z && (i < 14 || !Mixed(a, z, m))
    ensures var h := Digits(true, a[i / 2]);
      && |t| + |h| < TEXT_LEN && |h| <= 4
      && Printing(a, z, m, i + 2, t + h + (if i < 14 then ":" else ""), i == 14)
  {
    hide Lead, IsGap, Digits, Mixed, Printed, PiecesTo;
    var g := i / 2;
    HexIsWord(a[g]);
    if i < 14 {
      WordDone(a, z, m, g);
    } else {
      PrintEnd(a, z, m);
      assert t + Digits(true, a[g]) + "" == t + Digits(true, a[g]);
    }
  }

  lemma PrintedAll(a: seq<Word>, z: int, m: nat, i: nat, t: Text, done: bool)
    requires Printing(a, z, m, i, t, done) && i == if Mixed(a, z, m) then if m == 7 then 14 else 12 else 16
    ensures if Mixed(a, z, m) then |t| <= 30 && Printed(a, z, m) == t + Quad(a[6], a[7])
      else |t| <= 45 && t == Printed(a, z, m)
  {
    hide Lead, IsGap, Digits, Quad, Printed;
    PrintEnd(a, z, m);
    assert Mixed(a, z, m) && m == 6 ==> Hexes(a[6..7]) == [Digits(true, a[6])];
  }

  lemma BeforeQuad(a: seq<Word>, z: int, m: nat, i: nat, t: Text, done: bool)
    requires Printing(a, z, m, i, t, done)
    ensures Mixed(a, z, m) && 12 <= i && (i <= 12 || (i == 14 && m == 7)) ==> i == if m == 7 then 14 else 12
  {
    hide IsGap, Lead, Printed;
  }

  // The condition for IPv4 notation behind a gap at the start.
  method EndsInQuad(p: seq<Octet>, max: nat) returns (mixed: bool)
    requires |p| == 16
    ensures mixed <==> Mixed(WordsOf(p), 0, max)
  {
    MixedIs(p, 0, max);
    mixed := (max == 5 && p[10] == 0xff && p[11] == 0xff) || max == 6 || (max == 7 && p[14] != 0 && p[15] != 1);
  }

  /** ngx_inet6_ntop: the printed form, in a buffer that is large enough. */
  method Inet6Ntop(p: seq<Octet>, text: array<char>) returns (len: nat)
    requires |p| == 16
    modifies text
    ensures text.Length < 45 ==> len == 0 && text[..] == old(text[..])
    ensures text.Length >= 45 ==> len <= 45 && IsPrinted(WordsOf(p), text[..len])
  {
    hide IsGap, Mixed, Digits, Printing, WordsOf, Pair, Quad, IsPrinted, Printed;
    if text.Length < TEXT_LEN {
      return 0;
    }
    var zero, max := FindGap(p);
    ghost var a, z, done := WordsOf(p), Half(zero), false;
    WordsAt(p);
    StartPrinting(a, z, max);
    var n := 16;
    len := 0;
    assert text[..0] == "";
    if zero == 0 {
      var mixed := EndsInQuad(p, max);
      if mixed {
        n := 12;
      }
      len := Put(text, 0, ':');
    }
    NotMixed(a, z, max);
    assert text[..len] == if z == 0 then ":" else "";
    assert n == if Mixed(a, z, max) then 12 else 16;
    var i := 0;
    while i < n
      invariant 0 <= i <= 16 && i % 2 == 0
      invariant n == 12 ==> i <= 12 || (i == 14 && max == 7)
      invariant len <= text.Length && Printing(a, z, max, i, text[..len], done)
      decreases 16 - i
    {
      if i == zero {
        PrintGap(a, z, max, text[..len], done);
        len := Put(text, len, ':');
        i := i + 2 * max;
        done := false;
        continue;
      }
      PrintWord(a, z, max, i, text[..len], done);
      len := PutHex(text, len, Pair(p[i], p[i + 1]), i < 14);
      done := i == 14;
      i := i + 2;
    }
    BeforeQuad(a, z, max, i, text[..len], done);
    PrintedAll(a, z, max, i, text[..len], done);
    if n == 12 {
      len := PutQuad(text, len, p[12], p[13], p[14], p[15]);
    }
    assert IsPrinted(a, text[..len]) by { ThisIsPrinted(a, z, max, text[..len]); }
  }

  /** The text of the address, with its first longest run of zero words left out. */
  ghost predicate IsPrinted(a: seq<Word>, t: Text)
    requires |a| == 8
  {
    exists z: int, m: nat :: IsGap(a, z, m) && z + m <= 8 && t == Printed(a, z, m)
  }

  lemma ThisIsPrinted(a: seq<Word>, z: int, m: nat, t: Text)
    requires |a| == 8 && IsGap(a, z, m) && z + m <= 8 && t == Printed(a, z, m)
    ensures IsPrinted(a, t)
  {
  }

  /** Every address but ::255.255.255.255 and ::ffff:255.255.255.255 reads back from its text, which is
      the only one. */
  lemma TextRoundTrip(a: seq<Word>, t: Text, u: Text)
    requires |a| == 8 && IsPrinted(a, t) && IsPrinted(a, u)
    ensures t == u
    ensures Meaning(t) == Some(a) <==> !LooksLikeNone(a)
    ensures LooksLikeNone(a) ==> Meaning(t) == None
  {
    hide IsGap, Meaning, Printed;
    var z: int, m: nat :| IsGap(a, z, m) && z + m <= 8 && t == Printed(a, z, m);
    var y: int, n: nat :| IsGap(a, y, n) && y + n <= 8 && u == Printed(a, y, n);
    GapIsUnique(a, z, m, y, n);
    RoundTrip(a, z, m);
  }

  lemma WordsAt(p: seq<Octet>)
    requires |p| == 16
    ensures forall i :: 0 <= i < 16 && i % 2 == 0 ==> WordsOf(p)[i / 2] == Pair(p[i], p[i + 1])
    ensures WordsOf(p)[6] == Pair(p[12], p[13]) && WordsOf(p)[7] == Pair(p[14], p[15])
  {
  }

  lemma NotMixed(a: seq<Word>, z: int, m: nat)
    requires |a| == 8
    ensures Mixed(a, z, m) ==> z == 0 && 5 <= m <= 7
  {
  }

  lemma MixedIs(p: seq<Octet>, zero: int, max: nat)
    requires |p| == 16
    ensures Mixed(WordsOf(p), 0, max) <==>
      ((max == 5 && p[10] == 0xff && p[11] == 0xff) || max == 6 || (max == 7 && p[14] != 0 && p[15] != 1))
  {
    var a := WordsOf(p);
    assert a[5] == Pair(p[10], p[11]) && a[7] == Pair(p[14], p[15]);
  }

  /** Different bytes are different words. */
  lemma WordsTellBytes(p: seq<Octet>, q: seq<Octet>)
    requires |p| == |q| && |p| % 2 == 0 && WordsOf(p) == WordsOf(q)
    ensures p == q
  {
    forall i | 0 <= i < |p|
      ensures p[i] == q[i]
    {
      var k := i / 2;
      assert WordsOf(p)[k] == Pair(p[2 * k], p[2 * k + 1]) && WordsOf(q)[k] == Pair(q[2 * k], q[2 * k + 1]);
      PairParts(p[2 * k], p[2 * k + 1]);
      PairParts(q[2 * k], q[2 * k + 1]);
    }
  }

  /** Parsing the text that is printed for the bytes `p` gives a result if and only if `p` is not one of the
      two addresses, and then the bytes `p` and no others. */
  lemma BytesRoundTrip(p: seq<Octet>, t: Text)
    requires |p| == 16 && IsPrinted(WordsOf(p), t)
    ensures Meaning(t).Some? <==> !LooksLikeNone(WordsOf(p))
    ensures forall q: seq<Octet> :: Meaning(t).Some? && |q| == 16 && WordsOf(q) == Meaning(t).value ==> q == p
  {
    hide WordsOf, IsPrinted, Meaning;
    TextRoundTrip(WordsOf(p), t, t);
    forall q: seq<Octet> | Meaning(t).Some? && |q| == 16 && WordsOf(q) == Meaning(t).value
      ensures q == p
    {
      WordsTellBytes(p, q);
    }
  }
}
