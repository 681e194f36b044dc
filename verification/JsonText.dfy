/** JSON texts (sections 4 to 7 of RFC 8259, without insignificant white space): what the encoder writes, a
    reader, and that the reader gives back what was written. */
module JsonText {
  import opened Common
  import opened Numbers

  /** A data tree. An item of an object has a name. */
  datatype Data = Object(items: Items) | List(items: Items) | Str(s: string) | Int(n: int) | Bool(b: bool) | Null

  datatype Items = Nil | Cons(name: string, item: Data, next: Items)

  // ----- writing -----

  // '0' + d, or 'A' + d - 10
  function HexDigit(d: nat): (c: char)
    requires d < 16
    ensures c == "0123456789ABCDEF"[d]
  {
    if d < 10 then '0' + d as char else 'A' + (d - 10) as char
  }

  function EscapedChar(c: char): string {
    if c == '\\' || c == '"' then ['\\', c]
    else if c >= ' ' then [c]
    else if c == '\n' then "\\n"
    else if c == '\r' then "\\r"
    else if c == '\t' then "\\t"
    else if c == 8 as char then "\\b"
    else if c == 12 as char then "\\f"
    else "\\u00" + [HexDigit(c as nat / 16), HexDigit(c as nat % 16)]
  }

  function Escaped(s: string): string {
    if s == "" then "" else Escaped(s[..|s| - 1]) + EscapedChar(s[|s| - 1])
  }

  function Quoted(s: string): string {
    "\"" + Escaped(s) + "\""
  }

  function IntText(n: int): string {
    if n < 0 then "-" + Digits(false, -n) else Digits(false, n)
  }

  function Encoded(d: Data): (t: string)
    ensures t != ""
  {
    match d
    case Object(items) => "{" + Members(items) + "}"
    case List(items) => "[" + Elements(items) + "]"
    case Str(s) => Quoted(s)
    case Int(n) => IntText(n)
    case Bool(b) => if b then "true" else "false"
    case Null => "null"
  }

  function Members(l: Items): string {
    match l
    case Nil => ""
    case Cons(name, item, next) => Quoted(name) + ":" + Encoded(item) + if next.Nil? then "" else "," + Members(next)
  }

  function Elements(l: Items): string {
    match l
    case Nil => ""
    case Cons(_, item, next) => Encoded(item) + if next.Nil? then "" else "," + Elements(next)
  }

  // ----- reading -----

  datatype Read<T> = Read(v: T, rest: string)

  function HexValue(c: char): int {
    if '0' <= c <= '9' then c as int - '0' as int
    else if 'A' <= c <= 'F' then c as int - 'A' as int + 10
    else if 'a' <= c <= 'f' then c as int - 'a' as int + 10
    else -1
  }

  /** A character of a string, and what is behind it. */
  function ReadChar(t: string): (r: Option<Read<char>>)
    ensures r.Some? ==> |r.value.rest| < |t|
  {
    if t == "" || t[0] < ' ' || t[0] == '"' then None
    else if t[0] != '\\' then Some(Read(t[0], t[1..]))
    else if |t| < 2 then None
    else match t[1]
      case '"' => Some(Read('"', t[2..]))
      case '\\' => Some(Read('\\', t[2..]))
      case '/' => Some(Read('/', t[2..]))
      case 'b' => Some(Read(8 as char, t[2..]))
      case 'f' => Some(Read(12 as char, t[2..]))
      case 'n' => Some(Read('\n', t[2..]))
      case 'r' => Some(Read('\r', t[2..]))
      case 't' => Some(Read('\t', t[2..]))
      case 'u' =>
        if |t| < 6 || t[2] != '0' || t[3] != '0' || HexValue(t[4]) < 0 || HexValue(t[5]) < 0 then None
        else Some(Read((HexValue(t[4]) * 16 + HexValue(t[5])) as char, t[6..]))
      case _ => None
  }

  /** A string, behind its opening quote. */
  function ReadString(t: string): (r: Option<Read<string>>)
    ensures r.Some? ==> |r.value.rest| < |t|
  {
    if t != "" && t[0] == '"' then Some(Read("", t[1..]))
    else match ReadChar(t)
      case None => None
      case Some(Read(c, rest)) =>
        match ReadString(rest)
        case None => None
        case Some(Read(s, more)) => Some(Read([c] + s, more))
  }

  function DigitsAt(t: string): (n: nat)
    ensures n <= |t| && AllDigits(false, t[..n]) && (n < |t| ==> Worth(false, t[n]) < 0)
  {
    if t == "" || Worth(false, t[0]) < 0 then 0
    else
      var n := DigitsAt(t[1..]);
      assert t[..n + 1] == [t[0]] + t[1..][..n];
      n + 1
  }

  function ReadNumber(t: string): (r: Option<Read<nat>>)
    ensures r.Some? ==> |r.value.rest| < |t|
  {
    var n := DigitsAt(t);
    if n == 0 then None else Some(Read(Number(false, t[..n]), t[n..]))
  }

  predicate Starts(t: string, s: string) {
    |s| <= |t| && t[..|s|] == s
  }

  function Negative(n: nat): Data {
    var m: int := n;
    Int(-m)
  }

  function ReadValue(t: string): (r: Option<Read<Data>>)
    ensures r.Some? ==> |r.value.rest| < |t|
    decreases |t|, 1
  {
    if t == "" then None
    else if t[0] == '{' then
      if |t| > 1 && t[1] == '}' then Some(Read(Object(Nil), t[2..]))
      else match ReadMembers(t[1..])
        case None => None
        case Some(Read(l, rest)) => Some(Read(Object(l), rest))
    else if t[0] == '[' then
      if |t| > 1 && t[1] == ']' then Some(Read(List(Nil), t[2..]))
      else match ReadElements(t[1..])
        case None => None
        case Some(Read(l, rest)) => Some(Read(List(l), rest))
    else if t[0] == '"' then
      match ReadString(t[1..])
      case None => None
      case Some(Read(s, rest)) => Some(Read(Str(s), rest))
    else if Starts(t, "true") then Some(Read(Bool(true), t[4..]))
    else if Starts(t, "false") then Some(Read(Bool(false), t[5..]))
    else if Starts(t, "null") then Some(Read(Null, t[4..]))
    else if t[0] == '-' then
      match ReadNumber(t[1..])
      case None => None
      case Some(Read(n, rest)) => Some(Read(Negative(n), rest))
    else match ReadNumber(t)
      case None => None
      case Some(Read(n, rest)) => Some(Read(Int(n), rest))
  }

  function ReadMembers(t: string): (r: Option<Read<Items>>)
    ensures r.Some? ==> |r.value.rest| < |t|
    decreases |t|, 0
  {
    if t == "" || t[0] != '"' then None
    else match ReadString(t[1..])
      case None => None
      case Some(Read(name, t1)) =>
        if t1 == "" || t1[0] != ':' then None
        else match ReadValue(t1[1..])
          case None => None
          case Some(Read(d, t2)) =>
            if t2 != "" && t2[0] == '}' then Some(Read(Cons(name, d, Nil), t2[1..]))
            else if t2 != "" && t2[0] == ',' then
              match ReadMembers(t2[1..])
              case None => None
              case Some(Read(l, t3)) => Some(Read(Cons(name, d, l), t3))
            else None
  }

  /** The elements of a list have no names. */
  function ReadElements(t: string): (r: Option<Read<Items>>)
    ensures r.Some? ==> |r.value.rest| < |t|
    decreases |t|, 2
  {
    match ReadValue(t)
    case None => None
    case Some(Read(d, t2)) =>
      if t2 != "" && t2[0] == ']' then Some(Read(Cons("", d, Nil), t2[1..]))
      else if t2 != "" && t2[0] == ',' then
        match ReadElements(t2[1..])
        case None => None
        case Some(Read(l, t3)) => Some(Read(Cons("", d, l), t3))
      else None
  }

  /** A JSON text is one value. */
  function ReadAll(t: string): Option<Data> {
    match ReadValue(t)
    case None => None
    case Some(Read(d, rest)) => if rest == "" then Some(d) else None
  }

  // ----- reading what was written -----

  /** Names of list elements are not written. */
  function Bare(d: Data): Data {
    match d
    case Object(items) => Object(BareItems(items, true))
    case List(items) => List(BareItems(items, false))
    case _ => d
  }

  function BareItems(l: Items, named: bool): Items {
    match l
    case Nil => Nil
    case Cons(name, item, next) => Cons(if named then name else "", Bare(item), BareItems(next, named))
  }

  lemma CharReads(c: char, rest: string)
    ensures ReadChar(EscapedChar(c) + rest) == Some(Read(c, rest)) && EscapedChar(c)[0] != '"'
  {
    var t := EscapedChar(c) + rest;
    if c == '\\' || c == '"' {
      assert t[2..] == rest;
    } else if c >= ' ' {
      assert t[1..] == rest;
    } else if |EscapedChar(c)| == 2 {
      assert t[2..] == rest;
    } else {
      var n := c as nat;
      assert t[6..] == rest && t[1] == 'u';
      assert HexValue(HexDigit(n / 16)) == n / 16 && HexValue(HexDigit(n % 16)) == n % 16;
    }
  }

  lemma {:induction false} EscapedFirst(s: string)
    requires s != ""
    ensures Escaped(s) == EscapedChar(s[0]) + Escaped(s[1..])
  {
    hide EscapedChar;
    var n := |s| - 1;
    if n == 0 {
      assert s[..0] == "" && s[1..] == "";
    } else {
      EscapedFirst(s[..n]);
      assert s[..n][1..] == s[1..][..n - 1];
      assert Escaped(s[1..]) == Escaped(s[1..][..n - 1]) + EscapedChar(s[1..][n - 1]);
    }
  }

  lemma {:induction false} StringReads(s: string, rest: string)
    ensures ReadString(Escaped(s) + "\"" + rest) == Some(Read(s, rest))
  {
    hide EscapedChar, ReadChar;
    if s == "" {
      assert Escaped(s) + "\"" + rest == ['"'] + rest;
      assert (['"'] + rest)[1..] == rest;
    } else {
      EscapedFirst(s);
      var more := Escaped(s[1..]) + "\"" + rest;
      CharReads(s[0], more);
      assert Escaped(s) + "\"" + rest == EscapedChar(s[0]) + more;
      StringReads(s[1..], rest);
      assert [s[0]] + s[1..] == s;
    }
  }

  // A number ends here.
  predicate NoDigit(rest: string) {
    rest == "" || Worth(false, rest[0]) < 0
  }

  lemma {:induction false} DigitsEnd(s: string, rest: string)
    requires AllDigits(false, s) && NoDigit(rest)
    ensures DigitsAt(s + rest) == |s|
  {
    if s == "" {
      assert s + rest == rest;
    } else {
      assert (s + rest)[1..] == s[1..] + rest;
      assert AllDigits(false, s[1..]) by { assert forall i :: 0 <= i < |s[1..]| ==> s[1..][i] == s[i + 1]; }
      DigitsEnd(s[1..], rest);
      assert Worth(false, s[0]) >= 0;
    }
  }

  lemma NumberReads(n: nat, rest: string)
    requires NoDigit(rest)
    ensures ReadNumber(Digits(false, n) + rest) == Some(Read(n, rest))
    ensures var c := Digits(false, n)[0]; '0' <= c <= '9'
  {
    hide Digits, Number, DigitsAt;
    NumberOfDigits(false, n);
    var s := Digits(false, n);
    DigitsEnd(s, rest);
    assert (s + rest)[..|s|] == s && (s + rest)[|s|..] == rest;
    assert Worth(false, s[0]) >= 0;
  }

  lemma IntReads(n: int, rest: string)
    requires NoDigit(rest)
    ensures ReadValue(IntText(n) + rest) == Some(Read(Int(n), rest)) && IntText(n)[0] != ']'
  {
    hide Digits, ReadNumber;
    var t := IntText(n) + rest;
    if n < 0 {
      NumberReads(-n, rest);
      assert t[0] == '-' && t[1..] == Digits(false, -n) + rest;
      NotWords(t);
    } else {
      NumberReads(n, rest);
      assert t[0] == Digits(false, n)[0];
      NotWords(t);
    }
  }

  lemma NotWords(t: string)
    requires t != "" && t[0] !in {'t', 'f', 'n'}
    ensures !Starts(t, "true") && !Starts(t, "false") && !Starts(t, "null")
  {
    assert |t| >= 4 ==> t[..4][0] == t[0];
    assert |t| >= 5 ==> t[..5][0] == t[0];
  }

  lemma WordsRead(rest: string)
    ensures ReadValue("true" + rest) == Some(Read(Bool(true), rest))
    ensures ReadValue("false" + rest) == Some(Read(Bool(false), rest))
    ensures ReadValue("null" + rest) == Some(Read(Null, rest))
  {
    var t, f, n := "true" + rest, "false" + rest, "null" + rest;
    assert t[..4] == "true" && t[4..] == rest && f[..5] == "false" && f[5..] == rest && n[..4] == "null" &&
      n[4..] == rest;
    assert f[0] == 'f' && f[..4] != "true" by { assert f[..4][0] == 'f'; }
    assert n[0] == 'n' && n[..4] != "true" && (|n| >= 5 ==> n[..5] != "false") by {
      assert n[..4][0] == 'n';
      assert |n| >= 5 ==> n[..5][0] == 'n';
    }
  }

  lemma {:induction false} FirstChar(d: Data)
    ensures Encoded(d)[0] != ']'
  {
    match d
    case Int(n) => IntReads(n, "");
    case _ =>
  }

  /** What was written for a tree is read back as the tree, whatever bytes are in its names and strings. */
  lemma {:induction false} ValueReads(d: Data, rest: string)
    requires NoDigit(rest)
    ensures ReadValue(Encoded(d) + rest) == Some(Read(Bare(d), rest))
    decreases d, 1
  {
    hide Escaped, ReadString, ReadNumber, Digits;
    var t := Encoded(d) + rest;
    match d
    case Object(items) =>
      assert t == "{" + (Members(items) + "}" + rest);
      assert t[1..] == Members(items) + "}" + rest;
      if items.Nil? {
        assert t[1] == '}' && t[2..] == rest;
      } else {
        MembersRead(items, rest);
        assert t[1] == '"';
      }
    case List(items) =>
      assert t == "[" + (Elements(items) + "]" + rest);
      assert t[1..] == Elements(items) + "]" + rest;
      if items.Nil? {
        assert t[1] == ']' && t[2..] == rest;
      } else {
        ElementsRead(items, rest);
        FirstChar(items.item);
        assert t[1] == Encoded(items.item)[0];
      }
    case Str(s) =>
      StringReads(s, rest);
      assert t[1..] == Escaped(s) + "\"" + rest;
    case Int(n) => IntReads(n, rest);
    case Bool(b) => WordsRead(rest);
    case Null => WordsRead(rest);
  }

  lemma {:induction false} MembersRead(l: Items, rest: string)
    requires l.Cons?
    ensures ReadMembers(Members(l) + "}" + rest) == Some(Read(BareItems(l, true), rest))
    decreases l, 0
  {
    hide Escaped, ReadString, ReadValue, Encoded;
    var t := Members(l) + "}" + rest;
    var end := if l.next.Nil? then "}" + rest else "," + (Members(l.next) + "}" + rest);
    var t1 := ":" + (Encoded(l.item) + end);
    assert t == "\"" + (Escaped(l.name) + "\"" + t1);
    assert t[1..] == Escaped(l.name) + "\"" + t1;
    StringReads(l.name, t1);
    assert t1[1..] == Encoded(l.item) + end;
    ValueReads(l.item, end);
    if l.next.Nil? {
      assert end[1..] == rest;
    } else {
      MembersRead(l.next, rest);
      assert end[1..] == Members(l.next) + "}" + rest;
    }
  }

  lemma {:induction false} ElementsRead(l: Items, rest: string)
    requires l.Cons?
    ensures ReadElements(Elements(l) + "]" + rest) == Some(Read(BareItems(l, false), rest))
    decreases l, 0
  {
    hide ReadValue, Encoded;
    var t := Elements(l) + "]" + rest;
    var end := if l.next.Nil? then "]" + rest else "," + (Elements(l.next) + "]" + rest);
    assert t == Encoded(l.item) + end;
    ValueReads(l.item, end);
    if l.next.Nil? {
      assert end[1..] == rest;
    } else {
      ElementsRead(l.next, rest);
      assert end[1..] == Elements(l.next) + "]" + rest;
    }
  }

  /** The text of a tree is one JSON text, and means the tree. */
  lemma RoundTrip(d: Data)
    ensures ReadAll(Encoded(d)) == Some(Bare(d))
  {
    hide ReadValue, Encoded;
    ValueReads(d, "");
    assert Encoded(d) + "" == Encoded(d);
  }
}
