/** ngx_json_render: a first pass over the data tree computes how much room is needed at most, a second one
    writes into a buffer of that size. */
module Json {
  import opened Common
  import opened Numbers
  import opened Sprintf
  import opened JsonText

  const MAX_SIZE: nat := WRAP - 1          // as a result it means ERROR
  const INT64_LEN: nat := 20

  // ----- what the passes see -----

  /** Integers fit 64 bits, and strings fit the memory. */
  predicate Sane(d: Data) {
    match d
    case Object(items) => SaneItems(items)
    case List(items) => SaneItems(items)
    case Str(s) => Fits(s)
    case Int(n) => -0x8000_0000_0000_0000 <= n < 0x8000_0000_0000_0000
    case _ => true
  }

  predicate SaneItems(l: Items) {
    l.Cons? ==> Fits(l.name) && Sane(l.item) && SaneItems(l.next)
  }

  predicate Fits(s: string) {
    |s| < WRAP / 8
  }

  // Steps that are left.
  function Count(d: Data): nat {
    match d
    case Object(items) => 1 + CountItems(items)
    case List(items) => 1 + CountItems(items)
    case _ => 1
  }

  function CountItems(l: Items): nat {
    match l
    case Nil => 0
    case Cons(_, item, next) => 1 + Count(item) + CountItems(next)
  }

  /** The room a tree is given. */
  function Room(d: Data): nat {
    match d
    case Object(items) => 2 + RoomOf(items, true)
    case List(items) => 2 + RoomOf(items, false)
    case Str(s) => 2 + |Escaped(s)|
    case Int(_) => INT64_LEN
    case Bool(_) => 5
    case Null => 4
  }

  function RoomOf(l: Items, named: bool): nat {
    match l
    case Nil => 0
    case Cons(name, item, next) =>
      (if named then 3 + |Escaped(name)| else 0) + Room(item) + if next.Nil? then 0 else 1 + RoomOf(next, named)
  }

  lemma {:induction false} EscapedSize(s: string)
    ensures |s| <= |Escaped(s)| <= 6 * |s|
  {
    if s != "" {
      EscapedSize(s[..|s| - 1]);
    }
  }

  // What is reserved and not used: numbers take 20 bytes, and true and false take 5.
  function Slack(d: Data): int {
    match d
    case Object(items) => SlackOf(items)
    case List(items) => SlackOf(items)
    case Int(n) => 20 - |IntText(n)|
    case Bool(b) => if b then 1 else 0
    case _ => 0
  }

  function SlackOf(l: Items): int {
    match l
    case Nil => 0
    case Cons(_, item, next) => Slack(item) + SlackOf(next)
  }

  /** There is room enough, and what is too much is known. */
  lemma {:induction false} RoomIsEnough(d: Data)
    requires Sane(d)
    ensures |Encoded(d)| <= Room(d) == |Encoded(d)| + Slack(d)
    decreases d, 1
  {
    match d
    case Object(items) => ItemsFit(items);
    case List(items) => ItemsFit(items);
    case Int(n) => IntFits(n);
    case _ =>
  }

  lemma {:induction false} ItemsFit(l: Items)
    requires SaneItems(l)
    ensures |Members(l)| <= RoomOf(l, true) == |Members(l)| + SlackOf(l)
    ensures |Elements(l)| <= RoomOf(l, false) == |Elements(l)| + SlackOf(l)
    decreases l, 0
  {
    if l.Cons? {
      RoomIsEnough(l.item);
      ItemsFit(l.next);
    }
  }

  lemma IntFits(n: int)
    requires -0x8000_0000_0000_0000 <= n < 0x8000_0000_0000_0000
    ensures |IntText(n)| <= INT64_LEN
  {
    var v := if n < 0 then -n else n;
    assert Power(false, 19) > v by {
      FourMore(false, 0);
      FourMore(false, 4);
      FourMore(false, 8);
      FourMore(false, 12);
      assert Power(false, 19) == Times(false, Power(false, 18)) == Times(false, Times(false, Power(false, 17)));
      assert Power(false, 17) == Times(false, Power(false, 16));
    }
    DigitsFit(false, v, 19);
  }

  // ----- ngx_escape_json -----

  /** The first pass: how much longer the escaped string is. */
  method EscapeLength(src: string) returns (len: nat)
    ensures len == |Escaped(src)| - |src|
  {
    len := 0;
    var i := 0;
    assert Escaped(src[..0]) == "";
    while i < |src|
      invariant i <= |src| && len + i == |Escaped(src[..i])|
    {
      var ch := src[i];
      OneMore(src, i);
      if ch == '\\' || ch == '"' {
        len := len + 1;
      } else if ch < ' ' {
        if ch == '\n' || ch == '\r' || ch == '\t' || ch == 8 as char || ch == 12 as char {
          len := len + 1;
        } else {
          len := len + 5;
        }
      }
      i := i + 1;
    }
    assert src[..|src|] == src;
  }

  lemma OneMore(s: string, i: nat)
    requires i < |s|
    ensures Escaped(s[..i + 1]) == Escaped(s[..i]) + EscapedChar(s[i])
  {
    assert s[..i + 1][..i] == s[..i];
  }

  /** The second pass writes. */
  method EscapeJson(buf: array<char>, at: nat, src: string) returns (end: nat)
    requires at + |Escaped(src)| <= buf.Length
    modifies buf
    ensures end == at + |Escaped(src)| && buf[..end] == old(buf[..at]) + Escaped(src)
    ensures forall k :: end <= k < buf.Length ==> buf[k] == old(buf[k])
  {
    hide Escaped;
    end := at;
    var i := 0;
    NothingEscaped(src);
    while i < |src|
      invariant i <= |src| && end == at + |Escaped(src[..i])| && end <= buf.Length
      invariant buf[..end] == old(buf[..at]) + Escaped(src[..i])
      invariant forall k :: end <= k < buf.Length ==> buf[k] == old(buf[k])
    {
      OneMore(src, i);
      EscapedGrows(src, i + 1);
      end := EscapeOne(buf, end, src[i]);
      i := i + 1;
    }
    assert src[..|src|] == src;
  }

  lemma NothingEscaped(s: string)
    ensures Escaped(s[..0]) == ""
  {
  }

  lemma {:induction false} EscapedGrows(s: string, i: nat)
    requires i <= |s|
    ensures |Escaped(s[..i])| <= |Escaped(s)|
  {
    if i < |s| {
      EscapedGrows(s[..|s| - 1], i);
      assert s[..|s| - 1][..i] == s[..i];
    } else {
      assert s[..i] == s;
    }
  }

  method EscapeOne(buf: array<char>, at: nat, ch: char) returns (end: nat)
    requires at + |EscapedChar(ch)| <= buf.Length
    modifies buf
    ensures end == at + |EscapedChar(ch)| && buf[..end] == old(buf[..at]) + EscapedChar(ch)
    ensures forall k :: end <= k < buf.Length ==> buf[k] == old(buf[k])
  {
    end := at;
    if ch >= ' ' {
      if ch == '\\' || ch == '"' {
        end := Put(buf, end, '\\');
      }
      end := Put(buf, end, ch);
      return;
    }
    end := Put(buf, end, '\\');
    if ch == '\n' {
      end := Put(buf, end, 'n');
    } else if ch == '\r' {
      end := Put(buf, end, 'r');
    } else if ch == '\t' {
      end := Put(buf, end, 't');
    } else if ch == 8 as char {
      end := Put(buf, end, 'b');
    } else if ch == 12 as char {
      end := Put(buf, end, 'f');
    } else {
      end := CopyMem(buf, end, ['u', '0', '0', HexDigit(ch as nat / 16), HexDigit(ch as nat % 16)]);
    }
  }

  // ----- the length pass -----

  /** The length of an item, or none if it is MAX_SIZE or more. */
  method Length(d: Data) returns (len: Option<nat>)
    requires Sane(d)
    ensures len == if Room(d) < MAX_SIZE then Some(Room(d)) else None
    decreases Count(d), 1
  {
    hide Escaped, RoomOf;
    match d {
      case Object(items) => len := ItemsLength(items, true);
      case List(items) => len := ItemsLength(items, false);
      case Str(s) =>
        EscapedSize(s);
        var more := EscapeLength(s);
        len := Some(2 + |s| + more);
      case Int(_) => len := Some(INT64_LEN);
      case Bool(_) => len := Some(5);
      case Null => len := Some(4);
    }
  }

  // ngx_json_obj_length and ngx_json_list_length, which differ in the names
  method ItemsLength(items: Items, named: bool) returns (r: Option<nat>)
    requires SaneItems(items)
    ensures var room := 2 + RoomOf(items, named); r == if room < MAX_SIZE then Some(room) else None
    decreases CountItems(items), 2
  {
    hide Escaped, Room, RoomOf;
    var total: nat := 2;
    var i := items;
    while i.Cons?
      invariant SaneItems(i) && CountItems(i) <= CountItems(items)
      invariant total <= MAX_SIZE && total + RoomOf(i, named) == 2 + RoomOf(items, named)
      decreases i
    {
      RoomStep(i, named);
      if named {
        EscapedSize(i.name);
        var more := EscapeLength(i.name);
        var len := 3 + |i.name| + more;
        if total > MAX_SIZE - len {
          return None;
        }
        total := total + len;
      }
      var l := Length(i.item);
      if l.None? {
        return None;
      }
      if total > MAX_SIZE - l.value {
        return None;
      }
      total := total + l.value;
      i := i.next;
      if i.Nil? {
        break;
      }
      if total > MAX_SIZE - 1 {
        return None;
      }
      total := total + 1;
    }
    NoRoom(i, named);
    r := if total == MAX_SIZE then None else Some(total);
  }

  lemma NoRoom(l: Items, named: bool)
    requires l.Nil?
    ensures RoomOf(l, named) == 0
  {
  }

  lemma RoomStep(l: Items, named: bool)
    requires l.Cons?
    ensures RoomOf(l, named) ==
      (if named then 3 + |Escaped(l.name)| else 0) + Room(l.item) + if l.next.Nil? then 0 else 1 + RoomOf(l.next, named)
    ensures RoomOf(Nil, named) == 0
  {
  }

  // ----- the encode pass -----

  method Encode(buf: array<char>, at: nat, d: Data) returns (end: nat)
    requires Sane(d) && at + |Encoded(d)| <= buf.Length
    modifies buf
    ensures end == at + |Encoded(d)| && buf[..end] == old(buf[..at]) + Encoded(d)
    ensures forall k :: end <= k < buf.Length ==> buf[k] == old(buf[k])
    decreases Count(d), 1
  {
    hide Escaped, Encoded, Written, Quoted, IntText;
    EncodedIs(d);
    match d {
      case Object(items) => end := EncodeItems(buf, at, items, true);
      case List(items) => end := EncodeItems(buf, at, items, false);
      case Str(s) => end := PutString(buf, at, s);
      case Int(n) => end := PutInt(buf, at, n);
      case Bool(b) => end := CopyMem(buf, at, if b then "true" else "false");
      case Null => end := CopyMem(buf, at, "null");
    }
  }

  lemma EncodedIs(d: Data)
    ensures Encoded(d) ==
      match d
      case Object(items) => ['{'] + Written(items, true) + ['}']
      case List(items) => ['['] + Written(items, false) + [']']
      case Str(s) => Quoted(s)
      case Int(n) => IntText(n)
      case Bool(b) => if b then "true" else "false"
      case Null => "null"
  {
  }

  method PutString(buf: array<char>, at: nat, s: string) returns (end: nat)
    requires at + |Quoted(s)| <= buf.Length
    modifies buf
    ensures end == at + |Quoted(s)| && buf[..end] == old(buf[..at]) + Quoted(s)
    ensures forall k :: end <= k < buf.Length ==> buf[k] == old(buf[k])
  {
    hide Escaped;
    end := Put(buf, at, '"');
    end := EscapeJson(buf, end, s);
    end := Put(buf, end, '"');
  }

  // "%L"
  method PutInt(buf: array<char>, at: nat, n: int) returns (end: nat)
    requires at + |IntText(n)| <= buf.Length && -0x8000_0000_0000_0000 <= n < 0x8000_0000_0000_0000
    modifies buf
    ensures end == at + |IntText(n)| && buf[..end] == old(buf[..at]) + IntText(n)
    ensures forall k :: end <= k < buf.Length ==> buf[k] == old(buf[k])
  {
    hide Digits;
    end := at;
    if n < 0 {
      end := Put(buf, end, '-');
      end := PutNumber(buf, end, false, -n);
    } else {
      end := PutNumber(buf, end, false, n);
    }
  }

  function Written(items: Items, named: bool): string {
    if named then Members(items) else Elements(items)
  }

  // ngx_json_obj_encode and ngx_json_list_encode
  method EncodeItems(buf: array<char>, at: nat, items: Items, named: bool) returns (end: nat)
    requires SaneItems(items) && at + 2 + |Written(items, named)| <= buf.Length
    modifies buf
    ensures end == at + 2 + |Written(items, named)|
    ensures buf[..end] ==
      old(buf[..at]) + [if named then '{' else '['] + Written(items, named) + [if named then '}' else ']']
    ensures forall k :: end <= k < buf.Length ==> buf[k] == old(buf[k])
    decreases CountItems(items), 2
  {
    hide Encoded, Quoted, Written, ItemText;
    ghost var all := Written(items, named);
    end := Put(buf, at, if named then '{' else '[');
    ghost var b := buf[..end];
    var i := items;
    ghost var done := "";
    while i.Cons?
      invariant SaneItems(i) && CountItems(i) <= CountItems(items)
      invariant done + Written(i, named) == all && end == at + 1 + |done| && end <= buf.Length && buf[..end] == b + done
      invariant forall k :: end <= k < buf.Length ==> buf[k] == old(buf[k])
      decreases i
    {
      WrittenStep(i, named, done);
      end := EncodeItem(buf, end, i, named);
      done := done + ItemText(i, named);
      i := i.next;
      if i.Nil? {
        break;
      }
      end := Put(buf, end, ',');
      done := done + [','];
      assert buf[..end] == b + done;
    }
    WrittenEnd(i, named);
    assert done + "" == done;
    end := Put(buf, end, if named then '}' else ']');
  }

  function ItemText(l: Items, named: bool): string
    requires l.Cons?
  {
    if named then Quoted(l.name) + [':'] + Encoded(l.item) else Encoded(l.item)
  }

  method EncodeItem(buf: array<char>, at: nat, i: Items, named: bool) returns (end: nat)
    requires i.Cons? && SaneItems(i) && at + |ItemText(i, named)| <= buf.Length
    modifies buf
    ensures end == at + |ItemText(i, named)| && buf[..end] == old(buf[..at]) + ItemText(i, named)
    ensures forall k :: end <= k < buf.Length ==> buf[k] == old(buf[k])
    decreases CountItems(i), 0
  {
    hide Encoded, Quoted;
    end := at;
    if named {
      end := PutString(buf, end, i.name);
      end := Put(buf, end, ':');
    }
    end := Encode(buf, end, i.item);
  }

  lemma WrittenStep(l: Items, named: bool, done: string)
    requires l.Cons?
    ensures done + Written(l, named) ==
      if l.next.Nil? then done + ItemText(l, named) else done + ItemText(l, named) + [','] + Written(l.next, named)
    ensures l.next.Nil? ==> Written(l.next, named) == ""
  {
    hide Encoded, Quoted;
    assert Written(l, named) == ItemText(l, named) + if l.next.Nil? then "" else [','] + Written(l.next, named);
  }

  lemma WrittenEnd(l: Items, named: bool)
    requires l.Nil?
    ensures Written(l, named) == ""
  {
  }

  /** ngx_json_render: the text fits the room that was computed, and a JSON reader gets the tree back from it. */
  method Render(d: Data) returns (ok: bool, buf: array<char>, last: nat)
    requires Sane(d)
    ensures ok <==> Room(d) < MAX_SIZE
    ensures ok ==> last <= buf.Length == Room(d) && buf[..last] == Encoded(d) && ReadAll(buf[..last]) == Some(Bare(d))
  {
    hide Encoded, ReadAll, Room;
    var length := Length(d);
    if length.None? {
      return false, new char[0], 0;
    }
    buf := new char[length.value];
    RoomIsEnough(d);
    last := Encode(buf, 0, d);
    assert buf[..last] == Encoded(d);
    RoundTrip(d);
    ok := true;
  }
}
