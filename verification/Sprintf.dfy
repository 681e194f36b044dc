/** Writing into a buffer: the parts of ngx_sprintf that are used here. */
module Sprintf {
  import opened Common
  import opened Numbers

  // "hexadecimal" 0, 1 and 2
  datatype Mode = Decimal | LowerHex | UpperHex

  function Capital(c: char): char {
    if 'a' <= c <= 'f' then (c as int - 32) as char else c
  }

  function Capitals(s: string): (t: string)
    ensures |t| == |s|
  {
    seq(|s|, i requires 0 <= i < |s| => Capital(s[i]))
  }

  function Mark(mode: Mode, d: nat): (c: char)
    requires d < 16
    ensures c == (if mode.UpperHex? then "0123456789ABCDEF" else "0123456789abcdef")[d]
  {
    if mode.UpperHex? then Capital(Digit(d)) else Digit(d)
  }

  /** The digits of a number. */
  function Text(mode: Mode, v: nat): (s: string)
    ensures |s| > 0
  {
    if mode.UpperHex? then Capitals(Digits(true, v)) else Digits(!mode.Decimal?, v)
  }

  function Pad(zero: char, n: int): string {
    if n <= 0 then "" else Pad(zero, n - 1) + [zero]
  }

  /** At least `width` characters, and what of them goes before `last`. */
  function Padded(mode: Mode, v: nat, zero: char, width: nat): string {
    Pad(zero, width - |Text(mode, v)|) + Text(mode, v)
  }

  function Cut(s: string, at: nat, last: Option<nat>): string
    requires last.Some? ==> at <= last.value
  {
    if last.Some? && at + |s| > last.value then s[..last.value - at] else s
  }

  lemma LastMark(mode: Mode, v: nat)
    ensures var hex := !mode.Decimal?;
      && Text(mode, v) == (if Upper(hex, v) == 0 then "" else Text(mode, Upper(hex, v))) + [Mark(mode, Lower(hex, v))]
      && (Upper(hex, v) > 0 ==> Upper(hex, v) < v)
  {
    hide Digits, Digit, Upper, Lower;
    LastDigit(!mode.Decimal?, v);
  }

  lemma {:induction false} PadSize(zero: char, n: int)
    ensures |Pad(zero, n)| == if n <= 0 then 0 else n
  {
    if n > 0 {
      PadSize(zero, n - 1);
    }
  }

  lemma {:induction false} PadStarts(zero: char, n: nat, k: nat)
    requires k <= n
    ensures |Pad(zero, n)| == n && Pad(zero, n)[..k] == Pad(zero, k)
  {
    PadSize(zero, n);
    if k < n {
      PadStarts(zero, n - 1, k);
      assert Pad(zero, n)[..k] == Pad(zero, n - 1)[..k];
    } else {
      assert Pad(zero, n)[..k] == Pad(zero, n);
    }
  }

  /** `k` characters of padding, and the digits as far as they go. */
  lemma CutPadded(mode: Mode, v: nat, zero: char, width: nat, at: nat, last: Option<nat>, k: nat)
    requires last.Some? ==> at + k <= last.value
    requires var n := |Text(mode, v)|; k + n <= width || k == 0
    requires var n := |Text(mode, v)|; k + n < width ==> last.Some? && at + k == last.value
    ensures Cut(Padded(mode, v, zero, width), at, last) == Pad(zero, k) + Cut(Text(mode, v), at + k, last)
  {
    hide Text, Pad;
    var s := Text(mode, v);
    var pad := width - |s|;
    PadSize(zero, pad);
    PadSize(zero, k);
    if pad >= 0 {
      PadStarts(zero, pad, k);
    }
    var t := Pad(zero, pad) + s;
    if last.Some? && at + |t| > last.value {
      assert t[..last.value - at] == Pad(zero, k) + s[..last.value - at - k];
    } else {
      assert pad >= 0 ==> Pad(zero, pad)[..k] == Pad(zero, pad);
    }
  }

  /** ngx_sprintf_num: the digits are made from the last one on, and copied behind the padding. Without `last`,
      as ngx_sprintf calls it, there is no end. */
  method SprintfNum(buf: array<char>, at: nat, last: Option<nat>, v: nat, zero: char, mode: Mode, width: nat)
    returns (end: nat)
    requires v < WRAP && (last.Some? ==> at <= last.value)
    requires at + |Cut(Padded(mode, v, zero, width), at, last)| <= buf.Length
    modifies buf
    ensures end == at + |Cut(Padded(mode, v, zero, width), at, last)|
    ensures buf[..end] == old(buf[..at]) + Cut(Padded(mode, v, zero, width), at, last)
    ensures forall i :: end <= i < buf.Length ==> buf[i] == old(buf[i])
  {
    hide Cut, Padded, Text, Pad;
    var temp, p := MakeDigits(v, mode);
    ghost var text := Text(mode, v);
    var len := 20 - p;
    end := at;
    PadIs(zero, 0);
    CutSize(mode, v, zero, width, at, last);
    while len < width && (last.None? || end < last.value)
      invariant end - at == len - |text| && (len <= width || end == at) && (last.Some? ==> end <= last.value)
      invariant end <= buf.Length && buf[..end] == old(buf[..at]) + Pad(zero, end - at)
      invariant forall i :: end <= i < buf.Length ==> buf[i] == old(buf[i])
      invariant temp[p..] == text
    {
      PadIs(zero, end - at + 1);
      end := Put(buf, end, zero);
      len := len + 1;
    }
    CutPadded(mode, v, zero, width, at, last, end - at);
    var n := 20 - p;
    if last.Some? && end + n > last.value {
      n := last.value - end;
    }
    CutIs(text, end, last);
    assert temp[p..p + n] == text[..n];
    end := CopyMem(buf, end, temp[p..p + n]);
  }

  lemma PadIs(zero: char, n: nat)
    ensures Pad(zero, n) == if n == 0 then "" else Pad(zero, n - 1) + [zero]
  {
  }

  lemma CutIs(s: string, at: nat, last: Option<nat>)
    requires last.Some? ==> at <= last.value
    ensures Cut(s, at, last) == s[..if last.Some? && at + |s| > last.value then last.value - at else |s|]
  {
    assert s[..|s|] == s;
  }

  // The padding goes no further than the text.
  lemma CutSize(mode: Mode, v: nat, zero: char, width: nat, at: nat, last: Option<nat>)
    requires last.Some? ==> at <= last.value
    ensures var n := |Cut(Padded(mode, v, zero, width), at, last)|;
      if last.Some? && last.value - at < (if width > |Text(mode, v)| then width else |Text(mode, v)|)
      then n == last.value - at else n >= width && n >= |Text(mode, v)|
  {
    hide Text, Pad;
    PadSize(zero, width - |Text(mode, v)|);
  }

  // do { *--p = ... } while (...)
  method MakeDigits(v: nat, mode: Mode) returns (temp: array<char>, p: nat)
    requires v < WRAP
    ensures fresh(temp) && temp.Length == 20 && p <= 20 && temp[p..] == Text(mode, v)
  {
    hide Text, Mark;
    ghost var text := Text(mode, v);
    temp := new char[20];
    p := 20;
    var ui := v;
    var hex := !mode.Decimal?;
    WordFits(hex, v);
    assert |text| == |Digits(hex, v)| by { TextSize(mode, v); }
    while true
      invariant 0 < p <= 20 && Text(mode, ui) + temp[p..] == text && |text| <= 20
      decreases ui
    {
      LastMark(mode, ui);
      ghost var tail := temp[p..];
      p := p - 1;
      temp[p] := Mark(mode, Lower(hex, ui));
      assert temp[p..] == [temp[p]] + tail;
      if Upper(hex, ui) == 0 {
        break;
      }
      ui := Upper(hex, ui);
      assert Text(mode, ui) + temp[p..] == text;
    }
  }

  // A number without width, in a text without end
  method PutNumber(buf: array<char>, at: nat, hex: bool, v: nat) returns (end: nat)
    requires v < WRAP && at + |Digits(hex, v)| <= buf.Length
    modifies buf
    ensures end == at + |Digits(hex, v)| && buf[..end] == old(buf[..at]) + Digits(hex, v)
    ensures forall i :: end <= i < buf.Length ==> buf[i] == old(buf[i])
  {
    var mode := if hex then LowerHex else Decimal;
    PlainNumber(mode, v, at);
    end := SprintfNum(buf, at, None, v, ' ', mode, 0);
  }

  lemma PlainNumber(mode: Mode, v: nat, at: nat)
    requires !mode.UpperHex?
    ensures Cut(Padded(mode, v, ' ', 0), at, None) == Digits(!mode.Decimal?, v)
  {
    hide Digits;
    assert "" + Text(mode, v) == Text(mode, v);
  }

  lemma TextSize(mode: Mode, v: nat)
    ensures |Text(mode, v)| == |Digits(!mode.Decimal?, v)|
  {
  }

  // ngx_cpymem
  method CopyMem(buf: array<char>, at: nat, s: string) returns (end: nat)
    requires at + |s| <= buf.Length
    modifies buf
    ensures end == at + |s| && buf[..end] == old(buf[..at]) + s
    ensures forall i :: end <= i < buf.Length ==> buf[i] == old(buf[i])
  {
    var i := 0;
    while i < |s|
      invariant 0 <= i <= |s|
      invariant buf[..at + i] == old(buf[..at]) + s[..i]
      invariant forall k :: at + i <= k < buf.Length ==> buf[k] == old(buf[k])
    {
      buf[at + i] := s[i];
      assert buf[..at + i + 1] == buf[..at + i] + [s[i]];
      i := i + 1;
    }
    end := at + |s|;
    assert s[..|s|] == s;
  }

  lemma LastDigit(hex: bool, v: nat)
    ensures Digits(hex, v) == (if Upper(hex, v) == 0 then "" else Digits(hex, Upper(hex, v))) + [Digit(Lower(hex, v))]
    ensures Upper(hex, v) > 0 ==> Upper(hex, v) < v
  {
  }

  // One character.
  method Put(buf: array<char>, at: nat, c: char) returns (end: nat)
    requires at < buf.Length
    modifies buf
    ensures end == at + 1 && buf[..end] == old(buf[..at]) + [c]
    ensures forall i :: end <= i < buf.Length ==> buf[i] == old(buf[i])
  {
    buf[at] := c;
    end := at + 1;
    assert buf[..end] == buf[..at] + [c];
  }
}
