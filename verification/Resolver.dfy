/** The resolver's names: ngx_resolver_copy and the name part of ngx_resolver_create_name_query. */
module Resolver {
  import opened Separated
  import opened ResolverNames

  datatype Status = OK | DECLINED

  datatype Result = Name(name: string) | Error(why: Decoded)

  /** What decompression gives. */
  function Decode(buf: Message, src: nat): Result
    requires src < |buf|
  {
    var d := NameAt(buf, src, MAX_STEPS);
    if d.Labels? then Name(TextOf(d.labels)) else Error(d)
  }

  // What the labels take as text, each with a dot.
  function Size(labels: seq<string>): nat {
    if labels == [] then 0 else 1 + |labels[0]| + Size(labels[1..])
  }

  lemma {:induction false} SizeConcat(a: seq<string>, b: seq<string>)
    ensures Size(a + b) == Size(a) + Size(b)
  {
    if a == [] {
      assert a + b == b;
    } else {
      assert (a + b)[1..] == a[1..] + b;
      SizeConcat(a[1..], b);
    }
  }

  /** ngx_resolver_copy: the first pass is bounded and counts; the second one follows the same labels and
      pointers without looking, ends, and fills exactly what was counted. */
  method Copy(buf: Message, src: nat) returns (r: Result)
    requires src < |buf| && IsBytes(buf)
    ensures r == Decode(buf, src)
  {
    hide NameAt, TextOf, Dotted;
    var p: nat, len: nat, i: nat := src, 0, 0;
    ghost var seen: seq<string> := [];
    ghost var whole := NameAt(buf, src, MAX_STEPS);
    assert whole == Behind([], whole) by { NothingBehind(whole); }
    var done := false;
    while i < MAX_STEPS && !done
      invariant p < |buf| && i <= MAX_STEPS && len == Size(seen) && whole == Behind(seen, NameAt(buf, p, MAX_STEPS - i))
      invariant done ==> i < MAX_STEPS && NameAt(buf, p, MAX_STEPS - i) == Labels([])
      decreases MAX_STEPS - i, !done
    {
      NameStep(buf, p, MAX_STEPS - i);
      var n := buf[p] as int;
      if n == 0 {
        done := true;
      } else {
        if n >= 64 {
          if n < 192 {
            return Error(BadLabel);
          }
          if p + 1 >= |buf| {
            return Error(Outside);
          }
          p := (n - 192) * 256 + buf[p + 1] as int;
        } else {
          ghost var next := NameAt(buf, if p + 1 + n < |buf| then p + 1 + n else 0, MAX_STEPS - i - 1);
          ghost var l := if p + 1 + n < |buf| then buf[p + 1..p + 1 + n] else "";
          OneMore(seen, l, next);
          seen := seen + [l];
          len := len + 1 + n;
          p := p + 1 + n;
        }
        if p >= |buf| {
          return Error(Outside);
        }
        i := i + 1;
      }
    }
    if !done {
      NameStep(buf, p, 0);
      return Error(TooManySteps);
    }
    assert whole == Labels(seen + []) && seen + [] == seen;
    if len == 0 {
      NoText(seen);
      return Name("");
    }
    var text := Fill(buf, src, len, seen);
    r := Name(text);
  }

  // The second pass.
  method Fill(buf: Message, src: nat, len: nat, ghost labels: seq<string>) returns (text: string)
    requires src < |buf| && IsBytes(buf) && NameAt(buf, src, MAX_STEPS) == Labels(labels) && len == Size(labels) > 0
    ensures text == TextOf(labels)
  {
    hide NameAt, TextOf, Dotted, Size, Lowered;
    var dst := new char[len];
    var d: nat, s: nat := 0, src;
    ghost var steps: nat, copied: seq<string>, rest := MAX_STEPS, [], labels;
    NoDots();
    assert [] + labels == labels && dst[..0] == "";
    while true
      invariant s < |buf| && NameAt(buf, s, steps) == Labels(rest) && labels == copied + rest
      invariant d + Size(rest) == len && dst[..d] == Dotted(copied)
      decreases steps
    {
      NameStep(buf, s, steps);
      var n := buf[s] as int;
      if n == 0 {
        assert copied + [] == copied;
        DottedIsText(labels);
        NoText(labels);
        return dst[..d - 1];
      }
      s := s + 1;
      if n >= 64 {
        s := (n - 192) * 256 + buf[s] as int;
      } else {
        ghost var l, others := buf[s..s + n], rest[1..];
        NextLabel(copied, l, NameAt(buf, s + n, steps - 1));
        LowerInto(dst, d, buf, s, n);
        dst[d + n] := '.';
        assert dst[..d + n + 1] == dst[..d + n] + ['.'];
        copied, rest := copied + [l], others;
        d, s := d + n + 1, s + n;
      }
      steps := steps - 1;
    }
  }

  // ngx_strlow
  method LowerInto(dst: array<char>, d: nat, buf: Message, s: nat, n: nat)
    requires d + n <= dst.Length && s + n <= |buf|
    modifies dst
    ensures dst[..d + n] == old(dst[..d]) + Lowered(buf[s..s + n])
  {
    var i := 0;
    while i < n
      invariant i <= n && forall k :: 0 <= k < d ==> dst[k] == old(dst[k])
      invariant forall k {:trigger dst[k]} :: d <= k < d + i ==> dst[k] == Lowered(buf[s..s + n])[k - d]
    {
      var c := buf[s + i];
      dst[d + i] := if 'A' <= c <= 'Z' then (c as int + 32) as char else c;
      i := i + 1;
    }
  }

  lemma NothingBehind(d: Decoded)
    ensures Behind([], d) == d
  {
    if d.Labels? {
      assert [] + d.labels == d.labels;
    }
  }

  lemma OneMore(seen: seq<string>, l: string, d: Decoded)
    ensures Behind(seen, Prepended(l, d)) == Behind(seen + [l], d) && Size(seen + [l]) == Size(seen) + 1 + |l|
  {
    SizeConcat(seen, [l]);
    assert [l][1..] == [];
    if d.Labels? {
      assert seen + ([l] + d.labels) == seen + [l] + d.labels;
    }
  }

  // A label is read in the second pass.
  lemma NextLabel(copied: seq<string>, l: string, d: Decoded)
    requires d.Labels?
    ensures var rest := [l] + d.labels;
      && rest[1..] == d.labels && Size(rest) == 1 + |l| + Size(d.labels)
      && copied + rest == copied + [l] + d.labels && Dotted(copied + [l]) == Dotted(copied) + Lowered(l) + "."
  {
    hide Dotted;
    DottedMore(copied, l);
    assert ([l] + d.labels)[1..] == d.labels;
    assert copied + ([l] + d.labels) == copied + [l] + d.labels;
  }

  lemma NoText(labels: seq<string>)
    ensures Size(labels) == 0 ==> TextOf(labels) == "" && labels == []
    ensures labels == [] ==> Size(labels) == 0
  {
  }

  lemma NoDots()
    ensures Dotted([]) == ""
  {
  }

  lemma DottedMore(labels: seq<string>, l: string)
    ensures Dotted(labels + [l]) == Dotted(labels) + Lowered(l) + "."
  {
    assert (labels + [l])[..|labels|] == labels;
  }

  // ----- queries -----

  const HEADER: nat := 12          // sizeof(ngx_resolver_hdr_t)

  // Recursion is desired, and there is one question.
  function HeaderOf(ident: nat): (h: string)
    ensures |h| == HEADER
  {
    [(ident / 256 % 256) as char, (ident % 256) as char, 1 as char] + Nulls(2) + [1 as char] + Nulls(6)
  }

  function Nulls(n: nat): (s: string)
    ensures |s| == n
  {
    seq(n, _ => 0 as char)
  }

  // Type A, class IN.
  const QUESTION: string := [0 as char, 1 as char, 0 as char, 1 as char]

  ghost predicate AllShort(labels: seq<string>) {
    forall i :: 0 <= i < |labels| ==> Short(labels[i])
  }

  // Two bytes of a message as a number, the high byte first.
  function Number(buf: Message, i: nat): nat
    requires i + 1 < |buf|
  {
    buf[i] as nat * 256 + buf[i + 1] as nat
  }

  /** The fixed fields of a query (section 4.1.1 of RFC 1035): identification, flags with "recursion desired"
      alone, one question, no other records; and behind the name type A (1) and class IN (1). */
  lemma QueryFields(ident: nat, labels: seq<string>)
    requires AllShort(labels)
    ensures var q := Query(ident, labels); var n := |q|;
      && n == 12 + |Encoded(labels)| + 1 + 4
      && Number(q, 0) == ident % 65536 && Number(q, 2) == 0x0100 && Number(q, 4) == 1
      && Number(q, 6) == 0 && Number(q, 8) == 0 && Number(q, 10) == 0
      && q[n - 5] as nat == 0 && Number(q, n - 4) == 1 && Number(q, n - 2) == 1
  {
    hide Encoded;
    assert ident % 65536 == ident / 256 % 256 * 256 + ident % 256;
  }

  /** A response as it comes: the header, a question for "a", and an answer whose name is 0xC0 0x0C. */
  lemma PointerExample(buf: Message)
    requires |buf| > 21 && buf[12..15] == [1 as char, 'a', 0 as char]
    requires buf[19..21] == [0xC0 as char, 0x0C as char]
    ensures Decode(buf, 19) == Name("a")
  {
    hide NameAt;
    EncodedOne();
    assert At(buf, 12, Encoded(["a"]) + [0 as char]);
    EncodedReads(buf, 12, ["a"], MAX_STEPS - 1);
    assert "" + Pointer(12) == [0xC0 as char, 0x0C as char];
    assert Encoded([]) == "";
    PointerReads(buf, 19, [], 12, MAX_STEPS);
    assert [] + ["a"] == ["a"];
  }

  lemma EncodedOne()
    ensures Encoded(["a"]) == [1 as char, 'a']
  {
    assert ["a"][1..] == [];
  }

  /** The query for a name. */
  function Query(ident: nat, labels: seq<string>): (q: Message)
    requires AllShort(labels)
  {
    HeaderOf(ident) + Encoded(labels) + [0 as char] + QUESTION
  }

  /** From the label being read on, the name is its labels. */
  ghost predicate Reading(name: string, k: nat, partial: string, rest: seq<string>) {
    k <= |name| &&
    var qs := Split('.', name[..k]);
    Split('.', name) == qs[..|qs| - 1] + [qs[|qs| - 1] + partial] + rest
  }

  lemma ReadingStarts(name: string)
    ensures Reading(name, |name|, "", [])
  {
    assert name[..|name|] == name;
    var qs := Split('.', name);
    var n := |qs| - 1;
    assert qs[n] + "" == qs[n] && qs[..n] + [qs[n]] + [] == qs;
  }

  lemma ReadingOn(name: string, k: nat, partial: string, rest: seq<string>)
    requires k > 0 && Reading(name, k, partial, rest)
    ensures name[k - 1] != '.' ==> Reading(name, k - 1, [name[k - 1]] + partial, rest)
    ensures name[k - 1] == '.' ==> Reading(name, k - 1, "", [partial] + rest) && partial in Split('.', name)
  {
    hide Split;
    SplitStep('.', name[..k - 1], name[k - 1]);
    assert name[..k] == name[..k - 1] + [name[k - 1]];
    var qs, rs := Split('.', name[..k]), Split('.', name[..k - 1]);
    var n := |rs| - 1;
    if name[k - 1] == '.' {
      assert qs == rs + [""] && rs == rs[..n] + [rs[n]];
      assert "" + partial == partial && rs[n] + "" == rs[n];
      assert Split('.', name) == rs[..n] + [rs[n] + ""] + ([partial] + rest);
      assert Split('.', name)[n + 1] == partial;
    } else {
      assert rs[n] + [name[k - 1]] + partial == rs[n] + ([name[k - 1]] + partial);
      assert qs[..n] == rs[..n];
    }
  }

  lemma ReadingEnds(name: string, partial: string, rest: seq<string>)
    requires Reading(name, 0, partial, rest)
    ensures Split('.', name) == [partial] + rest
  {
    SplitNil('.');
    assert name[..0] == "" && "" + partial == partial && [""][..0] + [partial] == [partial];
  }

  /** The query as far as it is written: header, the end of the name from character `k` on, question. */
  ghost predicate Written(q: Message, name: string, ident: nat, k: nat, partial: string, rest: seq<string>) {
    && |q| == HEADER + |name| + 2 + 4 && k <= |name| && AllShort(rest) && Reading(name, k, partial, rest)
    && q[..HEADER] == HeaderOf(ident) && q[HEADER + |name| + 2..] == QUESTION
    && q[HEADER + 1 + k..HEADER + |name| + 2] == partial + Encoded(rest) + [0 as char]
  }

  lemma WrittenCharacter(q: Message, name: string, ident: nat, k: nat, partial: string, rest: seq<string>)
    requires k > 0 && Written(q, name, ident, k, partial, rest) && name[k - 1] != '.'
    ensures Written(q[HEADER + k := name[k - 1]], name, ident, k - 1, [name[k - 1]] + partial, rest)
  {
    hide Split, Encoded, Reading, HeaderOf;
    ReadingOn(name, k, partial, rest);
    Shift(q, k, |name|, name[k - 1]);
  }

  lemma WrittenDot(q: Message, name: string, ident: nat, k: nat, partial: string, rest: seq<string>)
    requires k > 0 && Written(q, name, ident, k, partial, rest) && name[k - 1] == '.'
    ensures partial in Split('.', name)
    ensures Short(partial) ==> Written(q[HEADER + k := |partial| as char], name, ident, k - 1, "", [partial] + rest)
  {
    hide Split, Encoded, Reading, HeaderOf;
    ReadingOn(name, k, partial, rest);
    if Short(partial) {
      EncodedMore(partial, rest);
      Shift(q, k, |name|, |partial| as char);
    }
  }

  // One character in front of what is written.
  lemma Shift(q: Message, k: nat, n: nat, c: char)
    requires |q| == HEADER + n + 2 + 4 && 0 <= k <= n
    ensures var w := q[HEADER + k := c];
      && w[HEADER + k..HEADER + n + 2] == [c] + q[HEADER + 1 + k..HEADER + n + 2]
      && w[..HEADER] == q[..HEADER] && w[HEADER + n + 2..] == q[HEADER + n + 2..]
  {
  }

  lemma WrittenEnd(q: Message, name: string, ident: nat, partial: string, rest: seq<string>)
    requires Written(q, name, ident, 0, partial, rest)
    ensures Split('.', name) == [partial] + rest
    ensures Short(partial) ==>
      AllShort(Split('.', name)) && q[HEADER := |partial| as char] == Query(ident, Split('.', name))
    ensures AllShort(Split('.', name)) ==> Short(partial)
  {
    hide Split, Encoded, Reading, HeaderOf;
    ReadingEnds(name, partial, rest);
    assert Split('.', name)[0] == partial;
    if Short(partial) {
      EncodedMore(partial, rest);
      Shift(q, 0, |name|, |partial| as char);
      var w := q[HEADER := |partial| as char];
      assert w == w[..HEADER] + w[HEADER..HEADER + |name| + 2] + w[HEADER + |name| + 2..];
    }
  }

  /** ngx_resolver_create_name_query for an A query: the name is written from its end on. It is declined
      exactly if a label is empty or longer than 255. */
  method CreateNameQuery(name: string, ident: nat) returns (rc: Status, query: array<char>)
    requires IsBytes(name)
    ensures rc == OK <==> AllShort(Split('.', name))
    ensures rc == OK ==> query[..] == Query(ident, Split('.', name))
  {
    hide Written, Split;
    query := NewQuery(name, ident);
    if |name| == 0 {
      SplitNil('.');
      assert Split('.', name)[0] == "";
      return DECLINED, query;
    }
    var len: nat, k: nat := 0, |name|;
    ghost var partial, rest: seq<string> := "", [];
    while k > 0
      invariant k <= |name| && len == |partial| && query.Length == HEADER + |name| + 2 + 4
      invariant Written(query[..], name, ident, k, partial, rest)
      modifies query
    {
      var c := name[k - 1];
      if c != '.' {
        WrittenCharacter(query[..], name, ident, k, partial, rest);
        query[HEADER + k] := c;
        len := len + 1;
        partial := [c] + partial;
      } else {
        WrittenDot(query[..], name, ident, k, partial, rest);
        if len == 0 || len > 255 {
          return DECLINED, query;
        }
        query[HEADER + k] := len as char;
        partial, rest := "", [partial] + rest;
        len := 0;
      }
      k := k - 1;
    }
    WrittenEnd(query[..], name, ident, partial, rest);
    if len == 0 || len > 255 {
      return DECLINED, query;
    }
    query[HEADER] := len as char;
    rc := OK;
  }

  // Header, question, and the end of the name.
  method NewQuery(name: string, ident: nat) returns (query: array<char>)
    ensures fresh(query)
    ensures name != "" ==> query.Length == HEADER + |name| + 2 + 4 && Written(query[..], name, ident, |name|, "", [])
  {
    hide Split, Reading, HeaderOf;
    var nlen := if |name| != 0 then 1 + |name| + 1 else 1;
    query := new char[HEADER + nlen + 4];
    PutAt(query, 0, HeaderOf(ident));
    PutAt(query, HEADER + nlen, QUESTION);
    assert query[..HEADER] == query[..HEADER + nlen][..HEADER] == HeaderOf(ident);
    query[HEADER + nlen - 1] := 0 as char;
    ReadingStarts(name);
    assert query[..HEADER] == HeaderOf(ident) && query[HEADER + nlen..] == QUESTION;
    assert query[..][..HEADER] == query[..HEADER] && query[..][HEADER + nlen..] == query[HEADER + nlen..];
    assert query[..][HEADER + nlen - 1..HEADER + nlen] == query[HEADER + nlen - 1..HEADER + nlen];
    assert query[HEADER + nlen - 1..HEADER + nlen] == [0 as char];
    assert "" + Encoded([]) + [0 as char] == [0 as char];
  }

  lemma EncodedMore(l: string, rest: seq<string>)
    requires Short(l) && AllShort(rest)
    ensures AllShort([l] + rest) && Encoded([l] + rest) == [|l| as char] + l + Encoded(rest)
  {
    assert ([l] + rest)[1..] == rest;
  }

  method PutAt(dst: array<char>, at: nat, s: string)
    requires at + |s| <= dst.Length
    modifies dst
    ensures dst[at..at + |s|] == s
    ensures dst[..at] == old(dst[..at]) && dst[at + |s|..] == old(dst[at + |s|..])
  {
    var i := 0;
    while i < |s|
      invariant i <= |s| && forall k {:trigger dst[k]} :: at <= k < at + i ==> dst[k] == s[k - at]
      invariant forall k {:trigger dst[k]} :: 0 <= k < at || at + i <= k < dst.Length ==> dst[k] == old(dst[k])
    {
      dst[at + i] := s[i];
      i := i + 1;
    }
  }

  /** A query reads back as its name in lower case if and only if no label is longer than 63 and there are at
      most 127. */
  lemma QueryReadsBack(name: string, ident: nat)
    requires AllShort(Split('.', name))
    ensures var labels := Split('.', name);
      Decode(Query(ident, labels), HEADER) == Name(Lowered(name)) <==>
        |labels| <= 127 && AllBrief(labels)
  {
    hide Split, NameAt, Encoded, HeaderOf;
    var labels := Split('.', name);
    var buf := Query(ident, labels);
    JoinOfSplit('.', name);
    if AllBrief(labels) {
      var e := Encoded(labels) + [0 as char];
      assert buf == HeaderOf(ident) + e + QUESTION;
      assert buf[HEADER..HEADER + |e|] == e && At(buf, HEADER, e);
      EncodedReads(buf, HEADER, labels, MAX_STEPS);
    } else {
      var d := NameAt(buf, HEADER, MAX_STEPS);
      LabelsAreBrief(buf, HEADER, MAX_STEPS);
      if d.Labels? && TextOf(d.labels) == Lowered(name) {
        LongLabelIsNotRead(name, d.labels);
      }
    }
  }

  /** A label of 64 letters: the builder takes the name, and a reader does not get it back. */
  lemma LabelExample(name: string, ident: nat)
    requires |name| == 64 && forall i :: 0 <= i < |name| ==> name[i] == 'a'
    ensures AllShort(Split('.', name))
    ensures Decode(Query(ident, Split('.', name)), HEADER) != Name(Lowered(name))
  {
    hide Query, Lowered, Decode;
    SplitNil('.');
    SplitMore('.', "", name);
    assert "" + name == name && Split('.', name) == [name];
    assert Split('.', name)[0] == name;
    QueryReadsBack(name, ident);
  }

  lemma LongLabelIsNotRead(name: string, labels: seq<string>)
    requires name != "" && TextOf(labels) == Lowered(name) && AllBrief(labels)
    ensures AllBrief(Split('.', name))
  {
    DecodedIsDotted(labels);
    LoweredDots(Join('.', labels));
    LoweredDots(name);
    PiecesAreShort(name);
  }
}
