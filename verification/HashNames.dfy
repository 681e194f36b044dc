/** Names made of labels, their order, and which wildcard a host name matches. */
module HashNames {

  type Name = string

  // A wildcard as the hash builder gets it: "*.example.com" is "com.example." and ".example.com" is
  // "com.example"; "www.example.*" is "www.example".
  datatype Key = Key(key: Name, value: nat)

  // ----- labels -----

  function DotAt(s: Name): (n: nat)
    ensures n <= |s| && (forall k :: 0 <= k < n ==> s[k] != '.') && (n < |s| ==> s[n] == '.')
  {
    if s == "" || s[0] == '.' then 0 else 1 + DotAt(s[1..])
  }

  function FirstLabel(s: Name): Name {
    s[..DotAt(s)]
  }

  predicate HasDot(s: Name) {
    DotAt(s) < |s|
  }

  function Rest(s: Name): Name
    requires HasDot(s)
  {
    s[DotAt(s) + 1..]
  }

  lemma DotIs(s: Name, n: nat)
    requires n <= |s| && (forall k :: 0 <= k < n ==> s[k] != '.') && (n < |s| ==> s[n] == '.')
    ensures DotAt(s) == n
  {
  }

  // A label and what follows its dot.
  lemma Labelled(l: Name, r: Name)
    requires '.' !in l
    ensures HasDot(l + "." + r) && FirstLabel(l + "." + r) == l && Rest(l + "." + r) == r
    ensures !HasDot(l) && FirstLabel(l) == l
  {
    var s := l + "." + r;
    DotIs(s, |l|);
    DotIs(l, |l|);
    assert s[..|l|] == l && s[|l| + 1..] == r;
  }

  lemma Parts(s: Name)
    ensures '.' !in FirstLabel(s)
    ensures if HasDot(s) then s == FirstLabel(s) + "." + Rest(s) else s == FirstLabel(s)
  {
  }

  // ----- order -----

  function Ord(c: char): int {
    if c == '.' then 0 else 1 + c as int
  }

  /** The order of names: a dot is the lowest character, and a name comes before its extensions. */
  predicate Less(a: Name, b: Name) {
    if b == "" then false
    else if a == "" then true
    else if a[0] == b[0] then Less(a[1..], b[1..])
    else Ord(a[0]) < Ord(b[0])
  }

  ghost predicate Sorted(names: seq<Key>) {
    forall i, j :: 0 <= i < j < |names| ==> Less(names[i].key, names[j].key)
  }

  lemma {:induction false} LessAsym(a: Name, b: Name)
    requires Less(a, b)
    ensures !Less(b, a) && a != b
  {
    if a != "" && a[0] == b[0] {
      LessAsym(a[1..], b[1..]);
    }
  }

  lemma {:induction false} PrefixLess(a: Name, b: Name)
    requires a <= b && a != b
    ensures Less(a, b)
  {
    if a != "" {
      PrefixLess(a[1..], b[1..]);
    }
  }

  /** The first different character decides; a dot comes before all others. */
  lemma LessDecides(p: Name, c: char, x: Name, d: char, y: Name)
    ensures c != d ==> (Less(p + ([c] + x), p + ([d] + y)) <==> c == '.' || (d != '.' && c < d))
    ensures Less(p, p + ([c] + x)) && !Less(p + ([c] + x), p)
  {
    SamePrefix(p, [c] + x, [d] + y);
    SamePrefix(p, "", [c] + x);
    SamePrefix(p, [c] + x, "");
    assert p + "" == p;
  }

  /** What lies between two names with a common prefix has that prefix, too. */
  lemma {:induction false} Sandwich(p: Name, a: Name, b: Name, c: Name)
    requires p <= a && p <= c && Less(a, b) && Less(b, c)
    ensures p <= b
  {
    if p != "" {
      assert a[0] == c[0] == p[0];
      if b != "" && b[0] == a[0] {
        Sandwich(p[1..], a[1..], b[1..], c[1..]);
      }
    }
  }

  lemma {:induction false} SamePrefix(p: Name, a: Name, b: Name)
    ensures Less(p + a, p + b) == Less(a, b)
  {
    if p == "" {
      assert p + a == a && p + b == b;
    } else {
      assert (p + a)[1..] == p[1..] + a && (p + b)[1..] == p[1..] + b;
      SamePrefix(p[1..], a, b);
    }
  }

  /** No two keys that say the same. */
  ghost predicate ConflictFree(names: seq<Key>) {
    forall i, j :: 0 <= i < |names| && 0 <= j < |names| ==> names[j].key != names[i].key + "."
  }

  ghost predicate NoTrailingDots(names: seq<Key>) {
    forall i :: 0 <= i < |names| ==> !EndsWithDot(names[i].key)
  }

  predicate EndsWithDot(k: Name) {
    k != "" && k[|k| - 1] == '.'
  }

  // ----- matching -----

  /** Whether the wildcard matches. For wildcards at the head the name is given label by label from the
      end; for wildcards at the tail as it is. */
  predicate Matches(tail: bool, k: Name, r: Name) {
    if tail then k + "." <= r
    else if EndsWithDot(k) then k <= r
    else r == k || k + "." <= r
  }

  /** The value of the last key in order that matches; 0 is no value. */
  function LastMatch(tail: bool, names: seq<Key>, r: Name): nat {
    if names == [] then 0
    else if Matches(tail, names[|names| - 1].key, r) then names[|names| - 1].value
    else LastMatch(tail, names[..|names| - 1], r)
  }

  function OrElse(a: nat, b: nat): nat {
    if a != 0 then a else b
  }

  lemma {:induction false} LastMatchConcat(tail: bool, a: seq<Key>, b: seq<Key>, r: Name)
    requires forall i :: 0 <= i < |b| ==> b[i].value != 0
    ensures LastMatch(tail, a + b, r) == OrElse(LastMatch(tail, b, r), LastMatch(tail, a, r))
  {
    if b == [] {
      assert a + b == a;
    } else {
      var c := b[..|b| - 1];
      assert (a + b)[..|a + b| - 1] == a + c;
      assert (a + b)[|a + b| - 1] == b[|b| - 1];
      LastMatchConcat(tail, a, c, r);
    }
  }

  lemma {:induction false} NoMatch(tail: bool, names: seq<Key>, r: Name)
    requires forall i :: 0 <= i < |names| ==> !Matches(tail, names[i].key, r)
    ensures LastMatch(tail, names, r) == 0
  {
    if names != [] {
      NoMatch(tail, names[..|names| - 1], r);
    }
  }

  lemma MatchIsPrefix(tail: bool, k: Name, r: Name)
    requires Matches(tail, k, r)
    ensures k <= r
  {
    assert k + "." <= r ==> k <= k + ".";
  }

  ghost predicate IsLongest(tail: bool, names: seq<Key>, r: Name, i: nat) {
    && i < |names| && Matches(tail, names[i].key, r)
    && forall j :: 0 <= j < |names| && Matches(tail, names[j].key, r) ==> |names[j].key| <= |names[i].key|
  }

  lemma LaterIsLonger(tail: bool, j: Name, k: Name, r: Name)
    requires Less(j, k) && Matches(tail, j, r) && Matches(tail, k, r)
    ensures |j| <= |k|
  {
    MatchIsPrefix(tail, j, r);
    MatchIsPrefix(tail, k, r);
    LessAsym(j, k);
    if |k| < |j| {
      PrefixLess(k, j);
    }
  }

  ghost predicate NoneMatches(tail: bool, names: seq<Key>, r: Name) {
    forall i :: 0 <= i < |names| ==> !Matches(tail, names[i].key, r)
  }

  lemma LastIsLongest(tail: bool, names: seq<Key>, r: Name)
    requires Sorted(names) && names != [] && Matches(tail, names[|names| - 1].key, r)
    ensures IsLongest(tail, names, r, |names| - 1)
  {
    forall j | 0 <= j < |names| && Matches(tail, names[j].key, r)
      ensures |names[j].key| <= |names[|names| - 1].key|
    {
      if j < |names| - 1 {
        LaterIsLonger(tail, names[j].key, names[|names| - 1].key, r);
      }
    }
  }

  // A last name that does not match changes nothing.
  lemma LongestBefore(tail: bool, names: seq<Key>, r: Name, i: nat)
    requires names != [] && !Matches(tail, names[|names| - 1].key, r)
    requires IsLongest(tail, names[..|names| - 1], r, i)
    ensures IsLongest(tail, names, r, i)
  {
    hide Matches;
    var a := names[..|names| - 1];
    forall j | 0 <= j < |names| && Matches(tail, names[j].key, r)
      ensures |names[j].key| <= |names[i].key|
    {
      assert names[j] == a[j];
    }
  }

  lemma NoNames(tail: bool, r: Name)
    ensures NoneMatches(tail, [], r)
  {
  }

  lemma SomeMatches(tail: bool, names: seq<Key>, r: Name, i: nat)
    requires i < |names| && Matches(tail, names[i].key, r)
    ensures !NoneMatches(tail, names, r)
  {
  }

  lemma NoneBefore(tail: bool, names: seq<Key>, r: Name)
    requires names != [] && !Matches(tail, names[|names| - 1].key, r)
    ensures NoneMatches(tail, names[..|names| - 1], r) <==> NoneMatches(tail, names, r)
  {
    hide Matches;
    var a := names[..|names| - 1];
    assert forall i :: 0 <= i < |a| ==> a[i] == names[i];
  }

  /** In a sorted list the last match is the longest. */
  lemma {:induction false} LastMatchIsLongest(tail: bool, names: seq<Key>, r: Name)
    requires Sorted(names)
    ensures if NoneMatches(tail, names, r) then LastMatch(tail, names, r) == 0
            else exists i: nat :: IsLongest(tail, names, r, i) && LastMatch(tail, names, r) == names[i].value
  {
    hide Matches, NoneMatches;
    if names == [] {
      assert NoneMatches(tail, names, r) by { NoNames(tail, r); }
    } else {
      var n := |names| - 1;
      if Matches(tail, names[n].key, r) {
        LastIsLongest(tail, names, r);
        SomeMatches(tail, names, r, n);
      } else {
        var a := names[..n];
        LastMatchIsLongest(tail, a, r);
        NoneBefore(tail, names, r);
        if !NoneMatches(tail, a, r) {
          var i: nat :| IsLongest(tail, a, r, i) && LastMatch(tail, a, r) == a[i].value;
          LongestBefore(tail, names, r, i);
        }
      }
    }
  }

  // ----- label by label from the end -----

  // Where the last label starts.
  function LastDot(s: Name): (n: nat)
    ensures n <= |s| && (forall k :: n <= k < |s| ==> s[k] != '.') && (n > 0 ==> s[n - 1] == '.')
  {
    if s == "" then 0 else if s[|s| - 1] == '.' then |s| else LastDot(s[..|s| - 1])
  }

  /** "www.example.com" becomes "com.example.www". */
  function Reversed(s: Name): Name {
    var n := LastDot(s);
    if n == 0 then s else s[n..] + "." + Reversed(s[..n - 1])
  }

  lemma LastDotIs(s: Name, n: nat)
    requires n <= |s| && (forall k :: n <= k < |s| ==> s[k] != '.') && (n > 0 ==> s[n - 1] == '.')
    ensures LastDot(s) == n
  {
  }

  lemma ReversedOnce(s: Name)
    ensures '.' !in s[LastDot(s)..]
    ensures Reversed(s) ==
      if LastDot(s) == 0 then s[LastDot(s)..] else s[LastDot(s)..] + "." + Reversed(s[..LastDot(s) - 1])
  {
    hide LastDot;
    assert LastDot(s) == 0 ==> s[LastDot(s)..] == s;
  }

  lemma ReversedLabel(s: Name)
    ensures FirstLabel(Reversed(s)) == s[LastDot(s)..] && (HasDot(Reversed(s)) <==> LastDot(s) > 0)
    ensures LastDot(s) > 0 ==> Rest(Reversed(s)) == Reversed(s[..LastDot(s) - 1])
  {
    hide Reversed, LastDot, FirstLabel, HasDot, Rest;
    var n := LastDot(s);
    ReversedOnce(s);
    Labelled(s[n..], if n == 0 then "" else Reversed(s[..n - 1]));
  }

  // A last label and what is before its dot.
  lemma ReversedStep(a: Name, l: Name)
    requires '.' !in l
    ensures Reversed(a + "." + l) == l + "." + Reversed(a) && Reversed(l) == l
  {
    var s := a + "." + l;
    LastDotIs(s, |a| + 1);
    LastDotIs(l, 0);
    assert s[|a| + 1..] == l && s[..|a|] == a;
  }

  // A name without a dot, or its last label and the rest.
  lemma LastParts(s: Name) returns (dot: bool, a: Name, l: Name)
    ensures '.' !in l && if dot then s == a + "." + l && |a| < |s| else s == l
  {
    var n := LastDot(s);
    dot, l := n > 0, s[n..];
    a := if dot then s[..n - 1] else "";
    assert dot ==> s == a + "." + l;
  }

  lemma Regroup(a: Name, b: Name, c: Name)
    ensures (a + "." + b) + "." + c == a + "." + (b + "." + c)
  {
  }

  lemma {:induction false} ReversedConcat(a: Name, b: Name)
    ensures Reversed(a + "." + b) == Reversed(b) + "." + Reversed(a)
    decreases |b|
  {
    var dot, c, l := LastParts(b);
    if dot {
      Regroup(a, c, l);
      ReversedStep(a + "." + c, l);
      ReversedConcat(a, c);
      ReversedStep(c, l);
      Regroup(l, Reversed(c), Reversed(a));
    } else {
      ReversedStep(a, b);
    }
  }

  lemma {:induction false} ReversedTwice(s: Name)
    ensures Reversed(Reversed(s)) == s
    decreases |s|
  {
    var dot, a, l := LastParts(s);
    if dot {
      ReversedStep(a, l);
      ReversedTwice(a);
      ReversedConcat(l, Reversed(a));
      ReversedStep("", l);
    } else {
      ReversedStep("", s);
    }
  }

  predicate EndsWith(s: Name, e: Name) {
    |e| <= |s| && s[|s| - |e|..] == e
  }

  lemma EndsAfter(a: Name, x: Name, host: Name)
    requires host == a + "." + x
    ensures EndsWith(host, "." + x)
  {
    assert host == a + ("." + x);
  }

  lemma BeforeEnd(x: Name, host: Name) returns (a: Name)
    requires EndsWith(host, "." + x)
    ensures host == a + "." + x
  {
    a := host[..|host| - |x| - 1];
    assert host == a + ("." + x);
  }

  lemma ReversedPrefix(x: Name, host: Name)
    ensures Reversed(x) + "." <= Reversed(host) <==> EndsWith(host, "." + x)
  {
    hide Reversed, EndsWith;
    if Reversed(x) + "." <= Reversed(host) {
      var q := Reversed(host)[|Reversed(x)| + 1..];
      assert Reversed(host) == Reversed(x) + "." + q;
      ReversedConcat(Reversed(x), q);
      ReversedTwice(host);
      ReversedTwice(x);
      EndsAfter(Reversed(q), x, host);
    }
    if EndsWith(host, "." + x) {
      var a := BeforeEnd(x, host);
      ReversedConcat(a, x);
      assert Reversed(host) == (Reversed(x) + ".") + Reversed(a);
    }
  }

  lemma {:induction false} ReversedEnd(x: Name)
    ensures EndsWithDot(Reversed(x)) <==> x != "" && x[0] == '.'
    decreases |x|
  {
    var n := LastDot(x);
    if n > 0 {
      var a := x[..n - 1];
      ReversedEnd(a);
    }
  }

  /** The builder's keys mean what the wildcards say: ".x" is for x and all names below, "*.x" only for
      the names below. */
  lemma WildcardMeaning(x: Name, host: Name)
    requires x != "" && x[0] != '.'
    ensures Matches(false, Reversed(x), Reversed(host)) <==> host == x || EndsWith(host, "." + x)
    ensures Matches(false, Reversed(x) + ".", Reversed(host)) <==> EndsWith(host, "." + x)
  {
    ReversedEnd(x);
    ReversedPrefix(x, host);
    ReversedTwice(x);
    ReversedTwice(host);
  }
}
