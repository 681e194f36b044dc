/** The steps of the output chain: none loses, doubles or reorders anything. */
module OutputSteps {
  import opened Common
  import opened OutputBufs
  import opened OutputState

  // ----- to and from the output filter -----

  /** The chain that was built goes to the filter. */
  lemma HandOver(s: State, files: Files, tag: nat)
    requires Inv(s, files, tag)
    ensures var w := s.(pending := s.pending + s.out, lent := s.lent + s.out, out := []);
      Inv(w, files, tag) && Unsent(w, files) == Unsent(s, files)
  {
    var w := s.(pending := s.pending + s.out, lent := s.lent + s.out, out := []);
    assert Distinct(s.out) && Apart(s.out, s.free) && s.buf !in s.out by { OutFacts(s); }
    hide Tracked, Separate, WellFormed, Meaningful, Tokens;
    HandOverStream(s.m, files, s.pending, s.out);
    HandOverTracked(s, w, tag);
    HandOverSeparate(s, w);
  }

  lemma HandOverStream(m: Mem, files: Files, a: seq<Id>, b: seq<Id>)
    requires AllWellFormed(m, files) && Within(m, a) && Within(m, b)
    ensures Within(m, a + b)
    ensures Stream(m, files, a + b) + Stream(m, files, []) == Stream(m, files, a) + Stream(m, files, b)
    ensures AllMeaningful(m, a) && AllMeaningful(m, b) ==> AllMeaningful(m, a + b)
  {
    hide WellFormed, Tokens, Meaningful;
    StreamConcat(m, files, a, b);
  }

  lemma OutFacts(s: State)
    requires Separate(s)
    ensures Distinct(s.out) && Apart(s.out, s.free) && s.buf !in s.out
  {
    assert s.buf == NONE ==> s.buf !in s.out;
  }

  lemma HandOverTracked(s: State, w: State, tag: nat)
    requires Tracked(s, tag) && Distinct(s.out)
    requires w == s.(pending := s.pending + s.out, lent := s.lent + s.out, out := [])
    requires Apart(s.out, s.free) && s.buf !in s.out
    ensures Tracked(w, tag)
  {
    var a, b := s.busy + s.lent, s.out;
    assert w.busy + w.lent == a + b;
    forall i, j | 0 <= i < j < |a + b| && (a + b)[i] in s.owned
      ensures (a + b)[i] != (a + b)[j]
    {
      assert j < |a| ==> (a + b)[i] == a[i] && (a + b)[j] == a[j];
      assert i < |a| <= j ==> (a + b)[i] == a[i] && a[i] in a && (a + b)[j] in b;
      assert |a| <= i ==> (a + b)[i] == b[i - |a|] && (a + b)[j] == b[j - |a|];
    }
  }

  lemma HandOverSeparate(s: State, w: State)
    requires Separate(s) && w == s.(pending := s.pending + s.out, lent := s.lent + s.out, out := [])
    ensures Separate(w)
  {
    var a, b := s.pending, s.out;
    forall i, j | 0 <= i < j < |a + b|
      ensures (a + b)[i] != (a + b)[j]
    {
      assert i < |a| <= j ==> (a + b)[i] in a && (a + b)[j] in b;
    }
  }

  lemma JoinBusy(s: State, files: Files, tag: nat)
    requires Inv(s, files, tag)
    ensures var w := s.(busy := s.busy + s.lent, lent := []);
      Inv(w, files, tag) && Unsent(w, files) == Unsent(s, files)
  {
    var w := s.(busy := s.busy + s.lent, lent := []);
    assert w.busy + w.lent == s.busy + s.lent;
    assert Tracked(w, tag);
    hide Tracked, Separate, WellFormed, Meaningful, Tokens;
  }

  /** A buffer of somebody else leaves the busy list. */
  lemma PopForeign(s: State, files: Files, tag: nat)
    requires Inv(s, files, tag) && s.lent == [] && s.busy != [] && s.m[s.busy[0]].tag != tag
    ensures var w := s.(busy := s.busy[1..]);
      Inv(w, files, tag) && Unsent(w, files) == Unsent(s, files)
  {
    var w := s.(busy := s.busy[1..]);
    PopTracked(s, w, tag);
    hide Tracked, Separate, WellFormed, Meaningful, Tokens;
  }

  lemma PopTracked(s: State, w: State, tag: nat)
    requires Tracked(s, tag) && s.lent == [] && s.busy != [] && s.busy[0] !in s.owned && w == s.(busy := s.busy[1..])
    ensures Tracked(w, tag)
  {
    assert s.busy + [] == s.busy && w.busy + [] == w.busy;
    assert s.busy == [s.busy[0]] + w.busy;
    assert forall i :: 0 <= i < |w.busy| ==> w.busy[i] == s.busy[i + 1];
  }

  // pos and last go back to the start
  function Emptied(b: Buf): Buf {
    b.(pos := 0, last := 0)
  }

  lemma TagMeansOwned(s: State, tag: nat, i: Id)
    requires Tracked(s, tag) && i < |s.m|
    ensures s.m[i].tag == tag <==> i in s.owned
    ensures i in s.owned ==> InMemory(s.m[i])
  {
  }

  lemma EmptiedIsFine(b: Buf, files: Files)
    requires WellFormed(b, files) && InMemory(b) && Size(b) == 0
    ensures WellFormed(Emptied(b), files)
  {
  }

  /** A sent buffer is recycled. */
  lemma Recycle(s: State, files: Files, tag: nat)
    requires Inv(s, files, tag) && s.lent == [] && s.busy != [] && s.m[s.busy[0]].tag == tag
    requires Size(s.m[s.busy[0]]) == 0
    ensures var i := s.busy[0];
      var w := s.(m := s.m[i := Emptied(s.m[i])], busy := s.busy[1..], free := [i] + s.free);
      Inv(w, files, tag) && Unsent(w, files) == Unsent(s, files)
  {
    hide Tracked, Separate, WellFormed, Meaningful, Tokens, InMemory, Size;
    var i := s.busy[0];
    var b := Emptied(s.m[i]);
    var m := s.m[i := b];
    var w := s.(m := m, busy := s.busy[1..], free := [i] + s.free);
    SentIsNowhere(s, files, tag);
    TagMeansOwned(s, tag, i);
    EmptiedIsFine(s.m[i], files);
    RecycleTracked(s, w, tag);
    RecycleSeparate(s, w);
    WellFormedMoved(s.m, files, i, b);
    UnsentKept(s, m, files, i);
    MeaningfulKept(s.m, m, s.pending, i);
    MeaningfulKept(s.m, m, s.out, i);
  }

  lemma UnsentKept(s: State, m: Mem, files: Files, i: Id)
    requires AllWellFormed(s.m, files) && AllWellFormed(m, files) && Known(s) && Only(s.m, m, i)
    requires i !in s.pending && i !in s.out && i !in s.input
    ensures Known(s.(m := m)) && Unsent(s.(m := m), files) == Unsent(s, files)
  {
    hide WellFormed, Tokens;
    StreamKept(s.m, m, files, s.pending, i);
    StreamKept(s.m, m, files, s.out, i);
    StreamKept(s.m, m, files, s.input, i);
  }

  /** A buffer of the context on the busy list with nothing left to send is in no other list: it is not
      recycled before all of it is sent. */
  lemma SentIsNowhere(s: State, files: Files, tag: nat)
    requires Inv(s, files, tag) && s.busy != [] && s.m[s.busy[0]].tag == tag && Size(s.m[s.busy[0]]) == 0
    ensures s.busy[0] !in s.pending && s.busy[0] !in s.out && s.busy[0] !in s.input && s.busy[0] !in s.free
    ensures s.busy[0] != s.buf
  {
    var i := s.busy[0];
    assert i in s.busy + s.lent;
    assert !Meaningful(s.m[i]);
  }

  lemma RecycleTracked(s: State, w: State, tag: nat)
    requires Tracked(s, tag) && s.lent == [] && s.busy != [] && s.busy[0] in s.owned && s.busy[0] < |s.m|
    requires w == s.(m := s.m[s.busy[0] := Emptied(s.m[s.busy[0]])], busy := s.busy[1..], free := [s.busy[0]] + s.free)
    requires s.busy[0] !in s.free && s.busy[0] != s.buf
    ensures Tracked(w, tag)
  {
    assert s.busy + [] == s.busy && w.busy + [] == w.busy;
    assert s.busy == [s.busy[0]] + w.busy;
    assert forall i :: 0 <= i < |w.busy| ==> w.busy[i] == s.busy[i + 1];
    assert forall i :: 0 <= i < |w.busy| ==> w.busy[i] != s.busy[0];
  }

  lemma RecycleSeparate(s: State, w: State)
    requires Separate(s) && s.busy != [] && w == s.(m := w.m, busy := s.busy[1..], free := [s.busy[0]] + s.free)
    requires s.busy[0] !in s.pending && s.busy[0] !in s.out && s.busy[0] !in s.input && s.busy[0] !in s.free
    requires s.busy[0] != s.buf
    ensures Separate(w)
  {
    assert forall i :: 0 < i < |w.free| ==> w.free[i] == s.free[i - 1] && w.free[i] in s.free;
  }

  // ----- the head of the input -----

  lemma InputTail(s: State, tag: nat)
    requires Separate(s) && Tracked(s, tag) && s.input != []
    ensures Separate(s.(input := s.input[1..])) && Tracked(s.(input := s.input[1..]), tag)
    ensures s.input[0] !in s.input[1..]
    ensures var i := s.input[0];
      i !in s.out && i !in s.pending && i !in s.free && i != s.buf && i !in s.owned
  {
    assert s.input[0] in s.input;
    assert forall x :: x in s.input[1..] ==> x in s.input;
    assert forall i :: 0 <= i < |s.input| - 1 ==> s.input[1..][i] == s.input[i + 1];
  }

  /** An empty buffer is dropped; it means nothing. */
  lemma DropEmpty(s: State, files: Files, tag: nat)
    requires Inv(s, files, tag) && s.input != [] && !Meaningful(s.m[s.input[0]])
    ensures var w := s.(input := s.input[1..]);
      Inv(w, files, tag) && Unsent(w, files) == Unsent(s, files)
  {
    InputTail(s, tag);
    assert Tokens(s.m[s.input[0]], files) == [];
    assert Stream(s.m, files, s.input) == [] + Stream(s.m, files, s.input[1..]);
    hide Tracked, Separate, WellFormed, Meaningful, Tokens;
  }

  lemma ForgetTokens(b: Buf, files: Files)
    requires WellFormed(b, files) && InMemory(b)
    ensures var c := b.(inFile := false);
      && WellFormed(c, files) && Tokens(c, files) == Tokens(b, files) && Size(c) == Size(b) && Special(c) == Special(b)
      && Moved(b, c)
  {
  }

  lemma SeparateRecords(s: State, m: Mem)
    requires Separate(s)
    ensures Separate(s.(m := m))
  {
  }

  /** The file half of a buffer that is in memory is not needed. */
  lemma ForgetFile(s: State, files: Files, tag: nat)
    requires Inv(s, files, tag) && s.input != [] && InMemory(s.m[s.input[0]])
    ensures var i := s.input[0];
      var w := s.(m := s.m[i := s.m[i].(inFile := false)]);
      Inv(w, files, tag) && Unsent(w, files) == Unsent(s, files) && Size(w.m[i]) == Size(s.m[i]) &&
        Special(w.m[i]) == Special(s.m[i])
  {
    var i := s.input[0];
    var b := s.m[i].(inFile := false);
    var m := s.m[i := b];
    ForgetTokens(s.m[i], files);
    hide Tracked, Separate, WellFormed, Meaningful, Tokens, Special, Size, InMemory;
    InputTail(s, tag);
    WellFormedMoved(s.m, files, i, b);
    TrackedMoved(s, s.(m := m), tag, i);
    SeparateRecords(s, m);
    StreamSame(s.m, m, files, s.input, i);
    StreamKept(s.m, m, files, s.out, i);
    StreamKept(s.m, m, files, s.pending, i);
    MeaningfulKept(s.m, m, s.pending, i);
    MeaningfulKept(s.m, m, s.out, i);
  }

  lemma Shift(p: seq<Token>, a: seq<Token>, x: seq<Token>, b: seq<Token>)
    ensures p + a + (x + b) == p + (a + x) + b
  {
  }

  lemma StreamSnoc(m: Mem, files: Files, a: seq<Id>, i: Id)
    requires AllWellFormed(m, files) && Within(m, a) && i < |m|
    ensures Within(m, a + [i]) && Stream(m, files, a + [i]) == Stream(m, files, a) + Tokens(m[i], files)
  {
    StreamConcat(m, files, a, [i]);
    assert [i][1..] == [];
    assert Tokens(m[i], files) + [] == Tokens(m[i], files);
  }

  /** A buffer goes out as it is. */
  lemma MoveAsIs(s: State, files: Files, tag: nat)
    requires Inv(s, files, tag) && s.input != [] && Meaningful(s.m[s.input[0]])
    ensures var w := s.(input := s.input[1..], out := s.out + [s.input[0]]);
      Inv(w, files, tag) && Unsent(w, files) == Unsent(s, files)
  {
    var i := s.input[0];
    var w := s.(input := s.input[1..], out := s.out + [i]);
    InputTail(s, tag);
    MoveTracked(s, w, tag, i);
    OutSeparate(s.(input := s.input[1..]), w, i);
    StreamSnoc(s.m, files, s.out, i);
    Shift(Stream(s.m, files, s.pending), Stream(s.m, files, s.out), Tokens(s.m[i], files),
      Stream(s.m, files, s.input[1..]));
    hide Tracked, Separate, WellFormed, Meaningful, Tokens;
  }

  lemma MoveTracked(s: State, w: State, tag: nat, i: Id)
    requires Tracked(s, tag) && i !in s.owned && w == s.(input := w.input, out := s.out + [i])
    requires forall x :: x in w.input ==> x in s.input
    ensures Tracked(w, tag)
  {
  }

  lemma OutSeparate(s: State, w: State, i: Id)
    requires Separate(s) && i !in s.input && i !in s.out && i !in s.pending && i !in s.free && i != s.buf
    requires w == s.(out := s.out + [i])
    ensures Separate(w)
  {
  }

  // ----- own buffers -----

  lemma TakeFree(s: State, files: Files, tag: nat)
    requires Inv(s, files, tag) && s.free != [] && s.buf == NONE
    ensures var w := s.(buf := s.free[0], free := s.free[1..]);
      Inv(w, files, tag) && Unsent(w, files) == Unsent(s, files)
  {
    hide Tracked, Separate, WellFormed, Meaningful, Tokens;
    var w := s.(buf := s.free[0], free := s.free[1..]);
    TakeSeparate(s, w);
    TakeTracked(s, w, tag);
  }

  lemma TakeSeparate(s: State, w: State)
    requires Separate(s) && s.free != [] && s.buf == NONE && w == s.(buf := s.free[0], free := s.free[1..])
    ensures Separate(w)
  {
    assert s.free[0] in s.free;
    assert forall i :: 0 <= i < |w.free| ==> w.free[i] == s.free[i + 1] && w.free[i] in s.free;
  }

  lemma TakeTracked(s: State, w: State, tag: nat)
    requires Tracked(s, tag) && s.free != [] && s.buf == NONE && w == s.(buf := s.free[0], free := s.free[1..])
    ensures Tracked(w, tag)
  {
    assert s.free[0] in s.free;
    assert s.free == [s.free[0]] + w.free;
  }

  /** More records leave the others and the stream as they are. */
  lemma MoreRecords(m: Mem, w: Mem, files: Files, ids: seq<Id>)
    requires AllWellFormed(m, files) && AllWellFormed(w, files) && m <= w && Within(m, ids)
    ensures Within(w, ids) && Stream(w, files, ids) == Stream(m, files, ids)
    ensures AllMeaningful(m, ids) ==> AllMeaningful(w, ids)
  {
    assert forall i :: 0 <= i < |ids| ==> w[ids[i]] == m[ids[i]];
    StreamFrame(m, w, files, ids);
  }

  lemma NewBuf(s: State, files: Files, tag: nat, b: Buf)
    requires Inv(s, files, tag) && s.buf == NONE && Blank(b) && b.tag == tag && WellFormed(b, files)
    ensures var w := s.(m := s.m + [b], owned := s.owned + {|s.m|}, buf := |s.m|);
      Inv(w, files, tag) && Unsent(w, files) == Unsent(s, files)
  {
    var w := s.(m := s.m + [b], owned := s.owned + {|s.m|}, buf := |s.m|);
    assert AllWellFormed(w.m, files);
    NewTracked(s, w, tag, b);
    NewSeparate(s, w);
    hide Tracked, Separate, WellFormed, Meaningful, Tokens;
    MoreRecords(s.m, w.m, files, s.input);
    MoreRecords(s.m, w.m, files, s.out);
    MoreRecords(s.m, w.m, files, s.pending);
  }

  lemma NewTracked(s: State, w: State, tag: nat, b: Buf)
    requires Tracked(s, tag) && Known(s) && s.buf == NONE && Blank(b) && b.tag == tag
    requires w == s.(m := s.m + [b], owned := s.owned + {|s.m|}, buf := |s.m|)
    ensures Tracked(w, tag)
  {
    assert forall i :: i in s.busy + s.lent ==> i < |s.m|;
    assert forall i :: i in s.out || i in s.free || i in s.input ==> i < |s.m|;
  }

  lemma NewSeparate(s: State, w: State)
    requires Separate(s) && Known(s) && w == s.(m := w.m, owned := w.owned, buf := |s.m|)
    ensures Separate(w)
  {
    assert forall i :: i in s.input || i in s.out || i in s.pending || i in s.free ==> i < |s.m|;
  }

  // ----- copying -----

  function Copied(m: Mem, files: Files, i: Id, d: Id, n: nat, sendfile: bool): Mem
    requires i < |m| && d < |m| && WellFormed(m[i], files) && n <= Size(m[i]) && n <= |m[d].data|
  {
    m[i := Advance(m[i], n)][d := Filled(m[d], m[i], files, n, sendfile)]
  }

  ghost predicate CanCopy(s: State, n: int) {
    && s.input != [] && s.buf >= 0 && s.buf < |s.m| && s.input[0] < |s.m| && Blank(s.m[s.buf])
    && !Special(s.m[s.input[0]]) && 0 < n <= Size(s.m[s.input[0]]) && n <= |s.m[s.buf].data|
  }

  /** Bytes are copied from the first input buffer to the current buffer, which goes out; an input buffer
      without more bytes is removed. */
  lemma CopyStep(s: State, files: Files, tag: nat, n: int, sendfile: bool)
    requires Inv(s, files, tag) && CanCopy(s, n)
    ensures var i := s.input[0];
      var w := s.(m := Copied(s.m, files, i, s.buf, n, sendfile), input := Left(s.input, n == Size(s.m[i])),
        out := s.out + [s.buf], buf := NONE);
      Inv(w, files, tag) && Unsent(w, files) == Unsent(s, files)
  {
    CurrentIsNowhere(s, tag);
    CopyRecords(s.m, files, s.input[0], s.buf, n, sendfile);
    CopyLists(s, Copied(s.m, files, s.input[0], s.buf, n, sendfile), files, tag, n == Size(s.m[s.input[0]]));
  }

  // The two records after a copy.
  lemma CopyRecords(m: Mem, files: Files, i: Id, d: Id, n: int, sendfile: bool)
    requires AllWellFormed(m, files) && i < |m| && d < |m| && i != d && Blank(m[d])
    requires !Special(m[i]) && 0 < n <= Size(m[i]) && n <= |m[d].data|
    ensures var w := Copied(m, files, i, d, n, sendfile);
      && AllWellFormed(w, files) && OnlyTwo(m, w, i, d) && Meaningful(w[d])
      && w[i].tag == m[i].tag && w[d].tag == m[d].tag && Temporary(w[d]) && |w[d].data| == |m[d].data|
      && Tokens(m[i], files) == Tokens(w[d], files) + Tokens(w[i], files)
      && (n == Size(m[i]) ==> Tokens(w[i], files) == [])
  {
    CopyPart(m[d], m[i], files, n, sendfile);
    AdvanceSize(m[i], files, n);
    ContentLength(m[i], files);
    FilledKind(m[d], m[i], files, n, sendfile);
    hide WellFormed, Filled, Special, Size, Blank;
    WellFormedMoved(m, files, i, Advance(m[i], n));
    WellFormedMoved(m[i := Advance(m[i], n)], files, d, Filled(m[d], m[i], files, n, sendfile));
  }

  lemma CopyLists(s: State, m: Mem, files: Files, tag: nat, done: bool)
    requires Inv(s, files, tag) && s.input != [] && s.buf >= 0 && s.buf in s.owned && s.buf != s.input[0]
    requires AllWellFormed(m, files) && OnlyTwo(s.m, m, s.input[0], s.buf) && Meaningful(m[s.buf])
    requires m[s.input[0]].tag == s.m[s.input[0]].tag && m[s.buf].tag == s.m[s.buf].tag && Temporary(m[s.buf])
    requires |m[s.buf].data| > 0
    requires Tokens(s.m[s.input[0]], files) == Tokens(m[s.buf], files) + Tokens(m[s.input[0]], files)
    requires done ==> Tokens(m[s.input[0]], files) == []
    ensures var w := s.(m := m, input := Left(s.input, done), out := s.out + [s.buf], buf := NONE);
      Inv(w, files, tag) && Unsent(w, files) == Unsent(s, files)
  {
    hide Tracked, Separate, WellFormed, Tokens, Meaningful;
    CurrentIsNowhere(s, tag);
    InputTail(s, tag);
    CopyTracked(s, m, tag, done);
    CopySeparate(s, m, done);
    CopyMeaningful(s.m, m, s.pending, s.input[0], s.buf);
    CopyMeaningful(s.m, m, s.out, s.input[0], s.buf);
    CopyStream(s, m, files, done);
  }

  lemma CurrentIsNowhere(s: State, tag: nat)
    requires Separate(s) && Tracked(s, tag) && s.buf != NONE && s.input != []
    ensures s.buf >= 0 && s.buf in s.owned && s.buf != s.input[0]
    ensures s.buf !in s.input && s.buf !in s.out && s.buf !in s.pending && s.buf !in s.free
  {
    assert s.input[0] in s.input;
  }

  lemma FilledKind(dst: Buf, src: Buf, files: Files, n: nat, sendfile: bool)
    requires Blank(dst) && WellFormed(src, files) && n <= Size(src) && n <= |dst.data|
    requires |Content(src, files)| == Size(src)
    ensures var d := Filled(dst, src, files, n, sendfile);
      Temporary(d) && |d.data| == |dst.data| && d.tag == dst.tag
  {
  }

  // Buffers `i` and `d` changed.
  ghost predicate OnlyTwo(m: Mem, w: Mem, i: Id, d: Id) {
    |w| == |m| && forall j :: 0 <= j < |m| && j != i && j != d ==> w[j] == m[j]
  }

  lemma CopyMeaningful(m: Mem, w: Mem, ids: seq<Id>, i: Id, d: Id)
    requires AllMeaningful(m, ids) && OnlyTwo(m, w, i, d) && i !in ids && d !in ids
    ensures AllMeaningful(w, ids)
  {
    assert forall k :: 0 <= k < |ids| ==> ids[k] in ids;
  }

  lemma CopyTracked(s: State, m: Mem, tag: nat, done: bool)
    requires Tracked(s, tag) && s.input != [] && s.buf >= 0 && s.input[0] < |s.m| && s.buf < |s.m| && s.buf in s.owned
    requires s.buf != s.input[0] && s.input[0] !in s.owned && OnlyTwo(s.m, m, s.input[0], s.buf)
    requires m[s.input[0]].tag == s.m[s.input[0]].tag
    requires Temporary(m[s.buf]) && |m[s.buf].data| > 0 && m[s.buf].tag == s.m[s.buf].tag
    requires s.buf !in s.free
    ensures Tracked(s.(m := m, input := Left(s.input, done), out := s.out + [s.buf], buf := NONE), tag)
  {
    assert forall x :: x in Left(s.input, done) ==> x in s.input;
  }

  lemma CopySeparate(s: State, m: Mem, done: bool)
    requires Separate(s) && s.input != [] && s.buf >= 0
    ensures Separate(s.(m := m, input := Left(s.input, done), out := s.out + [s.buf], buf := NONE))
  {
    var a := Left(s.input, done);
    assert forall x :: x in a ==> x in s.input;
    assert done ==> forall i :: 0 <= i < |a| ==> a[i] == s.input[i + 1];
  }

  lemma StreamKeptTwo(m: Mem, w: Mem, files: Files, ids: seq<Id>, i: Id, d: Id)
    requires AllWellFormed(m, files) && AllWellFormed(w, files) && Within(m, ids) && OnlyTwo(m, w, i, d) && i !in ids
    requires d !in ids
    ensures Stream(w, files, ids) == Stream(m, files, ids)
  {
    hide WellFormed, Tokens;
    assert forall k :: 0 <= k < |ids| ==> ids[k] in ids;
    StreamFrame(m, w, files, ids);
  }

  lemma CopyStream(s: State, m: Mem, files: Files, done: bool)
    requires AllWellFormed(s.m, files) && AllWellFormed(m, files) && Known(s) && s.input != [] && s.buf >= 0
    requires OnlyTwo(s.m, m, s.input[0], s.buf) && s.buf !in s.input && s.buf !in s.out && s.buf !in s.pending
    requires s.input[0] !in s.out && s.input[0] !in s.pending && s.input[0] !in s.input[1..]
    requires Tokens(s.m[s.input[0]], files) == Tokens(m[s.buf], files) + Tokens(m[s.input[0]], files)
    requires done ==> Tokens(m[s.input[0]], files) == []
    ensures var w := s.(m := m, input := Left(s.input, done), out := s.out + [s.buf], buf := NONE);
      Known(w) && Unsent(w, files) == Unsent(s, files)
  {
    hide WellFormed, Tokens;
    var i, d := s.input[0], s.buf;
    var rest := s.input[1..];
    assert forall x :: x in rest ==> x in s.input;
    StreamKeptTwo(s.m, m, files, s.pending, i, d);
    StreamKeptTwo(s.m, m, files, s.out, i, d);
    StreamKeptTwo(s.m, m, files, rest, i, d);
    StreamSnoc(m, files, s.out, d);
    var p, o, x, y, r := Stream(m, files, s.pending), Stream(m, files, s.out), Tokens(m[d], files),
      Tokens(m[i], files), Stream(m, files, rest);
    Regroup(p, o, x, y, r);
    assert done ==> y + r == r;
  }

  lemma Regroup(p: seq<Token>, o: seq<Token>, x: seq<Token>, y: seq<Token>, r: seq<Token>)
    ensures p + o + ((x + y) + r) == p + (o + x) + (y + r)
  {
  }

  // ----- accepting input -----

  function Fresh(from: nat, n: nat): (ids: seq<Id>)
    ensures |ids| == n && forall k :: 0 <= k < n ==> ids[k] == from + k
  {
    seq(n, k requires 0 <= k < n => from + k)
  }

  /** New buffers are put behind the others. */
  lemma Accept(s: State, files: Files, tag: nat, incoming: seq<Buf>)
    requires Inv(s, files, tag)
    requires forall k :: 0 <= k < |incoming| ==> WellFormed(incoming[k], files) && incoming[k].tag != tag
    ensures var ids := Fresh(|s.m|, |incoming|);
      var w := s.(m := s.m + incoming, input := s.input + ids);
      && Inv(w, files, tag) && Within(w.m, ids) && Unsent(w, files) == Unsent(s, files) + Stream(w.m, files, ids)
  {
    var ids := Fresh(|s.m|, |incoming|);
    var w := s.(m := s.m + incoming, input := s.input + ids);
    AcceptWellFormed(s.m, files, incoming);
    AcceptTracked(s, w, tag, incoming);
    AcceptSeparate(s, w, |incoming|);
    hide Tracked, Separate, WellFormed, Tokens, Meaningful;
    MoreRecords(s.m, w.m, files, s.input);
    MoreRecords(s.m, w.m, files, s.out);
    MoreRecords(s.m, w.m, files, s.pending);
    StreamConcat(w.m, files, s.input, ids);
    Associate(Stream(w.m, files, s.pending) + Stream(w.m, files, s.out), Stream(w.m, files, s.input),
      Stream(w.m, files, ids));
  }

  lemma AcceptWellFormed(m: Mem, files: Files, incoming: seq<Buf>)
    requires AllWellFormed(m, files) && forall k :: 0 <= k < |incoming| ==> WellFormed(incoming[k], files)
    ensures AllWellFormed(m + incoming, files)
  {
    assert forall i :: |m| <= i < |m| + |incoming| ==> (m + incoming)[i] == incoming[i - |m|];
  }

  lemma AcceptTracked(s: State, w: State, tag: nat, incoming: seq<Buf>)
    requires Tracked(s, tag) && Known(s) && forall k :: 0 <= k < |incoming| ==> incoming[k].tag != tag
    requires w == s.(m := s.m + incoming, input := s.input + Fresh(|s.m|, |incoming|))
    ensures Tracked(w, tag)
  {
    assert forall i :: |s.m| <= i < |w.m| ==> w.m[i] == incoming[i - |s.m|] && w.m[i].tag != tag;
    assert forall i :: 0 <= i < |s.m| ==> w.m[i] == s.m[i];
  }

  lemma AcceptSeparate(s: State, w: State, n: nat)
    requires Separate(s) && Known(s) && w == s.(m := w.m, input := s.input + Fresh(|s.m|, n))
    ensures Separate(w)
  {
    assert forall i :: i in s.input || i in s.out || i in s.pending || i in s.free ==> i < |s.m|;
  }
}
