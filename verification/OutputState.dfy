/** Where the buffers of an output chain are. */
module OutputState {
  import opened Common
  import opened OutputBufs

  const NONE: int := -1

  // The lists of the context, the chain being built (`out`), and what the output filter still has to
  // send (`pending`). `owned` are the buffers the context has allocated, `lent` those it gave to the
  // output filter and has not put on the busy list yet.
  datatype State = State(m: Mem, owned: set<Id>, input: seq<Id>, out: seq<Id>, pending: seq<Id>,
                         free: seq<Id>, lent: seq<Id>, busy: seq<Id>, buf: int)

  ghost predicate Apart(a: seq<Id>, b: seq<Id>) {
    forall x :: x in a ==> x !in b
  }

  /** A buffer is in one list at most. */
  ghost predicate Separate(s: State) {
    && Distinct(s.input) && Distinct(s.out) && Distinct(s.pending) && Distinct(s.free)
    && Apart(s.input, s.out) && Apart(s.input, s.pending) && Apart(s.input, s.free)
    && Apart(s.out, s.pending) && Apart(s.out, s.free) && Apart(s.pending, s.free)
    && (s.buf != NONE ==> s.buf >= 0 && s.buf !in s.input && s.buf !in s.out && s.buf !in s.pending && s.buf !in s.free)
  }

  ghost predicate Known(s: State) {
    && Within(s.m, s.input) && Within(s.m, s.out) && Within(s.m, s.pending) && Within(s.m, s.free)
    && Within(s.m, s.lent) && Within(s.m, s.busy)
    && s.buf < |s.m|
  }

  predicate Meaningful(b: Buf) {
    Special(b) || Size(b) > 0
  }

  ghost predicate AllMeaningful(m: Mem, ids: seq<Id>) {
    forall i :: 0 <= i < |ids| && ids[i] < |m| ==> Meaningful(m[ids[i]])
  }

  // The kind of the context's own buffers.
  predicate Temporary(b: Buf) {
    b.temporary && !b.memory && !b.mmap
  }

  /** The context's own buffers: the free ones are empty, the busy ones are tracked until they are sent. */
  ghost predicate Tracked(s: State, tag: nat) {
    && (forall i :: 0 <= i < |s.m| ==> (s.m[i].tag == tag <==> i in s.owned))
    && (forall i :: i in s.owned ==> i < |s.m| && Temporary(s.m[i]) && |s.m[i].data| > 0)
    && (forall i :: i in s.input ==> i !in s.owned)
    && (forall i :: i in s.free ==> i in s.owned && i < |s.m| && Blank(s.m[i]))
    && (s.buf != NONE ==> 0 <= s.buf < |s.m| && s.buf in s.owned && Blank(s.m[s.buf]))
    && (forall i :: i in s.busy + s.lent && i in s.owned ==> i !in s.free && i != s.buf && i !in s.out)
    && (forall i, j :: 0 <= i < j < |s.busy + s.lent| && (s.busy + s.lent)[i] in s.owned ==>
      (s.busy + s.lent)[i] != (s.busy + s.lent)[j])
    && (forall i :: i in s.owned ==> i in s.free || i in s.busy + s.lent || i in s.out || i == s.buf)
  }

  ghost predicate Inv(s: State, files: Files, tag: nat) {
    && AllWellFormed(s.m, files) && Known(s) && Separate(s) && Tracked(s, tag)
    && AllMeaningful(s.m, s.out) && AllMeaningful(s.m, s.pending)
  }

  /** Everything accepted and not sent yet, in order. */
  ghost function Unsent(s: State, files: Files): seq<Token>
    requires AllWellFormed(s.m, files) && Known(s)
  {
    Stream(s.m, files, s.pending) + Stream(s.m, files, s.out) + Stream(s.m, files, s.input)
  }

  // Only buffer `i` changed.
  ghost predicate Only(m: Mem, w: Mem, i: Id) {
    |w| == |m| && forall j :: 0 <= j < |m| && j != i ==> w[j] == m[j]
  }

  lemma StreamKept(m: Mem, w: Mem, files: Files, ids: seq<Id>, i: Id)
    requires AllWellFormed(m, files) && AllWellFormed(w, files) && Within(m, ids) && Only(m, w, i) && i !in ids
    ensures Stream(w, files, ids) == Stream(m, files, ids)
  {
    assert forall k :: 0 <= k < |ids| ==> ids[k] in ids;
    StreamFrame(m, w, files, ids);
  }

  lemma StreamSame(m: Mem, w: Mem, files: Files, ids: seq<Id>, i: Id)
    requires AllWellFormed(m, files) && AllWellFormed(w, files) && Within(m, ids) && Only(m, w, i) && i < |m|
    requires Tokens(w[i], files) == Tokens(m[i], files)
    ensures Stream(w, files, ids) == Stream(m, files, ids)
  {
    hide Tokens, WellFormed;
    StreamFrame(m, w, files, ids);
  }

  // ----- the output filter -----

  // Buffer `i` sends or is read: its memory, its tag and its kind stay.
  predicate Moved(b: Buf, c: Buf) {
    c == b.(pos := c.pos, filePos := c.filePos, inFile := c.inFile)
  }

  /** A buffer that is neither free nor the current one may move on, in whatever list it is. */
  lemma TrackedMoved(s: State, w: State, tag: nat, i: Id)
    requires Tracked(s, tag) && i < |s.m| && i !in s.free && i != s.buf
    requires |w.m| == |s.m| && w == s.(m := s.m[i := w.m[i]]) && Moved(s.m[i], w.m[i])
    ensures Tracked(w, tag)
  {
  }

  lemma WellFormedMoved(m: Mem, files: Files, i: Id, b: Buf)
    requires AllWellFormed(m, files) && i < |m| && WellFormed(b, files)
    ensures AllWellFormed(m[i := b], files)
  {
  }

  lemma MeaningfulKept(m: Mem, w: Mem, ids: seq<Id>, i: Id)
    requires AllMeaningful(m, ids) && Only(m, w, i) && i !in ids
    ensures AllMeaningful(w, ids)
  {
    assert forall k :: 0 <= k < |ids| ==> ids[k] in ids;
  }

  lemma SeparateTail(s: State)
    requires Separate(s) && s.pending != []
    ensures Separate(s.(pending := s.pending[1..])) && s.pending[0] !in s.pending[1..]
    ensures s.pending[0] !in s.input && s.pending[0] !in s.out && s.pending[0] !in s.free && s.pending[0] != s.buf
  {
    assert s.pending[0] in s.pending;
    assert forall x :: x in s.pending[1..] ==> x in s.pending;
    assert forall i :: 0 <= i < |s.pending| - 1 ==> s.pending[1..][i] == s.pending[i + 1];
  }

  // The pending list after its first buffer became `c`.
  function Left(pending: seq<Id>, done: bool): seq<Id>
    requires pending != []
  {
    if done then pending[1..] else pending
  }

  lemma SendFrontInv(s: State, files: Files, tag: nat, c: Buf, done: bool)
    requires Inv(s, files, tag) && s.pending != [] && Moved(s.m[s.pending[0]], c) && WellFormed(c, files)
    requires done || Meaningful(c)
    ensures Inv(s.(m := s.m[s.pending[0] := c], pending := Left(s.pending, done)), files, tag)
  {
    var i := s.pending[0];
    var m := s.m[i := c];
    SeparateTail(s);
    WellFormedMoved(s.m, files, i, c);
    TrackedMoved(s, s.(m := m), tag, i);
    hide WellFormed, Tracked, Separate, Meaningful;
    assert AllMeaningful(s.m, s.pending[1..]);
    MeaningfulKept(s.m, m, s.pending[1..], i);
    MeaningfulKept(s.m, m, s.out, i);
    TrackedPending(s.(m := m), tag, Left(s.pending, done));
  }

  lemma TrackedPending(s: State, tag: nat, p: seq<Id>)
    ensures Tracked(s, tag) ==> Tracked(s.(pending := p), tag)
  {
  }

  lemma SendFrontStream(m: Mem, files: Files, pending: seq<Id>, c: Buf, sent: seq<Token>)
    requires AllWellFormed(m, files) && Within(m, pending) && pending != [] && pending[0] !in pending[1..]
    requires WellFormed(c, files)
    requires Tokens(m[pending[0]], files) == sent + Tokens(c, files)
    ensures AllWellFormed(m[pending[0] := c], files)
    ensures Stream(m, files, pending) == sent + Stream(m[pending[0] := c], files, pending)
    ensures Tokens(c, files) == [] ==>
      Stream(m, files, pending) == sent + Stream(m[pending[0] := c], files, pending[1..])
  {
    WellFormedMoved(m, files, pending[0], c);
    hide Tokens, WellFormed;
    StreamKept(m, m[pending[0] := c], files, pending[1..], pending[0]);
    Associate(sent, Tokens(c, files), Stream(m, files, pending[1..]));
    assert Tokens(c, files) == [] ==> sent + Tokens(c, files) == sent;
  }

  /** The first pending buffer sends `n` bytes, and leaves the list when all are sent. */
  lemma SendFront(s: State, files: Files, tag: nat, n: int)
    requires Inv(s, files, tag) && s.pending != [] && !Special(s.m[s.pending[0]]) && 0 < n <= Size(s.m[s.pending[0]])
    ensures var i := s.pending[0]; var b := s.m[i];
      var w := s.(m := s.m[i := Advance(b, n)], pending := Left(s.pending, n == Size(b)));
      && Inv(w, files, tag)
      && Unsent(s, files) == Octets(Content(b, files)[..n]) + (if n == Size(b) then Marks(b) else []) + Unsent(w, files)
  {
    var i := s.pending[0];
    var b := s.m[i];
    var c := Advance(b, n);
    SendPart(b, files, n);
    AdvanceSize(b, files, n);
    SendFrontInv(s, files, tag, c, n == Size(b));
    SeparateTail(s);
    var sent := Octets(Content(b, files)[..n]) + (if n == Size(b) then Marks(b) else []);
    SendFrontStream(s.m, files, s.pending, c, sent);
    var m := s.m[i := c];
    StreamKept(s.m, m, files, s.out, i);
    StreamKept(s.m, m, files, s.input, i);
    var p, p' := Stream(s.m, files, s.pending), Stream(m, files, Left(s.pending, n == Size(b)));
    assert p == sent + p';
    Associate3(sent, p', Stream(m, files, s.out), Stream(m, files, s.input));
  }

  lemma Associate3(a: seq<Token>, b: seq<Token>, c: seq<Token>, d: seq<Token>)
    ensures (a + b) + c + d == a + (b + c + d)
  {
  }

  /** A special buffer at the front is passed over. */
  lemma PassSpecial(s: State, files: Files, tag: nat)
    requires Inv(s, files, tag) && s.pending != [] && Special(s.m[s.pending[0]])
    ensures var w := s.(pending := s.pending[1..]);
      Inv(w, files, tag) && Unsent(s, files) == Marks(s.m[s.pending[0]]) + Unsent(w, files)
  {
    SeparateTail(s);
    TrackedPending(s, tag, s.pending[1..]);
    assert Tokens(s.m[s.pending[0]], files) == Marks(s.m[s.pending[0]]);
    Associate3(Marks(s.m[s.pending[0]]), Stream(s.m, files, s.pending[1..]), Stream(s.m, files, s.out),
      Stream(s.m, files, s.input));
    hide Tracked, Separate, WellFormed, Meaningful, Tokens;
  }
}
