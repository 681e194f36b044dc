/** Buffers in memory and in files, and what they mean to the receiver. */
module OutputBufs {
  import opened Common

  type Byte = nat

  type Id = nat           // a buffer record

  // `data` is the memory from start to end; `pos` and `last` bound what is to be sent.
  datatype Buf = Buf(data: seq<Byte>, pos: int, last: int, filePos: int, fileLast: int, file: nat, tag: nat,
                     temporary: bool, memory: bool, mmap: bool, inFile: bool,
                     flush: bool, sync: bool, lastBuf: bool, lastInChain: bool)

  type Mem = seq<Buf>

  type Files = seq<seq<Byte>>

  // ngx_buf_in_memory, ngx_buf_special and ngx_buf_size
  predicate InMemory(b: Buf) {
    b.temporary || b.memory || b.mmap
  }

  predicate Special(b: Buf) {
    (b.flush || b.lastBuf || b.sync) && !InMemory(b) && !b.inFile
  }

  function Size(b: Buf): int {
    if InMemory(b) then b.last - b.pos else b.fileLast - b.filePos
  }

  /** The bounds lie in the memory and in the file; a buffer in both holds the same bytes in both. */
  predicate WellFormed(b: Buf, files: Files) {
    && (InMemory(b) ==> 0 <= b.pos && 0 <= b.last <= |b.data|)
    && (b.inFile ==> b.file < |files| && 0 <= b.filePos && 0 <= b.fileLast <= |files[b.file]|)
    && (InMemory(b) && b.inFile ==> b.last - b.pos == b.fileLast - b.filePos)
    && (InMemory(b) && b.inFile && b.pos <= b.last ==> b.data[b.pos..b.last] == files[b.file][b.filePos..b.fileLast])
    && (!InMemory(b) && !b.inFile ==> b.fileLast == b.filePos)
  }

  function Content(b: Buf, files: Files): seq<Byte>
    requires WellFormed(b, files) && Size(b) >= 0
  {
    if InMemory(b) then b.data[b.pos..b.last]
    else if b.inFile then files[b.file][b.filePos..b.fileLast]
    else []
  }

  // ----- the stream -----

  /** What the receiver gets: bytes, and the marks that stand behind the bytes of a buffer. */
  datatype Token = Octet(b: Byte) | Flush | Last | Tail

  function Octets(s: seq<Byte>): (t: seq<Token>)
    ensures |t| == |s| && forall i :: 0 <= i < |s| ==> t[i] == Octet(s[i])
  {
    seq(|s|, i requires 0 <= i < |s| => Octet(s[i]))
  }

  function ByteCount(t: seq<Token>): nat {
    if t == [] then 0 else (if t[0].Octet? then 1 else 0) + ByteCount(t[1..])
  }

  lemma {:induction false} CountConcat(a: seq<Token>, b: seq<Token>)
    ensures ByteCount(a + b) == ByteCount(a) + ByteCount(b)
  {
    if a == [] {
      assert a + b == b;
    } else {
      assert (a + b)[1..] == a[1..] + b;
      CountConcat(a[1..], b);
    }
  }

  lemma {:induction false} CountOctets(s: seq<Byte>)
    ensures ByteCount(Octets(s)) == |s|
  {
    if s != [] {
      assert Octets(s)[1..] == Octets(s[1..]);
      CountOctets(s[1..]);
    }
  }

  lemma NoBytes(b: Buf)
    ensures ByteCount(Marks(b)) == 0
  {
    var x, y := if b.flush then [Flush] else [], if b.lastBuf then [Last] else [];
    CountConcat(x + y, if b.lastInChain then [Tail] else []);
    CountConcat(x, y);
  }

  lemma CountMarks(sent: seq<Token>, b: Buf)
    ensures ByteCount(sent + Marks(b)) == ByteCount(sent)
  {
    NoBytes(b);
    CountConcat(sent, Marks(b));
  }

  lemma CountSent(sent: seq<Token>, s: seq<Byte>, b: Buf, done: bool)
    ensures ByteCount(sent + (Octets(s) + if done then Marks(b) else [])) == ByteCount(sent) + |s|
  {
    var m := if done then Marks(b) else [];
    NoBytes(b);
    CountOctets(s);
    CountConcat(Octets(s), m);
    CountConcat(sent, Octets(s) + m);
  }

  function Marks(b: Buf): seq<Token> {
    (if b.flush then [Flush] else []) + (if b.lastBuf then [Last] else []) + (if b.lastInChain then [Tail] else [])
  }

  // A buffer without bytes means nothing, unless it is special.
  function Tokens(b: Buf, files: Files): seq<Token>
    requires WellFormed(b, files)
  {
    if Special(b) then Marks(b)
    else if Size(b) <= 0 then []
    else Octets(Content(b, files)) + Marks(b)
  }

  ghost predicate AllWellFormed(m: Mem, files: Files) {
    forall i :: 0 <= i < |m| ==> WellFormed(m[i], files)
  }

  ghost predicate Within(m: Mem, ids: seq<Id>) {
    forall i :: 0 <= i < |ids| ==> ids[i] < |m|
  }

  function Stream(m: Mem, files: Files, ids: seq<Id>): seq<Token>
    requires AllWellFormed(m, files) && Within(m, ids)
  {
    if ids == [] then [] else Tokens(m[ids[0]], files) + Stream(m, files, ids[1..])
  }

  lemma Associate(a: seq<Token>, b: seq<Token>, c: seq<Token>)
    ensures a + (b + c) == (a + b) + c
  {
  }

  lemma {:induction false} StreamConcat(m: Mem, files: Files, a: seq<Id>, b: seq<Id>)
    requires AllWellFormed(m, files) && Within(m, a) && Within(m, b)
    ensures Within(m, a + b) && Stream(m, files, a + b) == Stream(m, files, a) + Stream(m, files, b)
  {
    hide Tokens, WellFormed;
    if a == [] {
      assert a + b == b;
    } else {
      assert (a + b)[1..] == a[1..] + b;
      StreamConcat(m, files, a[1..], b);
      Associate(Tokens(m[a[0]], files), Stream(m, files, a[1..]), Stream(m, files, b));
    }
  }

  /** The stream depends on the tokens of its buffers only. */
  lemma {:induction false} StreamFrame(m: Mem, w: Mem, files: Files, ids: seq<Id>)
    requires AllWellFormed(m, files) && AllWellFormed(w, files) && Within(m, ids) && Within(w, ids)
    requires forall i :: 0 <= i < |ids| ==> Tokens(w[ids[i]], files) == Tokens(m[ids[i]], files)
    ensures Stream(w, files, ids) == Stream(m, files, ids)
  {
    if ids != [] {
      StreamFrame(m, w, files, ids[1..]);
    }
  }

  // ----- sending and copying -----

  // The first `n` bytes are gone.
  function Advance(b: Buf, n: int): Buf {
    b.(pos := if InMemory(b) then b.pos + n else b.pos, filePos := if b.inFile then b.filePos + n else b.filePos)
  }

  lemma AdvanceSize(b: Buf, files: Files, n: int)
    requires WellFormed(b, files) && !Special(b) && 0 <= n <= Size(b) && (n > 0 || InMemory(b) || b.inFile)
    ensures WellFormed(Advance(b, n), files) && Size(Advance(b, n)) == Size(b) - n && !Special(Advance(b, n))
    ensures Content(Advance(b, n), files) == Content(b, files)[n..]
  {
    var a := Advance(b, n);
    if InMemory(b) && b.inFile {
      assert a.data[a.pos..a.last] == b.data[b.pos..b.last][n..];
      assert files[b.file][a.filePos..a.fileLast] == files[b.file][b.filePos..b.fileLast][n..];
    }
  }

  lemma ContentLength(b: Buf, files: Files)
    requires WellFormed(b, files) && Size(b) >= 0
    ensures |Content(b, files)| == Size(b)
    ensures InMemory(b) && b.inFile ==> Content(b, files) == files[b.file][b.filePos..b.fileLast]
  {
  }

  /** Sending bytes from the front of a buffer; the marks go with the last byte. */
  lemma SendPart(b: Buf, files: Files, n: int)
    requires WellFormed(b, files) && !Special(b) && 0 < n <= Size(b)
    ensures WellFormed(Advance(b, n), files) && |Content(b, files)| == Size(b)
    ensures Tokens(b, files) == Octets(Content(b, files)[..n]) + (if n == Size(b) then Marks(b) else []) +
      Tokens(Advance(b, n), files)
  {
    ContentLength(b, files);
    AdvanceSize(b, files, n);
    var c, d := Content(b, files), Content(Advance(b, n), files);
    assert Marks(Advance(b, n)) == Marks(b);
    hide Content, WellFormed, Special, Marks, Size;
    Join(c, n, Marks(b));
  }

  lemma Join(c: seq<Byte>, n: nat, marks: seq<Token>)
    requires n <= |c|
    ensures Octets(c) + marks == Octets(c[..n]) + [] + (Octets(c[n..]) + marks)
    ensures n == |c| ==> Octets(c) + marks == Octets(c[..n]) + marks + []
  {
    OctetsSplit(c, n);
    hide Octets;
    Associate(Octets(c[..n]), Octets(c[n..]), marks);
    assert n == |c| ==> c[..n] == c;
  }

  lemma OctetsSplit(c: seq<Byte>, n: nat)
    requires n <= |c|
    ensures Octets(c) == Octets(c[..n]) + Octets(c[n..])
  {
  }

  // An empty temporary buffer takes bytes.
  predicate Blank(b: Buf) {
    b.temporary && !b.memory && !b.mmap && b.pos == 0 && b.last == 0 && |b.data| > 0
  }

  // memcpy, or the read of the file, and what is said about it
  function Filled(dst: Buf, src: Buf, files: Files, n: nat, sendfile: bool): Buf
    requires WellFormed(src, files) && n <= Size(src) && n <= |dst.data|
  {
    var inFile, end := src.inFile && sendfile, n == Size(src);
    dst.(data := Content(src, files)[..n] + dst.data[n..], last := dst.last + n,
         inFile := inFile, file := if inFile then src.file else dst.file,
         filePos := if inFile then src.filePos else dst.filePos,
         fileLast := if inFile then src.filePos + n else dst.fileLast,
         flush := end && src.flush, lastBuf := end && src.lastBuf, lastInChain := end && src.lastInChain)
  }

  lemma FilledFields(dst: Buf, src: Buf, files: Files, n: nat, sendfile: bool)
    requires Blank(dst) && WellFormed(src, files) && !Special(src) && 0 < n <= Size(src) && n <= |dst.data|
    ensures var d, c := Filled(dst, src, files, n, sendfile), Content(src, files)[..n];
      && |c| == n && d.temporary && d.pos == 0 && d.last == n <= |d.data| && d.data[0..n] == c
      && d.inFile == (src.inFile && sendfile) && Marks(d) == (if n == Size(src) then Marks(src) else [])
      && (d.inFile ==> d.file == src.file && d.filePos == src.filePos && d.fileLast == src.filePos + n)
  {
    ContentLength(src, files);
    hide Content, WellFormed, Size, Special;
    var c := Content(src, files)[..n];
    assert (c + dst.data[n..])[0..n] == c;
  }

  lemma FilePart(src: Buf, files: Files, n: nat)
    requires WellFormed(src, files) && src.inFile && 0 < n <= Size(src)
    ensures var f := files[src.file];
      0 <= src.filePos <= src.filePos + n <= |f| && f[src.filePos..src.filePos + n] == Content(src, files)[..n]
  {
    ContentLength(src, files);
    SliceOfSlice(files[src.file], src.filePos, n, src.fileLast);
  }

  lemma SliceOfSlice(s: seq<Byte>, a: nat, n: nat, e: nat)
    requires a + n <= e <= |s|
    ensures s[a..a + n] == s[a..e][..n]
  {
  }

  lemma FilledContent(dst: Buf, src: Buf, files: Files, n: nat, sendfile: bool)
    requires Blank(dst) && WellFormed(src, files) && !Special(src) && 0 < n <= Size(src) && n <= |dst.data|
    ensures var d := Filled(dst, src, files, n, sendfile);
      && WellFormed(d, files) && Size(d) == n && !Special(d) && |Content(src, files)| == Size(src)
      && Content(d, files) == Content(src, files)[..n] && Marks(d) == if n == Size(src) then Marks(src) else []
  {
    ContentLength(src, files);
    FilledFields(dst, src, files, n, sendfile);
    if src.inFile {
      FilePart(src, files, n);
    }
    assert src.inFile ==> src.file < |files|;
    hide Filled, Marks;
  }

  /** A copied fragment and what is left of its source mean what the source meant: no byte is lost or
      moved, and only the fragment that ends the source carries its marks. */
  lemma CopyPart(dst: Buf, src: Buf, files: Files, n: nat, sendfile: bool)
    requires Blank(dst) && WellFormed(src, files) && !Special(src) && 0 < n <= Size(src) && n <= |dst.data|
    ensures var d := Filled(dst, src, files, n, sendfile);
      && WellFormed(d, files) && WellFormed(Advance(src, n), files) && Size(d) == n && !Special(d)
      && Tokens(src, files) == Tokens(d, files) + Tokens(Advance(src, n), files)
  {
    SendPart(src, files, n);
    FilledContent(dst, src, files, n, sendfile);
    hide WellFormed, Special, Content, Marks, Filled, Size;
  }
}
