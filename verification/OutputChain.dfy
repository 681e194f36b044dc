/** The output chain: buffers go to the output filter as they are, or copied through a few buffers of the
    context that are used again when they are sent. */
module OutputChain {
  import opened Common
  import opened OutputBufs
  import opened OutputState
  import opened OutputSteps

  datatype Status = OK | ERROR | AGAIN | DONE

  // What the output filter does in one call: how many bytes it sends, and what it returns.
  datatype Reply = Reply(sent: nat, status: Status)

  // How much there is to do for the input.
  function Weight(m: Mem, ids: seq<Id>): nat {
    if ids == [] then 0
    else 1 + (if ids[0] < |m| && Size(m[ids[0]]) > 0 then Size(m[ids[0]]) else 0) + Weight(m, ids[1..])
  }

  lemma {:induction false} WeightFrame(m: Mem, w: Mem, ids: seq<Id>)
    requires forall k :: 0 <= k < |ids| ==> ids[k] < |m| && ids[k] < |w| && Size(w[ids[k]]) == Size(m[ids[k]])
    ensures Weight(w, ids) == Weight(m, ids)
  {
    if ids != [] {
      WeightFrame(m, w, ids[1..]);
    }
  }

  class Context {
    const files: Files
    const tag: nat
    const sendfile: bool
    const needInMemory: bool
    const needInTemp: bool
    const num: nat               // bufs.num and bufs.size
    const bufSize: nat

    var bufs: Mem                // all buffer records
    var buf: int
    var input: seq<Id>           // ctx->in
    var free: seq<Id>
    var busy: seq<Id>
    var taken: nat               // ctx->allocated

    var out: seq<Id>             // the chain being built
    var lent: seq<Id>            // the chain the filter was called with
    var pending: seq<Id>         // the filter's own chain

    ghost var owned: set<Id>
    ghost var sent: seq<Token>   // what the receiver has got
    ghost var handed: seq<Buf>   // all buffers the filter was called with, as they were then
    ghost var copied: seq<Buf>   // all buffers that were copied, as they were then

    ghost function Now(): State
      reads this
    {
      State(bufs, owned, input, out, pending, free, lent, busy, buf)
    }

    /** The lists are in order, and no more buffers are allocated than allowed. */
    ghost predicate Valid()
      reads this
    {
      Inv(Now(), files, tag) && |owned| == taken <= num && bufSize > 0 && Sorted() && AllDeliverable(out)
    }

    /** What the filter can do with: a buffer that is a mark only; or one that is in memory, if the filter needs that
        or files are not sent, that may be written to, if the filter needs that, and that has no file, if files are
        not sent. */
    predicate Deliverable(b: Buf) {
      || ((b.flush || b.lastBuf || b.sync) && !b.temporary && !b.memory && !b.mmap && !b.inFile)
      || (
        && (needInMemory || !sendfile ==> b.temporary || b.memory || b.mmap)
        && (needInTemp ==> !b.memory && !b.mmap)
        && (!sendfile ==> !b.inFile))
    }

    ghost predicate AllDeliverable(ids: seq<Id>)
      reads this
    {
      forall k :: 0 <= k < |ids| && ids[k] < |bufs| ==> Deliverable(bufs[ids[k]])
    }

    /** The filter got only what it can do with, and only what it cannot do with was copied. */
    ghost predicate Sorted()
      reads `handed, `copied
    {
      && (forall k :: 0 <= k < |handed| ==> Deliverable(handed[k]))
      && (forall k :: 0 <= k < |copied| ==> !Deliverable(copied[k]))
    }

    ghost predicate AtRest()
      reads this
    {
      Valid() && out == [] && lent == [] && buf == NONE
    }

    /** All that was accepted: what is sent, and what is not sent yet. */
    ghost function Accepted(): seq<Token>
      requires Inv(Now(), files, tag)
      reads this
    {
      sent + Unsent(Now(), files)
    }

    constructor (files: Files, tag: nat, sendfile: bool, needInMemory: bool, needInTemp: bool, num: nat, bufSize: nat)
      requires bufSize > 0
      ensures AtRest() && Accepted() == []
    {
      this.files, this.tag, this.sendfile := files, tag, sendfile;
      this.needInMemory, this.needInTemp, this.num, this.bufSize := needInMemory, needInTemp, num, bufSize;
      bufs, buf, input, free, busy, taken := [], NONE, [], [], [], 0;
      out, lent, pending := [], [], [];
      owned, sent, handed, copied := {}, [], [], [];
    }

    /** ngx_chain_update_sent on the filter's chain: exactly `bytes` bytes go, or all there are; marks go with
        them, and the chain starts with an unsent byte then. */
    method Send(bytes: nat)
      requires Inv(Now(), files, tag)
      modifies `bufs, `pending, `sent
      ensures Inv(Now(), files, tag) && Accepted() == old(Accepted()) && old(sent) <= sent && |bufs| == |old(bufs)|
      ensures ByteCount(sent) <= ByteCount(old(sent)) + bytes
      ensures pending != [] ==>
        && ByteCount(sent) == ByteCount(old(sent)) + bytes
        && pending[0] < |bufs| && !Special(bufs[pending[0]]) && Size(bufs[pending[0]]) > 0
      ensures forall i :: 0 <= i < |bufs| && i !in old(pending) ==> bufs[i] == old(bufs[i])
    {
      hide AllWellFormed, Tracked, Separate, AllMeaningful, Unsent;
      var left := bytes;
      while pending != []
        invariant Inv(Now(), files, tag) && Accepted() == old(Accepted()) && old(sent) <= sent && |bufs| == |old(bufs)|
        invariant forall i :: 0 <= i < |bufs| && i !in old(pending) ==> bufs[i] == old(bufs[i])
        invariant left >= 0 && forall i :: i in pending ==> i in old(pending)
        invariant ByteCount(sent) + left == ByteCount(old(sent)) + bytes
        decreases |pending|
      {
        var i := pending[0];
        PendingHead(Now(), files, tag);
        if Special(bufs[i]) {
          PassSpecial(Now(), files, tag);
          CountMarks(sent, bufs[i]);
          Associate(sent, Marks(bufs[i]), Unsent(Now().(pending := pending[1..]), files));
          sent := sent + Marks(bufs[i]);
          pending := pending[1..];
          continue;
        }
        if left == 0 {
          break;
        }
        var size := Size(bufs[i]);
        if left >= size {
          left := left - size;
          SendSome(size);
          continue;
        }
        SendSome(left);
        PendingHead(Now(), files, tag);
        break;
      }
    }

    method SendSome(n: int)
      requires Inv(Now(), files, tag) && pending != [] && pending[0] < |bufs|
      requires !Special(bufs[pending[0]]) && 0 < n <= Size(bufs[pending[0]])
      modifies `bufs, `pending, `sent
      ensures Inv(Now(), files, tag) && Accepted() == old(Accepted()) && old(sent) <= sent
      ensures bufs == old(bufs)[old(pending[0]) := Advance(old(bufs[pending[0]]), n)]
      ensures pending == if n == Size(old(bufs[pending[0]])) then old(pending)[1..] else old(pending)
      ensures ByteCount(sent) == ByteCount(old(sent)) + n
    {
      hide AllWellFormed, Tracked, Separate, AllMeaningful, Unsent, WellFormed;
      var i := pending[0];
      var b := bufs[i];
      var done := n == Size(b);
      PendingHead(Now(), files, tag);
      ContentLength(b, files);
      SendFront(Now(), files, tag, n);
      ghost var gone := Octets(Content(b, files)[..n]) + if done then Marks(b) else [];
      CountSent(sent, Content(b, files)[..n], b, done);
      bufs := bufs[i := Advance(b, n)];
      if done {
        pending := pending[1..];
      }
      Associate(sent, gone, Unsent(Now(), files));
      sent := sent + gone;
    }

    // The output filter takes the chain over and sends what it can.
    method Filter(reply: Reply) returns (rc: Status)
      requires Inv(Now(), files, tag) && Sorted() && AllDeliverable(out)
      modifies `bufs, `pending, `sent, `out, `lent, `handed
      ensures Sorted() && handed == old(handed) + Records(old(bufs), old(out))
      ensures Inv(Now(), files, tag) && Accepted() == old(Accepted()) && old(sent) <= sent
      ensures rc == reply.status && out == [] && lent == old(lent) + old(out)
      ensures Weight(bufs, input) == Weight(old(bufs), input)
    {
      hide AllWellFormed, Tracked, Separate, AllMeaningful, Unsent, Deliverable;
      RecordsDeliverable(this, out);
      handed := handed + Records(bufs, out);
      HandOver(Now(), files, tag);
      InputStays(Now(), files, tag);
      pending := pending + out;
      lent := lent + out;
      out := [];
      ghost var m := bufs;
      Send(reply.sent);
      WeightFrame(m, bufs, input);
      rc := reply.status;
    }

    /** ngx_chain_update_chains: up to the first own buffer that is not fully sent, own buffers become free
        and empty, and foreign ones are dropped; that buffer and all behind it stay busy. */
    method UpdateChains()
      requires Inv(Now(), files, tag)
      modifies `bufs, `busy, `free, `lent
      ensures Inv(Now(), files, tag) && Accepted() == old(Accepted()) && lent == []
      ensures Weight(bufs, input) == Weight(old(bufs), input)
      ensures busy == StillBusy(old(bufs), tag, old(busy + lent))
      ensures free == Freed(old(bufs), tag, old(busy + lent), old(free))
      ensures |bufs| == |old(bufs)| && forall i :: 0 <= i < |bufs| ==>
        bufs[i] == if i in free && i !in old(free) then Emptied(old(bufs)[i]) else old(bufs)[i]
    {
      hide AllWellFormed, Tracked, Separate, AllMeaningful, Unsent;
      JoinBusy(Now(), files, tag);
      busy := busy + lent;
      lent := [];
      ghost var m0, q0, f0 := bufs, busy, free;
      while busy != []
        invariant Inv(Now(), files, tag) && Accepted() == old(Accepted()) && lent == []
        invariant Weight(bufs, input) == Weight(m0, input) && |bufs| == |m0|
        invariant StillBusy(m0, tag, busy) == StillBusy(m0, tag, q0)
        invariant Freed(m0, tag, busy, free) == Freed(m0, tag, q0, f0)
        invariant forall i :: 0 <= i < |bufs| ==> bufs[i] == if i in free && i !in f0 then Emptied(m0[i]) else m0[i]
        invariant forall i :: i in f0 ==> i in free
        decreases |busy|
      {
        var i := busy[0];
        assert i < |bufs|;
        BusyIsNew(Now(), files, tag);
        if bufs[i].tag != tag {
          PopForeign(Now(), files, tag);
          busy := busy[1..];
          continue;
        }
        if Size(bufs[i]) != 0 {
          break;
        }
        RecycleFirst();
      }
    }

    // An own buffer that was sent becomes free.
    method RecycleFirst()
      requires Inv(Now(), files, tag) && lent == [] && busy != [] && busy[0] < |bufs|
      requires bufs[busy[0]].tag == tag && Size(bufs[busy[0]]) == 0
      modifies `bufs, `busy, `free
      ensures Inv(Now(), files, tag) && Accepted() == old(Accepted()) && Weight(bufs, input) == Weight(old(bufs), input)
      ensures busy == old(busy)[1..] && free == [old(busy)[0]] + old(free) && old(busy)[0] !in old(free)
      ensures bufs == old(bufs)[old(busy)[0] := Emptied(old(bufs)[old(busy)[0]])]
    {
      hide AllWellFormed, Tracked, Separate, AllMeaningful, Unsent;
      var i := busy[0];
      BusyIsNew(Now(), files, tag);
      Recycle(Now(), files, tag);
      RecycledElsewhere(Now(), files, tag);
      ghost var m := bufs;
      bufs := bufs[i := Emptied(bufs[i])];
      WeightFrame(m, bufs, input);
      busy := busy[1..];
      free := [i] + free;
    }

    function NoFile(b: Buf): Buf {
      if !Special(b) && !sendfile && InMemory(b) then b.(inFile := false) else b
    }

    /** ngx_output_chain_get_buf: the last part of a chain gets a buffer of its own size when it is short, or the only
        buffer is a little too small for it. */
    method GetBuf(bsize: nat)
      requires Valid() && buf == NONE && taken < num && input != [] && input[0] < |bufs| && bsize > 0
      modifies `bufs, `owned, `buf, `taken
      ensures Valid() && buf != NONE && Accepted() == old(Accepted()) && taken == old(taken) + 1
      ensures bufs == old(bufs) + [bufs[|bufs| - 1]] && buf == |old(bufs)|
      ensures var n, last := |bufs[buf].data|, old(bufs[input[0]]).lastInChain;
        && (n == bufSize || (last && n == bsize))
        && (last && (bsize < bufSize || (num == 1 && bsize < bufSize + bufSize / 4)) ==> n == bsize)
        && (n < bufSize ==> n == bsize) && (n > bufSize ==> num == 1 && n < bufSize + bufSize / 4)
    {
      hide AllWellFormed, Tracked, Separate, AllMeaningful, Unsent;
      var size := bufSize;
      if bufs[input[0]].lastInChain {
        if bsize < size {
          size := bsize;
        } else if num == 1 && bsize < size + size / 4 {
          size := bsize;
        }
      }
      var b := Buf(seq(size, _ => 0), 0, 0, 0, 0, 0, tag, true, false, false, false, false, false, false, false);
      NewBuf(Now(), files, tag, b);
      assert |bufs| !in owned by { NewIsNew(Now(), tag); }
      owned := owned + {|bufs|};
      buf := |bufs|;
      bufs := bufs + [b];
      taken := taken + 1;
    }

    ghost method NoteCopied(b: Buf)
      requires Sorted() && !Deliverable(b)
      modifies `copied
      ensures Sorted() && copied == old(copied) + [b]
    {
      copied := copied + [b];
    }

    // ngx_output_chain_copy_buf, and the link work after it
    method CopyBuf()
      requires Valid() && buf != NONE && input != [] && input[0] < |bufs|
      requires !Special(bufs[input[0]]) && Size(bufs[input[0]]) > 0 && !Deliverable(bufs[input[0]])
      modifies `bufs, `input, `out, `buf, `copied
      ensures Valid() && Accepted() == old(Accepted()) && buf == NONE && out != []
      ensures Weight(bufs, input) < Weight(old(bufs), old(input)) && old(copied) <= copied
    {
      hide AllWellFormed, Tracked, Separate, AllMeaningful, Unsent, Deliverable, Special, Copied, Weight, Sorted;
      CurrentIsBlank(Now(), files, tag);
      var src, dst := bufs[input[0]], bufs[buf];
      NoteCopied(src);
      var size := if Size(src) < |dst.data| then Size(src) else |dst.data|;
      var done := size == Size(src);
      CopyStep(Now(), files, tag, size, sendfile);
      CopyWeight(Now(), files, tag, size, sendfile);
      CopyDelivers(this, size);
      bufs := Copied(bufs, files, input[0], buf, size, sendfile);
      if done {
        input := input[1..];
      }
      out := out + [buf];
      buf := NONE;
    }

    /** ngx_output_chain_as_is: a buffer that is in memory forgets its file if files are not sent; it goes as it is if
        and only if the filter can do with it then. */
    method Judge(b: Buf) returns (asIs: bool, c: Buf)
      ensures c == NoFile(b) && (asIs <==> Deliverable(c)) && (Deliverable(b) ==> c == b)
    {
      c := b;
      if Special(b) {
        return true, c;
      }
      if !sendfile {
        if !InMemory(b) {
          return false, c;
        }
        c := c.(inFile := false);
      }
      if needInMemory && !InMemory(b) {
        return false, c;
      }
      if needInTemp && (b.memory || b.mmap) {
        return false, c;
      }
      asIs := true;
    }

    // The same for the first buffer of the input.
    method AsIs(i: Id) returns (asIs: bool)
      requires Valid() && input != [] && input[0] == i && i < |bufs|
      modifies `bufs
      ensures Valid() && Accepted() == old(Accepted()) && Weight(bufs, input) == Weight(old(bufs), input)
      ensures bufs == old(bufs)[i := NoFile(old(bufs[i]))] && (asIs <==> Deliverable(bufs[i]))
      ensures Deliverable(old(bufs[i])) ==> bufs == old(bufs)
      ensures Size(bufs[i]) == Size(old(bufs[i])) && Special(bufs[i]) == Special(old(bufs[i]))
    {
      hide AllWellFormed, Tracked, Separate, AllMeaningful, Unsent, Deliverable;
      var c;
      asIs, c := Judge(bufs[i]);
      assert c == bufs[i] ==> bufs[i := c] == bufs;
      if !Special(bufs[i]) && !sendfile && InMemory(bufs[i]) {
        ForgetFile(Now(), files, tag);
        ghost var m := bufs;
        InputIsNotOut(Now(), files, tag);
        bufs := bufs[i := c];
        InputWithin(Now(), files, tag);
        WeightFrame(m, bufs, input);
      }
    }

    // A buffer to copy to: a free one, or a new one when nothing waits to go out and one more is allowed.
    method Provide(bsize: nat) returns (blocked: bool)
      requires Valid() && buf == NONE && input != [] && input[0] < |bufs| && bsize > 0
      requires !Special(bufs[input[0]]) && Size(bufs[input[0]]) > 0
      modifies `bufs, `owned, `buf, `taken, `free
      ensures Valid() && Accepted() == old(Accepted()) && Weight(bufs, input) == Weight(old(bufs), input)
      ensures blocked <==> old(free) == [] && (out != [] || old(taken) == num)
      ensures if blocked then buf == NONE && free == [] && taken == old(taken) else buf != NONE
      ensures input[0] < |bufs| && bufs[input[0]] == old(bufs[input[0]])
    {
      hide AllWellFormed, Tracked, Separate, AllMeaningful, Unsent;
      blocked := false;
      if free != [] {
        TakeFree(Now(), files, tag);
        buf := free[0];
        free := free[1..];
      } else if out != [] || taken == num {
        blocked := true;
      } else {
        InputWithin(Now(), files, tag);
        ghost var m := bufs;
        GetBuf(bsize);
        InputKept(m, bufs, input);
      }
    }

    // One buffer of the input: dropped, moved as it is, or copied in part. Nothing is done when it has to
    // be copied and there is no buffer for it.
    method Step() returns (blocked: bool)
      requires Valid() && input != [] && input[0] < |bufs| && buf == NONE
      requires (Special(bufs[input[0]]) || Size(bufs[input[0]]) >= 0)
      modifies `bufs, `owned, `buf, `taken, `input, `out, `free, `copied
      ensures Valid() && Accepted() == old(Accepted()) && buf == NONE && old(copied) <= copied
      ensures Size(old(bufs[input[0]])) != 0 && Deliverable(old(bufs[input[0]])) ==>
        !blocked && out == old(out) + [old(input[0])] && input == old(input)[1..] && bufs == old(bufs)
      ensures blocked ==> input != [] && free == [] && (out != [] || taken == num) && out == old(out)
      ensures blocked ==> Weight(bufs, input) == Weight(old(bufs), old(input))
      ensures !blocked ==> Weight(bufs, input) < Weight(old(bufs), old(input))
    {
      hide AllWellFormed, Tracked, Separate, AllMeaningful, Unsent, Special, Size, Deliverable, InMemory;
      var i := input[0];
      var bsize := Size(bufs[i]);
      if bsize == 0 && !Special(bufs[i]) {
        DropEmpty(Now(), files, tag);
        input := input[1..];
        return false;
      }
      SpecialGoes(this, bufs[i]);
      var asIs := AsIs(i);
      if asIs {
        MoveAsIs(Now(), files, tag);
        out := out + [i];
        input := input[1..];
        return false;
      }
      blocked := Provide(bsize);
      if !blocked {
        CopyBuf();
      }
    }

    // The inner loop: as much of the input as there are buffers for goes to `out`.
    method Gather() returns (failed: bool)
      requires Valid() && buf == NONE && out == []
      modifies `bufs, `owned, `buf, `taken, `input, `out, `free, `copied
      ensures Valid() && Accepted() == old(Accepted()) && buf == NONE && old(copied) <= copied
      ensures !failed ==> input == [] || (free == [] && (out != [] || taken == num))
      ensures Weight(bufs, input) <= Weight(old(bufs), old(input))
      ensures out != [] ==> Weight(bufs, input) < Weight(old(bufs), old(input))
    {
      hide Inv, Unsent, Weight;
      while input != []
        invariant Valid() && Accepted() == old(Accepted()) && buf == NONE && old(copied) <= copied
        invariant Weight(bufs, input) <= Weight(old(bufs), old(input))
        invariant out != [] ==> Weight(bufs, input) < Weight(old(bufs), old(input))
        decreases Weight(bufs, input)
      {
        InputWithin(Now(), files, tag);
        if !Special(bufs[input[0]]) && Size(bufs[input[0]]) < 0 {
          return true;
        }
        var blocked := Step();
        if blocked {
          break;
        }
      }
      failed := false;
    }

    // The one input buffer is passed on as it is, or dropped if it means nothing.
    method PassFirst()
      requires Inv(Now(), files, tag) && |input| == 1 && out == [] && input[0] < |bufs|
      requires Deliverable(bufs[input[0]])
      modifies `input, `out
      ensures Inv(Now(), files, tag) && Accepted() == old(Accepted()) && input == [] && AllDeliverable(out)
      ensures out == if Meaningful(bufs[old(input)[0]]) then old(input) else []
    {
      hide AllWellFormed, Tracked, Separate, AllMeaningful, Unsent, WellFormed, Tokens;
      assert input[1..] == [] && out + [input[0]] == [input[0]];
      if Meaningful(bufs[input[0]]) {
        MoveAsIs(Now(), files, tag);
        out := [input[0]];
      } else {
        DropEmpty(Now(), files, tag);
      }
      input := [];
    }

    // The short path: nothing waits, and the one buffer goes to the filter as it is.
    method PassOn(b: Buf, reply: Reply) returns (rc: Status)
      requires AtRest() && input == [] && WellFormed(b, files) && b.tag != tag && Deliverable(b)
      modifies `bufs, `input, `out, `pending, `lent, `sent, `handed
      ensures AtRest() && Accepted() == old(Accepted()) + Tokens(b, files) && old(sent) <= sent
      ensures handed == old(handed) + if Meaningful(b) then [b] else []
      ensures rc == reply.status && input == []
    {
      hide AllWellFormed, Tracked, Separate, AllMeaningful, Unsent, WellFormed, Tokens;
      NewIsNew(Now(), tag);
      Take([b]);
      assert TokensOf([b], files) == Tokens(b, files);
      assert input == [|bufs| - 1];
      PassFirst();
      rc := FilterOnly(reply);
    }

    // The filter keeps the links of its own chain.
    method FilterOnly(reply: Reply) returns (rc: Status)
      requires Inv(Now(), files, tag) && Sorted() && AllDeliverable(out)
      requires lent == [] && forall i :: i in out ==> i !in owned
      modifies `bufs, `pending, `sent, `out, `lent, `handed
      ensures Inv(Now(), files, tag) && Accepted() == old(Accepted()) && old(sent) <= sent
      ensures Sorted() && handed == old(handed) + Records(old(bufs), old(out))
      ensures rc == reply.status && out == [] && lent == []
    {
      hide Inv, Unsent, Deliverable;
      rc := Filter(reply);
      ForgetLent(Now(), files, tag);
      lent := [];
    }

    // ngx_output_chain_add_copy
    method Take(incoming: seq<Buf>)
      requires AtRest() && forall k :: 0 <= k < |incoming| ==> WellFormed(incoming[k], files) && incoming[k].tag != tag
      modifies `bufs, `input
      ensures AtRest() && Accepted() == old(Accepted()) + TokensOf(incoming, files)
      ensures bufs == old(bufs) + incoming && input == old(input) + Fresh(|old(bufs)|, |incoming|)
    {
      hide AllWellFormed, Tracked, Separate, AllMeaningful, Unsent;
      Accept(Now(), files, tag, incoming);
      StreamOfFresh(bufs, files, incoming);
      Associate(sent, Unsent(Now(), files), TokensOf(incoming, files));
      input := input + Fresh(|bufs|, |incoming|);
      bufs := bufs + incoming;
    }

    /** ngx_output_chain: whatever the filter sends and answers, no byte and no mark is lost, doubled or
        moved. Input that stays behind waits for a buffer: all allowed ones are still being sent. */
    method Output(incoming: seq<Buf>, world: nat -> Reply) returns (rc: Status)
      requires AtRest() && forall k :: 0 <= k < |incoming| ==> WellFormed(incoming[k], files) && incoming[k].tag != tag
      modifies this
      ensures Valid() && Accepted() == old(Accepted()) + TokensOf(incoming, files) && old(sent) <= sent
      ensures old(handed) <= handed && old(copied) <= copied
      ensures rc != ERROR && rc != DONE ==> AtRest() && (input != [] ==> rc == AGAIN && free == [] && taken == num)
    {
      hide Inv, Unsent, WellFormed, Tokens, TokensOf, Deliverable, Meaningful, Special, Records, Weight, Sorted;
      var more := incoming;
      if input == [] && busy == [] {
        if more == [] {
          NoBuffers(files);
          rc := Filter(world(0));
          return;
        }
        if |more| == 1 {
          NoFileMeansSame(this, more[0]);
          var asIs, b := Judge(more[0]);
          more := [b];
          OneBuffer(incoming, files);
          OneBuffer(more, files);
          if asIs {
            rc := PassOn(more[0], world(0));
            return;
          }
        }
      }
      Take(more);
      rc := Pump(world);
    }

    // The outer loop.
    method Pump(world: nat -> Reply) returns (rc: Status)
      requires AtRest()
      modifies this
      ensures Valid() && Accepted() == old(Accepted()) && old(sent) <= sent
      ensures old(handed) <= handed && old(copied) <= copied
      ensures rc != ERROR && rc != DONE ==> AtRest() && (input != [] ==> rc == AGAIN && free == [] && taken == num)
    {
      hide Inv, Unsent, Weight, Sorted, Deliverable, Records, StillBusy, Freed;
      var calls := 0;
      var last := OK;
      while true
        invariant AtRest() && Accepted() == old(Accepted()) && old(sent) <= sent
        invariant old(handed) <= handed && old(copied) <= copied
        decreases Weight(bufs, input), if calls == 0 then 1 else 0
      {
        var failed := Gather();
        if failed {
          return ERROR;
        }
        if out == [] && calls > 0 {
          if input != [] {
            return AGAIN;
          }
          return last;
        }
        last := Filter(world(calls));
        calls := calls + 1;
        if last == ERROR || last == DONE {
          return last;
        }
        UpdateChains();
      }
    }
  }

  lemma PendingHead(s: State, files: Files, tag: nat)
    requires Inv(s, files, tag) && s.pending != []
    ensures s.pending[0] < |s.m| && (Special(s.m[s.pending[0]]) || Size(s.m[s.pending[0]]) > 0)
    ensures WellFormed(s.m[s.pending[0]], files)
  {
    assert Meaningful(s.m[s.pending[0]]);
  }

  lemma InputStays(s: State, files: Files, tag: nat)
    requires Inv(s, files, tag)
    ensures forall k :: 0 <= k < |s.input| ==> s.input[k] < |s.m| && s.input[k] !in s.pending + s.out
  {
    assert forall k :: 0 <= k < |s.input| ==> s.input[k] in s.input;
  }

  lemma RecycledElsewhere(s: State, files: Files, tag: nat)
    requires Inv(s, files, tag) && s.busy != [] && s.m[s.busy[0]].tag == tag && Size(s.m[s.busy[0]]) == 0
    ensures forall k :: 0 <= k < |s.input| ==> s.input[k] < |s.m| && s.input[k] != s.busy[0]
  {
    SentIsNowhere(s, files, tag);
    assert forall k :: 0 <= k < |s.input| ==> s.input[k] in s.input;
  }

  // Own buffers on the busy list are not free.
  lemma BusyIsNew(s: State, files: Files, tag: nat)
    requires Inv(s, files, tag) && s.busy != []
    ensures s.busy[0] < |s.m| && s.busy[0] !in s.free
  {
    assert s.busy[0] in s.busy + s.lent;
  }

  /** Behind what is sent or foreign. */
  function StillBusy(m: Mem, tag: nat, q: seq<Id>): seq<Id> {
    if q == [] || q[0] >= |m| || (m[q[0]].tag == tag && Size(m[q[0]]) != 0) then q else StillBusy(m, tag, q[1..])
  }

  /** The free list with the sent own buffers in front, the last one first. */
  function Freed(m: Mem, tag: nat, q: seq<Id>, free: seq<Id>): seq<Id> {
    if q == [] || q[0] >= |m| || (m[q[0]].tag == tag && Size(m[q[0]]) != 0) then free
    else Freed(m, tag, q[1..], if m[q[0]].tag == tag then [q[0]] + free else free)
  }

  lemma NewIsNew(s: State, tag: nat)
    requires Tracked(s, tag)
    ensures |s.m| !in s.owned
  {
  }

  lemma CurrentIsBlank(s: State, files: Files, tag: nat)
    requires Inv(s, files, tag) && s.buf != NONE && s.input != []
    ensures 0 <= s.buf < |s.m| && Blank(s.m[s.buf]) && s.buf != s.input[0] && s.buf !in s.input
    ensures s.input[0] !in s.input[1..]
    ensures WellFormed(s.m[s.input[0]], files)
  {
    CurrentIsNowhere(s, tag);
    InputTail(s, tag);
  }

  lemma CopyWeight(s: State, files: Files, tag: nat, n: int, sendfile: bool)
    requires Inv(s, files, tag) && CanCopy(s, n) && s.buf != NONE
    ensures Weight(Copied(s.m, files, s.input[0], s.buf, n, sendfile),
      Left(s.input, n == Size(s.m[s.input[0]]))) < Weight(s.m, s.input)
  {
    CurrentIsBlank(s, files, tag);
    var i, rest := s.input[0], s.input[1..];
    var w := Copied(s.m, files, i, s.buf, n, sendfile);
    AdvanceSize(s.m[i], files, n);
    assert w[i] == Advance(s.m[i], n);
    assert forall k :: 0 <= k < |rest| ==> rest[k] in rest && rest[k] == s.input[k + 1] && rest[k] in s.input;
    WeightFrame(s.m, w, rest);
  }

  lemma InputWithin(s: State, files: Files, tag: nat)
    requires Inv(s, files, tag)
    ensures Within(s.m, s.input) && Distinct(s.input)
  {
  }

  lemma InputKept(m: Mem, w: Mem, ids: seq<Id>)
    requires m <= w && Within(m, ids)
    ensures Weight(w, ids) == Weight(m, ids)
  {
    WeightFrame(m, w, ids);
  }

  // The records of a list.
  function Records(m: Mem, ids: seq<Id>): seq<Buf> {
    if ids == [] then [] else (if ids[0] < |m| then [m[ids[0]]] else []) + Records(m, ids[1..])
  }

  lemma {:induction false} RecordsDeliverable(c: Context, ids: seq<Id>)
    requires c.AllDeliverable(ids)
    ensures forall k :: 0 <= k < |Records(c.bufs, ids)| ==> c.Deliverable(Records(c.bufs, ids)[k])
  {
    if ids != [] {
      assert forall k :: 0 <= k < |ids[1..]| ==> ids[1..][k] == ids[k + 1];
      RecordsDeliverable(c, ids[1..]);
    }
  }

  lemma InputIsNotOut(s: State, files: Files, tag: nat)
    requires Inv(s, files, tag) && s.input != []
    ensures forall k :: 0 <= k < |s.out| ==> s.out[k] < |s.m| && s.out[k] != s.input[0]
  {
    assert s.input[0] in s.input;
    assert forall k :: 0 <= k < |s.out| ==> s.out[k] in s.out;
  }

  // A copy can go to the filter, and the buffers in front of it are as before.
  lemma CopyDelivers(c: Context, n: int)
    requires Inv(c.Now(), c.files, c.tag) && CanCopy(c.Now(), n) && c.AllDeliverable(c.out)
    ensures var w := Copied(c.bufs, c.files, c.input[0], c.buf, n, c.sendfile); var out := c.out + [c.buf];
      forall k :: 0 <= k < |out| ==> out[k] < |w| && c.Deliverable(w[out[k]])
  {
    InputIsNotOut(c.Now(), c.files, c.tag);
    CurrentIsNowhere(c.Now(), c.tag);
    assert forall k :: 0 <= k < |c.out| ==> c.out[k] in c.out;
  }

  lemma SpecialGoes(c: Context, b: Buf)
    ensures Special(b) ==> c.Deliverable(b)
  {
  }

  /** What the buffers mean, one after the other. */
  function TokensOf(incoming: seq<Buf>, files: Files): seq<Token>
    requires forall k :: 0 <= k < |incoming| ==> WellFormed(incoming[k], files)
  {
    if incoming == [] then [] else Tokens(incoming[0], files) + TokensOf(incoming[1..], files)
  }

  lemma {:induction false} StreamOfFresh(m: Mem, files: Files, incoming: seq<Buf>)
    requires AllWellFormed(m, files) && forall k :: 0 <= k < |incoming| ==> WellFormed(incoming[k], files)
    ensures AllWellFormed(m + incoming, files) && Within(m + incoming, Fresh(|m|, |incoming|))
    ensures Stream(m + incoming, files, Fresh(|m|, |incoming|)) == TokensOf(incoming, files)
    decreases incoming
  {
    AcceptWellFormed(m, files, incoming);
    if incoming != [] {
      var n := m + [incoming[0]];
      AcceptWellFormed(m, files, [incoming[0]]);
      hide Tokens, WellFormed;
      assert n + incoming[1..] == m + incoming;
      assert (m + incoming)[|m|] == incoming[0];
      StreamOfFresh(n, files, incoming[1..]);
      FreshTail(|m|, |incoming|);
    }
  }

  lemma FreshTail(from: nat, n: nat)
    requires n > 0
    ensures Fresh(from, n)[0] == from && Fresh(from, n)[1..] == Fresh(from + 1, n - 1)
  {
  }

  /** The filter has its own chain: the links of the short path are not kept. */
  lemma ForgetLent(s: State, files: Files, tag: nat)
    requires Inv(s, files, tag) && forall i :: i in s.lent ==> i !in s.owned
    ensures Inv(s.(lent := []), files, tag) && Unsent(s.(lent := []), files) == Unsent(s, files)
  {
    var a, b := s.busy + s.lent, s.busy + [];
    assert b == s.busy;
    assert forall i :: i in s.busy ==> i in a;
    assert forall i :: 0 <= i < |s.busy| ==> a[i] == s.busy[i];
    assert Tracked(s.(lent := []), tag);
    hide Tracked, Separate, AllWellFormed, AllMeaningful, Stream;
  }

  lemma NoBuffers(files: Files)
    ensures TokensOf([], files) == []
  {
  }

  lemma OneBuffer(bs: seq<Buf>, files: Files)
    requires |bs| == 1 && WellFormed(bs[0], files)
    ensures TokensOf(bs, files) == Tokens(bs[0], files)
  {
    assert bs[1..] == [];
  }

  lemma NoFileMeansSame(c: Context, b: Buf)
    requires WellFormed(b, c.files)
    ensures WellFormed(c.NoFile(b), c.files) && Tokens(c.NoFile(b), c.files) == Tokens(b, c.files)
    ensures c.NoFile(b).tag == b.tag
  {
    if InMemory(b) {
      ForgetTokens(b, c.files);
    }
  }
}
