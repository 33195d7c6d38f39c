/** An `io`: reading into one buffer, writing out of another, and the operations that wait. */
module AsyncIo {
  import opened Blocks
  import opened IoBuffer
  import opened IoLaws
  import opened IoTurns
  import opened KernelLaws
  import opened Options
  import opened Pool

  /** The blocks `rest` keep their bytes: those of every other buffer. */
  twostate predicate Kept(rest: multiset<array<byte>>)
    reads rest
  {
    forall b | b in rest :: b[..] == old(b[..])
  }

  /** A buffer that no step has touched, and whose blocks have kept their bytes. */
  twostate lemma StillStands(b: Buffer)
    requires old(b.Rep()) && unchanged(b) && Kept(old(Held(b.blocks)))
    ensures b.Rep() && b.Contents() == old(b.Contents())
  {
    hide Bytes;
    assert old(Shows(b.blocks, b.img));
    forall p | 0 <= p < |b.blocks| ensures b.blocks[p][..] == b.img[p] {
      assert b.blocks[p] in Held(b.blocks);
    }
  }

  /** The blocks of others are not in the buffer, nor in the pool. */
  lemma BooksAreOthers(b: Buffer, rest: multiset<array<byte>>)
    requires b.Books(rest)
    ensures forall x | x in rest :: x !in b.blocks && x !in b.mem.container
  {
    b.BooksAreDistinct(rest);
    forall y | y in b.mem.container ensures y !in rest {
      assert y in Held(b.mem.container) && y in b.mem.born && b.mem.born[y] == 1;
    }
  }

  lemma OwnBlocksAreBorn(b: Buffer, rest: multiset<array<byte>>)
    requires b.Books(rest)
    ensures forall p | 0 <= p < |b.blocks| :: b.blocks[p] in b.mem.born
    ensures forall p | 0 <= p < |b.mem.container| :: b.mem.container[p] in b.mem.born
  {
    forall p | 0 <= p < |b.blocks| ensures b.blocks[p] in b.mem.born {
      assert b.blocks[p] in multiset(b.blocks);
    }
    forall p | 0 <= p < |b.mem.container| ensures b.mem.container[p] in b.mem.born {
      assert b.mem.container[p] in multiset(b.mem.container);
    }
  }

  lemma RepMeans(b: Buffer)
    requires b.Rep()
    ensures b.Span() && |b.Contents()| <= MAX_BYTES
    ensures b.begin == NPOS ==> b.Contents() == []
    ensures b.begin != NPOS ==> b.begin < b.end && b.Contents() == Bytes(b.img, b.begin, b.end - b.begin)
    ensures b.begin != NPOS ==> |b.Contents()| == b.end - b.begin
  {
    hide Bytes;
  }

  lemma RepSpans(b: Buffer)
    requires b.Rep()
    ensures b.Span() && (b.begin == NPOS ==> b.end == 0)
  {
  }

  class Io {
    const fd: int
    const readBuffer: Buffer
    const writeBuffer: Buffer
    var valid: bool
    var readable: bool
    var writable: bool
    var writeBusy: bool
    var supportRdhup: bool
    var managed: bool                // an event processor manages it
    var haveWrite: nat
    var writeList: seq<WriteOp>      // registered, not yet flushed
    var waitWriteList: seq<WriteOp>  // flushed, not yet done
    var tempReadEvent: Option<ReadOp>
    var readList: seq<ReadOp>
    // histories
    ghost var asked: seq<ReadOp>     // the read operations registered
    ghost var served: seq<Served>    // every call of a read operation's process
    ghost var registered: seq<WriteOp>
    ghost var flushed: seq<WriteOp>
    ghost var done: seq<WriteOp>     // notified Done, in order
    ghost var failed: seq<WriteOp>   // notified IOError, in order
    ghost var accepted: nat          // bytes the kernel has taken
    ghost var sent: seq<byte>        // the bytes it has taken
    ghost var lost: nat              // wrap-arounds of the 32-bit counter

    /** `nonblocking` says that the descriptor is non-blocking or could be made so. */
    constructor (fd: int, input: bool, output: bool, nonblocking: bool, rdhup: bool, mem: MemContainer,
                 ghost rest: multiset<array<byte>>)
      requires mem.Valid() && Held(mem.container) + mem.freed + rest == mem.born
      ensures Sound(rest) && Prompt(State()) && readBuffer.mem == mem && fresh(readBuffer) && fresh(writeBuffer)
      ensures this.fd == fd && valid == (fd >= 0 && nonblocking) && readable == input && writable == output
      ensures !writeBusy && !managed && supportRdhup == rdhup
      ensures haveWrite == lost == 0 && sent == [] && done == failed == registered == writeList == []
      ensures readBuffer.Contents() == writeBuffer.Contents() == [] && served == [] && asked == []
    {
      hide Sound, Prompt, Buffer.Rep, Buffer.Contents;
      this.fd := fd;
      readBuffer := new Buffer(mem);
      writeBuffer := new Buffer(mem);
      valid, readable, writable, writeBusy := fd >= 0 && nonblocking, input, output, false;
      supportRdhup, managed := rdhup, false;
      haveWrite, writeList, waitWriteList := 0, [], [];
      tempReadEvent, readList, served, asked := None, [], [], [];
      registered, flushed, done, failed, accepted, sent, lost := [], [], [], [], 0, [], 0;
      new;
      StartsSound(rest);
    }

    lemma StartsSound(rest: multiset<array<byte>>)
      requires readBuffer != writeBuffer && readBuffer.mem == writeBuffer.mem
      requires readBuffer.Rep() && writeBuffer.Rep() && writeBuffer.Books(rest) && readBuffer.blocks == []
      requires writeBuffer.Contents() == [] && haveWrite == lost == accepted == 0
      requires registered == writeList == flushed == waitWriteList == done == failed == []
      requires tempReadEvent == None && readList == asked == [] && served == []
      ensures Sound(rest) && Prompt(State())
    {
      hide Balanced, Given, Bytes, Shows;
      BalancedAtStart();
      assert rest + Held([]) == rest;
    }

    ghost function State(): Books
      requires writeBuffer.Span()
      reads this`registered, this`writeList, this`flushed, this`waitWriteList, this`done, this`failed
      reads this`haveWrite, this`accepted, this`lost, writeBuffer
    {
      Books(registered, writeList, flushed, waitWriteList, done, failed, haveWrite, accepted,
            |writeBuffer.Contents()|, lost)
    }

    /** The flags, and the writing side. */
    ghost function Side(): WriteSide
      requires writeBuffer.Span()
      reads this`valid, this`readable, this`writable, this`managed, this`writeBusy, this`supportRdhup
      reads this`writeList, this`accepted, writeBuffer
    {
      WriteSide(fd, Face(valid, readable, writable, managed, writeBusy, supportRdhup),
                writeBuffer.begin, |writeBuffer.Contents()|, writeList, accepted)
    }

    /** The books of the write operations balance. */
    ghost predicate Accounts()
      reads this`registered, this`writeList, this`flushed, this`waitWriteList, this`done, this`failed
      reads this`haveWrite, this`accepted, this`lost, writeBuffer
    {
      writeBuffer.Span() && Balanced(State())
    }

    /** The read operations that wait, in the order in which they will be served. */
    ghost function Pending(): seq<ReadOp>
      reads this`tempReadEvent, this`readList
    {
      (if tempReadEvent.Some? then [tempReadEvent.value] else []) + readList
    }

    /** The read operations asked for are those finished and those pending, served in order. */
    ghost predicate Requests()
      reads this`tempReadEvent, this`readList, this`asked, this`served
    {
      asked == Finished(served) + Pending() && InOrder(served, asked)
    }

    /** All bytes read so far: those given to read operations, then those in the buffer. */
    ghost function Stream(): seq<byte>
      requires readBuffer.Span()
      reads this`served, readBuffer
    {
      Given(served) + readBuffer.Contents()
    }

    /** Both buffers stand apart on one pool, and both sets of books are in order. */
    ghost predicate Sound(rest: multiset<array<byte>>)
      reads this, readBuffer, writeBuffer, readBuffer.blocks, writeBuffer.blocks, readBuffer.mem, writeBuffer.mem
    {
      && readBuffer != writeBuffer && readBuffer.mem == writeBuffer.mem
      && readBuffer.Rep() && writeBuffer.Rep() && writeBuffer.Books(rest + Held(readBuffer.blocks))
      && Accounts() && Requests()
    }

    // ----- registration -----

    /** Becoming managed by an event processor. */
    method Join()
      modifies this`managed
      ensures managed
    {
      managed := true;
    }

    /** `mark_invalid`; with it the io leaves its event processor. */
    method MarkInvalid()
      modifies this`valid, this`readable, this`writable, this`managed
      ensures !valid && !readable && !writable && !managed
    {
      managed, valid, readable, writable := false, false, false, false;
    }

    /** `do_register` of a write operation for descriptor `ioId` (None: any); `wakes` says that the event processor is
        told to write at once. */
    method Register(op: WriteOp, ioId: Option<int>) returns (ok: bool, wakes: bool)
      requires Accounts()
      modifies this`writeList, this`registered
      ensures ok == (valid && managed && (ioId == None || ioId == Some(fd)) && writable)
      ensures wakes == (ok && !writeBusy)
      ensures Accounts() && writeList == old(writeList) + (if ok then [op] else [])
      ensures registered == old(registered) + if ok then [op] else []
    {
      hide Balanced, Buffer.Contents;
      ok, wakes := false, false;
      if !valid || !managed {
        return;
      }
      if ioId != None && ioId != Some(fd) {
        return;
      }
      if !writable {
        return;
      }
      RegisterKeeps(State(), op);
      writeList, registered := writeList + [op], registered + [op];
      wakes := !writeBusy && managed;
      ok := true;
    }

    /** `do_register` of a read operation. */
    method Ask(op: ReadOp, ioId: Option<int>) returns (ok: bool)
      requires Requests()
      modifies this`readList, this`asked
      ensures ok == (valid && managed && (ioId == None || ioId == Some(fd)) && readable)
      ensures Requests() && asked == old(asked) + if ok then [op] else []
    {
      ok := false;
      if !valid || !managed {
        return;
      }
      if ioId != None && ioId != Some(fd) {
        return;
      }
      if !readable {
        return;
      }
      AskedMore(served, asked, op);
      AskedLast(Finished(served), Pending(), op);
      readList, asked := readList + [op], asked + [op];
      ok := true;
    }

    // ----- write_flush, process_write, clean_write -----

    method FlushOne(ghost rest: multiset<array<byte>>)
      requires Accounts() && writeBuffer.Rep() && writeBuffer.Books(rest)
      requires writeList != [] && |writeBuffer.Contents()| + Sizes(writeList) <= MAX_BYTES
      modifies this`writeList, this`waitWriteList, this`flushed, writeBuffer, writeBuffer.mem, writeBuffer.mem.born
      ensures writeBuffer.Rep() && writeBuffer.Books(rest)
      ensures OnlyFresh(old(writeBuffer.mem.born), writeBuffer.mem.born) && Kept(rest)
      ensures Accounts() && State() == old(Flushed(State()))
      ensures |writeBuffer.Contents()| + Sizes(writeList) == old(|writeBuffer.Contents()| + Sizes(writeList))
      ensures flushed + writeList == old(flushed) + old(writeList)
      ensures waitWriteList + writeList == old(waitWriteList) + old(writeList)
      ensures writeBuffer.Contents() == old(writeBuffer.Contents()) + old(writeList)[0].data
      ensures writeBuffer.begin == if writeBuffer.Contents() == [] then NPOS
                                   else if old(writeBuffer.begin) == NPOS then 0 else old(writeBuffer.begin)
    {
      hide Bytes, Shows, Held, Balanced, Sizes, Buffer.Books;
      FlushKeeps(State());
      HeadSize(writeList);
      OwnBlocksAreBorn(writeBuffer, rest);
      BooksAreOthers(writeBuffer, rest);
      var event := writeList[0];
      Shuffle(flushed, writeList);
      Shuffle(waitWriteList, writeList);
      writeList := writeList[1..];
      writeBuffer.PushBackN(Some(event.data), rest);
      waitWriteList, flushed := waitWriteList + [event], flushed + [event];
    }

    /** `write_flush`. */
    method WriteFlush(ghost rest: multiset<array<byte>>)
      requires Accounts() && writeBuffer.Rep() && writeBuffer.Books(rest)
      requires |writeBuffer.Contents()| + Sizes(writeList) <= MAX_BYTES
      modifies this`writeList, this`waitWriteList, this`flushed, writeBuffer, writeBuffer.mem, writeBuffer.mem.born
      ensures Accounts() && writeBuffer.Rep() && writeBuffer.Books(rest)
      ensures OnlyFresh(old(writeBuffer.mem.born), writeBuffer.mem.born) && Kept(rest)
      ensures writeList == [] && flushed == old(flushed) + old(writeList)
      ensures waitWriteList == old(waitWriteList) + old(writeList)
      ensures lost == 0 && old(Prompt(State())) ==> Prompt(State())
      ensures writeBuffer.begin == if writeBuffer.Contents() == [] then NPOS
                                   else if old(writeBuffer.begin) == NPOS then 0 else old(writeBuffer.begin)
      ensures writeBuffer.Contents() == old(writeBuffer.Contents()) + OpData(old(writeList))
    {
      hide Bytes, Shows, Held, Balanced, Sizes, Buffer.Books, Buffer.Rep, Buffer.Contents, Prompt;
      RepMeans(writeBuffer);
      assert writeBuffer.Contents() + [] == writeBuffer.Contents();
      while writeList != []
        invariant Accounts() && writeBuffer.Rep() && writeBuffer.Books(rest)
        invariant OnlyFresh(old(writeBuffer.mem.born), writeBuffer.mem.born) && Kept(rest)
        invariant |old(writeBuffer.Contents())| <= |writeBuffer.Contents()| <= MAX_BYTES - Sizes(writeList)
        invariant flushed + writeList == old(flushed) + old(writeList)
        invariant waitWriteList + writeList == old(waitWriteList) + old(writeList)
        invariant lost == 0 && old(Prompt(State())) ==> Prompt(State())
        invariant writeBuffer.begin == if writeBuffer.Contents() == [] then NPOS
                                       else if old(writeBuffer.begin) == NPOS then 0 else old(writeBuffer.begin)
        invariant writeBuffer.Contents() + OpData(writeList) == old(writeBuffer.Contents()) + OpData(old(writeList))
        decreases |writeList|
      {
        ghost var c, ops := writeBuffer.Contents(), writeList;
        if lost == 0 && Prompt(State()) {
          FlushKeepsPrompt(State());
        }
        FlushOne(rest);
        Associative(c, ops[0].data, OpData(ops[1..]));
      }
      assert flushed + [] == flushed && waitWriteList + [] == waitWriteList;
      assert writeBuffer.Contents() + [] == writeBuffer.Contents();
    }

    /** `process_write`: completes, in order, the operations that the credit covers. */
    method ProcessWrite()
      requires Accounts()
      modifies this`waitWriteList, this`haveWrite, this`done
      ensures Accounts()
      ensures done + waitWriteList == old(done) + old(waitWriteList) && old(done) <= done
      ensures waitWriteList != [] ==> haveWrite < |waitWriteList[0].data|
    {
      hide Balanced;
      while waitWriteList != []
        invariant Accounts() && done + waitWriteList == old(done) + old(waitWriteList) && old(done) <= done
        decreases |waitWriteList|
      {
        var it := waitWriteList[0];
        if haveWrite >= |it.data| {
          CompleteKeeps(State());
          Shuffle(done, waitWriteList);
          haveWrite := haveWrite - |it.data|;
          done := done + [it];
          waitWriteList := waitWriteList[1..];
        } else {
          break;
        }
      }
    }

    /** `clean_write`: what was never flushed fails. */
    method CleanWrite()
      requires Accounts()
      modifies this`writeList, this`failed
      ensures Accounts() && writeList == [] && failed == old(failed) + old(writeList)
    {
      hide Balanced;
      while writeList != []
        invariant Accounts() && failed + writeList == old(failed) + old(writeList)
        decreases |writeList|
      {
        var event := writeList[0];
        FailKeeps(State());
        Shuffle(failed, writeList);
        writeList, failed := writeList[1..], failed + [event];
      }
    }

    // ----- direct_write -----

    /** One write(2) that takes ret bytes: they are handed over from the start of the first block. */
    method HandOver(n: Positive, ghost img: seq<seq<byte>>) returns (ret: nat)
      requires writeBuffer.Sync() && writeBuffer.Span() && img == writeBuffer.img
      requires writeBuffer.begin < writeBuffer.end
      modifies this`sent, writeBuffer`begin
      ensures writeBuffer.Sync() && writeBuffer.Span()
              && ret == Min(n, CanWrite(old(writeBuffer.begin), writeBuffer.end)) > 0
      ensures writeBuffer.begin == old(writeBuffer.begin) + ret <= writeBuffer.end
      ensures old(writeBuffer.begin) % DEFAULT_SIZE + ret <= DEFAULT_SIZE
      ensures ret <= n && (ret == n || writeBuffer.begin % DEFAULT_SIZE == 0 || writeBuffer.begin == writeBuffer.end)
      ensures sent == old(sent) + Chunk(img, old(writeBuffer.begin), ret)
    {
      var begin, end := writeBuffer.begin, writeBuffer.end;
      OneWrite(begin, end, n);
      var canWrite :=
        if end / DEFAULT_SIZE == begin / DEFAULT_SIZE then end - begin else DEFAULT_SIZE - begin % DEFAULT_SIZE;
      var first := writeBuffer.blocks[begin / DEFAULT_SIZE];
      ret := if n <= canWrite then n else canWrite;
      assert first[..] == img[begin / DEFAULT_SIZE] && first[..][..ret] == first[..ret];
      sent := sent + first[..ret];
      writeBuffer.begin := begin + ret;
    }

    /** After some accepted writes from offset b0: what was handed over, and where `begin` is. */
    ghost predicate Progress(b0: nat, writes: seq<nat>, s0: seq<byte>)
      reads this, writeBuffer, writeBuffer.blocks
    {
      && writeBuffer.Sync() && writeBuffer.Span()
      && writeBuffer.begin == b0 + Sum(writes)
      && (b0 == NPOS ==> writes == [] && sent == s0)
      && (b0 != NPOS ==> writeBuffer.begin != NPOS)
      && (writeBuffer.begin != NPOS ==> writeBuffer.begin <= writeBuffer.end && Inside(b0, writes)
                                        && sent == s0 + Handed(writeBuffer.img, b0, writes))
    }

    method HandOverMore(n: Positive, ghost b0: nat, ghost writes: seq<nat>, ghost s0: seq<byte>) returns (ret: nat)
      requires Progress(b0, writes, s0) && writeBuffer.begin != NPOS && writeBuffer.begin < writeBuffer.end
      modifies this`sent, writeBuffer`begin
      ensures Progress(b0, writes + [ret], s0) && Sum(writes + [ret]) == Sum(writes) + ret
      ensures ret == Min(n, CanWrite(old(writeBuffer.begin), writeBuffer.end))
      ensures writeBuffer.begin == old(writeBuffer.begin) + ret <= writeBuffer.end
    {
      hide Bytes, Shows, Chunk, Handed, Inside, Sum, Buffer.Contents;
      ret := HandOver(n, writeBuffer.img);
      SumAppend(writes, ret);
      InsideAppend(b0, writes, ret);
      HandedAppend(writeBuffer.img, b0, writes, ret);
    }

    /** The loop of direct_write. `total` is the 32-bit counter of the bytes written; `writes` are the sizes of the
        accepted writes, and `stop` says why it ends. */
    method WriteLoop(kernel: seq<WriteAnswer>) returns (total: nat, stop: Option<Errno>, ghost writes: seq<nat>)
      requires writeBuffer.Rep()
      modifies this`sent, writeBuffer`begin
      ensures Progress(old(writeBuffer.begin), writes, old(sent)) && total == Sum(writes) % UINT_RANGE
      ensures writes == Writes(kernel, old(writeBuffer.begin), writeBuffer.end)
      ensures stop == StopOf(kernel, old(writeBuffer.begin), writeBuffer.end)
    {
      hide Bytes, Shows, Chunk, Handed, Inside, Sum, Buffer.Contents, CanWrite, Along, Writes, StopOf, Progress;
      total, stop, writes := 0, None, [];
      var retryTimes, script := 0, kernel;
      ghost var b0, end := writeBuffer.begin, writeBuffer.end;
      ProgressAtFirst();
      AlongAtFirst(kernel, b0, end);
      while writeBuffer.begin != NPOS && writeBuffer.end != 0 && writeBuffer.begin != writeBuffer.end
        invariant stop.None? && retryTimes < MAX_RETRY_TIMES
        invariant (writeBuffer.begin == NPOS) == (b0 == NPOS)
        invariant Progress(b0, writes, old(sent)) && total == Sum(writes) % UINT_RANGE
        invariant Along(kernel, b0, end, writes, script, writeBuffer.begin, retryTimes)
        decreases |script|
      {
        var answer := if script == [] then Refuse(EAGAIN) else script[0];
        ProgressInside(b0, writes, old(sent));
        if answer.Accept? {
          ghost var begin := writeBuffer.begin;
          var ret := HandOverMore(answer.n, b0, writes, old(sent));
          TotalNext(total, Sum(writes), ret);
          total := (total + ret) % UINT_RANGE;
          AlongAccept(kernel, b0, end, writes, script, begin, retryTimes, ret);
          writes := writes + [ret];
          script := script[1..];
        } else if answer.errno == EINTR {
          if retryTimes + 1 == MAX_RETRY_TIMES {
            AlongStops(kernel, b0, end, writes, script, writeBuffer.begin, retryTimes);
          } else {
            AlongInterrupt(kernel, b0, end, writes, script, writeBuffer.begin, retryTimes);
          }
          retryTimes := retryTimes + 1;
          if retryTimes == MAX_RETRY_TIMES {
            stop := Some(EINTR);
            break;
          }
          script := script[1..];
        } else {
          AlongStops(kernel, b0, end, writes, script, writeBuffer.begin, retryTimes);
          stop := Some(answer.errno);
          break;
        }
      }
      if stop.None? {
        AlongEnds(kernel, b0, end, writes, script, writeBuffer.begin, retryTimes);
      }
    }

    lemma ProgressAtFirst()
      requires writeBuffer.Rep()
      ensures Progress(writeBuffer.begin, [], sent) && Sum([]) == 0
      ensures writeBuffer.begin != NPOS ==> writeBuffer.begin < writeBuffer.end < NPOS
    {
      hide Bytes, Shows, Chunk;
      NothingYet(writeBuffer.img, writeBuffer.begin);
    }

    lemma ProgressInside(b0: nat, writes: seq<nat>, s0: seq<byte>)
      requires Progress(b0, writes, s0) && writeBuffer.begin != NPOS
      ensures writeBuffer.begin <= writeBuffer.end && writeBuffer.begin == b0 + Sum(writes) && b0 != NPOS
    {
      hide Bytes, Shows, Chunk, Handed, Inside;
    }

    /** What the accepted writes mean for the contents. */
    lemma ProgressMeans(b0: nat, writes: seq<nat>, s0: seq<byte>, c: seq<byte>)
      requires Progress(b0, writes, s0)
      requires b0 != NPOS ==> b0 <= writeBuffer.end && c == Bytes(writeBuffer.img, b0, writeBuffer.end - b0)
      requires b0 == NPOS ==> c == []
      ensures Sum(writes) <= |c| && |sent| == |s0| + Sum(writes)
      ensures writeBuffer.Contents() == c[Sum(writes)..] && writeBuffer.begin == b0 + Sum(writes)
      ensures Aligned(b0, writes) ==> sent == s0 + c[..Sum(writes)]
      ensures Sends(writeBuffer.img, b0, writeBuffer.end, writes, s0, sent)
    {
      hide Bytes, Shows, Chunk, Handed, Inside, Aligned, Sum;
      NothingYet(writeBuffer.img, b0);
      if b0 != NPOS {
        BytesSlice(writeBuffer.img, b0, writeBuffer.end - b0, Sum(writes), writeBuffer.end - writeBuffer.begin);
        BytesSlice(writeBuffer.img, b0, writeBuffer.end - b0, 0, Sum(writes));
        if Aligned(b0, writes) {
          AlignedIsExact(writeBuffer.img, b0, writes);
        }
      }
    }

    /** The end of direct_write: resets an empty buffer, shrinks it, and adds the 32-bit total to the credit. */
    method Settle(total: nat, ghost k: nat, ghost rest: multiset<array<byte>>)
      requires writeBuffer.Sync() && writeBuffer.Span() && writeBuffer.Books(rest)
               && |writeBuffer.Contents()| <= MAX_BYTES
      requires total == k % UINT_RANGE
      modifies this`haveWrite, this`accepted, this`lost, writeBuffer, writeBuffer.mem
      ensures writeBuffer.Rep() && writeBuffer.Books(rest) && writeBuffer.mem.born == old(writeBuffer.mem.born)
      ensures writeBuffer.Contents() == old(writeBuffer.Contents())
      ensures writeBuffer.begin == if writeBuffer.Contents() == [] then NPOS else old(writeBuffer.begin) % DEFAULT_SIZE
      ensures haveWrite == old(haveWrite) + k % UINT_RANGE && accepted == old(accepted) + k
              && lost == old(lost) + k / UINT_RANGE
    {
      hide Bytes, Shows, Buffer.Books;
      if writeBuffer.begin == writeBuffer.end {
        writeBuffer.begin, writeBuffer.end := NPOS, 0;
      }
      writeBuffer.Shrink(rest);
      haveWrite := haveWrite + total;
      accepted, lost := accepted + k, lost + k / UINT_RANGE;
    }

    lemma ProgressSpans(b0: nat, writes: seq<nat>, s0: seq<byte>)
      requires Progress(b0, writes, s0)
      ensures writeBuffer.Sync() && writeBuffer.Span()
    {
    }

    /** The loop and the end of direct_write, on a valid and writable io. */
    method WriteAll(kernel: seq<WriteAnswer>, ghost rest: multiset<array<byte>>)
      returns (stop: Option<Errno>, ghost writes: seq<nat>, ghost k: nat)
      requires writeBuffer.Rep() && writeBuffer.Books(rest)
      modifies this`haveWrite, this`accepted, this`sent, this`lost, writeBuffer, writeBuffer.mem
      ensures writeBuffer.Rep() && writeBuffer.Books(rest) && writeBuffer.mem.born == old(writeBuffer.mem.born)
      ensures k == Sum(writes) <= |old(writeBuffer.Contents())|
              && writeBuffer.Contents() == old(writeBuffer.Contents())[k..]
      ensures haveWrite == old(haveWrite) + k % UINT_RANGE && accepted == old(accepted) + k
              && lost == old(lost) + k / UINT_RANGE
      ensures writeBuffer.begin
           == if writeBuffer.Contents() == [] then NPOS else (old(writeBuffer.begin) + k) % DEFAULT_SIZE
      ensures |sent| == |old(sent)| + k
      ensures Aligned(old(writeBuffer.begin), writes) ==> sent == old(sent) + old(writeBuffer.Contents())[..k]
      ensures writes == Writes(kernel, old(writeBuffer.begin), old(writeBuffer.end))
      ensures stop == StopOf(kernel, old(writeBuffer.begin), old(writeBuffer.end))
      ensures Sends(old(writeBuffer.img), old(writeBuffer.begin), old(writeBuffer.end), writes, old(sent), sent)
    {
      hide Bytes, Shows, Chunk, Handed, Inside, Sum, Aligned, Sends, Buffer.Books, Buffer.Contents,
           Progress, Buffer.Rep, Writes, StopOf;
      RepMeans(writeBuffer);
      var total;
      total, stop, writes := WriteLoop(kernel);
      ProgressSpans(old(writeBuffer.begin), writes, old(sent));
      k := Sum(writes);
      ProgressMeans(old(writeBuffer.begin), writes, old(sent), old(writeBuffer.Contents()));
      Settle(total, k, rest);
    }

    /** The same, with its entry in the books. */
    method WriteOut(kernel: seq<WriteAnswer>, ghost rest: multiset<array<byte>>)
      returns (stop: Option<Errno>, ghost writes: seq<nat>, ghost k: nat)
      requires Accounts() && writeBuffer.Rep() && writeBuffer.Books(rest)
      modifies this`haveWrite, this`accepted, this`sent, this`lost, writeBuffer, writeBuffer.mem
      ensures writeBuffer.Rep() && writeBuffer.Books(rest) && writeBuffer.mem.born == old(writeBuffer.mem.born)
      ensures k == Sum(writes) <= |old(writeBuffer.Contents())|
              && writeBuffer.Contents() == old(writeBuffer.Contents())[k..]
      ensures Accounts() && State() == Written(old(State()), k)
      ensures writeBuffer.begin
           == if writeBuffer.Contents() == [] then NPOS else (old(writeBuffer.begin) + k) % DEFAULT_SIZE
      ensures |sent| == |old(sent)| + k
      ensures Aligned(old(writeBuffer.begin), writes) ==> sent == old(sent) + old(writeBuffer.Contents())[..k]
      ensures writes == Writes(kernel, old(writeBuffer.begin), old(writeBuffer.end))
      ensures stop == StopOf(kernel, old(writeBuffer.begin), old(writeBuffer.end))
      ensures Sends(old(writeBuffer.img), old(writeBuffer.begin), old(writeBuffer.end), writes, old(sent), sent)
    {
      hide Bytes, Shows, Sum, Balanced, Aligned, Sends, Buffer.Books, Buffer.Contents, Buffer.Rep, Written,
           Writes, StopOf;
      ghost var before := State();
      stop, writes, k := WriteAll(kernel, rest);
      RepSpans(writeBuffer);
      WriteKeeps(before, k);
      WrittenIs(before, State(), k);
    }

    /** `direct_write`. The kernel takes the amounts `writes`, together k bytes. */
    method DirectWrite(kernel: seq<WriteAnswer>, ghost rest: multiset<array<byte>>)
      returns (stop: Option<Errno>, ghost writes: seq<nat>, ghost k: nat)
      requires Accounts() && writeBuffer.Rep() && writeBuffer.Books(rest)
      modifies this`managed, this`valid, this`readable, this`writable, this`writeBusy
      modifies this`haveWrite, this`accepted, this`sent, this`lost
      modifies writeBuffer, writeBuffer.mem
      ensures writeBuffer.Rep() && writeBuffer.Books(rest) && writeBuffer.mem.born == old(writeBuffer.mem.born)
      ensures k == Sum(writes) <= |old(writeBuffer.Contents())|
              && writeBuffer.Contents() == old(writeBuffer.Contents())[k..]
      ensures Accounts() && State() == Written(old(State()), k)
      ensures writeBuffer.begin
           == if !old(valid) || !old(writable) then old(writeBuffer.begin)
              else if writeBuffer.Contents() == [] then NPOS
              else (old(writeBuffer.begin) + k) % DEFAULT_SIZE
      ensures |sent| == |old(sent)| + k
      ensures Aligned(old(writeBuffer.begin), writes) ==> sent == old(sent) + old(writeBuffer.Contents())[..k]
      ensures var runs := old(valid) && old(writable);
              && writes == (if runs then Writes(kernel, old(writeBuffer.begin), old(writeBuffer.end)) else [])
              && stop == if runs then StopOf(kernel, old(writeBuffer.begin), old(writeBuffer.end)) else None
      ensures Sends(old(writeBuffer.img), old(writeBuffer.begin), old(writeBuffer.end), writes, old(sent), sent)
      ensures valid == (old(valid) && stop != Some(EBADF)) && readable == (old(readable) && stop != Some(EBADF))
      ensures writable == (old(writable) && stop !in {Some(EBADF), Some(EINVAL), Some(EPIPE)})
      ensures managed == (old(managed) && stop != Some(EBADF))
      ensures writeBusy == (old(writeBusy) || stop == Some(EAGAIN))
    {
      hide Bytes, Shows, Sum, Balanced, Aligned, Sends, Buffer.Books, Buffer.Rep, Buffer.Contents, Writes, StopOf;
      hide State, Written;
      NothingYet(writeBuffer.img, writeBuffer.begin);
      RepSpans(writeBuffer);
      NothingSent(writeBuffer.img, writeBuffer.begin, writeBuffer.end, sent);
      WrittenNothing(State());
      stop, writes, k := None, [], 0;
      if !valid || !writable {
        NothingWritten(writeBuffer.Contents(), sent);
        return;
      }
      stop, writes, k := WriteOut(kernel, rest);
      MindStop(stop);
    }

    /** What the reason for stopping means for the flags. */
    method MindStop(stop: Option<Errno>)
      modifies this`managed, this`valid, this`readable, this`writable, this`writeBusy
      ensures valid == (old(valid) && stop != Some(EBADF)) && readable == (old(readable) && stop != Some(EBADF))
      ensures writable == (old(writable) && stop !in {Some(EBADF), Some(EINVAL), Some(EPIPE)})
      ensures managed == (old(managed) && stop != Some(EBADF))
      ensures writeBusy == (old(writeBusy) || stop == Some(EAGAIN))
    {
      if stop == Some(EAGAIN) {
        writeBusy := true;
      } else if stop == Some(EINVAL) || stop == Some(EPIPE) {
        writable := false;
      } else if stop == Some(EBADF) {
        MarkInvalid();
      }
    }

    // ----- direct_read -----

    /** Room behind the contents for the next read: the rest of the last block, or a block from the pool. */
    method ReadRoom(ghost rest: multiset<array<byte>>)
      requires readBuffer.Rep() && readBuffer.Books(rest)
      modifies readBuffer, readBuffer.mem
      ensures readBuffer.Rep() && readBuffer.Books(rest) && OnlyFresh(old(readBuffer.mem.born), readBuffer.mem.born)
      ensures readBuffer.end < |readBuffer.blocks| * DEFAULT_SIZE
      ensures readBuffer.Contents() == old(readBuffer.Contents())
    {
      hide Bytes, Shows, Buffer.Books;
      if readBuffer.end >= |readBuffer.blocks| * DEFAULT_SIZE {
        ghost var was := readBuffer.img;
        readBuffer.TakeBack(rest);
        ShowsLength(readBuffer.blocks, readBuffer.img);
        if readBuffer.begin != NPOS {
          BytesShift(was, readBuffer.img, 0, readBuffer.begin, readBuffer.end - readBuffer.begin);
        }
      }
    }

    /** One read(2) that returns bytes: the kernel writes them behind the contents. */
    method ReadSome(bytes: seq<byte>, ghost rest: multiset<array<byte>>) returns (ret: nat)
      requires readBuffer.Rep() && readBuffer.Books(rest) && readBuffer.end < |readBuffer.blocks| * DEFAULT_SIZE
      requires bytes != [] && |readBuffer.Contents()| + |bytes| <= MAX_BYTES
      modifies readBuffer, readBuffer.blocks
      ensures readBuffer.Rep() && readBuffer.Books(rest) && 0 < ret <= |bytes| && Kept(rest)
      ensures readBuffer.Contents() == old(readBuffer.Contents()) + bytes[..ret]
    {
      hide Bytes, Shows, Buffer.Books;
      var canRead := DEFAULT_SIZE - readBuffer.end % DEFAULT_SIZE;
      ret := if |bytes| <= canRead then |bytes| else canRead;
      readBuffer.BooksAreDistinct(rest);
      BooksAreOthers(readBuffer, rest);
      if readBuffer.begin == NPOS {
        readBuffer.begin := 0;
        assert Bytes(readBuffer.img, 0, 0) == [];
      }
      readBuffer.Append(bytes[..ret]);
    }

    /** The same, with the allocation it needs. */
    method ReadMore(bytes: seq<byte>, ghost rest: multiset<array<byte>>) returns (ret: nat)
      requires readBuffer.Rep() && readBuffer.Books(rest) && readBuffer.end < |readBuffer.blocks| * DEFAULT_SIZE
      requires bytes != [] && |readBuffer.Contents()| + |bytes| <= MAX_BYTES
      modifies readBuffer, readBuffer.mem.born
      ensures readBuffer.Rep() && readBuffer.Books(rest) && readBuffer.Span() && 0 < ret <= |bytes| && Kept(rest)
      ensures readBuffer.Contents() == old(readBuffer.Contents()) + bytes[..ret]
    {
      hide Bytes, Shows, Buffer.Books, Buffer.Rep, Buffer.Contents;
      OwnBlocksAreBorn(readBuffer, rest);
      ret := ReadSome(bytes, rest);
      RepSpans(readBuffer);
    }

    /** The loop of direct_read: what the kernel delivers, and why it stops. */
    method ReadLoop(kernel: seq<ReadAnswer>, ghost rest: multiset<array<byte>>)
      returns (received: seq<byte>, end: ReadEnd)
      requires readBuffer.Rep() && readBuffer.Books(rest)
      requires |readBuffer.Contents()| + |Delivered(kernel, 0)| <= MAX_BYTES
      modifies readBuffer, readBuffer.mem, readBuffer.mem.born
      ensures readBuffer.Rep() && readBuffer.Books(rest)
      ensures OnlyFresh(old(readBuffer.mem.born), readBuffer.mem.born) && Kept(rest)
      ensures received == Delivered(kernel, 0) && end == Ending(kernel, 0)
      ensures readBuffer.Contents() == old(readBuffer.Contents()) + received
    {
      hide Bytes, Shows, Buffer.Books, Buffer.Rep, Buffer.Contents, Delivered, Ending, DEFAULT_SIZE;
      received := [];
      RepSpans(readBuffer);
      assert readBuffer.Contents() + received == readBuffer.Contents();
      var retryTimes, script := 0, kernel;
      assert received + Delivered(script, retryTimes) == Delivered(kernel, 0);
      while true
        invariant readBuffer.Rep() && readBuffer.Books(rest)
        invariant OnlyFresh(old(readBuffer.mem.born), readBuffer.mem.born) && Kept(rest)
        invariant readBuffer.Span() && readBuffer.Contents() == old(readBuffer.Contents()) + received
        invariant retryTimes < MAX_RETRY_TIMES && received + Delivered(script, retryTimes) == Delivered(kernel, 0)
        invariant Ending(script, retryTimes) == Ending(kernel, 0)
        decreases |Delivered(script, retryTimes)|, |script|
      {
        ReadRoom(rest);
        RepSpans(readBuffer);
        DeliveredFirst(script, retryTimes);
        EndingFirst(script, retryTimes);
        if script == [] {
          end := Stopped(EAGAIN);
          break;
        }
        var answer := script[0];
        if answer.Data? {
          if answer.bytes == [] {
            end := EndOfFile;
            break;
          }
          var ret := ReadMore(answer.bytes, rest);
          DeliveredRest(script, retryTimes, ret);
          script := if ret < |answer.bytes| then [Data(answer.bytes[ret..])] + script[1..] else script[1..];
          Associative(old(readBuffer.Contents()), received, answer.bytes[..ret]);
          Associative(received, answer.bytes[..ret], Delivered(script, retryTimes));
          received := received + answer.bytes[..ret];
        } else if answer.errno == EINTR {
          retryTimes := retryTimes + 1;
          if retryTimes == MAX_RETRY_TIMES {
            end := Stopped(EINTR);
            break;
          }
          script := script[1..];
        } else {
          end := Stopped(answer.errno);
          break;
        }
      }
      assert received + [] == received;
    }

    /** `direct_read`: appends exactly what the kernel delivers before it stops, and minds why it stops. */
    method DirectRead(kernel: seq<ReadAnswer>, ghost rest: multiset<array<byte>>)
      returns (received: seq<byte>, end: Option<ReadEnd>)
      requires readBuffer.Rep() && readBuffer.Books(rest)
      requires |readBuffer.Contents()| + |Delivered(kernel, 0)| <= MAX_BYTES
      modifies this`valid, this`readable, this`writable, this`managed, this`supportRdhup
      modifies readBuffer, readBuffer.mem, readBuffer.mem.born
      ensures readBuffer.Rep() && readBuffer.Books(rest)
      ensures OnlyFresh(old(readBuffer.mem.born), readBuffer.mem.born) && Kept(rest)
      ensures received == if old(valid) && old(readable) then Delivered(kernel, 0) else []
      ensures readBuffer.Contents() == old(readBuffer.Contents()) + received
      ensures end == if old(valid) && old(readable) then Some(Ending(kernel, 0)) else None
      ensures valid == (old(valid) && end != Some(Stopped(EBADF)))
      ensures managed == (old(managed) && end != Some(Stopped(EBADF)))
      ensures writable == (old(writable) && end != Some(Stopped(EBADF)))
      ensures readable == (old(readable) && end != Some(Stopped(EBADF)) && end != Some(EndOfFile))
      ensures supportRdhup == (old(supportRdhup) && end != Some(EndOfFile))
    {
      hide Bytes, Shows, Buffer.Books, Buffer.Rep, Buffer.Contents, Delivered, Ending;
      RepSpans(readBuffer);
      if !valid || !readable {
        assert readBuffer.Contents() + [] == readBuffer.Contents();
        return [], None;
      }
      var why;
      received, why := ReadLoop(kernel, rest);
      end := Some(why);
      if why == EndOfFile {
        readable, supportRdhup := false, false;
      } else if why == Stopped(EBADF) {
        MarkInvalid();
      }
      RepSpans(readBuffer);
      if readBuffer.begin == NPOS && readBuffer.end > 0 {
        assert false;
      }
    }

    // ----- process_read -----

    /** `process` and, when it is done, `notify` of the first read operation that waits. */
    method TryRead(op: ReadOp, answer: Processed, ghost rest: multiset<array<byte>>) returns (done: bool)
      requires readBuffer.Rep() && readBuffer.Books(rest)
      requires InOrder(served, asked) && |Finished(served)| < |asked| && op == asked[|Finished(served)|]
      modifies this`served, readBuffer, readBuffer.mem
      ensures readBuffer.Rep() && readBuffer.Books(rest) && readBuffer.mem.born == old(readBuffer.mem.born)
      ensures done == answer.done && InOrder(served, asked) && Stream() == old(Stream())
      ensures var k := Min(answer.take, |old(readBuffer.Contents())|);
              && served == old(served) + [Served(op, old(readBuffer.Contents())[..k], done)]
              && readBuffer.Contents() == old(readBuffer.Contents())[k..]
      ensures Finished(served) == Finished(old(served)) + if done then [op] else []
    {
      hide Bytes, Shows, Buffer.Books, Given, Finished, InOrder;
      var size := readBuffer.Size();
      var k := Min(answer.take, size);
      ghost var c := readBuffer.Contents();
      var data := [];
      if k > 0 {
        data := readBuffer.PopFrontN(k, rest);
      }
      done := answer.done;
      assert c == data + readBuffer.Contents() && data == c[..k];
      ServedSnoc(served, Served(op, data, done), asked);
      Associative(Given(served), data, readBuffer.Contents());
      served := served + [Served(op, data, done)];
    }

    /** The operation that found too few bytes before is tried again. */
    method ServeHeld(answer: Processed, ghost rest: multiset<array<byte>>) returns (done: bool)
      requires readBuffer.Rep() && readBuffer.Books(rest) && Requests() && tempReadEvent.Some?
      modifies this`tempReadEvent, this`served, readBuffer, readBuffer.mem
      ensures readBuffer.Rep() && readBuffer.Books(rest) && readBuffer.mem.born == old(readBuffer.mem.born)
      ensures Requests() && readBuffer.Span() && Stream() == old(Stream()) && old(served) <= served
      ensures |readBuffer.Contents()| <= |old(readBuffer.Contents())|
      ensures var c, k := old(readBuffer.Contents()), Min(answer.take, |old(readBuffer.Contents())|);
              && served == old(served) + [Served(old(tempReadEvent).value, c[..k], done)]
              && readBuffer.Contents() == c[k..]
              && done == answer.done
      ensures if done then tempReadEvent == None else tempReadEvent == old(tempReadEvent) && Refused()
    {
      hide Bytes, Shows, Buffer.Books, Buffer.Rep, Given, Finished, InOrder;
      var event := tempReadEvent.value;
      Regroup(Finished(served), event, readList);
      done := TryRead(event, answer, rest);
      RepSpans(readBuffer);
      if done {
        tempReadEvent := None;
        assert [] + readList == readList;
      } else {
        assert Finished(old(served)) + [] == Finished(old(served));
      }
    }

    /** The next operation in the list is tried. */
    method ServeNext(answer: Processed, ghost rest: multiset<array<byte>>) returns (done: bool)
      requires readBuffer.Rep() && readBuffer.Books(rest) && Requests() && tempReadEvent.None? && readList != []
      modifies this`tempReadEvent, this`readList, this`served, readBuffer, readBuffer.mem
      ensures readBuffer.Rep() && readBuffer.Books(rest) && readBuffer.mem.born == old(readBuffer.mem.born)
      ensures Requests() && readBuffer.Span() && Stream() == old(Stream()) && old(served) <= served
      ensures |readBuffer.Contents()| <= |old(readBuffer.Contents())| && readList == old(readList)[1..]
      ensures var c, k := old(readBuffer.Contents()), Min(answer.take, |old(readBuffer.Contents())|);
              && served == old(served) + [Served(old(readList)[0], c[..k], done)] && readBuffer.Contents() == c[k..]
              && done == answer.done
      ensures if done then tempReadEvent == None else tempReadEvent.Some? && Refused()
    {
      hide Bytes, Shows, Buffer.Books, Buffer.Rep, Given, Finished, InOrder;
      var event := readList[0];
      assert [] + readList == readList && readList == [event] + readList[1..];
      readList := readList[1..];
      Regroup(Finished(served), event, readList);
      done := TryRead(event, answer, rest);
      RepSpans(readBuffer);
      if done {
        assert [] + readList == readList;
      } else {
        tempReadEvent := Some(event);
        assert Finished(old(served)) + [] == Finished(old(served));
      }
    }

    /** The first pending operation was tried last, and was not done. */
    ghost predicate Refused()
      reads this`tempReadEvent, this`readList, this`served
    {
      && Pending() != [] && served != []
      && !served[|served| - 1].done && served[|served| - 1].op == Pending()[0]
    }

    /** Whatever read operation is pending has been tried on what is in the buffer, and was not done. */
    ghost predicate Tried()
      reads this`tempReadEvent, this`readList, this`served
    {
      Pending() != [] ==> Refused()
    }

    /** `process_read`: serves the waiting operations in order until one is not done. `answers` are the outcomes of the
        calls of `process`; when they are used up, nothing is taken and nothing done. */
    method ProcessRead(answers: seq<Processed>, ghost rest: multiset<array<byte>>)
      requires readBuffer.Rep() && readBuffer.Books(rest) && Requests()
      modifies this`tempReadEvent, this`readList, this`served, readBuffer, readBuffer.mem
      ensures readBuffer.Rep() && readBuffer.Books(rest) && readBuffer.mem.born == old(readBuffer.mem.born)
      ensures Requests() && Stream() == old(Stream())
      ensures served == old(served) + Serves(old(Pending()), answers, old(readBuffer.Contents()))
      ensures |readBuffer.Contents()| <= |old(readBuffer.Contents())|
      ensures Tried()
    {
      hide Bytes, Shows, Buffer.Books, Buffer.Rep, Buffer.Contents, Requests, Stream, Refused, Serves;
      RepSpans(readBuffer);
      var script := answers;
      ServesFirst(Pending(), script, readBuffer.Contents());
      if tempReadEvent.Some? {
        var done := ServeHeld(Outcome(script), rest);
        if !done {
          return;
        }
        script := Remaining(script);
        assert Pending() == readList;
      } else {
        assert Pending() == readList;
      }
      while readList != []
        invariant readBuffer.Rep() && readBuffer.Books(rest) && readBuffer.mem.born == old(readBuffer.mem.born)
        invariant Requests() && readBuffer.Span() && Stream() == old(Stream()) && old(served) <= served
        invariant |readBuffer.Contents()| <= |old(readBuffer.Contents())| && tempReadEvent.None?
        invariant served + Serves(readList, script, readBuffer.Contents())
               == old(served) + Serves(old(Pending()), answers, old(readBuffer.Contents()))
        decreases |readList|
      {
        ServesFirst(readList, script, readBuffer.Contents());
        ghost var was := served;
        var done := ServeNext(Outcome(script), rest);
        script := Remaining(script);
        if !done {
          return;
        }
        ServedJoin(was, served[|was|], Serves(readList, script, readBuffer.Contents()));
      }
      ServesFirst(readList, script, readBuffer.Contents());
      assert served + [] == served;
    }

    // ----- turns of the event loop: each touches one buffer and leaves the other alone -----

    /** write_flush as one turn. */
    method FlushTurn(ghost rest: multiset<array<byte>>)
      requires Sound(rest) && |writeBuffer.Contents()| + Sizes(writeList) <= MAX_BYTES
      modifies this`writeList, this`waitWriteList, this`flushed, writeBuffer, writeBuffer.mem, writeBuffer.mem.born
      ensures Sound(rest) && OnlyFresh(old(writeBuffer.mem.born), writeBuffer.mem.born) && Kept(rest)
      ensures writeList == [] && flushed == old(flushed) + old(writeList)
      ensures lost == 0 && old(Prompt(State())) ==> Prompt(State())
      ensures |writeBuffer.Contents()| == |old(writeBuffer.Contents())| + Sizes(old(writeList))
      ensures Side() == FlushedSide(old(Side()))
      ensures readBuffer.Contents() == old(readBuffer.Contents())
    {
      hide Bytes, Shows, Buffer.Rep, Buffer.Books, Buffer.Contents, Balanced, Prompt, Held, Sizes, Finished,
           InOrder, OpData;
      RepSpans(readBuffer);
      RepSpans(writeBuffer);
      WriteFlush(rest + Held(readBuffer.blocks));
      StillStands(readBuffer);
      FlushedSize(old(State()), State());
    }

    /** direct_write as one turn. */
    method SendTurn(kernel: seq<WriteAnswer>, ghost rest: multiset<array<byte>>)
      requires Sound(rest)
      modifies this`managed, this`valid, this`readable, this`writable, this`writeBusy
      modifies this`haveWrite, this`accepted, this`sent, this`lost
      modifies writeBuffer, writeBuffer.mem
      ensures Sound(rest) && writeBuffer.mem.born == old(writeBuffer.mem.born) && old(lost) <= lost
      ensures |old(writeBuffer.Contents())| < UINT_RANGE ==> lost == old(lost)
      ensures Side() == WrittenSide(old(Side()), kernel)
      ensures readBuffer.Contents() == old(readBuffer.Contents())
    {
      hide Bytes, Shows, Buffer.Rep, Buffer.Books, Buffer.Contents, Balanced, Held, Sum, Aligned, Sends, Writes, StopOf,
           Finished, InOrder, WrittenSide, AfterStop;
      RepSpans(readBuffer);
      RepMeans(writeBuffer);
      ghost var before, end := Side(), writeBuffer.end;
      var stop, writes, k := DirectWrite(kernel, rest + Held(readBuffer.blocks));
      WriteKeeps(old(State()), k);
      StopsWith(before.face, stop);
      NoSum();
      WrittenSideIs(before, Side(), kernel, end, stop, k);
    }

    /** direct_write and process_write as one turn: afterwards the credit does not cover the first waiting operation. */
    method WriteTurn(kernel: seq<WriteAnswer>, ghost rest: multiset<array<byte>>)
      requires Sound(rest)
      modifies this`managed, this`valid, this`readable, this`writable, this`writeBusy
      modifies this`haveWrite, this`accepted, this`sent, this`lost, this`waitWriteList, this`done
      modifies writeBuffer, writeBuffer.mem
      ensures Sound(rest) && writeBuffer.mem.born == old(writeBuffer.mem.born)
      ensures flushed == old(flushed) && old(done) <= done && old(lost) <= lost
      ensures waitWriteList != [] ==> haveWrite < |waitWriteList[0].data|
      ensures |old(writeBuffer.Contents())| < UINT_RANGE ==> lost == old(lost)
      ensures |writeBuffer.Contents()| <= |old(writeBuffer.Contents())|
      ensures accepted == old(accepted) + if !old(valid) || !old(writable) then 0
                                          else TakenBy(kernel, old(writeBuffer.begin), |old(writeBuffer.Contents())|)
      ensures Side() == WrittenSide(old(Side()), kernel)
      ensures readBuffer.Contents() == old(readBuffer.Contents())
    {
      hide Bytes, Shows, Buffer.Rep, Buffer.Books, Buffer.Contents, Balanced, Held, Finished, InOrder, TakenBy, StopBy,
           AfterStop;
      RepSpans(readBuffer);
      RepSpans(writeBuffer);
      SendTurn(kernel, rest);
      ProcessWrite();
    }

    /** `clean_read`, which is process_read, as one turn. */
    method CleanRead(answers: seq<Processed>, ghost rest: multiset<array<byte>>)
      requires Sound(rest)
      modifies this`tempReadEvent, this`readList, this`served, readBuffer, readBuffer.mem
      ensures Sound(rest) && readBuffer.mem.born == old(readBuffer.mem.born)
      ensures Stream() == old(Stream()) && old(served) <= served
      ensures |readBuffer.Contents()| <= |old(readBuffer.Contents())|
      ensures Tried()
      ensures writeBuffer.Contents() == old(writeBuffer.Contents()) && State() == old(State()) && Side() == old(Side())
    {
      hide Bytes, Shows, Buffer.Rep, Buffer.Books, Buffer.Contents, Balanced, Held, Given, Finished, InOrder,
           Serves, Tried;
      RepSpans(readBuffer);
      RepSpans(writeBuffer);
      writeBuffer.BooksOfOther(readBuffer, rest);
      ProcessRead(answers, rest + Held(writeBuffer.blocks));
      RepSpans(readBuffer);
      writeBuffer.BooksOfOther(readBuffer, rest);
    }

    /** direct_read leaves the other buffer and both sets of books in order. */
    method ReceiveSome(kernel: seq<ReadAnswer>, ghost rest: multiset<array<byte>>)
      returns (received: seq<byte>, end: Option<ReadEnd>)
      requires Sound(rest) && |readBuffer.Contents()| + |Delivered(kernel, 0)| <= MAX_BYTES
      modifies this`valid, this`readable, this`writable, this`managed, this`supportRdhup
      modifies readBuffer, readBuffer.mem, readBuffer.mem.born
      ensures Sound(rest) && OnlyFresh(old(readBuffer.mem.born), readBuffer.mem.born) && Kept(rest)
      ensures received == if old(valid) && old(readable) then Delivered(kernel, 0) else []
      ensures readBuffer.Contents() == old(readBuffer.Contents()) + received
      ensures end == if old(valid) && old(readable) then Some(Ending(kernel, 0)) else None
      ensures valid == (old(valid) && end != Some(Stopped(EBADF)))
      ensures managed == (old(managed) && end != Some(Stopped(EBADF)))
      ensures writable == (old(writable) && end != Some(Stopped(EBADF)))
      ensures readable == (old(readable) && end != Some(Stopped(EBADF)) && end != Some(EndOfFile))
      ensures supportRdhup == (old(supportRdhup) && end != Some(EndOfFile))
    {
      hide Bytes, Shows, Buffer.Rep, Buffer.Books, Buffer.Contents, Balanced, Held, Given, Finished, InOrder, Delivered,
           Ending;
      RepSpans(readBuffer);
      RepSpans(writeBuffer);
      writeBuffer.BooksOfOther(readBuffer, rest);
      received, end := DirectRead(kernel, rest + Held(writeBuffer.blocks));
      RepSpans(readBuffer);
      StillStands(writeBuffer);
      writeBuffer.BooksOfOther(readBuffer, rest);
    }

    /** direct_read as one turn. */
    method ReceiveTurn(kernel: seq<ReadAnswer>, ghost rest: multiset<array<byte>>) returns (received: seq<byte>)
      requires Sound(rest) && |readBuffer.Contents()| + |Delivered(kernel, 0)| <= MAX_BYTES
      modifies this`valid, this`readable, this`writable, this`managed, this`supportRdhup
      modifies readBuffer, readBuffer.mem, readBuffer.mem.born
      ensures Sound(rest) && OnlyFresh(old(readBuffer.mem.born), readBuffer.mem.born) && Kept(rest)
      ensures received == if old(valid) && old(readable) then Delivered(kernel, 0) else []
      ensures Stream() == old(Stream()) + received
      ensures |readBuffer.Contents()| == |old(readBuffer.Contents())| + |received|
      ensures writeBuffer.Contents() == old(writeBuffer.Contents()) && State() == old(State())
      ensures Side() == ReadSide(old(Side()), kernel)
    {
      hide Sound, Buffer.Contents, Delivered, Ending, ReadSide, Given, Kept, OnlyFresh;
      SoundSpans(rest);
      ghost var before := Side();
      var end;
      received, end := ReceiveSome(kernel, rest);
      SoundSpans(rest);
      ReadSideIs(before, Side(), kernel, end);
      Associative(Given(served), old(readBuffer.Contents()), received);
    }

    /** direct_read and process_read: what a readable descriptor causes. */
    method ReadTurn(kernel: seq<ReadAnswer>, answers: seq<Processed>, ghost rest: multiset<array<byte>>)
      returns (received: seq<byte>)
      requires Sound(rest) && |readBuffer.Contents()| + |Delivered(kernel, 0)| <= MAX_BYTES
      modifies this`valid, this`readable, this`writable, this`managed, this`supportRdhup
      modifies this`tempReadEvent, this`readList, this`served, readBuffer, readBuffer.mem, readBuffer.mem.born
      ensures Sound(rest) && OnlyFresh(old(readBuffer.mem.born), readBuffer.mem.born) && Kept(rest)
      ensures received == if old(valid) && old(readable) then Delivered(kernel, 0) else []
      ensures Stream() == old(Stream()) + received && old(served) <= served
      ensures |readBuffer.Contents()| <= |old(readBuffer.Contents())| + |received|
      ensures Tried()
      ensures writeBuffer.Contents() == old(writeBuffer.Contents()) && State() == old(State())
      ensures Side() == ReadSide(old(Side()), kernel)
    {
      hide Sound, Stream, State, Side, Tried, Delivered, Buffer.Contents, ReadSide;
      SoundSpans(rest);
      received := ReceiveTurn(kernel, rest);
      SoundSpans(rest);
      CleanRead(answers, rest);
      SoundSpans(rest);
    }

    lemma SoundSpans(rest: multiset<array<byte>>)
      requires Sound(rest)
      ensures readBuffer.Span() && writeBuffer.Span() && readBuffer.mem == writeBuffer.mem && readBuffer != writeBuffer
      ensures |readBuffer.Contents()| <= MAX_BYTES && |writeBuffer.Contents()| <= MAX_BYTES
    {
    }

    /** All that an io shows. */
    ghost function Now(): Snap
      requires readBuffer.Span() && writeBuffer.Span()
      reads this, readBuffer, writeBuffer
    {
      Snap(Stream(), served, asked, |readBuffer.Contents()|, Tried(), State(), Side())
    }

    lemma NowMeans()
      requires readBuffer.Span() && writeBuffer.Span()
      ensures Now().held == |readBuffer.Contents()| && Now().tried == Tried() && Now().books == State()
      ensures Load(Now()) == |writeBuffer.Contents()| + Sizes(writeList) && Now().side == Side()
      ensures State().lost == lost && State().buffered == |writeBuffer.Contents()| && State().queued == writeList
    {
    }

    /** What a turn does. */
    twostate predicate Advanced(turn: Turn, received: seq<byte>, ok: bool)
      requires old(readBuffer.Span()) && old(writeBuffer.Span()) && readBuffer.Span() && writeBuffer.Span()
      reads this, readBuffer, writeBuffer
    {
      StepFits(turn, received, ok, old(Now()), Now())
    }

    /** A registration as one turn. */
    method SubmitTurn(op: WriteOp, ioId: Option<int>, ghost rest: multiset<array<byte>>) returns (ok: bool)
      requires Sound(rest)
      modifies this`writeList, this`registered
      ensures Sound(rest) && Advanced(Submit(op, ioId), [], ok)
    {
      hide Buffer.Rep, Buffer.Books, Buffer.Contents, Balanced, Held, Finished, InOrder, Given, Sizes;
      SoundSpans(rest);
      OneTurn(Submit(op, ioId));
      SizesSnoc(writeList, op);
      var wakes;
      ok, wakes := Register(op, ioId);
      assert old(writeList) + [] == old(writeList) && Stream() + [] == Stream();
    }

    method AskTurn(op: ReadOp, ioId: Option<int>, ghost rest: multiset<array<byte>>) returns (ok: bool)
      requires Sound(rest)
      modifies this`readList, this`asked
      ensures Sound(rest) && Advanced(Request(op, ioId), [], ok)
    {
      hide Buffer.Rep, Buffer.Books, Buffer.Contents, Balanced, Held, Finished, InOrder, Given;
      SoundSpans(rest);
      OneTurn(Request(op, ioId));
      ok := Ask(op, ioId);
      assert Stream() + [] == Stream();
    }

    method CleanWriteTurn(ghost rest: multiset<array<byte>>)
      requires Sound(rest)
      modifies this`writeList, this`failed
      ensures Sound(rest) && writeList == [] && failed == old(failed) + old(writeList)
      ensures old(writeList) == [] ==> State() == old(State()) && Stream() == old(Stream())
      ensures Advanced(Clean, [], false)
    {
      hide Buffer.Rep, Buffer.Books, Buffer.Contents, Balanced, Held, Finished, InOrder, Given;
      SoundSpans(rest);
      OneTurn(Clean);
      assert failed + [] == failed && Stream() + [] == Stream();
      CleanWrite();
    }

    method JoinTurn(ghost rest: multiset<array<byte>>)
      requires Sound(rest)
      modifies this`managed
      ensures Sound(rest) && Advanced(Joined, [], false)
    {
      hide Buffer.Rep, Buffer.Books, Buffer.Contents, Balanced, Held, Finished, InOrder, Given;
      SoundSpans(rest);
      OneTurn(Joined);
      assert Stream() + [] == Stream();
      Join();
    }

    /** An instant write as one turn. */
    method InstantTurn(kernel: seq<WriteAnswer>, ghost rest: multiset<array<byte>>)
      requires Sound(rest) && |writeBuffer.Contents()| + Sizes(writeList) <= MAX_BYTES
      modifies this, writeBuffer, writeBuffer.mem, writeBuffer.mem.born
      ensures Sound(rest) && OnlyFresh(old(writeBuffer.mem.born), writeBuffer.mem.born) && Kept(rest)
      ensures Advanced(Instant(kernel), [], false)
    {
      hide Sound, Buffer.Contents, Balanced, Prompt, Given;
      SoundSpans(rest);
      OneTurn(Instant(kernel));
      InstantWrite(kernel, rest);
      SoundSpans(rest);
      assert Stream() + [] == Stream();
    }

    /** An event as one turn. */
    method EventTurn(ev: Event, ghost rest: multiset<array<byte>>) returns (received: seq<byte>)
      requires Sound(rest) && |readBuffer.Contents()| + |Delivered(ev.fromKernel, 0)| <= MAX_BYTES
      requires |writeBuffer.Contents()| + Sizes(writeList) <= MAX_BYTES
      modifies this, readBuffer, writeBuffer, writeBuffer.mem, writeBuffer.mem.born
      ensures Sound(rest) && OnlyFresh(old(writeBuffer.mem.born), writeBuffer.mem.born) && Kept(rest)
      ensures Advanced(Happens(ev), received, false)
    {
      hide Sound, Buffer.Contents, Balanced, Prompt, Given, Stream, Delivered, Tried, SideAfter;
      SoundSpans(rest);
      OneTurn(Happens(ev));
      var more;
      received, more := ProcessEvent(ev, rest);
      SoundSpans(rest);
    }

    /** Flush, write and complete. */
    method FlushAndWrite(kernel: seq<WriteAnswer>, ghost rest: multiset<array<byte>>)
      requires Sound(rest) && |writeBuffer.Contents()| + Sizes(writeList) <= MAX_BYTES
      modifies this`managed, this`valid, this`readable, this`writable, this`writeBusy
      modifies this`haveWrite, this`accepted, this`sent, this`lost
      modifies this`writeList, this`waitWriteList, this`flushed, this`done
      modifies writeBuffer, writeBuffer.mem, writeBuffer.mem.born
      ensures Sound(rest) && OnlyFresh(old(writeBuffer.mem.born), writeBuffer.mem.born) && Kept(rest)
      ensures writeList == [] && flushed == old(flushed) + old(writeList) && old(done) <= done && old(lost) <= lost
      ensures Prompt(State()) && Side() == WrittenSide(FlushedSide(old(Side())), kernel)
      ensures |old(writeBuffer.Contents())| + Sizes(old(writeList)) < UINT_RANGE ==> lost == old(lost)
      ensures |writeBuffer.Contents()| <= |old(writeBuffer.Contents())| + Sizes(old(writeList))
      ensures readBuffer.Contents() == old(readBuffer.Contents())
    {
      hide Sound, Buffer.Contents, Sizes, Balanced, Side, WrittenSide, FlushedSide, TakenBy;
      SoundSpans(rest);
      FlushTurn(rest);
      SoundSpans(rest);
      WriteTurn(kernel, rest);
      SoundSpans(rest);
    }

    /** What the event loop does for an io that is ready to write. */
    method InstantWrite(kernel: seq<WriteAnswer>, ghost rest: multiset<array<byte>>)
      requires Sound(rest) && |writeBuffer.Contents()| + Sizes(writeList) <= MAX_BYTES
      modifies this`managed, this`valid, this`readable, this`writable, this`writeBusy
      modifies this`haveWrite, this`accepted, this`sent, this`lost
      modifies this`writeList, this`waitWriteList, this`flushed, this`done
      modifies writeBuffer, writeBuffer.mem, writeBuffer.mem.born
      ensures Sound(rest) && OnlyFresh(old(writeBuffer.mem.born), writeBuffer.mem.born) && Kept(rest)
      ensures writeList == [] && flushed == old(flushed) + old(writeList) && old(done) <= done && old(lost) <= lost
      ensures Prompt(State()) && Side() == SideAfter(Instant(kernel), old(Side()))
      ensures old(valid) && old(writable) && Enough(kernel, |old(writeBuffer.Contents())| + Sizes(old(writeList))) ==>
                Emptied(old(accepted) + |old(writeBuffer.Contents())| + Sizes(old(writeList)))
      ensures lost == 0 ==> forall i: nat | i < |flushed| :: i < |done| <==> Taken(flushed, i, accepted)
      ensures |old(writeBuffer.Contents())| + Sizes(old(writeList)) < UINT_RANGE ==> lost == old(lost)
      ensures |writeBuffer.Contents()| <= |old(writeBuffer.Contents())| + Sizes(old(writeList))
      ensures readBuffer.Contents() == old(readBuffer.Contents())
    {
      hide Sound, Buffer.Contents, Sizes, Balanced, Taken, Side, State, WrittenSide, FlushedSide, Enough, Emptied,
           Placed, Kept, OnlyFresh, Prompt;
      SoundSpans(rest);
      SoundIsPlaced(rest);
      SideMeans();
      ghost var before := Side();
      FlushAndWrite(kernel, rest);
      SoundSpans(rest);
      DoneIfPrompt(rest);
      if before.face.valid && before.face.writable && Enough(kernel, before.len + Sizes(before.queue)) {
        InstantStaysOpen(before, kernel);
        WritingEmpties(Instant(kernel), before, kernel);
        PromptMeansShort();
        NothingIsLeft(before, rest);
      }
    }

    lemma PromptMeansShort()
      requires writeBuffer.Span() && Prompt(State())
      ensures waitWriteList != [] ==> haveWrite < |waitWriteList[0].data|
    {
    }

    /** The first part of process_event: reading. */
    method EventInput(ev: Event, ghost rest: multiset<array<byte>>) returns (received: seq<byte>)
      requires Sound(rest) && |readBuffer.Contents()| + |Delivered(ev.fromKernel, 0)| <= MAX_BYTES
      modifies this`valid, this`readable, this`writable, this`managed, this`supportRdhup
      modifies this`tempReadEvent, this`readList, this`served, readBuffer, readBuffer.mem, readBuffer.mem.born
      ensures Sound(rest) && OnlyFresh(old(readBuffer.mem.born), readBuffer.mem.born) && Kept(rest)
      ensures received == if ev.input && old(valid) && old(readable) then Delivered(ev.fromKernel, 0) else []
      ensures Stream() == old(Stream()) + received && old(served) <= served
      ensures |readBuffer.Contents()| <= |old(readBuffer.Contents())| + |received|
      ensures (ev.input || ev.hangup ==> Tried()) && (ev.hangup ==> !readable)
      ensures writeBuffer.Contents() == old(writeBuffer.Contents()) && State() == old(State())
      ensures Side() == InputSide(old(Side()), ev)
    {
      hide Sound, Stream, State, Tried, Delivered, Buffer.Contents, ReadSide;
      SoundSpans(rest);
      assert Stream() + [] == Stream();
      received := [];
      if ev.input {
        received := ReadTurn(ev.fromKernel, ev.onInput, rest);
      }
      if ev.hangup {
        SoundSpans(rest);
        Unreadable(rest);
        CleanRead(ev.onHangup, rest);
      }
      SoundSpans(rest);
    }

    /** The second part: writing. */
    method EventOutput(ev: Event, ghost rest: multiset<array<byte>>)
      requires Sound(rest) && |writeBuffer.Contents()| + Sizes(writeList) <= MAX_BYTES
      modifies this`managed, this`valid, this`readable, this`writable, this`writeBusy
      modifies this`haveWrite, this`accepted, this`sent, this`lost
      modifies this`writeList, this`waitWriteList, this`flushed, this`done
      modifies writeBuffer, writeBuffer.mem, writeBuffer.mem.born
      ensures Sound(rest) && OnlyFresh(old(writeBuffer.mem.born), writeBuffer.mem.born) && Kept(rest)
      ensures writeList == [] && flushed == old(flushed) + old(writeList) && old(done) <= done && old(lost) <= lost
      ensures ev.output || (lost == 0 && old(Prompt(State()))) ==> Prompt(State())
      ensures ev.output || !old(writeBusy) ==> (waitWriteList != [] ==> haveWrite < |waitWriteList[0].data|)
      ensures Side() == OutputSide(old(Side()), ev)
      ensures |old(writeBuffer.Contents())| + Sizes(old(writeList)) < UINT_RANGE ==> lost == old(lost)
      ensures |writeBuffer.Contents()| <= |old(writeBuffer.Contents())| + Sizes(old(writeList))
      ensures readBuffer.Contents() == old(readBuffer.Contents()) && Stream() == old(Stream())
    {
      hide Sound, Buffer.Contents, Sizes, Balanced, WrittenSide, FlushedSide, Kept, OnlyFresh;
      SoundSpans(rest);
      FlushTurn(rest);
      SoundSpans(rest);
      if ev.output || !writeBusy {
        WriteTurn(ev.toKernel, rest);
        SoundSpans(rest);
      }
    }

    /** The third part: what can no longer be served is cleaned up. */
    method EventCleanup(ev: Event, ghost rest: multiset<array<byte>>)
      requires Sound(rest) && writeList == []
      modifies this`tempReadEvent, this`readList, this`served, this`writeList, this`failed, readBuffer, readBuffer.mem
      ensures Sound(rest) && readBuffer.mem.born == old(readBuffer.mem.born)
      ensures Stream() == old(Stream()) && old(served) <= served && writeList == []
      ensures |readBuffer.Contents()| <= |old(readBuffer.Contents())| && (old(Tried()) ==> Tried())
      ensures writeBuffer.Contents() == old(writeBuffer.Contents()) && State() == old(State()) && Side() == old(Side())
    {
      hide Sound, Stream, Tried, Buffer.Contents, Balanced, State;
      SoundSpans(rest);
      if !readable {
        CleanRead(ev.onClean, rest);
        SoundSpans(rest);
      }
      if !writable {
        CleanWriteTurn(rest);
        SoundSpans(rest);
      }
    }

    /** Reading and writing, but for the cleaning up. */
    method EventWork(ev: Event, ghost rest: multiset<array<byte>>) returns (received: seq<byte>)
      requires Sound(rest) && |readBuffer.Contents()| + |Delivered(ev.fromKernel, 0)| <= MAX_BYTES
      requires |writeBuffer.Contents()| + Sizes(writeList) <= MAX_BYTES
      modifies this`valid, this`readable, this`writable, this`managed, this`supportRdhup, this`writeBusy
      modifies this`tempReadEvent, this`readList, this`served, readBuffer
      modifies this`haveWrite, this`accepted, this`sent, this`lost
      modifies this`writeList, this`waitWriteList, this`flushed, this`done
      modifies writeBuffer, writeBuffer.mem, writeBuffer.mem.born
      ensures Sound(rest) && OnlyFresh(old(writeBuffer.mem.born), writeBuffer.mem.born) && Kept(rest)
      ensures received == if ev.input && old(valid) && old(readable) then Delivered(ev.fromKernel, 0) else []
      ensures Stream() == old(Stream()) + received && old(served) <= served
      ensures |readBuffer.Contents()| <= |old(readBuffer.Contents())| + |received|
      ensures ev.input || ev.hangup ==> Tried()
      ensures writeList == [] && flushed == old(flushed) + old(writeList) && old(done) <= done && old(lost) <= lost
      ensures ev.output || (lost == 0 && old(Prompt(State()))) ==> Prompt(State())
      ensures Side() == SideAfter(Happens(ev), old(Side()))
      ensures ev.output || !old(writeBusy) ==> (waitWriteList != [] ==> haveWrite < |waitWriteList[0].data|)
      ensures |old(writeBuffer.Contents())| + Sizes(old(writeList)) < UINT_RANGE ==> lost == old(lost)
      ensures |writeBuffer.Contents()| <= |old(writeBuffer.Contents())| + Sizes(old(writeList))
    {
      hide Sound, Delivered, Buffer.Contents, Sizes, Balanced, Prompt, Stream, Tried, Side, InputSide, OutputSide;
      SoundSpans(rest);
      received := EventInput(ev, rest);
      SoundSpans(rest);
      EventOutput(ev, rest);
      SoundSpans(rest);
    }

    /** The whole event. */
    method EventWhole(ev: Event, ghost rest: multiset<array<byte>>) returns (received: seq<byte>)
      requires Sound(rest) && |readBuffer.Contents()| + |Delivered(ev.fromKernel, 0)| <= MAX_BYTES
      requires |writeBuffer.Contents()| + Sizes(writeList) <= MAX_BYTES
      modifies this`valid, this`readable, this`writable, this`managed, this`supportRdhup, this`writeBusy
      modifies this`tempReadEvent, this`readList, this`served, readBuffer
      modifies this`haveWrite, this`accepted, this`sent, this`lost
      modifies this`writeList, this`waitWriteList, this`flushed, this`done, this`failed
      modifies writeBuffer, writeBuffer.mem, writeBuffer.mem.born
      ensures Sound(rest) && OnlyFresh(old(writeBuffer.mem.born), writeBuffer.mem.born) && Kept(rest)
      ensures received == if ev.input && old(valid) && old(readable) then Delivered(ev.fromKernel, 0) else []
      ensures Stream() == old(Stream()) + received && old(served) <= served
      ensures |readBuffer.Contents()| <= |old(readBuffer.Contents())| + |received|
      ensures ev.input || ev.hangup ==> Tried()
      ensures writeList == [] && flushed == old(flushed) + old(writeList) && old(done) <= done && old(lost) <= lost
      ensures ev.output || (lost == 0 && old(Prompt(State()))) ==> Prompt(State())
      ensures Side() == SideAfter(Happens(ev), old(Side()))
      ensures ev.output || !old(writeBusy) ==> (waitWriteList != [] ==> haveWrite < |waitWriteList[0].data|)
      ensures |old(writeBuffer.Contents())| + Sizes(old(writeList)) < UINT_RANGE ==> lost == old(lost)
      ensures |writeBuffer.Contents()| <= |old(writeBuffer.Contents())| + Sizes(old(writeList))
    {
      hide Sound, Delivered, Buffer.Contents, Sizes, Balanced, Prompt, State, Stream, Tried, Side, SideAfter, Kept,
           OnlyFresh;
      SoundSpans(rest);
      received := EventWork(ev, rest);
      SoundSpans(rest);
      EventCleanup(ev, rest);
      SoundSpans(rest);
    }

    /** `process_event`: what the event loop does for a descriptor on which something has happened. */
    method ProcessEvent(ev: Event, ghost rest: multiset<array<byte>>) returns (received: seq<byte>, more: bool)
      requires Sound(rest) && |readBuffer.Contents()| + |Delivered(ev.fromKernel, 0)| <= MAX_BYTES
      requires |writeBuffer.Contents()| + Sizes(writeList) <= MAX_BYTES
      modifies this`valid, this`readable, this`writable, this`managed, this`supportRdhup, this`writeBusy
      modifies this`tempReadEvent, this`readList, this`served, readBuffer
      modifies this`haveWrite, this`accepted, this`sent, this`lost
      modifies this`writeList, this`waitWriteList, this`flushed, this`done, this`failed
      modifies writeBuffer, writeBuffer.mem, writeBuffer.mem.born
      ensures Sound(rest) && OnlyFresh(old(writeBuffer.mem.born), writeBuffer.mem.born) && Kept(rest)
      ensures received == if ev.input && old(valid) && old(readable) then Delivered(ev.fromKernel, 0) else []
      ensures Stream() == old(Stream()) + received && old(served) <= served && asked == old(asked)
      ensures |readBuffer.Contents()| <= |old(readBuffer.Contents())| + |received|
      ensures (ev.input || ev.hangup ==> Tried()) && (ev.hangup ==> !readable)
      ensures writeList == [] && flushed == old(flushed) + old(writeList) && old(done) <= done && old(lost) <= lost
      ensures registered == old(registered) && (ev.output || (lost == 0 && old(Prompt(State()))) ==> Prompt(State()))
      ensures Side() == SideAfter(Happens(ev), old(Side()))
      ensures (ev.output || !old(writeBusy)) && valid && writable
              && Enough(ev.toKernel, |old(writeBuffer.Contents())| + Sizes(old(writeList))) ==>
                Emptied(old(accepted) + |old(writeBuffer.Contents())| + Sizes(old(writeList)))
      ensures |old(writeBuffer.Contents())| + Sizes(old(writeList)) < UINT_RANGE ==> lost == old(lost)
      ensures |writeBuffer.Contents()| <= |old(writeBuffer.Contents())| + Sizes(old(writeList))
      ensures more == (readable || writable)
    {
      hide Sound, Delivered, Buffer.Contents, Sizes, Balanced, Prompt, State, Stream, Tried, Side, SideAfter, Enough,
           Kept, OnlyFresh, Emptied;
      SoundSpans(rest);
      SoundIsPlaced(rest);
      SideMeans();
      ghost var before := Side();
      received := EventWhole(ev, rest);
      SoundSpans(rest);
      more := readable || writable;
      SideMeans();
      if ev.hangup {
        HangupStays(before, ev);
      }
      if (ev.output || !old(writeBusy)) && valid && writable && Enough(ev.toKernel, before.len + Sizes(before.queue)) {
        WritingEmpties(Happens(ev), before, ev.toKernel);
        NothingIsLeft(before, rest);
      }
    }

    method Unreadable(ghost rest: multiset<array<byte>>)
      requires Sound(rest) && readBuffer.Span() && writeBuffer.Span()
      modifies this`readable
      ensures Sound(rest) && !readable && Stream() == old(Stream()) && State() == old(State())
      ensures Side() == old(Side()).(face := old(Side()).face.(readable := false))
    {
      readable := false;
    }

    /** One turn of a run. */
    method Perform(turn: Turn, ghost rest: multiset<array<byte>>) returns (received: seq<byte>, ok: bool)
      requires Sound(rest) && |readBuffer.Contents()| + Arriving([turn]) <= MAX_BYTES
      requires |writeBuffer.Contents()| + Sizes(writeList) <= MAX_BYTES
      modifies this, readBuffer, writeBuffer, writeBuffer.mem, writeBuffer.mem.born
      ensures Sound(rest) && OnlyFresh(old(writeBuffer.mem.born), writeBuffer.mem.born) && Kept(rest)
      ensures StepFits(turn, received, ok, old(Now()), Now())
    {
      hide Sound, StepFits, Now, Sizes, Delivered, Buffer.Contents;
      SoundSpans(rest);
      OneTurn(turn);
      received, ok := [], false;
      match turn {
        case Joined => JoinTurn(rest);
        case Submit(op, ioId) => ok := SubmitTurn(op, ioId, rest);
        case Request(op, ioId) => ok := AskTurn(op, ioId, rest);
        case Happens(ev) => received := EventTurn(ev, rest);
        case Instant(kernel) => InstantTurn(kernel, rest);
        case Clean => CleanWriteTurn(rest);
      }
      SoundSpans(rest);
    }

    /** Any run of turns, one after the other. */
    method Play(script: seq<Turn>, ghost rest: multiset<array<byte>>) returns (received: seq<byte>, oks: seq<bool>)
      requires Sound(rest) && |readBuffer.Contents()| + Arriving(script) <= MAX_BYTES
      requires |writeBuffer.Contents()| + Sizes(writeList) + Offered(script) <= MAX_BYTES
      modifies this, readBuffer, writeBuffer, writeBuffer.mem, writeBuffer.mem.born
      ensures Sound(rest) && OnlyFresh(old(writeBuffer.mem.born), writeBuffer.mem.born) && Kept(rest)
      ensures RunFits(script, received, oks, old(Now()), Now())
    {
      hide Sound, Buffer.Contents, Delivered, RunFits, StepFits, Now, Load;
      SoundSpans(rest);
      received, oks := [], [];
      RunStarts(Now());
      NowMeans();
      var k := 0;
      while k < |script|
        invariant k <= |script| && Sound(rest) && readBuffer.Span() && writeBuffer.Span()
        invariant writeBuffer.mem == readBuffer.mem
        invariant OnlyFresh(old(writeBuffer.mem.born), writeBuffer.mem.born) && Kept(rest)
        invariant RunFits(script[..k], received, oks, old(Now()), Now())
      {
        ghost var now := Now();
        SoundSpans(rest);
        RunHasRoom(script, k, received, oks, old(Now()), now);
        NowMeans();
        var more, ok := Perform(script[k], rest);
        SoundSpans(rest);
        RunGrows(script, k, received, oks, old(Now()), now, more, ok, Now());
        received, oks := received + more, oks + [ok];
        k := k + 1;
      }
      assert script[..|script|] == script;
    }

    /** The same, reading and writing on the same io. Both laws hold at the end: every byte received has been given, in
        order, to the read operations in the order of their requests, or is still in the buffer; and the write
        operations told Done are exactly those that the kernel has taken, if all the bytes offered are fewer than 2^32
        and either no operation is empty or the run has just written. As long as the kernel reports no trouble, every
        write operation meant for the managed io is accepted; as long as reading flows, every read operation is, and all
        that the kernel delivers is received; and when the last turn writes, on an io that can still be written
        to, and the kernel's answers to it are enough for everything, the kernel has taken everything and all that was
        flushed is done. */
    method Serve(script: seq<Turn>, ghost rest: multiset<array<byte>>) returns (received: seq<byte>, oks: seq<bool>)
      requires Sound(rest) && |readBuffer.Contents()| + Arriving(script) <= MAX_BYTES
      requires |writeBuffer.Contents()| + Sizes(writeList) + Offered(script) <= MAX_BYTES
      modifies this, readBuffer, writeBuffer, writeBuffer.mem, writeBuffer.mem.born
      ensures Sound(rest) && OnlyFresh(old(writeBuffer.mem.born), writeBuffer.mem.born) && Kept(rest)
      ensures RunFits(script, received, oks, old(Now()), Now())
      ensures lost == 0 && ((old(Prompt(State())) && NoneEmpty(script)) || EndsWriting(script)) ==>
                forall i: nat | i < |flushed| :: i < |done| <==> Taken(flushed, i, accepted)
      ensures |old(writeBuffer.Contents())| + Sizes(old(writeList)) + Offered(script) < UINT_RANGE ==> lost == old(lost)
      ensures EndsReading(script) ==> Tried()
      ensures old(valid && writable) && Untroubled(script) ==>
                valid && writable && AllAccepted(script, oks, fd, old(managed))
      ensures old(valid && writable && readable) && Flowing(script) ==>
                && readable && received == AllArrived(script) && AllReadsAccepted(script, oks, fd, old(managed))
      ensures EndsWriting(script) && valid && writable
              && Enough(LastAnswers(script),
                        |old(writeBuffer.Contents())| + Sizes(old(writeList)) + Offered(script)) ==>
                Emptied(Sizes(flushed))
    {
      hide Sound, Buffer.Contents, Sizes, Balanced, Prompt, Now, Load, Taken, Untroubled, Flowing, AllAccepted;
      hide AllReadsAccepted, AllArrived, Enough, LastAnswers, RunFits, Kept, OnlyFresh, Placed,
           EndsReading, EndsWriting, NoneEmpty, Offered, Arriving, Emptied, Side, State, Stream, Tried;
      SoundSpans(rest);
      SoundIsPlaced(rest);
      NowMeans();
      SideMeans();
      ghost var before := Now();
      received, oks := Play(script, rest);
      SoundSpans(rest);
      NowMeans();
      SideMeans();
      RunMeans(script, received, oks, before, Now());
      DoneIfPrompt(rest);
      OpenAtEnd(script, received, oks, before);
      EmptyAtEnd(script, received, oks, before, rest);
    }

    lemma OpenAtEnd(script: seq<Turn>, received: seq<byte>, oks: seq<bool>, a: Snap)
      requires readBuffer.Span() && writeBuffer.Span() && RunFits(script, received, oks, a, Now()) && a.side.fd == fd
      ensures a.side.face.valid && a.side.face.writable && Untroubled(script) ==>
                valid && writable && AllAccepted(script, oks, fd, a.side.face.managed)
      ensures a.side.face.valid && a.side.face.writable && a.side.face.readable && Flowing(script) ==>
                && readable && received == AllArrived(script)
                && AllReadsAccepted(script, oks, fd, a.side.face.managed)
    {
      hide Now, Side, Untroubled, Flowing, AllAccepted, AllReadsAccepted, AllArrived, RunFits;
      NowMeans();
      SideMeans();
      FlowingIsUntroubled(script);
      if a.side.face.valid && a.side.face.writable && Untroubled(script) {
        RunStaysOpen(script, received, oks, a, Now());
      }
    }

    lemma EmptyAtEnd(script: seq<Turn>, received: seq<byte>, oks: seq<bool>, a: Snap, rest: multiset<array<byte>>)
      requires Sound(rest) && readBuffer.Span() && writeBuffer.Span() && RunFits(script, received, oks, a, Now())
      requires Placed(a.side) && a.side.len == a.books.buffered && a.side.queue == a.books.queued
      ensures EndsWriting(script) && Now().side.face.valid && Now().side.face.writable
              && Enough(LastAnswers(script), Load(a) + Offered(script)) ==>
                Emptied(Sizes(flushed))
    {
      hide Sound, Now, Enough, LastAnswers, EndsWriting, Offered, Load, RunFits, Emptied, Sizes, Prompt, Placed;
      var b := Now();
      RunMeans(script, received, oks, a, b);
      if EndsWriting(script) && b.side.face.valid && b.side.face.writable
         && Enough(LastAnswers(script), Load(a) + Offered(script)) {
        RunEndsEmpty(script, received, oks, a, b);
        AllIsTaken(rest);
      }
    }

    lemma DoneIfPrompt(rest: multiset<array<byte>>)
      requires Sound(rest) && writeBuffer.Span()
      ensures Prompt(State()) && lost == 0 ==>
                forall i: nat | i < |flushed| :: i < |done| <==> Taken(flushed, i, accepted)
    {
      SoundIsBalanced(rest);
      hide Sound;
      if Prompt(State()) {
        PromptMeansDoneIffTaken(State());
      }
    }

    lemma AllIsTaken(rest: multiset<array<byte>>)
      requires Sound(rest) && readBuffer.Span() && writeBuffer.Span() && Prompt(Now().books)
      requires Now().side.len == 0 && Now().side.queue == []
      ensures Emptied(Sizes(flushed))
    {
      SoundIsBalanced(rest);
      hide Sound, Sizes, Stream, Tried;
      if lost == 0 {
        EmptyMeansAllDone(State());
      }
    }

    /** The kernel has taken everything, and every operation flushed is done unless the counter has forgotten some. */
    ghost predicate Emptied(total: nat)
      requires writeBuffer.Span()
      reads this, writeBuffer
    {
      && writeBuffer.Contents() == [] && writeList == [] && accepted == total == Sizes(flushed)
      && (lost == 0 ==> waitWriteList == [] && done == flushed)
    }

    lemma SideMeans()
      requires writeBuffer.Span()
      ensures var s := Side();
              && s.fd == fd && s.face == Face(valid, readable, writable, managed, writeBusy, supportRdhup)
              && s.begin == writeBuffer.begin && s.len == |writeBuffer.Contents()|
              && s.queue == writeList && s.accepted == accepted
    {
    }

    lemma SoundIsPlaced(rest: multiset<array<byte>>)
      requires Sound(rest)
      ensures writeBuffer.Span() && Placed(Side())
    {
      hide Bytes, Shows;
    }

    lemma NothingIsLeft(before: WriteSide, rest: multiset<array<byte>>)
      requires Sound(rest) && writeBuffer.Span() && (waitWriteList != [] ==> haveWrite < |waitWriteList[0].data|)
      requires Side().len == 0 && Side().queue == []
      requires Side().accepted == before.accepted + before.len + Sizes(before.queue)
      ensures Emptied(before.accepted + before.len + Sizes(before.queue))
    {
      SoundIsBalanced(rest);
      hide Sound;
      if lost == 0 {
        EmptyMeansAllDone(State());
      }
    }

    lemma SoundIsBalanced(rest: multiset<array<byte>>)
      requires Sound(rest)
      ensures writeBuffer.Span() && Balanced(State())
    {
    }
  }
}
