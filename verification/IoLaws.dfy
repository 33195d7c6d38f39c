/** What an `io` promises, as laws on values: scripts of kernel answers, the bytes they hand over or deliver, and the
    books of its operations. */
module IoLaws {
  import opened Blocks
  import opened IoBuffer
  import opened Options

  const MAX_RETRY_TIMES: nat := 3

  datatype Errno = EAGAIN | EINTR | EINVAL | EBADF | EPIPE | OTHER

  /** What the kernel answers to one `read`: bytes, of which it delivers what fits and keeps the rest
      for the next call (no bytes at all are the end of file), or an error. */
  datatype ReadAnswer = Data(bytes: seq<byte>) | ReadError(errno: Errno)

  /** What the kernel answers to one `write`: it takes up to n >= 1 bytes, or nothing. */
  datatype WriteAnswer = Accept(n: Positive) | Refuse(errno: Errno)

  type Positive = n: nat | n >= 1 witness 1

  /** The range of `unsigned int`, in which direct_write adds up what it has written. */
  const UINT_RANGE: nat := 0x1_0000_0000

  /** A write operation; its `process` appends exactly its `size()` bytes. */
  datatype WriteOp = WriteOp(id: nat, data: seq<byte>)

  function Sizes(ops: seq<WriteOp>): nat {
    if ops == [] then 0 else Sizes(ops[..|ops| - 1]) + |ops[|ops| - 1].data|
  }

  function Sum(ns: seq<nat>): nat {
    if ns == [] then 0 else ns[0] + Sum(ns[1..])
  }

  lemma {:induction false} SizesConcat(a: seq<WriteOp>, b: seq<WriteOp>)
    ensures Sizes(a + b) == Sizes(a) + Sizes(b)
  {
    if b == [] {
      assert a + b == a;
    } else {
      var n := |b| - 1;
      assert (a + b)[..|a + b| - 1] == a + b[..n];
      SizesConcat(a, b[..n]);
    }
  }

  // ----- what direct_write hands to the kernel -----

  /** The first w bytes of the block that the offset lies in. */
  ghost function Chunk(img: seq<seq<byte>>, at: nat, w: nat): (s: seq<byte>)
    requires IsImage(img) && at + w <= |img| * DEFAULT_SIZE && w <= DEFAULT_SIZE
    ensures |s| == w
  {
    if w == 0 then [] else img[at / DEFAULT_SIZE][..w]
  }

  /** No write crosses the end of the block it starts in. */
  ghost predicate Inside(begin: nat, writes: seq<nat>)
    decreases writes
  {
    writes != [] ==> begin % DEFAULT_SIZE + writes[0] <= DEFAULT_SIZE && Inside(begin + writes[0], writes[1..])
  }

  /** Every write that takes a byte starts at a block boundary. */
  ghost predicate Aligned(begin: nat, writes: seq<nat>)
    decreases writes
  {
    writes != [] ==> (writes[0] > 0 ==> begin % DEFAULT_SIZE == 0) && Aligned(begin + writes[0], writes[1..])
  }

  /** Each write hands over bytes from the first byte of the block that `begin` lies in, not from `begin`. */
  ghost function Handed(img: seq<seq<byte>>, begin: nat, writes: seq<nat>): (s: seq<byte>)
    requires IsImage(img) && begin + Sum(writes) <= |img| * DEFAULT_SIZE && Inside(begin, writes)
    ensures |s| == Sum(writes)
    decreases writes
  {
    if writes == [] then [] else Chunk(img, begin, writes[0]) + Handed(img, begin + writes[0], writes[1..])
  }

  lemma InsideNext(begin: nat, writes: seq<nat>)
    requires writes != [] && Inside(begin, writes)
    ensures Inside(begin + writes[0], writes[1..]) && writes[0] <= DEFAULT_SIZE
            && Sum(writes) == writes[0] + Sum(writes[1..])
  {
  }

  lemma AlignedNext(begin: nat, writes: seq<nat>)
    requires writes != [] && Aligned(begin, writes)
    ensures Aligned(begin + writes[0], writes[1..]) && (writes[0] > 0 ==> begin % DEFAULT_SIZE == 0)
  {
  }

  lemma HandedNext(img: seq<seq<byte>>, begin: nat, writes: seq<nat>)
    requires IsImage(img) && begin + Sum(writes) <= |img| * DEFAULT_SIZE && Inside(begin, writes) && writes != []
    ensures Inside(begin + writes[0], writes[1..]) && writes[0] <= DEFAULT_SIZE
            && Sum(writes) == writes[0] + Sum(writes[1..])
    ensures Handed(img, begin, writes) == Chunk(img, begin, writes[0]) + Handed(img, begin + writes[0], writes[1..])
  {
    InsideNext(begin, writes);
    hide Chunk, Inside, Sum;
  }

  /** What the kernel has taken grows by what the writes hand over; NPOS stands for an empty buffer. */
  ghost predicate Sends(img: seq<seq<byte>>, begin: nat, end: nat, writes: seq<nat>, before: seq<byte>,
                        after: seq<byte>) {
    if begin == NPOS then writes == [] && after == before
    else
      && IsImage(img) && begin + Sum(writes) <= end <= |img| * DEFAULT_SIZE && Inside(begin, writes)
      && after == before + Handed(img, begin, writes)
  }

  lemma NothingSent(img: seq<seq<byte>>, begin: nat, end: nat, sent: seq<byte>)
    requires begin == NPOS || (IsImage(img) && begin <= end <= |img| * DEFAULT_SIZE)
    ensures Sends(img, begin, end, [], sent, sent)
  {
    assert sent + [] == sent;
  }

  lemma ChunkAligned(img: seq<seq<byte>>, at: nat, w: nat)
    requires IsImage(img) && at + w <= |img| * DEFAULT_SIZE && w <= DEFAULT_SIZE
    requires w > 0 ==> at % DEFAULT_SIZE == 0
    ensures Chunk(img, at, w) == Bytes(img, at, w)
  {
    if w == 0 {
      assert Bytes(img, at, 0) == [];
    } else {
      hide Bytes;
      var q := at / DEFAULT_SIZE;
      assert at == q * DEFAULT_SIZE && q < |img|;
      BytesBlock(img, q);
      BytesSlice(img, at, DEFAULT_SIZE, 0, w);
    }
  }

  /** Aligned writes hand over exactly the contents. */
  lemma {:induction false} AlignedIsExact(img: seq<seq<byte>>, begin: nat, writes: seq<nat>)
    requires IsImage(img) && begin + Sum(writes) <= |img| * DEFAULT_SIZE && Inside(begin, writes)
             && Aligned(begin, writes)
    ensures Handed(img, begin, writes) == Bytes(img, begin, Sum(writes))
    decreases writes
  {
    hide Bytes, Chunk, Inside, Aligned, Handed, Sum;
    if writes == [] {
      HandedNone(img, begin);
    } else {
      var w, rest := writes[0], writes[1..];
      HandedNext(img, begin, writes);
      AlignedNext(begin, writes);
      ChunkAligned(img, begin, w);
      AlignedIsExact(img, begin + w, rest);
      BytesSplit(img, begin, w, Sum(rest));
    }
  }

  lemma HandedNone(img: seq<seq<byte>>, begin: nat)
    requires IsImage(img) && begin <= |img| * DEFAULT_SIZE
    ensures Inside(begin, []) && Sum([]) == 0 && Handed(img, begin, []) == [] == Bytes(img, begin, 0)
  {
  }

  /** The image with a one at the start of block q and zeros elsewhere. */
  ghost function Marked(size: nat, q: nat): (img: seq<seq<byte>>)
    ensures IsImage(img) && |img| == size
  {
    seq(size, k => seq(DEFAULT_SIZE, o => if k == q && o == 0 then 1 else 0))
  }

  lemma MarkedChunkDiffers(size: nat, at: nat, w: nat)
    requires at + w <= size * DEFAULT_SIZE && 0 < w <= DEFAULT_SIZE && at % DEFAULT_SIZE != 0
    ensures Chunk(Marked(size, at / DEFAULT_SIZE), at, w) != Bytes(Marked(size, at / DEFAULT_SIZE), at, w)
  {
    var img := Marked(size, at / DEFAULT_SIZE);
    BytesAt(img, at, w, 0);
    assert Chunk(img, at, w)[0] == 1;
  }

  /** Writes that start off a boundary hand over a wrong byte for some content. */
  lemma {:induction false} MisalignedFails(size: nat, begin: nat, writes: seq<nat>) returns (img: seq<seq<byte>>)
    requires begin + Sum(writes) <= size * DEFAULT_SIZE && Inside(begin, writes) && !Aligned(begin, writes)
    ensures IsImage(img) && |img| == size && Handed(img, begin, writes) != Bytes(img, begin, Sum(writes))
    decreases writes
  {
    hide Bytes, Chunk, Marked, Handed, Inside, Sum;
    InsideNext(begin, writes);
    var w, rest := writes[0], writes[1..];
    if w > 0 && begin % DEFAULT_SIZE != 0 {
      img := Marked(size, begin / DEFAULT_SIZE);
      HandedNext(img, begin, writes);
      MarkedChunkDiffers(size, begin, w);
      BytesSplit(img, begin, w, Sum(rest));
      PrefixesDiffer(Chunk(img, begin, w), Bytes(img, begin, w), Handed(img, begin + w, rest),
          Bytes(img, begin + w, Sum(rest)));
    } else {
      img := MisalignedFails(size, begin + w, rest);
      HandedNext(img, begin, writes);
      BytesSplit(img, begin, w, Sum(rest));
      SuffixesDiffer(Chunk(img, begin, w), Bytes(img, begin, w), Handed(img, begin + w, rest),
          Bytes(img, begin + w, Sum(rest)));
    }
  }

  lemma PrefixesDiffer(a: seq<byte>, b: seq<byte>, c: seq<byte>, d: seq<byte>)
    requires |a| == |b| && a != b
    ensures a + c != b + d
  {
    assert (a + c)[..|a|] == a && (b + d)[..|a|] == b;
  }

  lemma SuffixesDiffer(a: seq<byte>, b: seq<byte>, c: seq<byte>, d: seq<byte>)
    requires |a| == |b| && c != d
    ensures a + c != b + d
  {
    assert (a + c)[|a|..] == c && (b + d)[|a|..] == d;
  }

  /** Bytes are handed over exactly, whatever the blocks hold, if and only if every write starts at a block boundary. */
  lemma ExactIffAligned(size: nat, begin: nat, writes: seq<nat>)
    requires begin + Sum(writes) <= size * DEFAULT_SIZE && Inside(begin, writes)
    ensures Aligned(begin, writes) <==>
            forall img: seq<seq<byte>> | IsImage(img) && |img| == size ::
              Handed(img, begin, writes) == Bytes(img, begin, Sum(writes))
  {
    hide Bytes, Handed;
    if Aligned(begin, writes) {
      forall img: seq<seq<byte>> | IsImage(img) && |img| == size
        ensures Handed(img, begin, writes) == Bytes(img, begin, Sum(writes))
      {
        AlignedIsExact(img, begin, writes);
      }
    } else {
      var img := MisalignedFails(size, begin, writes);
    }
  }

  /** One more write at the end. */
  lemma {:induction false} SumAppend(writes: seq<nat>, w: nat)
    ensures Sum(writes + [w]) == Sum(writes) + w
  {
    if writes != [] {
      assert (writes + [w])[1..] == writes[1..] + [w];
      SumAppend(writes[1..], w);
    }
  }

  lemma {:induction false} InsideAppend(begin: nat, writes: seq<nat>, w: nat)
    requires Inside(begin, writes) && (begin + Sum(writes)) % DEFAULT_SIZE + w <= DEFAULT_SIZE
    ensures Inside(begin, writes + [w])
    ensures Aligned(begin, writes + [w])
            <==> Aligned(begin, writes) && (w > 0 ==> (begin + Sum(writes)) % DEFAULT_SIZE == 0)
    decreases writes
  {
    if writes == [] {
      assert [w][1..] == [];
    } else {
      assert (writes + [w])[1..] == writes[1..] + [w];
      InsideAppend(begin + writes[0], writes[1..], w);
    }
  }

  lemma {:induction false} HandedAppend(img: seq<seq<byte>>, begin: nat, writes: seq<nat>, w: nat)
    requires IsImage(img) && begin + Sum(writes) + w <= |img| * DEFAULT_SIZE
    requires Inside(begin, writes) && Inside(begin, writes + [w]) && w <= DEFAULT_SIZE
    ensures Sum(writes + [w]) == Sum(writes) + w
    ensures Handed(img, begin, writes + [w]) == Handed(img, begin, writes) + Chunk(img, begin + Sum(writes), w)
    decreases writes
  {
    hide Chunk, Inside, Handed, Sum;
    SumAppend(writes, w);
    if writes == [] {
      assert [] + [w] == [w];
      HandedOne(img, begin, w);
    } else {
      var first, rest := writes[0], writes[1..];
      var more := writes + [w];
      assert more[1..] == rest + [w] && more[0] == first;
      HandedNext(img, begin, writes);
      HandedNext(img, begin, more);
      HandedAppend(img, begin + first, rest, w);
      Associative(Chunk(img, begin, first), Handed(img, begin + first, rest), Chunk(img, begin + first + Sum(rest), w));
    }
  }

  lemma HandedOne(img: seq<seq<byte>>, begin: nat, w: nat)
    requires IsImage(img) && begin + Sum([]) + w <= |img| * DEFAULT_SIZE && Inside(begin, [w]) && w <= DEFAULT_SIZE
    ensures Inside(begin, []) && Sum([]) == 0 && Sum([w]) == w && Handed(img, begin, []) == []
    ensures Handed(img, begin, [w]) == [] + Chunk(img, begin, w)
  {
    hide Chunk;
    assert [w][1..] == [];
  }

  // ----- what direct_write does with a script -----

  /** How much one write may hand over: what is left in the block that the offset lies in. */
  function CanWrite(begin: nat, end: nat): (n: Positive)
    requires begin < end
  {
    if end / DEFAULT_SIZE == begin / DEFAULT_SIZE then end - begin else DEFAULT_SIZE - begin % DEFAULT_SIZE
  }

  /** The sizes of the writes that the kernel accepts, one after the other, until the buffer is empty or it refuses. */
  function Accepts(kernel: seq<WriteAnswer>, begin: nat, end: nat, retryTimes: nat): seq<nat>
    requires begin <= end
    decreases |kernel|
  {
    if begin == end || kernel == [] then []
    else if kernel[0].Accept? then
      var ret := Min(kernel[0].n, CanWrite(begin, end));
      assert ret <= end - begin by { CanWriteFits(begin, end); }
      [ret] + Accepts(kernel[1..], begin + ret, end, retryTimes)
    else if kernel[0].errno == EINTR && retryTimes + 1 != MAX_RETRY_TIMES then
      Accepts(kernel[1..], begin, end, retryTimes + 1)
    else []
  }

  /** Why it stops: None when the buffer is empty. */
  function Refusal(kernel: seq<WriteAnswer>, begin: nat, end: nat, retryTimes: nat): Option<Errno>
    requires begin <= end
    decreases |kernel|
  {
    if begin == end then None
    else if kernel == [] then Some(EAGAIN)
    else if kernel[0].Accept? then
      var ret := Min(kernel[0].n, CanWrite(begin, end));
      assert ret <= end - begin by { CanWriteFits(begin, end); }
      Refusal(kernel[1..], begin + ret, end, retryTimes)
    else if kernel[0].errno == EINTR && retryTimes + 1 != MAX_RETRY_TIMES then
      Refusal(kernel[1..], begin, end, retryTimes + 1)
    else Some(kernel[0].errno)
  }

  /** The same for a whole direct_write; NPOS stands for an empty buffer. */
  function Writes(kernel: seq<WriteAnswer>, begin: nat, end: nat): seq<nat>
    requires begin == NPOS || begin <= end
  {
    if begin == NPOS then [] else Accepts(kernel, begin, end, 0)
  }

  function StopOf(kernel: seq<WriteAnswer>, begin: nat, end: nat): Option<Errno>
    requires begin == NPOS || begin <= end
  {
    if begin == NPOS then None else Refusal(kernel, begin, end, 0)
  }

  /** The first step of the loop. */
  lemma AcceptsFirst(kernel: seq<WriteAnswer>, begin: nat, end: nat, retryTimes: nat)
    requires begin < end
    ensures var answer := if kernel == [] then Refuse(EAGAIN) else kernel[0];
            var writes, stop := Accepts(kernel, begin, end, retryTimes), Refusal(kernel, begin, end, retryTimes);
            if answer.Accept? then
              var ret := Min(answer.n, CanWrite(begin, end));
              && begin + ret <= end && writes == [ret] + Accepts(kernel[1..], begin + ret, end, retryTimes)
              && stop == Refusal(kernel[1..], begin + ret, end, retryTimes)
            else if answer.errno == EINTR && retryTimes + 1 != MAX_RETRY_TIMES then
              && writes == Accepts(kernel[1..], begin, end, retryTimes + 1)
              && stop == Refusal(kernel[1..], begin, end, retryTimes + 1)
            else writes == [] && stop == Some(answer.errno)
  {
    CanWriteFits(begin, end);
  }

  lemma AcceptsNone(kernel: seq<WriteAnswer>, end: nat, retryTimes: nat)
    ensures Accepts(kernel, end, end, retryTimes) == [] && Refusal(kernel, end, end, retryTimes) == None
  {
  }

  lemma AcceptsJoin(a: seq<nat>, ret: nat, b: seq<nat>)
    ensures a + ([ret] + b) == (a + [ret]) + b
  {
  }

  lemma TotalNext(total: nat, sum: nat, ret: nat)
    requires total == sum % UINT_RANGE
    ensures (total + ret) % UINT_RANGE == (sum + ret) % UINT_RANGE
  {
  }

  /** How far a direct_write has come with its script: the writes so far and those to come are all it will do. */
  ghost predicate Along(kernel: seq<WriteAnswer>, b0: nat, end: nat, writes: seq<nat>, script: seq<WriteAnswer>,
                        begin: nat, retryTimes: nat)
  {
    if b0 == NPOS then writes == [] && begin == NPOS
    else
      && b0 <= end && begin <= end && begin != NPOS
      && writes + Accepts(script, begin, end, retryTimes) == Accepts(kernel, b0, end, 0)
      && Refusal(script, begin, end, retryTimes) == Refusal(kernel, b0, end, 0)
  }

  lemma AlongAtFirst(kernel: seq<WriteAnswer>, begin: nat, end: nat)
    requires begin == NPOS || begin <= end
    ensures Along(kernel, begin, end, [], kernel, begin, 0)
  {
    if begin != NPOS {
      assert [] + Accepts(kernel, begin, end, 0) == Accepts(kernel, begin, end, 0);
    }
  }

  lemma AlongAccept(kernel: seq<WriteAnswer>, b0: nat, end: nat, writes: seq<nat>, script: seq<WriteAnswer>, begin: nat,
                    retryTimes: nat, ret: nat)
    requires Along(kernel, b0, end, writes, script, begin, retryTimes) && begin != NPOS && begin < end < NPOS
    requires script != [] && script[0].Accept? && ret == Min(script[0].n, CanWrite(begin, end))
    ensures Along(kernel, b0, end, writes + [ret], script[1..], begin + ret, retryTimes)
  {
    AcceptsFirst(script, begin, end, retryTimes);
    AcceptsJoin(writes, ret, Accepts(script[1..], begin + ret, end, retryTimes));
    hide Accepts, Refusal, CanWrite;
  }

  lemma AlongInterrupt(kernel: seq<WriteAnswer>, b0: nat, end: nat, writes: seq<nat>, script: seq<WriteAnswer>,
                       begin: nat, retryTimes: nat)
    requires Along(kernel, b0, end, writes, script, begin, retryTimes) && begin != NPOS && begin < end
    requires script != [] && script[0] == Refuse(EINTR) && retryTimes + 1 != MAX_RETRY_TIMES
    ensures Along(kernel, b0, end, writes, script[1..], begin, retryTimes + 1)
  {
    AcceptsFirst(script, begin, end, retryTimes);
    hide Accepts, Refusal, CanWrite;
  }

  /** Where it ends: at a refusal, for which running out of answers counts, or with nothing left to write. */
  lemma AlongStops(kernel: seq<WriteAnswer>, b0: nat, end: nat, writes: seq<nat>, script: seq<WriteAnswer>, begin: nat,
                   retryTimes: nat)
    requires Along(kernel, b0, end, writes, script, begin, retryTimes) && begin != NPOS && begin < end
    requires script != [] ==> script[0].Refuse? && (script[0].errno == EINTR ==> retryTimes + 1 == MAX_RETRY_TIMES)
    ensures writes == Writes(kernel, b0, end)
    ensures StopOf(kernel, b0, end) == Some(if script == [] then EAGAIN else script[0].errno)
  {
    AcceptsFirst(script, begin, end, retryTimes);
    hide Accepts, Refusal, CanWrite;
    assert writes + [] == writes;
  }

  lemma AlongEnds(kernel: seq<WriteAnswer>, b0: nat, end: nat, writes: seq<nat>, script: seq<WriteAnswer>, begin: nat,
                  retryTimes: nat)
    requires Along(kernel, b0, end, writes, script, begin, retryTimes) && (begin == NPOS || begin == end)
    ensures b0 == NPOS || b0 <= end
    ensures writes == Writes(kernel, b0, end) && StopOf(kernel, b0, end) == None
  {
    if begin == end {
      AcceptsNone(script, end, retryTimes);
    }
    hide Accepts, Refusal, CanWrite;
    assert writes + [] == writes;
  }

  lemma CanWriteFits(begin: nat, end: nat)
    requires begin < end
    ensures CanWrite(begin, end) <= end - begin && begin % DEFAULT_SIZE + CanWrite(begin, end) <= DEFAULT_SIZE
  {
  }

  // ----- the conservation law as a relation between values -----

  datatype Books = Books(
    registered: seq<WriteOp>, queued: seq<WriteOp>, flushed: seq<WriteOp>, waiting: seq<WriteOp>,
    done: seq<WriteOp>, failed: seq<WriteOp>, haveWrite: nat, accepted: nat, buffered: nat, lost: nat)

  /** Every operation is queued, flushed or failed; the flushed ones are done or waiting, in order;
      the bytes flushed are accepted or buffered; the bytes accepted are credit or belong to done operations,
      except for what the 32-bit counter of direct_write has forgotten. */
  ghost predicate Balanced(b: Books) {
    && b.flushed == b.done + b.waiting
    && b.haveWrite + Sizes(b.done) + UINT_RANGE * b.lost == b.accepted
    && b.accepted + b.buffered == Sizes(b.flushed)
    && multiset(b.registered) == multiset(b.flushed) + multiset(b.failed) + multiset(b.queued)
  }

  /** The law as its users know it: credit and buffered bytes make up the sizes of the waiting operations,
      if and only if nothing was forgotten. */
  lemma Credit(b: Books)
    requires Balanced(b)
    ensures b.haveWrite + b.buffered + UINT_RANGE * b.lost == Sizes(b.waiting)
    ensures b.haveWrite + b.buffered == Sizes(b.waiting) <==> b.lost == 0
  {
    SizesConcat(b.done, b.waiting);
  }

  lemma RegisterKeeps(b: Books, op: WriteOp)
    requires Balanced(b)
    ensures Balanced(b.(registered := b.registered + [op], queued := b.queued + [op]))
  {
  }

  function Flushed(b: Books): Books
    requires b.queued != []
  {
    var op := b.queued[0];
    b.(queued := b.queued[1..], flushed := b.flushed + [op], waiting := b.waiting + [op],
        buffered := b.buffered + |op.data|)
  }

  lemma FlushKeeps(b: Books)
    requires Balanced(b) && b.queued != []
    ensures Balanced(Flushed(b))
  {
    var op := b.queued[0];
    assert b.queued == [op] + b.queued[1..];
    SizesConcat(b.flushed, [op]);
    SizesOne(op);
    assert b.flushed + [op] == b.done + (b.waiting + [op]);
    assert multiset(b.flushed + [op]) + multiset(b.failed) + multiset(b.queued[1..])
        == multiset(b.flushed) + multiset(b.failed) + multiset(b.queued);
  }

  function Failed(b: Books): Books
    requires b.queued != []
  {
    b.(queued := b.queued[1..], failed := b.failed + [b.queued[0]])
  }

  lemma FailKeeps(b: Books)
    requires Balanced(b) && b.queued != []
    ensures Balanced(Failed(b))
  {
    var op := b.queued[0];
    assert b.queued == [op] + b.queued[1..];
    assert multiset(b.flushed) + multiset(b.failed + [op]) + multiset(b.queued[1..])
        == multiset(b.flushed) + multiset(b.failed) + multiset(b.queued);
  }

  function Completed(b: Books): Books
    requires b.waiting != [] && |b.waiting[0].data| <= b.haveWrite
  {
    var op := b.waiting[0];
    b.(waiting := b.waiting[1..], done := b.done + [op], haveWrite := b.haveWrite - |op.data|)
  }

  lemma CompleteKeeps(b: Books)
    requires Balanced(b) && b.waiting != [] && |b.waiting[0].data| <= b.haveWrite
    ensures Balanced(Completed(b))
  {
    var op := b.waiting[0];
    assert b.waiting == [op] + b.waiting[1..];
    assert b.done + b.waiting == (b.done + [op]) + b.waiting[1..];
    SizesConcat(b.done, [op]);
    SizesOne(op);
  }

  /** What a direct_write that has k bytes accepted does to the counters. */
  function Written(b: Books, k: nat): Books
    requires k <= b.buffered
  {
    b.(haveWrite := b.haveWrite + k % UINT_RANGE, accepted := b.accepted + k, buffered := b.buffered - k,
       lost := b.lost + k / UINT_RANGE)
  }

  lemma NothingWritten(c: seq<byte>, sent: seq<byte>)
    ensures c[0..] == c && sent + c[..0] == sent && Sum([]) == 0
  {
  }

  lemma WrittenNothing(b: Books)
    ensures Written(b, 0) == b
  {
  }

  lemma WrittenIs(a: Books, b: Books, k: nat)
    requires a.registered == b.registered && a.queued == b.queued && a.flushed == b.flushed && a.waiting == b.waiting
    requires a.done == b.done && a.failed == b.failed && k <= a.buffered && b.buffered == a.buffered - k
    requires b.haveWrite == a.haveWrite + k % UINT_RANGE && b.accepted == a.accepted + k
             && b.lost == a.lost + k / UINT_RANGE
    ensures b == Written(a, k)
  {
  }

  lemma WriteKeeps(b: Books, k: nat)
    requires Balanced(b) && k <= b.buffered
    ensures Balanced(Written(b, k)) && (Written(b, k).lost == b.lost <==> k < UINT_RANGE)
  {
  }

  /** An operation is done only after the kernel took all bytes of it and of everything flushed before it. */
  lemma DoneMeansAccepted(b: Books, i: nat)
    requires Balanced(b) && i < |b.done|
    ensures b.done[i] == b.flushed[i] && Sizes(b.flushed[..i + 1]) <= b.accepted
  {
    assert b.flushed[..i + 1] == b.done[..i + 1];
    assert b.done == b.done[..i + 1] + b.done[i + 1..];
    SizesConcat(b.done[..i + 1], b.done[i + 1..]);
  }

  /** After process_write, with nothing forgotten, exactly the operations that the kernel has taken entirely are
      done. */
  lemma DoneIffAccepted(b: Books, i: nat)
    requires Balanced(b) && b.lost == 0 && i < |b.flushed|
    requires b.waiting != [] ==> b.haveWrite < |b.waiting[0].data|
    ensures i < |b.done| <==> Sizes(b.flushed[..i + 1]) <= b.accepted
  {
    if i < |b.done| {
      DoneMeansAccepted(b, i);
    } else {
      var n := |b.done|;
      assert b.flushed[..i + 1] == b.done + [b.waiting[0]] + b.waiting[1..i + 1 - n];
      SizesConcat(b.done + [b.waiting[0]], b.waiting[1..i + 1 - n]);
      SizesConcat(b.done, [b.waiting[0]]);
      SizesOne(b.waiting[0]);
    }
  }

  /** The kernel has taken operation i and everything flushed before it. */
  ghost predicate Taken(flushed: seq<WriteOp>, i: nat, accepted: nat) {
    i < |flushed| && Sizes(flushed[..i + 1]) <= accepted
  }

  lemma AllDoneIffTaken(b: Books)
    requires Balanced(b) && (b.waiting != [] ==> b.haveWrite < |b.waiting[0].data|)
    ensures b.lost == 0 ==> forall i: nat | i < |b.flushed| :: i < |b.done| <==> Taken(b.flushed, i, b.accepted)
  {
    if b.lost == 0 {
      forall i: nat | i < |b.flushed| ensures i < |b.done| <==> Taken(b.flushed, i, b.accepted) {
        DoneIffAccepted(b, i);
      }
    }
  }

  /** write_flush buffers the sizes of what it flushes. */
  lemma FlushedSize(a: Books, b: Books)
    requires Balanced(a) && Balanced(b) && b.flushed == a.flushed + a.queued
    requires b.accepted == a.accepted
    ensures b.buffered == a.buffered + Sizes(a.queued)
  {
    SizesConcat(a.flushed, a.queued);
  }

  /** No operation is told both that it is done and that it failed. */
  lemma NotBothDoneAndFailed(b: Books, op: WriteOp)
    requires Balanced(b) && multiset(b.registered)[op] <= 1
    ensures !(op in b.done && op in b.failed)
  {
    assert multiset(b.flushed) == multiset(b.done) + multiset(b.waiting);
    assert multiset(b.registered)[op] >= multiset(b.done)[op] + multiset(b.failed)[op];
  }

  lemma BalancedAtStart()
    ensures Balanced(Books([], [], [], [], [], [], 0, 0, 0, 0))
  {
  }

  /** The first waiting operation is not covered by the credit, and no operation to come is empty. */
  ghost predicate Prompt(b: Books) {
    && (b.waiting != [] ==> b.haveWrite < |b.waiting[0].data|)
    && forall k | 0 <= k < |b.queued| :: b.queued[k].data != []
  }

  lemma FlushKeepsPrompt(b: Books)
    requires Balanced(b) && b.lost == 0 && Prompt(b) && b.queued != []
    ensures Prompt(Flushed(b))
  {
    Credit(b);
    var r := Flushed(b);
    assert forall k | 0 <= k < |r.queued| :: r.queued[k] == b.queued[k + 1];
  }

  /** With nothing forgotten, the operations done are exactly those that the kernel has taken. */
  lemma PromptMeansDoneIffTaken(b: Books)
    requires Balanced(b) && Prompt(b)
    ensures b.lost == 0 ==> forall i: nat | i < |b.flushed| :: i < |b.done| <==> Taken(b.flushed, i, b.accepted)
  {
    AllDoneIffTaken(b);
  }

  lemma SizesSnoc(ops: seq<WriteOp>, op: WriteOp)
    ensures Sizes(ops + [op]) == Sizes(ops) + |op.data|
  {
    SizesConcat(ops, [op]);
    SizesOne(op);
  }

  // ----- reading -----

  datatype ReadOp = ReadOp(id: nat)

  /** What the `process` function of a read operation does in one call: it takes up to so many bytes off the front of
      the buffer, and says whether the operation is done. */
  datatype Processed = Processed(take: nat, done: bool)

  /** The outcome of the next call; when the script is used up, nothing is taken and nothing done. */
  function Outcome(answers: seq<Processed>): Processed {
    if answers == [] then Processed(0, false) else answers[0]
  }

  function Remaining(answers: seq<Processed>): seq<Processed> {
    if answers == [] then [] else answers[1..]
  }

  /** One call of `process`: what the operation got, and whether it was done. */
  datatype Served = Served(op: ReadOp, data: seq<byte>, done: bool)

  /** The calls of `process` that serve operations in order from contents c, until one is not done. */
  function Serves(ops: seq<ReadOp>, answers: seq<Processed>, c: seq<byte>): seq<Served>
    decreases |ops|
  {
    if ops == [] then []
    else
      var k := Min(Outcome(answers).take, |c|);
      [Served(ops[0], c[..k], Outcome(answers).done)] +
      if Outcome(answers).done then Serves(ops[1..], Remaining(answers), c[k..]) else []
  }

  lemma ServesFirst(ops: seq<ReadOp>, answers: seq<Processed>, c: seq<byte>)
    ensures ops == [] ==> Serves(ops, answers, c) == []
    ensures ops != [] ==>
              var k, done := Min(Outcome(answers).take, |c|), Outcome(answers).done;
              Serves(ops, answers, c) ==
              [Served(ops[0], c[..k], done)] + if done then Serves(ops[1..], Remaining(answers), c[k..]) else []
  {
  }

  lemma ServedJoin(a: seq<Served>, one: Served, b: seq<Served>)
    ensures (a + [one]) + b == a + ([one] + b)
  {
  }

  /** The bytes given to read operations. */
  ghost function Given(served: seq<Served>): seq<byte> {
    if served == [] then [] else Given(served[..|served| - 1]) + served[|served| - 1].data
  }

  /** The operations notified Done. */
  ghost function Finished(served: seq<Served>): seq<ReadOp> {
    if served == [] then []
    else
      var n := |served| - 1;
      Finished(served[..n]) + if served[n].done then [served[n].op] else []
  }

  /** Each call served the first operation that was not done yet, in the order in which they were asked for. */
  ghost predicate InOrder(served: seq<Served>, asked: seq<ReadOp>) {
    served != [] ==>
      var n := |served| - 1;
      && InOrder(served[..n], asked)
      && |Finished(served[..n])| < |asked| && served[n].op == asked[|Finished(served[..n])|]
  }

  lemma ServedSnoc(served: seq<Served>, one: Served, asked: seq<ReadOp>)
    requires InOrder(served, asked) && |Finished(served)| < |asked| && one.op == asked[|Finished(served)|]
    ensures InOrder(served + [one], asked) && Given(served + [one]) == Given(served) + one.data
    ensures Finished(served + [one]) == Finished(served) + if one.done then [one.op] else []
  {
    assert (served + [one])[..|served|] == served;
  }

  lemma {:induction false} AskedMore(served: seq<Served>, asked: seq<ReadOp>, op: ReadOp)
    requires InOrder(served, asked)
    ensures InOrder(served, asked + [op])
  {
    if served != [] {
      AskedMore(served[..|served| - 1], asked, op);
    }
  }

  /** The operations done are the first ones asked for, in their order. */
  lemma {:induction false} FinishedInOrder(served: seq<Served>, asked: seq<ReadOp>)
    requires InOrder(served, asked)
    ensures |Finished(served)| <= |asked| && Finished(served) == asked[..|Finished(served)|]
  {
    if served != [] {
      var n := |served| - 1;
      FinishedInOrder(served[..n], asked);
      var k := |Finished(served[..n])|;
      assert asked[..k + 1] == asked[..k] + [asked[k]];
    }
  }

  /** Why direct_read stops. */
  datatype ReadEnd = EndOfFile | Stopped(errno: Errno)

  function Ending(kernel: seq<ReadAnswer>, retryTimes: nat): ReadEnd
    decreases |kernel|
  {
    if kernel == [] then Stopped(EAGAIN)
    else if kernel[0].Data? then if kernel[0].bytes == [] then EndOfFile else Ending(kernel[1..], retryTimes)
    else if kernel[0].errno == EINTR && retryTimes + 1 != MAX_RETRY_TIMES then Ending(kernel[1..], retryTimes + 1)
    else Stopped(kernel[0].errno)
  }

  /** The bytes that a script of answers delivers before it makes direct_read stop. */
  function Delivered(kernel: seq<ReadAnswer>, retryTimes: nat): seq<byte>
    decreases |kernel|
  {
    if kernel == [] then []
    else if kernel[0].Data? then
      if kernel[0].bytes == [] then [] else kernel[0].bytes + Delivered(kernel[1..], retryTimes)
    else if kernel[0].errno == EINTR && retryTimes + 1 != MAX_RETRY_TIMES then Delivered(kernel[1..], retryTimes + 1)
    else []
  }

  /** What the first answer adds to the bytes delivered. */
  lemma DeliveredFirst(kernel: seq<ReadAnswer>, retryTimes: nat)
    ensures kernel == [] ==> Delivered(kernel, retryTimes) == []
    ensures kernel != [] && kernel[0].Data? && kernel[0].bytes == [] ==> Delivered(kernel, retryTimes) == []
    ensures kernel != [] && kernel[0].Data? ==> |kernel[0].bytes| <= |Delivered(kernel, retryTimes)|
    ensures kernel != [] && kernel[0].ReadError? && kernel[0].errno != EINTR ==> Delivered(kernel, retryTimes) == []
    ensures kernel != [] && kernel[0].ReadError? && kernel[0].errno == EINTR ==>
              Delivered(kernel, retryTimes) ==
              if retryTimes + 1 == MAX_RETRY_TIMES then [] else Delivered(kernel[1..], retryTimes + 1)
  {
  }

  lemma EndingFirst(kernel: seq<ReadAnswer>, retryTimes: nat)
    ensures kernel == [] ==> Ending(kernel, retryTimes) == Stopped(EAGAIN)
    ensures kernel != [] && kernel[0].Data? && kernel[0].bytes == [] ==> Ending(kernel, retryTimes) == EndOfFile
    ensures kernel != [] && kernel[0].ReadError? && kernel[0].errno != EINTR ==>
              Ending(kernel, retryTimes) == Stopped(kernel[0].errno)
    ensures kernel != [] && kernel[0].ReadError? && kernel[0].errno == EINTR ==>
              Ending(kernel, retryTimes) ==
              if retryTimes + 1 == MAX_RETRY_TIMES then Stopped(EINTR) else Ending(kernel[1..], retryTimes + 1)
  {
  }

  lemma DeliveredRest(kernel: seq<ReadAnswer>, retryTimes: nat, ret: nat)
    requires kernel != [] && kernel[0].Data? && 0 < ret <= |kernel[0].bytes|
    ensures var bytes := kernel[0].bytes;
            var after := if ret < |bytes| then [Data(bytes[ret..])] + kernel[1..] else kernel[1..];
            && Delivered(kernel, retryTimes) == bytes[..ret] + Delivered(after, retryTimes)
            && Ending(after, retryTimes) == Ending(kernel, retryTimes)
  {
    var bytes := kernel[0].bytes;
    if ret < |bytes| {
      var after := [Data(bytes[ret..])] + kernel[1..];
      assert after[1..] == kernel[1..] && after[0] == Data(bytes[ret..]);
      assert bytes == bytes[..ret] + bytes[ret..];
    } else {
      assert bytes == bytes[..ret];
    }
  }

  lemma NothingYet(img: seq<seq<byte>>, begin: nat)
    ensures Sum([]) == 0 && Inside(begin, [])
    ensures IsImage(img) && begin <= |img| * DEFAULT_SIZE ==> Handed(img, begin, []) == []
  {
  }

  lemma Shuffle(a: seq<WriteOp>, b: seq<WriteOp>)
    requires b != []
    ensures (a + [b[0]]) + b[1..] == a + b
  {
  }

  /** The bytes of operations, one after the other. */
  ghost function OpData(ops: seq<WriteOp>): seq<byte> {
    if ops == [] then [] else ops[0].data + OpData(ops[1..])
  }

  lemma HeadSize(ops: seq<WriteOp>)
    requires ops != []
    ensures Sizes(ops) == |ops[0].data| + Sizes(ops[1..])
  {
    assert ops == [ops[0]] + ops[1..];
    SizesConcat([ops[0]], ops[1..]);
    SizesOne(ops[0]);
  }

  lemma SizesOne(op: WriteOp)
    ensures Sizes([op]) == |op.data|
  {
    assert [op][..0] == [];
  }

  lemma AskedLast(a: seq<ReadOp>, b: seq<ReadOp>, op: ReadOp)
    ensures (a + b) + [op] == a + (b + [op])
  {
  }

  lemma Regroup(a: seq<ReadOp>, op: ReadOp, b: seq<ReadOp>)
    ensures (a + [op]) + b == a + ([op] + b) && (a + ([op] + b))[|a|] == op
  {
  }
}
