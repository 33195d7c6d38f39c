/** The block-chained byte buffer. */
module IoBuffer {
  import opened Blocks
  import opened Options
  import opened Pool

  /** The value (size_t)-1, used for `begin` of an empty buffer. */
  const NPOS: nat := 0xFFFF_FFFF_FFFF_FFFF

  /** size_t. */
  type Size = n: nat | n <= NPOS

  /** No program holds more bytes than this; it keeps offsets clear of the end of size_t. */
  const MAX_BYTES: nat := 0x4000_0000_0000_0000

  /** size_t addition and subtraction. */
  function AddSize(a: nat, b: nat): nat { (a + b) % (NPOS + 1) }
  function SubSize(a: nat, b: nat): nat { (a - b) % (NPOS + 1) }

  /** What the clamping test `first + size - 1 >= end` of the copying operations says in size_t. */
  lemma LastOffset(first: nat, size: nat, end: nat)
    requires first < end < NPOS && size <= NPOS
    ensures SubSize(AddSize(first, size), 1) >= end <==> first + size == 0 || end < first + size <= NPOS + 1
  {
  }

  /** It says that the copy would pass the end exactly when `first + size` is neither 0 nor beyond 2^64. In the first
      case everything is copied; in the second nothing is clamped, and the copy runs past the end. */
  lemma ClampIsRight(first: nat, size: nat, end: nat)
    requires first < end < NPOS && size <= NPOS
    ensures (SubSize(AddSize(first, size), 1) >= end <==> first + size > end) <==> 0 < first + size <= NPOS + 1
    ensures first + size > NPOS + 1 ==> SubSize(AddSize(first, size), 1) < end < first + size
  {
    LastOffset(first, size, end);
  }

  /** The last (first) k bytes go to the other end. */
  function RotateRight(c: seq<byte>, k: nat): (r: seq<byte>)
    requires k <= |c|
    ensures |r| == |c|
  {
    c[|c| - k..] + c[..|c| - k]
  }

  function RotateLeft(c: seq<byte>, k: nat): (r: seq<byte>)
    requires k <= |c|
    ensures |r| == |c|
  {
    c[k..] + c[..k]
  }

  lemma NoRotation(c: seq<byte>)
    ensures RotateRight(c, 0) == c == RotateLeft(c, 0)
  {
  }

  lemma RotateRightTwice(c: seq<byte>, j: nat, k: nat)
    requires j + k <= |c|
    ensures RotateRight(RotateRight(c, j), k) == RotateRight(c, j + k)
  {
  }

  lemma RotateLeftTwice(c: seq<byte>, j: nat, k: nat)
    requires j + k <= |c|
    ensures RotateLeft(RotateLeft(c, j), k) == RotateLeft(c, j + k)
  {
  }

  lemma RotatedByBlock(was: seq<byte>, now: seq<byte>, moved: seq<byte>)
    requires moved + was == now + moved && |moved| <= |was|
    ensures now == RotateRight(was, |moved|)
  {
    var k := |was| - |moved|;
    assert was[k..] == (moved + was)[|was|..] == moved;
    assert now == (moved + was)[..|was|] == moved + was[..k];
  }

  lemma RotatedLeftByBlock(was: seq<byte>, now: seq<byte>, moved: seq<byte>)
    requires was + moved == moved + now && |moved| <= |was|
    ensures now == RotateLeft(was, |moved|)
  {
    var k := |moved|;
    assert was[..k] == (was + moved)[..k] == moved;
    assert now == (was + moved)[k..] == was[k..] + moved;
  }

  lemma TurnedRight(was: seq<byte>, now: seq<byte>, kept: seq<byte>, v: byte, x: byte)
    requires was == kept + [v] && [v] + was == now + [x]
    ensures now == RotateRight(was, 1)
  {
    assert now == ([v] + was)[..|was|] == [v] + kept;
  }

  lemma TurnedLeft(was: seq<byte>, now: seq<byte>, kept: seq<byte>, v: byte, x: byte)
    requires was == [v] + kept && was + [v] == [x] + now
    ensures now == RotateLeft(was, 1)
  {
    assert now == (was + [v])[1..] == kept + [v];
  }

  function Min(a: nat, b: nat): nat { if a <= b then a else b }

  /** Unsigned wrap-around does not disturb the alignment test, since DEFAULT_SIZE divides 2^64. */
  lemma AlignmentTest(a: nat, b: nat)
    requires a <= NPOS && b <= NPOS
    ensures SubSize(a, b) % DEFAULT_SIZE == 0 <==> a % DEFAULT_SIZE == b % DEFAULT_SIZE
  {
  }

  lemma SameResidue(a: nat, b: nat)
    requires b <= a
    ensures (a - b) % DEFAULT_SIZE == 0 <==> a % DEFAULT_SIZE == b % DEFAULT_SIZE
  {
  }

  lemma Associative(a: seq<byte>, b: seq<byte>, c: seq<byte>)
    ensures (a + b) + c == a + (b + c)
  {
  }

  /** Bytes go from the front of c to the back of d: first `moved`, then `block`. */
  lemma MovedOn(c0: seq<byte>, c1: seq<byte>, c2: seq<byte>, d0: seq<byte>, d1: seq<byte>, d2: seq<byte>,
                moved: seq<byte>, block: seq<byte>)
    requires c0 == moved + c1 && c1 == block + c2 && d1 == d0 + moved && d2 == d1 + block
    ensures c0 == (moved + block) + c2 && d2 == d0 + (moved + block)
  {
    Associative(moved, block, c2);
    Associative(d0, moved, block);
  }

  /** Bytes go from the back of c to the front of d: first `moved`, then `block`. */
  lemma MovedBackOn(c0: seq<byte>, c1: seq<byte>, c2: seq<byte>, d0: seq<byte>, d1: seq<byte>, d2: seq<byte>,
                    moved: seq<byte>, block: seq<byte>)
    requires c0 == c1 + moved && c1 == c2 + block && d1 == moved + d0 && d2 == block + d1
    ensures c0 == c2 + (block + moved) && d2 == (block + moved) + d0
  {
    Associative(c2, block, moved);
    Associative(block, moved, d0);
  }

  lemma FrontMoved(c: seq<byte>, moved: seq<byte>, left: seq<byte>)
    requires c == moved + left
    ensures moved == c[..|moved|] && left == c[|moved|..]
  {
  }

  lemma BackMoved(c: seq<byte>, moved: seq<byte>, left: seq<byte>)
    requires c == left + moved
    ensures left == c[..|c| - |moved|] && moved == c[|c| - |moved|..]
  {
  }

  lemma ShowsLength(bs: seq<array<byte>>, img: seq<seq<byte>>)
    requires Shows(bs, img)
    ensures |img| == |bs| && IsImage(img)
    ensures forall k | 0 <= k < |bs| :: bs[k].Length == DEFAULT_SIZE
  {
  }

  class Buffer {
    const mem: MemContainer
    var blocks: seq<array<byte>>
    var begin: nat
    var end: nat
    ghost var img: seq<seq<byte>>

    constructor (mem: MemContainer)
      ensures this.mem == mem && Rep() && Contents() == [] && blocks == []
    {
      this.mem := mem;
      blocks, begin, end, img := [], NPOS, 0, [];
    }

    ghost predicate Sync()
      reads this, blocks
    {
      Shows(blocks, img)
    }

    /** Offsets inside the blocks; operations pass through any such state. */
    ghost predicate Span()
      reads this
    {
      && IsImage(img) && |img| == |blocks|
      && (|| (begin == NPOS && end == 0)
          || (begin <= end <= |img| * DEFAULT_SIZE && end < NPOS))
    }

    /** What holds between any two public operations. */
    ghost predicate Rep()
      reads this, blocks
    {
      && Sync()
      && Span()
      && |blocks| <= end / DEFAULT_SIZE + 1
      && (begin != NPOS ==> begin < end && begin < DEFAULT_SIZE && end - begin <= MAX_BYTES)
    }

    ghost function Contents(): (c: seq<byte>)
      requires Span()
      reads this
      ensures |c| == if begin == NPOS then 0 else end - begin
    {
      if begin == NPOS then [] else Bytes(img, begin, end - begin)
    }

    /** The ledger: every block is here, in the pool, freed, or among the rest. */
    ghost predicate Books(rest: multiset<array<byte>>)
      reads this`blocks, mem
    {
      mem.Valid() && Held(blocks) + Held(mem.container) + mem.freed + rest == mem.born
    }

    lemma BooksAreDistinct(rest: multiset<array<byte>>)
      requires Books(rest)
      ensures Distinct(blocks)
      ensures forall b | b in blocks :: b !in mem.container && b !in mem.freed && b !in rest
    {
      assert forall b :: b in blocks ==> b in Held(blocks) && b in mem.born && mem.born[b] == 1;
      assert Linear(Held(blocks));
      LinearIsDistinct(blocks);
    }

    // ----- check and __shrink_size -----

    /** `check`: the throwing branch is dead. */
    method Check()
      requires Span()
      modifies this`begin, this`end
      ensures Span() && Contents() == old(Contents())
      ensures if |Contents()| == 0 then begin == NPOS && end == 0
              else begin == old(begin) && end == old(end) && begin < end
    {
      if begin == NPOS || end == 0 || begin >= end {
        begin, end := NPOS, 0;
        return;
      }
      if end - begin > |blocks| * DEFAULT_SIZE {
        assert false;  // "io_buffer overflow!"
      }
    }

    method ReleaseFront(ghost rest: multiset<array<byte>>)
      requires Sync() && Books(rest) && blocks != []
      modifies this`blocks, this`img, mem
      ensures Sync() && Books(rest) && mem.born == old(mem.born)
      ensures blocks == old(blocks)[1..] && img == old(img)[1..]
    {
      assert blocks == [blocks[0]] + blocks[1..];
      mem.Push(blocks[0]);
      blocks, img := blocks[1..], img[1..];
    }

    method ReleaseBack(ghost rest: multiset<array<byte>>)
      requires Sync() && Books(rest) && blocks != []
      modifies this`blocks, this`img, mem
      ensures Sync() && Books(rest) && mem.born == old(mem.born)
      ensures blocks == old(blocks)[..|old(blocks)| - 1] && img == old(img)[..|old(blocks)| - 1]
    {
      var n := |blocks| - 1;
      assert blocks == blocks[..n] + [blocks[n]];
      mem.Push(blocks[n]);
      blocks, img := blocks[..n], img[..n];
    }

    method ShrinkEmpty(ghost rest: multiset<array<byte>>)
      requires Sync() && Books(rest)
      modifies this`blocks, this`img, mem
      ensures Sync() && Books(rest) && mem.born == old(mem.born) && blocks == []
    {
      while blocks != []
        invariant Sync() && Books(rest) && mem.born == old(mem.born)
      {
        ReleaseFront(rest);
      }
    }

    method ShrinkFront(ghost rest: multiset<array<byte>>)
      requires Sync() && Span() && begin < end && Books(rest)
      modifies this, mem
      ensures Sync() && Span() && begin < end && Books(rest) && mem.born == old(mem.born)
      ensures begin == old(begin) % DEFAULT_SIZE && Contents() == old(Contents())
    {
      hide Bytes;
      while begin / DEFAULT_SIZE > 0
        invariant Sync() && Span() && begin < end && Books(rest) && mem.born == old(mem.born)
        invariant begin % DEFAULT_SIZE == old(begin) % DEFAULT_SIZE && Contents() == old(Contents())
      {
        BytesShift(img, img[1..], -1, begin, end - begin);
        begin := begin - DEFAULT_SIZE;
        end := end - DEFAULT_SIZE;
        ReleaseFront(rest);
      }
    }

    method ShrinkBack(ghost rest: multiset<array<byte>>)
      requires Sync() && Span() && begin < end && Books(rest)
      modifies this`blocks, this`img, mem
      ensures Sync() && Span() && Books(rest) && mem.born == old(mem.born)
      ensures |blocks| <= end / DEFAULT_SIZE + 1 && Contents() == old(Contents())
    {
      hide Bytes;
      while |blocks| > end / DEFAULT_SIZE + 1
        invariant Sync() && Span() && Books(rest) && mem.born == old(mem.born)
        invariant Contents() == old(Contents())
      {
        BytesShift(img, img[..|img| - 1], 0, begin, end - begin);
        ReleaseBack(rest);
      }
    }

    /** `__shrink_size`: gives the blocks outside the contents back to the pool. */
    method Shrink(ghost rest: multiset<array<byte>>)
      requires Sync() && Span() && Books(rest) && |Contents()| <= MAX_BYTES
      modifies this, mem
      ensures Rep() && Books(rest) && mem.born == old(mem.born)
      ensures Contents() == old(Contents())
      ensures begin == if Contents() == [] then NPOS else old(begin) % DEFAULT_SIZE
      ensures begin == NPOS ==> blocks == []
    {
      hide Bytes;
      Check();
      if begin == NPOS {
        ShrinkEmpty(rest);
      } else {
        ShrinkFront(rest);
        ShrinkBack(rest);
      }
    }

    // ----- pushing -----

    /** Blocks that an operation holds now were in its reach before, or are new. */
    twostate lemma Provenance(rest: multiset<array<byte>>)
      requires old(Books(rest)) && Books(rest)
      requires OnlyFresh(old(mem.born), mem.born) && mem.freed == old(mem.freed)
      ensures forall i | 0 <= i < |blocks| ::
                blocks[i] in old(blocks) || blocks[i] in old(mem.container) || fresh(blocks[i])
    {
      forall i | 0 <= i < |blocks|
        ensures blocks[i] in old(blocks) || blocks[i] in old(mem.container) || fresh(blocks[i])
      {
        var b := blocks[i];
        assert b in Held(blocks) && b in mem.born && mem.born[b] == 1;
        assert b !in mem.freed && b !in rest;
        if b in old(mem.born) {
          assert b in Held(old(blocks)) || b in Held(old(mem.container));
        }
      }
    }

    method TakeBack(ghost rest: multiset<array<byte>>)
      requires Sync() && Books(rest)
      modifies this`blocks, this`img, mem
      ensures Sync() && Books(rest) && OnlyFresh(old(mem.born), mem.born) && mem.freed == old(mem.freed)
      ensures |blocks| == |old(blocks)| + 1 && old(blocks) <= blocks && old(img) <= img
    {
      var b := mem.Get();
      blocks, img := blocks + [b], img + [b[..]];
    }

    /** Takes blocks from the pool until `need` bytes fit. */
    method GrowBack(need: nat, ghost rest: multiset<array<byte>>)
      requires Sync() && Books(rest)
      modifies this`blocks, this`img, mem
      ensures Sync() && Books(rest) && OnlyFresh(old(mem.born), mem.born) && mem.freed == old(mem.freed)
      ensures need <= |blocks| * DEFAULT_SIZE && (blocks == old(blocks) || (|blocks| - 1) * DEFAULT_SIZE < need)
      ensures old(img) <= img
    {
      while need > |blocks| * DEFAULT_SIZE
        invariant Sync() && Books(rest) && OnlyFresh(old(mem.born), mem.born) && mem.freed == old(mem.freed)
        invariant blocks == old(blocks) || (|blocks| - 1) * DEFAULT_SIZE < need
        invariant old(img) <= img
        decreases need - |blocks| * DEFAULT_SIZE
      {
        TakeBack(rest);
      }
    }

    /** The copy loop of both pushes, with its cached block pointer. */
    method CopyIn(src: seq<byte>, start: nat, ghost lo: nat, ghost n: nat)
      requires Sync() && Distinct(blocks)
      requires |src| > 0 && start + |src| <= |img| * DEFAULT_SIZE && lo + n <= |img| * DEFAULT_SIZE
      requires start + |src| <= lo || lo + n <= start
      modifies this`img, blocks
      ensures Sync() && |img| == |old(img)|
      ensures Bytes(img, start, |src|) == src && Bytes(img, lo, n) == old(Bytes(img, lo, n))
    {
      hide Bytes, Store;
      var p := blocks[start / DEFAULT_SIZE];
      assert Bytes(img, start, 0) == src[..0];
      for i := 0 to |src|
        invariant (start + i) % DEFAULT_SIZE != 0 || i == 0 ==> p == blocks[(start + i) / DEFAULT_SIZE]
        invariant Sync() && |img| == |old(img)|
        invariant Bytes(img, start, i) == src[..i] && Bytes(img, lo, n) == old(Bytes(img, lo, n))
      {
        if (start + i) % DEFAULT_SIZE == 0 { p := blocks[(start + i) / DEFAULT_SIZE]; }
        StoreAppends(img, start, i, src[i]);
        StoreElsewhere(img, start + i, src[i], lo, n);
        WriteByte(p, (start + i) % DEFAULT_SIZE, src[i], blocks, img, start + i, [], []);
        img := Store(img, start + i, src[i]);
      }
    }

    /** Makes `size` bytes of room after the contents. */
    method RoomBack(size: nat, ghost rest: multiset<array<byte>>)
      requires Rep() && Books(rest) && |Contents()| + size <= MAX_BYTES && size > 0
      modifies this, mem
      ensures Sync() && Span() && Books(rest) && OnlyFresh(old(mem.born), mem.born) && mem.freed == old(mem.freed)
      ensures Contents() == old(Contents()) && begin == (if old(begin) == NPOS then 0 else old(begin)) < DEFAULT_SIZE
      ensures end + size <= |blocks| * DEFAULT_SIZE && |blocks| <= (end + size) / DEFAULT_SIZE + 1
    {
      hide Bytes;
      if begin == NPOS {
        begin, end := 0, 0;
      }
      ghost var was := img;
      GrowBack(size + end, rest);
      BytesShift(was, img, 0, begin, end - begin);
    }

    /** Copies bytes into the room after the contents. */
    method Append(src: seq<byte>)
      requires Sync() && Span() && Distinct(blocks) && begin != NPOS
      requires |src| > 0 && end + |src| <= |blocks| * DEFAULT_SIZE && end + |src| < NPOS
      modifies this`img, this`end, blocks
      ensures Sync() && Span() && end == old(end) + |src|
      ensures Contents() == old(Contents()) + src
    {
      hide Bytes;
      CopyIn(src, end, begin, end - begin);
      BytesSplit(img, begin, end - begin, |src|);
      end := end + |src|;
    }

    /** `push_back_n`; a null source is None. */
    method PushBackN(src: Option<seq<byte>>, ghost rest: multiset<array<byte>>)
      requires Rep() && Books(rest)
      requires src.Some? ==> |Contents()| + |src.value| <= MAX_BYTES
      modifies this, blocks, mem, mem.container
      ensures Rep() && Books(rest) && OnlyFresh(old(mem.born), mem.born)
      ensures Contents() == old(Contents()) + if src.Some? then src.value else []
      ensures begin == if Contents() == [] then NPOS else if old(begin) == NPOS then 0 else old(begin)
    {
      hide Bytes, Books, Distinct, Shows;
      Check();
      if src.None? || |src.value| == 0 {
        return;
      }
      RoomBack(|src.value|, rest);
      BooksAreDistinct(rest);
      Provenance(rest);
      Append(src.value);
    }

    method TakeFront(ghost rest: multiset<array<byte>>)
      requires Sync() && Books(rest)
      modifies this`blocks, this`img, mem
      ensures Sync() && Books(rest) && OnlyFresh(old(mem.born), mem.born) && mem.freed == old(mem.freed)
      ensures |blocks| == |img| == |old(blocks)| + 1 && img[1..] == old(img)
    {
      var b := mem.Get();
      blocks, img := [b] + blocks, [b[..]] + img;
    }

    /** Room for `size` bytes before the contents of an empty buffer, of one that is not empty. */
    method RoomFrontEmpty(size: nat, ghost rest: multiset<array<byte>>)
      requires Rep() && Books(rest) && begin == NPOS && 0 < size <= MAX_BYTES
      modifies this, mem
      ensures Sync() && Books(rest) && OnlyFresh(old(mem.born), mem.born) && mem.freed == old(mem.freed)
      ensures begin == 0 && end == size <= |blocks| * DEFAULT_SIZE && |blocks| <= end / DEFAULT_SIZE + 1
    {
      begin, end := 0, 0;
      while size > |blocks| * DEFAULT_SIZE
        invariant Sync() && Books(rest) && OnlyFresh(old(mem.born), mem.born) && mem.freed == old(mem.freed)
        invariant begin == end == 0
        invariant |blocks| <= size / DEFAULT_SIZE + 1
        decreases size - |blocks| * DEFAULT_SIZE
      {
        TakeFront(rest);
      }
      end := end + size;
    }

    /** A new front block; the contents keep their place behind it. */
    method SlideFront(ghost rest: multiset<array<byte>>)
      requires Sync() && Span() && begin < end && Books(rest) && end + DEFAULT_SIZE < NPOS
      modifies this, mem
      ensures Sync() && Span() && Books(rest) && OnlyFresh(old(mem.born), mem.born) && mem.freed == old(mem.freed)
      ensures begin == old(begin) + DEFAULT_SIZE && end == old(end) + DEFAULT_SIZE && |blocks| == |old(blocks)| + 1
      ensures Contents() == old(Contents())
    {
      hide Bytes, Books, OnlyFresh;
      TakeFront(rest);
      BytesShift(old(img), img, 1, begin, end - begin);
      begin := begin + DEFAULT_SIZE;
      end := end + DEFAULT_SIZE;
    }

    method RoomFrontMore(size: nat, ghost rest: multiset<array<byte>>)
      requires Rep() && Books(rest) && begin != NPOS && 0 < size && |Contents()| + size <= MAX_BYTES
      modifies this, mem
      ensures Sync() && Books(rest) && OnlyFresh(old(mem.born), mem.born) && mem.freed == old(mem.freed)
      ensures begin < DEFAULT_SIZE && end <= |blocks| * DEFAULT_SIZE && |blocks| <= end / DEFAULT_SIZE + 1
      ensures end == begin + size + |old(Contents())|
      ensures Bytes(img, begin + size, end - begin - size) == old(Contents())
    {
      hide Bytes, Books, Shows;
      while size > begin
        invariant Sync() && Span() && begin < end && Books(rest)
        invariant OnlyFresh(old(mem.born), mem.born) && mem.freed == old(mem.freed)
        invariant begin < size + DEFAULT_SIZE && |blocks| <= end / DEFAULT_SIZE + 1
        invariant Contents() == old(Contents())
        decreases size - begin
      {
        SlideFront(rest);
      }
      begin := begin - size;
    }

    /** Makes `size` bytes of room before the contents. */
    method RoomFront(size: nat, ghost rest: multiset<array<byte>>)
      requires Rep() && Books(rest) && 0 < size && |Contents()| + size <= MAX_BYTES
      modifies this, mem
      ensures Sync() && Books(rest) && OnlyFresh(old(mem.born), mem.born) && mem.freed == old(mem.freed)
      ensures begin < DEFAULT_SIZE && end <= |blocks| * DEFAULT_SIZE && |blocks| <= end / DEFAULT_SIZE + 1
      ensures end == begin + size + |old(Contents())|
      ensures Bytes(img, begin + size, end - begin - size) == old(Contents())
    {
      hide Bytes, Books, OnlyFresh;
      if begin == NPOS {
        RoomFrontEmpty(size, rest);
      } else {
        RoomFrontMore(size, rest);
      }
    }

    /** Copies bytes into the room before the contents. */
    method Prepend(src: seq<byte>)
      requires Sync() && Distinct(blocks) && |src| > 0
      requires begin + |src| <= end <= |blocks| * DEFAULT_SIZE && end < NPOS
      modifies this`img, blocks
      ensures Sync() && Span()
      ensures Contents() == src + old(Bytes(img, begin + |src|, end - begin - |src|))
    {
      hide Bytes;
      CopyIn(src, begin, begin + |src|, end - begin - |src|);
      BytesSplit(img, begin, |src|, end - begin - |src|);
    }

    /** `push_front_n`; a null source is None. */
    method PushFrontN(src: Option<seq<byte>>, ghost rest: multiset<array<byte>>)
      requires Rep() && Books(rest)
      requires src.Some? ==> |Contents()| + |src.value| <= MAX_BYTES
      modifies this, blocks, mem, mem.container
      ensures Rep() && Books(rest) && OnlyFresh(old(mem.born), mem.born)
      ensures Contents() == (if src.Some? then src.value else []) + old(Contents())
    {
      hide Bytes, Books, Distinct;
      if src.None? || |src.value| == 0 {
        return;
      }
      Check();
      RoomFront(|src.value|, rest);
      BooksAreDistinct(rest);
      Provenance(rest);
      Prepend(src.value);
    }

    // ----- popping and reading -----

    /** The copy loop of the reading operations, with its cached block pointer. */
    method CopyOut(start: nat, count: nat) returns (dest: seq<byte>)
      requires Sync() && start < |img| * DEFAULT_SIZE && start + count <= |img| * DEFAULT_SIZE
      ensures dest == Bytes(img, start, count)
    {
      hide Bytes;
      var p := blocks[start / DEFAULT_SIZE];
      dest := [];
      for i := 0 to count
        invariant (start + i) % DEFAULT_SIZE != 0 || i == 0 ==> p == blocks[(start + i) / DEFAULT_SIZE]
        invariant dest == Bytes(img, start, i)
      {
        if (start + i) % DEFAULT_SIZE == 0 { p := blocks[(start + i) / DEFAULT_SIZE]; }
        BytesNext(img, start, i);
        var v := ReadByte(p, (start + i) % DEFAULT_SIZE, blocks, img, start + i);
        dest := dest + [v];
      }
    }

    /** The discarding `pop_back_n`. */
    method DropBackN(size: nat, ghost rest: multiset<array<byte>>)
      requires Rep() && Books(rest)
      modifies this, mem
      ensures Rep() && Books(rest) && mem.born == old(mem.born)
      ensures Contents() == old(Contents())[..|old(Contents())| - Min(size, |old(Contents())|)]
      ensures begin == if Contents() == [] then NPOS else old(begin)
    {
      hide Bytes, Books, Shows;
      Check();
      if begin == NPOS {
        return;
      } else if size > end - begin {
        begin, end := NPOS, 0;
      } else {
        BytesSlice(img, begin, end - begin, 0, end - begin - size);
        end := end - size;
      }
      Check();
      Shrink(rest);
    }

    /** The discarding `pop_front_n`. */
    method DropFrontN(size: nat, ghost rest: multiset<array<byte>>)
      requires Rep() && Books(rest)
      modifies this, mem
      ensures Rep() && Books(rest) && mem.born == old(mem.born)
      ensures Contents() == old(Contents())[Min(size, |old(Contents())|)..]
      ensures begin == if Contents() == [] then NPOS else (old(begin) + size) % DEFAULT_SIZE
    {
      hide Bytes, Books, Shows;
      Check();
      if begin == NPOS {
        return;
      } else if size > end - begin {
        begin, end := NPOS, 0;
      } else {
        BytesSlice(img, begin, end - begin, size, end - begin - size);
        begin := begin + size;
        assert begin == old(begin) + size;
      }
      Shrink(rest);
    }

    /** The copying `pop_back_n`: the suffix it returns is the suffix it removes. */
    method PopBackN(size0: nat, ghost rest: multiset<array<byte>>) returns (dest: seq<byte>)
      requires Rep() && Books(rest)
      modifies this, mem
      ensures Rep() && Books(rest) && mem.born == old(mem.born)
      ensures |dest| == PoppedBack(old(begin), |old(Contents())|, size0)
      ensures size0 > |old(Contents())| ==> dest == old(Contents())
      ensures size0 <= |old(Contents())| ==> |dest| + Min(old(begin), size0) == size0
      ensures Contents() + dest == old(Contents())
      ensures begin == if Contents() == [] then NPOS else old(begin)
    {
      hide Bytes, Books, Shows;
      var size := size0;
      if begin == NPOS && begin >= end {
        begin, end := NPOS, 0;
        return [];
      }
      var n := if end - begin >= size then end - size else 0;
      size := if end - begin >= size then size else end - begin;
      if n >= end - begin {
        return [];
      }
      if begin + n + size - 1 >= end {
        size := end - (begin + n);
      }
      dest := CopyOut(begin + n, size);
      BytesSplit(img, begin, end - begin - size, size);
      end := end - size;
      if begin >= end {
        begin, end := NPOS, 0;
      }
      Shrink(rest);
    }

    /** The copying `pop_front_n`. The size must not carry `begin + size` past the end of size_t. */
    method PopFrontN(size0: Size, ghost rest: multiset<array<byte>>) returns (dest: seq<byte>)
      requires Rep() && Books(rest)
      requires begin != NPOS ==> begin + size0 <= NPOS + 1
      modifies this, mem
      ensures Rep() && Books(rest) && mem.born == old(mem.born)
      ensures |dest| == CopiedFrom(old(begin), 0, |old(Contents())|, size0)
      ensures dest + Contents() == old(Contents())
      ensures begin == if Contents() == [] then NPOS else (old(begin) + |dest|) % DEFAULT_SIZE
    {
      hide Bytes, Books, Shows, AddSize, SubSize;
      var size: nat := size0;
      if begin == NPOS && begin >= end {
        begin, end := NPOS, 0;
        return [];
      }
      LastOffset(begin, size0, end);
      if SubSize(AddSize(begin, size), 1) >= end {
        size := end - begin;
      }
      dest := CopyOut(begin, size);
      BytesSplit(img, begin, size, end - begin - size);
      begin := begin + size;
      if begin >= end {
        begin, end := NPOS, 0;
      }
      Shrink(rest);
    }

    /** `get`; None stands for the exception. */
    method Get(n: nat) returns (v: Option<byte>)
      requires Rep() && n <= NPOS
      ensures v == if n < |Contents()| then Some(Contents()[n]) else None
    {
      if n >= SubSize(end, begin) || begin == NPOS {
        return None;
      }
      BytesAt(img, begin, end - begin, n);
      var x := ReadByte(blocks[(begin + n) / DEFAULT_SIZE], (begin + n) % DEFAULT_SIZE, blocks, img, begin + n);
      return Some(x);
    }

    /** `get_n`. */
    method GetN(n: Size, size0: Size) returns (dest: seq<byte>)
      requires Rep()
      requires n < |Contents()| ==> begin + n + size0 <= NPOS + 1
      modifies this`begin, this`end
      ensures Rep() && begin == old(begin) && end == old(end)
      ensures n < |Contents()| ==> n + CopiedFrom(begin, n, |Contents()|, size0) <= |Contents()|
      ensures dest == if n >= |Contents()| then [] else Contents()[n..n + CopiedFrom(begin, n, |Contents()|, size0)]
    {
      hide Bytes, Shows, AddSize, SubSize;
      var size: nat := size0;
      if begin == NPOS && begin >= end {
        begin, end := NPOS, 0;
        return [];
      }
      if n >= end - begin {
        return [];
      }
      LastOffset(begin + n, size0, end);
      if SubSize(AddSize(begin + n, size), 1) >= end {
        size := end - (begin + n);
      }
      dest := CopyOut(begin + n, size);
      BytesSlice(img, begin, end - begin, n, size);
    }

    /** `set`; false stands for the exception. One past the end it writes behind the contents, if there is a block. */
    method Set(n: nat, v: byte, ghost rest: multiset<array<byte>>) returns (ok: bool)
      requires Rep() && Books(rest)
      requires n < |Contents()| || SubSize(end, begin) < n
            || (n == |Contents()| && begin != NPOS && end < |blocks| * DEFAULT_SIZE)
      modifies this`img, blocks
      ensures Rep() && Books(rest) && ok == (n <= |Contents()|)
      ensures Contents() == if n < |old(Contents())| then old(Contents())[n := v] else old(Contents())
    {
      hide Bytes, Store, Books, Distinct, Shows;
      ShowsLength(blocks, img);
      if n > SubSize(end, begin) {
        return false;
      }
      BooksAreDistinct(rest);
      if n < end - begin {
        StoreInside(img, begin, end - begin, n, v);
      } else {
        StoreElsewhere(img, begin + n, v, begin, end - begin);
      }
      var p := blocks[(begin + n) / DEFAULT_SIZE];
      WriteByte(p, (begin + n) % DEFAULT_SIZE, v, blocks, img, begin + n, [], []);
      img := Store(img, begin + n, v);
      return true;
    }

    /** `size`. */
    method Size() returns (n: nat)
      requires Rep()
      ensures n == |Contents()|
    {
      n := if begin == NPOS || end == 0 then 0 else end - begin;
    }

    // ----- steps of the transfers -----

    static ghost predicate Within(bs: seq<array<byte>>, reach: set<array<byte>>) {
      forall i :: 0 <= i < |bs| ==> bs[i] in reach
    }

    static ghost function SetOf(bs: seq<array<byte>>): (s: set<array<byte>>)
      ensures Within(bs, s) && forall b | b in s :: b in bs
    {
      set b | b in bs
    }

    static lemma WithinSplit(a: seq<array<byte>>, b: seq<array<byte>>, reach: set<array<byte>>)
      ensures Within(a + b, reach) <==> Within(a, reach) && Within(b, reach)
    {
      if Within(a + b, reach) {
        forall i | 0 <= i < |b| ensures b[i] in reach {
          assert (a + b)[|a| + i] == b[i];
        }
        forall i | 0 <= i < |a| ensures a[i] in reach {
          assert (a + b)[i] == a[i];
        }
      }
    }

    static lemma WithinTurned(bs: seq<array<byte>>, reach: set<array<byte>>)
      requires bs != [] && Within(bs, reach)
      ensures Within(bs[1..] + [bs[0]], reach) && Within([bs[|bs| - 1]] + bs[..|bs| - 1], reach)
    {
    }

    static lemma ReachKept(a: seq<array<byte>>, b: seq<array<byte>>, a': seq<array<byte>>, b': seq<array<byte>>,
                           reach: set<array<byte>>)
      requires Held(a') + Held(b') == Held(a) + Held(b)
      requires Within(a, reach) && Within(b, reach)
      ensures Within(a', reach) && Within(b', reach)
    {
      forall x | x in multiset(a') + multiset(b') ensures x in reach {
        assert x in multiset(a) || x in multiset(b);
      }
      forall i | 0 <= i < |a'| ensures a'[i] in reach { assert a'[i] in multiset(a'); }
      forall i | 0 <= i < |b'| ensures b'[i] in reach { assert b'[i] in multiset(b'); }
    }

    static lemma SameBlocks(a: seq<array<byte>>, a': seq<array<byte>>)
      requires Held(a') == Held(a)
      ensures forall i | 0 <= i < |a'| :: a'[i] in a
    {
      forall i | 0 <= i < |a'| ensures a'[i] in a {
        assert a'[i] in multiset(a');
        assert a'[i] in multiset(a);
      }
    }

    /** A buffer inside a transfer: its offsets are real, it may be empty. */
    ghost predicate Live()
      reads this, blocks
    {
      Sync() && Span() && begin != NPOS
    }

    lemma BooksAreApart(other: Buffer, rest: multiset<array<byte>>)
      requires Books(rest + Held(other.blocks)) && other.mem == mem
      ensures Distinct(blocks) && Distinct(other.blocks)
      ensures forall b | b in other.blocks :: b !in blocks
    {
      BooksAreDistinct(rest + Held(other.blocks));
      assert other.Books(rest + Held(blocks));
      other.BooksAreDistinct(rest + Held(blocks));
      forall b | b in other.blocks ensures b !in blocks {
        assert b in Held(other.blocks);
      }
    }

    /** Turning the deque of blocks: a front block without contents becomes the last, or the other way round. */
    method TurnFrontToBack()
      requires Live() && DEFAULT_SIZE <= begin <= end
      modifies this
      ensures Live() && begin == old(begin) - DEFAULT_SIZE && end == old(end) - DEFAULT_SIZE
      ensures Contents() == old(Contents())
      ensures blocks == old(blocks)[1..] + [old(blocks)[0]]
      ensures Held(blocks) == old(Held(blocks))
    {
      hide Bytes, Shows, Held;
      ShowsLength(blocks, img);
      Turned(blocks, img, 1);
      assert blocks[..1] == [blocks[0]] && img[..1] == [img[0]];
      blocks, img := blocks[1..] + [blocks[0]], img[1..] + [img[0]];
      BytesShift(old(img), img, -1, begin, end - begin);
      begin, end := begin - DEFAULT_SIZE, end - DEFAULT_SIZE;
    }

    method TurnBackToFront()
      requires Live() && blocks != [] && end <= (|blocks| - 1) * DEFAULT_SIZE && end + DEFAULT_SIZE < NPOS
      modifies this
      ensures Live() && begin == old(begin) + DEFAULT_SIZE && end == old(end) + DEFAULT_SIZE
      ensures Contents() == old(Contents())
      ensures blocks == [old(blocks)[|old(blocks)| - 1]] + old(blocks)[..|old(blocks)| - 1]
      ensures Held(blocks) == old(Held(blocks))
    {
      hide Bytes, Shows, Held;
      var k := |blocks| - 1;
      ShowsLength(blocks, img);
      Turned(blocks, img, k);
      assert blocks[k..] == [blocks[k]] && img[k..] == [img[k]];
      blocks, img := [blocks[k]] + blocks[..k], [img[k]] + img[..k];
      BytesShift(old(img), img, 1, begin, end - begin);
      begin, end := begin + DEFAULT_SIZE, end + DEFAULT_SIZE;
    }

    /** Taking a block without contents out of the deque. */
    method DetachFront() returns (b: array<byte>)
      requires Live() && DEFAULT_SIZE <= begin <= end
      modifies this
      ensures Live() && begin == old(begin) - DEFAULT_SIZE && end == old(end) - DEFAULT_SIZE
      ensures Contents() == old(Contents()) && old(blocks) == [b] + blocks
      ensures b.Length == DEFAULT_SIZE
    {
      hide Bytes, Shows;
      ShowsLength(blocks, img);
      WithoutFirstBlock(blocks, img);
      b := blocks[0];
      BytesShift(img, img[1..], -1, begin, end - begin);
      blocks, img := blocks[1..], img[1..];
      begin, end := begin - DEFAULT_SIZE, end - DEFAULT_SIZE;
    }

    method DetachBack() returns (b: array<byte>)
      requires Live() && blocks != [] && end <= (|blocks| - 1) * DEFAULT_SIZE
      modifies this`blocks, this`img
      ensures Live() && Contents() == old(Contents()) && old(blocks) == blocks + [b]
      ensures b.Length == DEFAULT_SIZE
    {
      hide Bytes, Shows;
      var k := |blocks| - 1;
      ShowsLength(blocks, img);
      WithoutLastBlock(blocks, img);
      b := blocks[k];
      BytesShift(img, img[..k], 0, begin, end - begin);
      blocks, img := blocks[..k], img[..k];
    }

    /** Putting a block without contents into the deque. */
    method AttachFront(b: array<byte>)
      requires Live() && b.Length == DEFAULT_SIZE && end + DEFAULT_SIZE < NPOS
      modifies this
      ensures Live() && begin == old(begin) + DEFAULT_SIZE && end == old(end) + DEFAULT_SIZE
      ensures Contents() == old(Contents()) && blocks == [b] + old(blocks)
    {
      hide Bytes, Shows;
      ShowsLength(blocks, img);
      ShowsOne(b);
      ShowsConcat([b], [b[..]], blocks, img);
      blocks, img := [b] + blocks, [b[..]] + img;
      BytesShift(old(img), img, 1, begin, end - begin);
      begin, end := begin + DEFAULT_SIZE, end + DEFAULT_SIZE;
    }

    method AttachBack(b: array<byte>)
      requires Live() && b.Length == DEFAULT_SIZE
      modifies this`blocks, this`img
      ensures Live() && Contents() == old(Contents()) && blocks == old(blocks) + [b]
    {
      hide Bytes, Shows;
      ShowsLength(blocks, img);
      ShowsOne(b);
      ShowsConcat(blocks, img, [b], [b[..]]);
      blocks, img := blocks + [b], img + [b[..]];
      BytesShift(old(img), img, 0, begin, end - begin);
    }

    /** Writes one byte behind the contents, or before them, through a cached pointer. */
    method PutBack(q: array<byte>, v: byte, ghost others: seq<array<byte>>, ghost otherImg: seq<seq<byte>>)
      requires Sync() && Span() && begin != NPOS && Distinct(blocks)
      requires end < |blocks| * DEFAULT_SIZE && end + 1 < NPOS && q == blocks[end / DEFAULT_SIZE]
      requires Shows(others, otherImg) && q !in others
      modifies this`end, this`img, q
      ensures Sync() && Span() && end == old(end) + 1 && Shows(others, otherImg)
      ensures Contents() == old(Contents()) + [v]
    {
      hide Bytes, Store, Distinct, Shows;
      ShowsLength(blocks, img);
      StoreAppends(img, begin, end - begin, v);
      WriteByte(q, end % DEFAULT_SIZE, v, blocks, img, end, others, otherImg);
      img, end := Store(img, end, v), end + 1;
    }

    method PutFront(q: array<byte>, v: byte, ghost others: seq<array<byte>>, ghost otherImg: seq<seq<byte>>)
      requires Sync() && Span() && 0 < begin != NPOS && Distinct(blocks)
      requires q == blocks[(begin - 1) / DEFAULT_SIZE]
      requires Shows(others, otherImg) && q !in others
      modifies this`begin, this`img, q
      ensures Sync() && Span() && begin == old(begin) - 1 && Shows(others, otherImg)
      ensures Contents() == [v] + old(Contents())
    {
      hide Bytes, Store, Distinct, Shows;
      ShowsLength(blocks, img);
      StorePrepends(img, begin, end - begin, v);
      WriteByte(q, (begin - 1) % DEFAULT_SIZE, v, blocks, img, begin - 1, others, otherImg);
      img, begin := Store(img, begin - 1, v), begin - 1;
    }

    // Relinking a whole block at one end of one buffer. `moved` is what the block holds.

    /** buffer[begin / D] = temp, begin += D. */
    method ExchangeFirst(temp: array<byte>) returns (ghost moved: seq<byte>)
      requires Live() && begin % DEFAULT_SIZE == 0 && begin + DEFAULT_SIZE <= end && temp.Length == DEFAULT_SIZE
      modifies this
      ensures Live() && begin == old(begin) + DEFAULT_SIZE && end == old(end)
      ensures moved == old(blocks[begin / DEFAULT_SIZE])[..] && old(Contents()) == moved + Contents()
      ensures Held(blocks) + multiset{old(blocks[begin / DEFAULT_SIZE])} == old(Held(blocks)) + multiset{temp}
    {
      hide Bytes, Shows, Held;
      ShowsLength(blocks, img);
      var k := begin / DEFAULT_SIZE;
      moved := img[k];
      FirstExchanged(img, k, temp[..], end - begin - DEFAULT_SIZE);
      HeldUpdate(blocks, k, temp);
      ShowsUpdate(blocks, img, k, temp);
      blocks, img := blocks[k := temp], img[k := temp[..]];
      begin := begin + DEFAULT_SIZE;
    }

    /** buffer[(end - 1) / D] = temp, end -= D. */
    method ExchangeLast(temp: array<byte>) returns (ghost moved: seq<byte>)
      requires Live() && end % DEFAULT_SIZE == 0 && begin + DEFAULT_SIZE <= end && temp.Length == DEFAULT_SIZE
      modifies this
      ensures Live() && begin == old(begin) && end == old(end) - DEFAULT_SIZE
      ensures moved == old(blocks[(end - 1) / DEFAULT_SIZE])[..] && old(Contents()) == Contents() + moved
      ensures Held(blocks) + multiset{old(blocks[(end - 1) / DEFAULT_SIZE])} == old(Held(blocks)) + multiset{temp}
    {
      hide Bytes, Shows, Held;
      ShowsLength(blocks, img);
      var k := (end - 1) / DEFAULT_SIZE;
      moved := img[k];
      LastExchanged(img, k, temp[..], begin);
      HeldUpdate(blocks, k, temp);
      ShowsUpdate(blocks, img, k, temp);
      blocks, img := blocks[k := temp], img[k := temp[..]];
      end := end - DEFAULT_SIZE;
    }

    /** buffer[end / D] = b, end += D. */
    method PlaceBack(b: array<byte>)
      requires Live() && end % DEFAULT_SIZE == 0 && end < |blocks| * DEFAULT_SIZE && b.Length == DEFAULT_SIZE
      requires end + DEFAULT_SIZE < NPOS
      modifies this
      ensures Live() && begin == old(begin) && end == old(end) + DEFAULT_SIZE
      ensures Contents() == old(Contents()) + b[..]
      ensures blocks == old(blocks[end / DEFAULT_SIZE := b])
      ensures Held(blocks) + multiset{old(blocks[end / DEFAULT_SIZE])} == old(Held(blocks)) + multiset{b}
    {
      hide Bytes, Shows, Held;
      ShowsLength(blocks, img);
      var k := end / DEFAULT_SIZE;
      HeldUpdate(blocks, k, b);
      ShowsUpdate(blocks, img, k, b);
      ghost var was := img[k];
      blocks, img := blocks[k := b], img[k := b[..]];
      LastExchanged(img, k, was, begin);
      assert img[k := was] == old(img);
      end := end + DEFAULT_SIZE;
    }

    /** buffer[(begin - 1) / D] = b, begin -= D. */
    method PlaceFront(b: array<byte>)
      requires Live() && begin % DEFAULT_SIZE == 0 && 0 < begin && b.Length == DEFAULT_SIZE
      modifies this
      ensures Live() && begin == old(begin) - DEFAULT_SIZE && end == old(end)
      ensures Contents() == b[..] + old(Contents())
      ensures Held(blocks) + multiset{old(blocks[(begin - 1) / DEFAULT_SIZE])} == old(Held(blocks)) + multiset{b}
    {
      hide Bytes, Shows, Held;
      ShowsLength(blocks, img);
      var k := (begin - 1) / DEFAULT_SIZE;
      HeldUpdate(blocks, k, b);
      ShowsUpdate(blocks, img, k, b);
      ghost var was := img[k];
      blocks, img := blocks[k := b], img[k := b[..]];
      FirstExchanged(img, k, was, end - begin);
      assert img[k := was] == old(img);
      begin := begin - DEFAULT_SIZE;
    }

    /** Takes the first full block out; a spare front block fills the gap. */
    method RemoveFirst() returns (ghost moved: seq<byte>)
      requires Live() && begin % DEFAULT_SIZE == 0 && begin + DEFAULT_SIZE <= end
      modifies this
      ensures Live() && begin == old(begin) && end == old(end) - DEFAULT_SIZE
      ensures moved == old(blocks[begin / DEFAULT_SIZE])[..] && old(Contents()) == moved + Contents()
      ensures Held(blocks) + multiset{old(blocks[begin / DEFAULT_SIZE])} == old(Held(blocks))
    {
      hide Bytes, Shows, Held, GapFilledByFirst;
      ShowsLength(blocks, img);
      var k := begin / DEFAULT_SIZE;
      moved := img[k];
      WithoutFirst(img, k, end - begin - DEFAULT_SIZE);
      HeldWithoutFirst(blocks, k);
      ShowsWithout(blocks, img, k);
      FirstBranches(blocks, k);
      if begin != 0 {
        blocks := blocks[k := blocks[0]];
      }
      blocks, img := blocks[1..], GapFilledByFirst(img, k);
      end := end - DEFAULT_SIZE;
    }

    /** Takes the last full block out; a spare back block fills the gap. */
    method RemoveLast() returns (ghost moved: seq<byte>)
      requires Live() && end % DEFAULT_SIZE == 0 && begin + DEFAULT_SIZE <= end
      modifies this
      ensures Live() && begin == old(begin) && end == old(end) - DEFAULT_SIZE
      ensures moved == old(blocks[(end - 1) / DEFAULT_SIZE])[..] && old(Contents()) == Contents() + moved
      ensures Held(blocks) + multiset{old(blocks[(end - 1) / DEFAULT_SIZE])} == old(Held(blocks))
    {
      hide Bytes, Shows, Held, GapFilledByLast;
      ShowsLength(blocks, img);
      var k, last := (end - 1) / DEFAULT_SIZE, |blocks| - 1;
      moved := img[k];
      WithoutLast(img, k, begin);
      HeldWithoutLast(blocks, k);
      ShowsWithout(blocks, img, k);
      LastBranches(blocks, k);
      if k < last {
        blocks := blocks[k := blocks[last]];
      }
      blocks, img := blocks[..last], GapFilledByLast(img, k);
      end := end - DEFAULT_SIZE;
    }

    /** push_back of a block whose bytes follow the contents. */
    method ExtendBack(b: array<byte>)
      requires Live() && end == |blocks| * DEFAULT_SIZE && end + DEFAULT_SIZE < NPOS && b.Length == DEFAULT_SIZE
      modifies this
      ensures Live() && begin == old(begin) && end == old(end) + DEFAULT_SIZE
      ensures Contents() == old(Contents()) + b[..]
      ensures blocks == old(blocks) + [b]
      ensures Held(blocks) == old(Held(blocks)) + multiset{b}
    {
      hide Bytes, Shows, Held;
      ShowsLength(blocks, img);
      ShowsOne(b);
      ShowsConcat(blocks, img, [b], [b[..]]);
      HeldOne(b);
      HeldConcat(blocks, [b]);
      BytesShift(img, img + [b[..]], 0, begin, end - begin);
      blocks, img := blocks + [b], img + [b[..]];
      BytesSplit(img, begin, end - begin, DEFAULT_SIZE);
      BytesBlock(img, |img| - 1);
      end := end + DEFAULT_SIZE;
    }

    /** push_front of a block whose bytes come before the contents. */
    method ExtendFront(b: array<byte>)
      requires Live() && begin == 0 && end + DEFAULT_SIZE < NPOS && b.Length == DEFAULT_SIZE
      modifies this
      ensures Live() && begin == 0 && end == old(end) + DEFAULT_SIZE
      ensures Contents() == b[..] + old(Contents())
      ensures blocks == [b] + old(blocks)
      ensures Held(blocks) == old(Held(blocks)) + multiset{b}
    {
      hide Bytes, Shows, Held;
      ShowsLength(blocks, img);
      ShowsOne(b);
      ShowsConcat([b], [b[..]], blocks, img);
      HeldOne(b);
      HeldConcat([b], blocks);
      BytesShift(img, [b[..]] + img, 1, begin, end - begin);
      blocks, img := [b] + blocks, [b[..]] + img;
      BytesSplit(img, 0, DEFAULT_SIZE, end);
      BytesBlock(img, 0);
      end := end + DEFAULT_SIZE;
    }

    // Reading and dropping one byte at one end.

    method PeekFirst(p: array<byte>) returns (v: byte, ghost kept: seq<byte>)
      requires Live() && begin < end && p == blocks[begin / DEFAULT_SIZE]
      ensures Contents() == [v] + kept
    {
      hide Bytes, Shows, ByteAt;
      BytesFirst(img, begin, end - begin);
      v := ReadByte(p, begin % DEFAULT_SIZE, blocks, img, begin);
      kept := Bytes(img, begin + 1, end - begin - 1);
    }

    method PeekLast(p: array<byte>) returns (v: byte, ghost kept: seq<byte>)
      requires Live() && begin < end && p == blocks[(end - 1) / DEFAULT_SIZE]
      ensures Contents() == kept + [v]
    {
      hide Bytes, Shows, ByteAt;
      BytesLast(img, begin, end - begin);
      v := ReadByte(p, (end - 1) % DEFAULT_SIZE, blocks, img, end - 1);
      kept := Bytes(img, begin, end - begin - 1);
    }

    method SkipFirst() returns (ghost v: byte)
      requires Live() && begin < end
      modifies this`begin
      ensures Live() && begin == old(begin) + 1 && old(Contents()) == [v] + Contents()
    {
      hide Bytes, Shows, ByteAt;
      BytesFirst(img, begin, end - begin);
      v := ByteAt(img, begin);
      begin := begin + 1;
    }

    method SkipLast() returns (ghost v: byte)
      requires Live() && begin < end
      modifies this`end
      ensures Live() && end == old(end) - 1 && old(Contents()) == Contents() + [v]
    {
      hide Bytes, Shows, ByteAt;
      BytesLast(img, begin, end - begin);
      v := ByteAt(img, end - 1);
      end := end - 1;
    }

    // ----- the start of the transfers to another buffer -----

    /** Gives a buffer without blocks its first: a spare back block of this, or a new one. */
    method FirstBlock(b: array<byte>)
      requires blocks == [] && b.Length == DEFAULT_SIZE
      modifies this`blocks, this`img
      ensures Sync() && blocks == [b]
    {
      blocks, img := [b], [b[..]];
    }

    method LendFirstBlock(other: Buffer, ghost rest: multiset<array<byte>>)
      requires this != other && other.mem == mem && Live() && Books(rest + Held(other.blocks))
      requires begin < end && begin < DEFAULT_SIZE && other.blocks == []
      modifies this`blocks, this`img, other`blocks, other`img, mem`born
      ensures Live() && other.Sync() && Books(rest + Held(other.blocks)) && OnlyFresh(old(mem.born), mem.born)
      ensures |other.blocks| == 1 && Contents() == old(Contents())
      ensures blocks <= old(blocks) && (other.blocks[0] in old(blocks) || fresh(other.blocks[0]))
    {
      hide Bytes, Contents, Shows;
      if (end - 1) / DEFAULT_SIZE < |blocks| - 1 {
        var b := DetachBack();
        HeldConcat(blocks, [b]);
        other.FirstBlock(b);
      } else if begin / DEFAULT_SIZE > 0 {
        assert false;  // begin lies in the first block
      } else {
        var temp := mem.Allocate();
        other.FirstBlock(temp);
      }
    }

    /** An empty buffer takes an offset inside its first block. */
    method Prepare(other: Buffer, offset: nat, ghost rest: multiset<array<byte>>)
      requires this != other && other.mem == mem && Live() && other.Rep() && Books(rest + Held(other.blocks))
      requires begin < end && begin < DEFAULT_SIZE && offset < DEFAULT_SIZE
      modifies this`blocks, this`img, other, mem`born
      ensures Live() && other.Live() && Books(rest + Held(other.blocks)) && OnlyFresh(old(mem.born), mem.born)
      ensures Contents() == old(Contents()) && other.Contents() == old(other.Contents())
      ensures other.begin < DEFAULT_SIZE && other.blocks != []
      ensures blocks <= old(blocks)
      ensures forall i | 0 <= i < |other.blocks| ::
                other.blocks[i] in old(blocks) || other.blocks[i] in old(other.blocks) || fresh(other.blocks[i])
    {
      hide Bytes, Shows, Books;
      if other.begin == NPOS {
        if other.blocks == [] {
          LendFirstBlock(other, rest);
        }
        ShowsLength(other.blocks, other.img);
        other.begin := offset;
        other.end := other.begin;
      }
    }

    /** The end of the transfers: check and shrink both. */
    method Settle(other: Buffer, ghost rest: multiset<array<byte>>)
      requires this != other && other.mem == mem && Live() && other.Live() && Books(rest + Held(other.blocks))
      requires |Contents()| <= MAX_BYTES && |other.Contents()| <= MAX_BYTES
      modifies this, other, mem
      ensures Rep() && other.Rep() && Books(rest + Held(other.blocks)) && mem.born == old(mem.born)
      ensures Contents() == old(Contents()) && other.Contents() == old(other.Contents())
    {
      hide Bytes, Contents, Shows, Books;
      Check();
      other.Check();
      Shrink(rest + Held(other.blocks));
      BooksOfOther(other, rest);
      other.Shrink(rest + Held(blocks));
      BooksOfOther(other, rest);
    }

    // ----- transfer to another buffer, front to back -----

    /** The copying step: other_last[other.end % D] = this_first[begin % D]. */
    method MoveFront(other: Buffer, p: array<byte>, q: array<byte>, ghost rest: multiset<array<byte>>)
        returns (ghost v: byte)
      requires this != other && other.mem == mem && Live() && other.Live() && Books(rest + Held(other.blocks))
      requires begin < end && other.end < |other.blocks| * DEFAULT_SIZE && other.end + 1 < NPOS
      requires p == blocks[begin / DEFAULT_SIZE] && q == other.blocks[other.end / DEFAULT_SIZE]
      modifies this`begin, other`end, other`img, q
      ensures Live() && other.Live() && begin == old(begin) + 1 && other.end == old(other.end) + 1
      ensures old(Contents()) == [v] + Contents()
      ensures other.Contents() == old(other.Contents()) + [v]
    {
      hide Distinct, Shows, Books, Contents;
      var x, kept := PeekFirst(p);
      BooksAreApart(other, rest);
      other.PutBack(q, x, blocks, img);
      v := SkipFirst();
      assert v == ([v] + Contents())[0] == ([x] + kept)[0] == x;
    }

    /** The prologue: brings both offsets to a block boundary. */
    method AlignFront(other: Buffer, ghost rest: multiset<array<byte>>) returns (ghost moved: seq<byte>)
      requires this != other && other.mem == mem && Live() && other.Live() && Books(rest + Held(other.blocks))
      requires begin % DEFAULT_SIZE == other.end % DEFAULT_SIZE
      requires begin + DEFAULT_SIZE <= end && other.end + DEFAULT_SIZE < NPOS
      modifies this`begin, other`end, other`img, other.blocks
      ensures Live() && other.Live() && begin % DEFAULT_SIZE == 0 == other.end % DEFAULT_SIZE
      ensures old(Contents()) == moved + Contents() && other.Contents() == old(other.Contents()) + moved
      ensures |moved| == if old(begin) % DEFAULT_SIZE == 0 then 0 else DEFAULT_SIZE - old(begin) % DEFAULT_SIZE
    {
      hide Bytes, Books, Distinct, Shows, Contents;
      moved := [];
      var first := begin % DEFAULT_SIZE;
      if first % DEFAULT_SIZE != 0 {
        var p, q := blocks[begin / DEFAULT_SIZE], other.blocks[other.end / DEFAULT_SIZE];
        while first % DEFAULT_SIZE != 0
          invariant Live() && other.Live()
          invariant old(begin) % DEFAULT_SIZE <= first <= DEFAULT_SIZE
          invariant begin == old(begin) + |moved| && other.end == old(other.end) + |moved|
          invariant first == old(begin) % DEFAULT_SIZE + |moved|
          invariant old(Contents()) == moved + Contents() && other.Contents() == old(other.Contents()) + moved
          decreases DEFAULT_SIZE - first
        {
          ghost var v := MoveFront(other, p, q, rest);
          Associative(moved, [v], Contents());
          Associative(old(other.Contents()), moved, [v]);
          moved := moved + [v];
          first := first + 1;
        }
      }
    }

    /** One turn of the block loop: three branches, the last two in RemoveFirst. */
    method RelinkFront(other: Buffer) returns (ghost moved: seq<byte>)
      requires this != other && Live() && other.Live()
      requires begin % DEFAULT_SIZE == 0 == other.end % DEFAULT_SIZE && begin + DEFAULT_SIZE <= end
      requires other.end + DEFAULT_SIZE < NPOS
      modifies this, other
      ensures Live() && other.Live() && begin % DEFAULT_SIZE == 0
      ensures end - begin == old(end - begin) - DEFAULT_SIZE && begin <= end <= old(end)
      ensures other.begin == old(other.begin) && other.end == old(other.end) + DEFAULT_SIZE
      ensures |moved| == DEFAULT_SIZE && old(Contents()) == moved + Contents()
      ensures other.Contents() == old(other.Contents()) + moved
      ensures Held(blocks) + Held(other.blocks) == old(Held(blocks) + Held(other.blocks))
    {
      hide Bytes, Contents, Shows, Held;
      ShowsLength(blocks, img);
      ShowsLength(other.blocks, other.img);
      var first := blocks[begin / DEFAULT_SIZE];
      ghost var a, b := Held(blocks), Held(other.blocks);
      if other.end != |other.blocks| * DEFAULT_SIZE {
        var temp := other.blocks[other.end / DEFAULT_SIZE];
        other.PlaceBack(first);
        moved := ExchangeFirst(temp);
        Exchanged(a, b, Held(blocks), Held(other.blocks), multiset{first}, multiset{temp});
      } else {
        other.ExtendBack(first);
        moved := RemoveFirst();
        Exchanged(a, b, Held(blocks), Held(other.blocks), multiset{first}, multiset{});
      }
    }

    /** The block loop: whole blocks change hands until at most one block's worth of bytes is left. */
    method RelinkFrontLoop(other: Buffer, n0: nat) returns (n: nat, ghost moved: seq<byte>)
      requires this != other && Live() && other.Live()
      requires begin % DEFAULT_SIZE == 0 == other.end % DEFAULT_SIZE && 0 < n0 <= end - begin
      requires other.end + n0 < NPOS
      modifies this, other
      ensures Live() && other.Live() && 0 < n <= DEFAULT_SIZE && begin <= end && n + |moved| == n0
      ensures end <= old(end) && other.begin == old(other.begin) && other.end == old(other.end) + |moved|
      ensures old(Contents()) == moved + Contents() && other.Contents() == old(other.Contents()) + moved
      ensures Held(blocks) + Held(other.blocks) == old(Held(blocks) + Held(other.blocks))
    {
      hide Bytes, Contents, Shows, Held;
      n, moved := n0, [];
      ghost var total := Held(blocks) + Held(other.blocks);
      while n > DEFAULT_SIZE
        invariant Live() && other.Live() && 0 < n <= end - begin && n + |moved| == n0
        invariant begin % DEFAULT_SIZE == 0 == other.end % DEFAULT_SIZE
        invariant end <= old(end) && other.begin == old(other.begin) && other.end == old(other.end) + |moved|
        invariant old(Contents()) == moved + Contents() && other.Contents() == old(other.Contents()) + moved
        invariant Held(blocks) + Held(other.blocks) == total
      {
        ghost var c, d := Contents(), other.Contents();
        ghost var block := RelinkFront(other);
        MovedOn(old(Contents()), c, Contents(), old(other.Contents()), d, other.Contents(), moved, block);
        moved := moved + block;
        n := n - DEFAULT_SIZE;
      }
    }

    /** A front block of this without contents becomes the last block of other. */
    method LendFront(other: Buffer, ghost rest: multiset<array<byte>>, ghost reach: set<array<byte>>)
      requires this != other && other.mem == mem && Live() && other.Live() && Books(rest + Held(other.blocks))
      requires DEFAULT_SIZE <= begin < end && Within(blocks, reach) && Within(other.blocks, reach)
      modifies this, other`blocks, other`img
      ensures Within(blocks, reach) && Within(other.blocks, reach)
      ensures Live() && other.Live() && Books(rest + Held(other.blocks))
      ensures begin == old(begin) - DEFAULT_SIZE && end == old(end) - DEFAULT_SIZE
      ensures |other.blocks| == |old(other.blocks)| + 1
      ensures blocks[begin / DEFAULT_SIZE] == old(blocks[begin / DEFAULT_SIZE])
      ensures Contents() == old(Contents()) && other.Contents() == old(other.Contents())
    {
      hide Bytes, Contents, Shows, Within;
      var temp := DetachFront();
      WithinSplit([temp], blocks, reach);
      WithinSplit(other.blocks, [temp], reach);
      other.AttachBack(temp);
      assert Held(old(blocks)) == multiset{temp} + Held(blocks);
    }

    /** A new block behind the contents; the blocks of another buffer are among the rest. */
    method AllocateBack(ghost rest: multiset<array<byte>>, ghost reach: set<array<byte>>)
      returns (ghost more: set<array<byte>>)
      requires Live() && Books(rest) && Within(blocks, reach)
      modifies this`blocks, this`img, mem`born
      ensures Live() && Books(rest) && OnlyFresh(old(mem.born), mem.born)
      ensures |blocks| == |old(blocks)| + 1 && Contents() == old(Contents())
      ensures old(blocks) <= blocks
      ensures Within(blocks, more) && reach <= more && fresh(more - reach)
    {
      hide Bytes, Contents, Shows;
      var temp := mem.Allocate();
      AttachBack(temp);
      more := reach + {temp};
    }

    lemma BooksOfOther(other: Buffer, rest: multiset<array<byte>>)
      requires other.mem == mem
      ensures Books(rest + Held(other.blocks)) <==> other.Books(rest + Held(blocks))
    {
      assert Held(blocks) + Held(mem.container) + mem.freed + (rest + Held(other.blocks))
          == Held(other.blocks) + Held(mem.container) + mem.freed + (rest + Held(blocks));
    }

    lemma BooksKept(other: Buffer, rest: multiset<array<byte>>, was: multiset<array<byte>>)
      requires mem.Valid() && was + Held(mem.container) + mem.freed + rest == mem.born
      requires Held(blocks) + Held(other.blocks) == was
      ensures Books(rest + Held(other.blocks))
    {
    }

    /** A block for the next byte behind other: a spare of this, a spare of other, or a new one. */
    method MakeRoomBack(other: Buffer, ghost rest: multiset<array<byte>>, ghost reach: set<array<byte>>)
      returns (ghost more: set<array<byte>>)
      requires this != other && other.mem == mem && Live() && other.Live() && Books(rest + Held(other.blocks))
      requires begin < end && other.end == |other.blocks| * DEFAULT_SIZE
      requires Within(blocks, reach) && Within(other.blocks, reach)
      modifies this, other, mem`born
      ensures Within(blocks, more) && Within(other.blocks, more) && reach <= more && fresh(more - reach)
      ensures Live() && other.Live() && Books(rest + Held(other.blocks)) && OnlyFresh(old(mem.born), mem.born)
      ensures other.end < |other.blocks| * DEFAULT_SIZE && other.end % DEFAULT_SIZE == 0 && other.end <= old(other.end)
      ensures begin % DEFAULT_SIZE == old(begin) % DEFAULT_SIZE && begin < end <= old(end)
              && end - begin == old(end - begin)
      ensures blocks[begin / DEFAULT_SIZE] == old(blocks[begin / DEFAULT_SIZE])
      ensures Contents() == old(Contents()) && other.Contents() == old(other.Contents())
    {
      hide Bytes, Contents, Shows, Books;
      more := reach;
      if begin >= DEFAULT_SIZE {
        LendFront(other, rest, reach);
      } else if |other.blocks| > 0 && other.begin >= DEFAULT_SIZE {
        WithinTurned(other.blocks, reach);
        other.TurnFrontToBack();
      } else {
        BooksOfOther(other, rest);
        more := other.AllocateBack(rest + Held(blocks), reach);
        BooksOfOther(other, rest);
      }
    }

    /** The cached pointers of the byte loop: stale ones are only kept at a block boundary. */
    ghost predicate CachedFront(other: Buffer, p: array<byte>, q: array?<byte>)
      requires Live() && other.Live()
      reads this, other, blocks, other.blocks
    {
      && (begin % DEFAULT_SIZE != 0 && begin < end ==> p == blocks[begin / DEFAULT_SIZE])
      && (other.end % DEFAULT_SIZE != 0 ==> q == other.blocks[other.end / DEFAULT_SIZE])
    }

    /** One turn of the byte loop. */
    method StepFront(other: Buffer, p0: array<byte>, q0: array?<byte>,
                     ghost rest: multiset<array<byte>>, ghost reach: set<array<byte>>)
      returns (p: array<byte>, q: array?<byte>, ghost v: byte, ghost more: set<array<byte>>)
      requires this != other && other.mem == mem && Live() && other.Live() && Books(rest + Held(other.blocks))
      requires begin < end && other.end + 1 < NPOS && CachedFront(other, p0, q0)
      requires Within(blocks, reach) && Within(other.blocks, reach)
      modifies this, other, mem`born, reach
      ensures Within(blocks, more) && Within(other.blocks, more) && reach <= more && fresh(more - reach)
      ensures Live() && other.Live() && Books(rest + Held(other.blocks)) && OnlyFresh(old(mem.born), mem.born)
      ensures CachedFront(other, p, q)
      ensures end <= old(end) && end - begin == old(end - begin) - 1 && other.end <= old(other.end) + 1
      ensures old(Contents()) == [v] + Contents() && other.Contents() == old(other.Contents()) + [v]
    {
      hide Bytes, Contents, Shows, Books, Distinct;
      p, q, more := p0, q0, reach;
      if other.end == |other.blocks| * DEFAULT_SIZE {
        more := MakeRoomBack(other, rest, reach);
      }
      if other.end % DEFAULT_SIZE == 0 {
        q := other.blocks[other.end / DEFAULT_SIZE];
      }
      if begin % DEFAULT_SIZE == 0 {
        p := blocks[begin / DEFAULT_SIZE];
      }
      v := MoveFront(other, p, q, rest);
    }

    /** The byte loop. */
    method MoveFrontLoop(other: Buffer, n0: nat, ghost rest: multiset<array<byte>>) returns (ghost moved: seq<byte>)
      requires this != other && other.mem == mem && Live() && other.Live() && Books(rest + Held(other.blocks))
      requires n0 <= end - begin && begin < end && other.end + n0 < NPOS
      modifies this, other, mem`born, blocks, other.blocks
      ensures Live() && other.Live() && Books(rest + Held(other.blocks)) && OnlyFresh(old(mem.born), mem.born)
      ensures |moved| == n0 && old(Contents()) == moved + Contents()
              && other.Contents() == old(other.Contents()) + moved
    {
      hide Bytes, Contents, Shows, Books, SetOf;
      var n: nat := n0;
      moved := [];
      var p := blocks[begin / DEFAULT_SIZE];
      var q: array?<byte> := null;
      if other.end % DEFAULT_SIZE != 0 {
        q := other.blocks[(other.end - 1) / DEFAULT_SIZE];
      }
      ghost var reach := SetOf(blocks) + SetOf(other.blocks);
      ghost var was := reach;
      while n > 0
        invariant Live() && other.Live() && Books(rest + Held(other.blocks)) && OnlyFresh(old(mem.born), mem.born)
        invariant n <= end - begin && n + |moved| == n0 && other.end + n < NPOS
        invariant Within(blocks, reach) && Within(other.blocks, reach)
        invariant was <= reach && fresh(reach - was)
        invariant CachedFront(other, p, q)
        invariant old(Contents()) == moved + Contents() && other.Contents() == old(other.Contents()) + moved
      {
        n := n - 1;
        ghost var v;
        ghost var c, d := Contents(), other.Contents();
        p, q, v, reach := StepFront(other, p, q, rest, reach);
        MovedOn(old(Contents()), c, Contents(), old(other.Contents()), d, other.Contents(), moved, [v]);
        moved := moved + [v];
      }
    }

    /** The aligned part: prologue and block loop, when the offsets agree and enough bytes go. */
    method AlignedFront(other: Buffer, n0: nat, ghost rest: multiset<array<byte>>)
        returns (n: nat, ghost moved: seq<byte>)
      requires this != other && other.mem == mem && Live() && other.Live() && Books(rest + Held(other.blocks))
      requires 0 < n0 <= end - begin && other.end + n0 + DEFAULT_SIZE < NPOS
      modifies this, other, other.blocks
      ensures Live() && other.Live() && 0 < n <= end - begin && n + |moved| == n0 && other.end + n < NPOS
      ensures old(Contents()) == moved + Contents() && other.Contents() == old(other.Contents()) + moved
      ensures Held(blocks) + Held(other.blocks) == old(Held(blocks) + Held(other.blocks))
    {
      hide Bytes, Contents, Shows, Books, SubSize;
      n, moved := n0, [];
      AlignmentTest(begin, other.end);
      if SubSize(begin, other.end) % DEFAULT_SIZE == 0 && n > 2 * DEFAULT_SIZE {
        var first := begin % DEFAULT_SIZE;
        n := n - (if first % DEFAULT_SIZE == 0 then 0 else DEFAULT_SIZE - first);
        ghost var head := AlignFront(other, rest);
        ghost var tail;
        n, tail := RelinkFrontLoop(other, n);
        Associative(head, tail, Contents());
        Associative(old(other.Contents()), head, tail);
        moved := head + tail;
      }
    }

    /** Both parts. */
    method CarryFront(other: Buffer, n0: nat, ghost rest: multiset<array<byte>>) returns (ghost moved: seq<byte>)
      requires this != other && other.mem == mem && Live() && other.Live() && Books(rest + Held(other.blocks))
      requires 0 < n0 <= end - begin && other.end + n0 + DEFAULT_SIZE < NPOS
      modifies this, other, mem`born, blocks, other.blocks
      ensures Live() && other.Live() && Books(rest + Held(other.blocks)) && OnlyFresh(old(mem.born), mem.born)
      ensures |moved| == n0 && old(Contents()) == moved + Contents()
              && other.Contents() == old(other.Contents()) + moved
    {
      hide Bytes, Contents, Shows;
      ghost var was, was' := blocks, other.blocks;
      ghost var reach := (set b | b in blocks) + (set b | b in other.blocks);
      var n, head := AlignedFront(other, n0, rest);
      ReachKept(was, was', blocks, other.blocks, reach);
      BooksKept(other, rest, Held(was) + Held(was'));
      ghost var c, d := Contents(), other.Contents();
      ghost var tail := MoveFrontLoop(other, n, rest);
      MovedOn(old(Contents()), c, Contents(), old(other.Contents()), d, other.Contents(), head, tail);
      moved := head + tail;
    }

    /** `other_pop_front_to_back_n`. */
    method OtherPopFrontToBack(other: Buffer, n0: nat, ghost rest: multiset<array<byte>>)
      requires this != other && other.mem == mem && Rep() && other.Rep() && Books(rest + Held(other.blocks))
      requires |Contents()| + |other.Contents()| <= MAX_BYTES
      modifies this, other, mem, blocks, other.blocks
      ensures Rep() && other.Rep() && Books(rest + Held(other.blocks)) && OnlyFresh(old(mem.born), mem.born)
      ensures var m := Min(n0, |old(Contents())|);
              && Contents() == old(Contents())[m..]
              && other.Contents() == old(other.Contents()) + old(Contents())[..m]
    {
      hide Bytes, Contents, Shows, Books;
      Check();
      other.Check();
      if begin == NPOS || n0 == 0 {
        return;
      }
      var n := n0;
      if n >= end - begin {
        n := end - begin;
      }
      Prepare(other, begin % DEFAULT_SIZE, rest);
      ghost var moved := CarryFront(other, n, rest);
      FrontMoved(old(Contents()), moved, Contents());
      Settle(other, rest);
    }

    // ----- transfer to another buffer, back to front -----

    /** The copying step: other_first[other.begin % D] = this_last[(end - 1) % D], both offsets going down. */
    method MoveBack(other: Buffer, p: array<byte>, q: array<byte>, ghost rest: multiset<array<byte>>)
        returns (ghost v: byte)
      requires this != other && other.mem == mem && Live() && other.Live() && Books(rest + Held(other.blocks))
      requires begin < end && 0 < other.begin
      requires p == blocks[(end - 1) / DEFAULT_SIZE] && q == other.blocks[(other.begin - 1) / DEFAULT_SIZE]
      modifies this`end, other`begin, other`img, q
      ensures Live() && other.Live() && end == old(end) - 1 && other.begin == old(other.begin) - 1
      ensures old(Contents()) == Contents() + [v]
      ensures other.Contents() == [v] + old(other.Contents())
    {
      hide Distinct, Shows, Books, Contents;
      var x, kept := PeekLast(p);
      BooksAreApart(other, rest);
      other.PutFront(q, x, blocks, img);
      v := SkipLast();
      assert v == (Contents() + [v])[|kept|] == (kept + [x])[|kept|] == x;
    }

    /** The prologue: brings both offsets to a block boundary. */
    method AlignBack(other: Buffer, ghost rest: multiset<array<byte>>) returns (ghost moved: seq<byte>)
      requires this != other && other.mem == mem && Live() && other.Live() && Books(rest + Held(other.blocks))
      requires end % DEFAULT_SIZE == other.begin % DEFAULT_SIZE
      requires begin + DEFAULT_SIZE <= end && other.begin < |other.blocks| * DEFAULT_SIZE
      modifies this`end, other`begin, other`img, other.blocks
      ensures Live() && other.Live() && end % DEFAULT_SIZE == 0 == other.begin % DEFAULT_SIZE
      ensures old(Contents()) == Contents() + moved && other.Contents() == moved + old(other.Contents())
      ensures |moved| == old(end) % DEFAULT_SIZE
    {
      hide Bytes, Books, Distinct, Shows, Contents;
      moved := [];
      var last := (end - 1) % DEFAULT_SIZE;
      ghost var first := last;
      assert end % DEFAULT_SIZE == if last == DEFAULT_SIZE - 1 then 0 else last + 1;
      var p, q := blocks[(end - 1) / DEFAULT_SIZE], other.blocks[other.begin / DEFAULT_SIZE];
      while last >= 0 && last < DEFAULT_SIZE - 1
        invariant Live() && other.Live()
        invariant -1 <= last && last == first - |moved|
        invariant |moved| > 0 ==> first < DEFAULT_SIZE - 1
        invariant end == old(end) - |moved| && other.begin == old(other.begin) - |moved|
        invariant old(Contents()) == Contents() + moved && other.Contents() == moved + old(other.Contents())
        decreases last
      {
        ghost var v := MoveBack(other, p, q, rest);
        Associative(Contents(), [v], moved);
        Associative([v], moved, old(other.Contents()));
        moved := [v] + moved;
        last := last - 1;
      }
    }

    /** The first branch of the block loop: the last full block changes places with the spare block before other. */
    method SwapLast(other: Buffer) returns (ghost moved: seq<byte>)
      requires this != other && Live() && other.Live()
      requires end % DEFAULT_SIZE == 0 == other.begin % DEFAULT_SIZE && begin + DEFAULT_SIZE <= end
      requires other.end + DEFAULT_SIZE < NPOS && other.begin != 0
      modifies this, other
      ensures Live() && other.Live() && begin == old(begin) && end == old(end) - DEFAULT_SIZE
      ensures other.begin == old(other.begin) - DEFAULT_SIZE && other.end == old(other.end)
      ensures |moved| == DEFAULT_SIZE && old(Contents()) == Contents() + moved
      ensures other.Contents() == moved + old(other.Contents())
      ensures Held(blocks) + Held(other.blocks) == old(Held(blocks) + Held(other.blocks))
    {
      hide Bytes, Contents, Shows, Held;
      ShowsLength(blocks, img);
      ShowsLength(other.blocks, other.img);
      var last := blocks[(end - 1) / DEFAULT_SIZE];
      ghost var a, b := Held(blocks), Held(other.blocks);
      var temp := other.blocks[(other.begin - 1) / DEFAULT_SIZE];
      other.PlaceFront(last);
      moved := ExchangeLast(temp);
      Exchanged(a, b, Held(blocks), Held(other.blocks), multiset{last}, multiset{temp});
    }

    /** The other two branches: the last full block becomes the first block of other. */
    method PassLast(other: Buffer) returns (ghost moved: seq<byte>)
      requires this != other && Live() && other.Live()
      requires end % DEFAULT_SIZE == 0 == other.begin % DEFAULT_SIZE && begin + DEFAULT_SIZE <= end
      requires other.end + DEFAULT_SIZE < NPOS && other.begin == 0
      modifies this, other
      ensures Live() && other.Live() && begin == old(begin) && end == old(end) - DEFAULT_SIZE
      ensures other.begin == 0 && other.end == old(other.end) + DEFAULT_SIZE
      ensures |moved| == DEFAULT_SIZE && old(Contents()) == Contents() + moved
      ensures other.Contents() == moved + old(other.Contents())
      ensures Held(blocks) + Held(other.blocks) == old(Held(blocks) + Held(other.blocks))
    {
      hide Bytes, Contents, Shows, Held;
      ShowsLength(blocks, img);
      ShowsLength(other.blocks, other.img);
      var last := blocks[(end - 1) / DEFAULT_SIZE];
      ghost var a, b := Held(blocks), Held(other.blocks);
      other.ExtendFront(last);
      moved := RemoveLast();
      Exchanged(a, b, Held(blocks), Held(other.blocks), multiset{last}, multiset{});
    }

    /** One turn of the block loop. */
    method RelinkBack(other: Buffer) returns (ghost moved: seq<byte>)
      requires this != other && Live() && other.Live()
      requires end % DEFAULT_SIZE == 0 == other.begin % DEFAULT_SIZE && begin + DEFAULT_SIZE <= end
      requires other.end + DEFAULT_SIZE < NPOS
      modifies this, other
      ensures Live() && other.Live() && end % DEFAULT_SIZE == 0 == other.begin % DEFAULT_SIZE
      ensures begin == old(begin) && end == old(end) - DEFAULT_SIZE
      ensures other.begin <= old(other.begin) && other.end - other.begin == old(other.end - other.begin) + DEFAULT_SIZE
      ensures |moved| == DEFAULT_SIZE && old(Contents()) == Contents() + moved
      ensures other.Contents() == moved + old(other.Contents())
      ensures Held(blocks) + Held(other.blocks) == old(Held(blocks) + Held(other.blocks))
    {
      hide Bytes, Contents, Shows, Held;
      if other.begin != 0 {
        moved := SwapLast(other);
      } else {
        moved := PassLast(other);
      }
    }

    /** The block loop: whole blocks change hands until at most one block's worth of bytes is left. */
    method RelinkBackLoop(other: Buffer, n0: nat) returns (n: nat, ghost moved: seq<byte>)
      requires this != other && Live() && other.Live()
      requires end % DEFAULT_SIZE == 0 == other.begin % DEFAULT_SIZE && 0 < n0 <= end - begin
      requires other.begin <= DEFAULT_SIZE && (other.end - other.begin) + n0 + DEFAULT_SIZE < NPOS
      modifies this, other
      ensures Live() && other.Live() && 0 < n <= DEFAULT_SIZE && n <= end - begin && n + |moved| == n0
      ensures other.begin <= old(other.begin) && other.end - other.begin == old(other.end - other.begin) + |moved|
      ensures old(Contents()) == Contents() + moved && other.Contents() == moved + old(other.Contents())
      ensures Held(blocks) + Held(other.blocks) == old(Held(blocks) + Held(other.blocks))
    {
      hide Bytes, Contents, Shows, Held;
      n, moved := n0, [];
      ghost var total := Held(blocks) + Held(other.blocks);
      while n > DEFAULT_SIZE
        invariant Live() && other.Live() && 0 < n <= end - begin && n + |moved| == n0
        invariant end % DEFAULT_SIZE == 0 == other.begin % DEFAULT_SIZE
        invariant other.begin <= old(other.begin) && other.end - other.begin == old(other.end - other.begin) + |moved|
        invariant old(Contents()) == Contents() + moved && other.Contents() == moved + old(other.Contents())
        invariant Held(blocks) + Held(other.blocks) == total
      {
        ghost var c, d := Contents(), other.Contents();
        ghost var block := RelinkBack(other);
        MovedBackOn(old(Contents()), c, Contents(), old(other.Contents()), d, other.Contents(), moved, block);
        moved := block + moved;
        n := n - DEFAULT_SIZE;
      }
    }

    /** A back block of this without contents becomes the first block of other. */
    method LendBack(other: Buffer, ghost rest: multiset<array<byte>>, ghost reach: set<array<byte>>)
      requires this != other && other.mem == mem && Live() && other.Live() && Books(rest + Held(other.blocks))
      requires blocks != [] && end <= (|blocks| - 1) * DEFAULT_SIZE && other.end + DEFAULT_SIZE < NPOS
      requires Within(blocks, reach) && Within(other.blocks, reach)
      modifies this`blocks, this`img, other
      ensures Within(blocks, reach) && Within(other.blocks, reach)
      ensures Live() && other.Live() && Books(rest + Held(other.blocks))
      ensures other.begin == old(other.begin) + DEFAULT_SIZE && other.end == old(other.end) + DEFAULT_SIZE
      ensures blocks <= old(blocks) && |other.blocks| == |old(other.blocks)| + 1
      ensures Contents() == old(Contents()) && other.Contents() == old(other.Contents())
    {
      hide Bytes, Contents, Shows, Within;
      var temp := DetachBack();
      WithinSplit(blocks, [temp], reach);
      WithinSplit([temp], other.blocks, reach);
      other.AttachFront(temp);
      assert Held(old(blocks)) == Held(blocks) + multiset{temp};
    }

    /** A new block in front of the contents; the blocks of another buffer are among the rest. */
    method AllocateFront(ghost rest: multiset<array<byte>>, ghost reach: set<array<byte>>)
      returns (ghost more: set<array<byte>>)
      requires Live() && Books(rest) && Within(blocks, reach) && end + DEFAULT_SIZE < NPOS
      modifies this, mem`born
      ensures Live() && Books(rest) && OnlyFresh(old(mem.born), mem.born)
      ensures begin == old(begin) + DEFAULT_SIZE && end == old(end) + DEFAULT_SIZE
      ensures |blocks| == |old(blocks)| + 1 && Contents() == old(Contents())
      ensures Within(blocks, more) && reach <= more && fresh(more - reach)
    {
      hide Bytes, Contents, Shows;
      var temp := mem.Allocate();
      AttachFront(temp);
      more := reach + {temp};
    }

    /** A block for the next byte before other: a spare of this, a spare of other, or a new one. */
    method MakeRoomFront(other: Buffer, ghost rest: multiset<array<byte>>, ghost reach: set<array<byte>>)
      returns (ghost more: set<array<byte>>)
      requires this != other && other.mem == mem && Live() && other.Live() && Books(rest + Held(other.blocks))
      requires begin < end && other.begin == 0 && other.blocks != [] && other.end + DEFAULT_SIZE < NPOS
      requires Within(blocks, reach) && Within(other.blocks, reach)
      modifies this`blocks, this`img, other, mem`born
      ensures Within(blocks, more) && Within(other.blocks, more) && reach <= more && fresh(more - reach)
      ensures Live() && other.Live() && Books(rest + Held(other.blocks)) && OnlyFresh(old(mem.born), mem.born)
      ensures other.begin == DEFAULT_SIZE && other.end == old(other.end) + DEFAULT_SIZE && |other.blocks| >= 2
      ensures blocks <= old(blocks)
      ensures Contents() == old(Contents()) && other.Contents() == old(other.Contents())
    {
      hide Bytes, Contents, Shows, Books;
      more := reach;
      if (end - 1) / DEFAULT_SIZE < |blocks| - 1 {
        LendBack(other, rest, reach);
      } else if |other.blocks| > 0 && SubSize(other.end, 1) / DEFAULT_SIZE < |other.blocks| - 1 {
        WithinTurned(other.blocks, reach);
        other.TurnBackToFront();
      } else {
        BooksOfOther(other, rest);
        more := other.AllocateFront(rest + Held(blocks), reach);
        BooksOfOther(other, rest);
      }
    }

    /** The cached pointers of the byte loop: stale ones are only kept at a block boundary. */
    ghost predicate CachedBack(other: Buffer, p: array<byte>, q: array<byte>)
      requires Live() && other.Live()
      reads this, other, blocks, other.blocks
    {
      && (end % DEFAULT_SIZE != 0 ==> p == blocks[(end - 1) / DEFAULT_SIZE])
      && (other.begin % DEFAULT_SIZE != 0 && other.begin / DEFAULT_SIZE < |other.blocks|
         ==> q == other.blocks[other.begin / DEFAULT_SIZE])
    }

    /** One turn of the byte loop. */
    method StepBack(other: Buffer, p0: array<byte>, q0: array<byte>,
                    ghost rest: multiset<array<byte>>, ghost reach: set<array<byte>>)
      returns (p: array<byte>, q: array<byte>, ghost v: byte, ghost more: set<array<byte>>)
      requires this != other && other.mem == mem && Live() && other.Live() && Books(rest + Held(other.blocks))
      requires begin < end && other.blocks != [] && other.end + DEFAULT_SIZE < NPOS && CachedBack(other, p0, q0)
      requires Within(blocks, reach) && Within(other.blocks, reach)
      modifies this, other, mem`born, reach
      ensures Within(blocks, more) && Within(other.blocks, more) && reach <= more && fresh(more - reach)
      ensures Live() && other.Live() && Books(rest + Held(other.blocks)) && OnlyFresh(old(mem.born), mem.born)
      ensures CachedBack(other, p, q) && other.blocks != []
      ensures begin == old(begin) && end == old(end) - 1
      ensures other.end - other.begin == old(other.end - other.begin) + 1
              && (old(other.begin) <= DEFAULT_SIZE ==> other.begin <= DEFAULT_SIZE)
      ensures old(Contents()) == Contents() + [v] && other.Contents() == [v] + old(other.Contents())
    {
      hide Bytes, Contents, Shows, Books, Distinct, Held, Sync;
      p, q, more := p0, q0, reach;
      if other.begin == 0 {
        more := MakeRoomFront(other, rest, reach);
        p := blocks[(end - 1) / DEFAULT_SIZE];
        q := other.blocks[other.begin / DEFAULT_SIZE];
      }
      if other.begin % DEFAULT_SIZE == 0 {
        q := other.blocks[(other.begin - 1) / DEFAULT_SIZE];
      }
      if end % DEFAULT_SIZE == 0 {
        p := blocks[(end - 1) / DEFAULT_SIZE];
      }
      v := MoveBack(other, p, q, rest);
    }

    /** The byte loop. */
    method MoveBackLoop(other: Buffer, n0: nat, ghost rest: multiset<array<byte>>) returns (ghost moved: seq<byte>)
      requires this != other && other.mem == mem && Live() && other.Live() && Books(rest + Held(other.blocks))
      requires n0 <= end - begin && begin < end && other.begin < |other.blocks| * DEFAULT_SIZE
      requires other.begin <= DEFAULT_SIZE && (other.end - other.begin) + n0 + 2 * DEFAULT_SIZE < NPOS
      modifies this, other, mem`born, blocks, other.blocks
      ensures Live() && other.Live() && Books(rest + Held(other.blocks)) && OnlyFresh(old(mem.born), mem.born)
      ensures |moved| == n0 && old(Contents()) == Contents() + moved
              && other.Contents() == moved + old(other.Contents())
    {
      hide Bytes, Contents, Shows, Books, SetOf;
      var n: nat := n0;
      moved := [];
      var p, q := blocks[(end - 1) / DEFAULT_SIZE], other.blocks[other.begin / DEFAULT_SIZE];
      ghost var reach := SetOf(blocks) + SetOf(other.blocks);
      ghost var was := reach;
      while n > 0
        invariant Live() && other.Live() && Books(rest + Held(other.blocks)) && OnlyFresh(old(mem.born), mem.born)
        invariant n <= end - begin && n + |moved| == n0 && other.begin <= DEFAULT_SIZE && other.blocks != []
        invariant other.end - other.begin == old(other.end - other.begin) + |moved|
        invariant Within(blocks, reach) && Within(other.blocks, reach)
        invariant was <= reach && fresh(reach - was)
        invariant CachedBack(other, p, q)
        invariant old(Contents()) == Contents() + moved && other.Contents() == moved + old(other.Contents())
      {
        n := n - 1;
        ghost var v;
        p, q, v, reach := StepBack(other, p, q, rest, reach);
        Associative(Contents(), [v], moved);
        Associative([v], moved, old(other.Contents()));
        moved := [v] + moved;
      }
    }

    /** The aligned part: prologue and block loop, when the offsets agree and enough bytes go. */
    method AlignedBack(other: Buffer, n0: nat, ghost rest: multiset<array<byte>>)
        returns (n: nat, ghost moved: seq<byte>)
      requires this != other && other.mem == mem && Live() && other.Live() && Books(rest + Held(other.blocks))
      requires n0 <= end - begin && begin < end && other.begin < |other.blocks| * DEFAULT_SIZE
      requires other.begin <= DEFAULT_SIZE && (other.end - other.begin) + n0 + DEFAULT_SIZE < NPOS
      modifies this, other, other.blocks
      ensures Live() && other.Live() && n <= end - begin && begin < end && n + |moved| == n0
      ensures other.begin < |other.blocks| * DEFAULT_SIZE
      ensures other.begin <= DEFAULT_SIZE && other.end - other.begin == old(other.end - other.begin) + |moved|
      ensures old(Contents()) == Contents() + moved && other.Contents() == moved + old(other.Contents())
      ensures Held(blocks) + Held(other.blocks) == old(Held(blocks) + Held(other.blocks))
    {
      hide Bytes, Contents, Shows, Books, SubSize, Held;
      n, moved := n0, [];
      AlignmentTest(end, other.begin);
      if SubSize(end, other.begin) % DEFAULT_SIZE == 0 && n > 2 * DEFAULT_SIZE {
        var last := (end - 1) % DEFAULT_SIZE;
        assert end % DEFAULT_SIZE == if last + 1 < DEFAULT_SIZE then last + 1 else 0;
        n := n - (if last + 1 < DEFAULT_SIZE then last + 1 else 0);
        ghost var tail := AlignBack(other, rest);
        ghost var head;
        n, head := RelinkBackLoop(other, n);
        Associative(Contents(), head, tail);
        Associative(head, tail, old(other.Contents()));
        moved := head + tail;
      }
    }

    /** Both parts. */
    method CarryBack(other: Buffer, n0: nat, ghost rest: multiset<array<byte>>) returns (ghost moved: seq<byte>)
      requires this != other && other.mem == mem && Live() && other.Live() && Books(rest + Held(other.blocks))
      requires n0 <= end - begin && begin < end && other.begin < |other.blocks| * DEFAULT_SIZE
      requires other.begin <= DEFAULT_SIZE && (other.end - other.begin) + n0 + 2 * DEFAULT_SIZE < NPOS
      modifies this, other, mem`born, blocks, other.blocks
      ensures Live() && other.Live() && Books(rest + Held(other.blocks)) && OnlyFresh(old(mem.born), mem.born)
      ensures |moved| == n0 && old(Contents()) == Contents() + moved
              && other.Contents() == moved + old(other.Contents())
    {
      hide Bytes, Contents, Shows;
      ghost var was, was' := blocks, other.blocks;
      ghost var reach := (set b | b in blocks) + (set b | b in other.blocks);
      var n, tail := AlignedBack(other, n0, rest);
      ReachKept(was, was', blocks, other.blocks, reach);
      BooksKept(other, rest, Held(was) + Held(was'));
      ghost var c, d := Contents(), other.Contents();
      ghost var head := MoveBackLoop(other, n, rest);
      MovedBackOn(old(Contents()), c, Contents(), old(other.Contents()), d, other.Contents(), tail, head);
      moved := head + tail;
    }

    /** `other_pop_back_to_front_n`. */
    method OtherPopBackToFront(other: Buffer, n0: nat, ghost rest: multiset<array<byte>>)
      requires this != other && other.mem == mem && Rep() && other.Rep() && Books(rest + Held(other.blocks))
      requires |Contents()| + |other.Contents()| <= MAX_BYTES
      modifies this, other, mem, blocks, other.blocks
      ensures Rep() && other.Rep() && Books(rest + Held(other.blocks)) && OnlyFresh(old(mem.born), mem.born)
      ensures var k := |old(Contents())| - Min(n0, |old(Contents())|);
              && Contents() == old(Contents())[..k]
              && other.Contents() == old(Contents())[k..] + old(other.Contents())
    {
      hide Bytes, Contents, Shows, Books, Held;
      Check();
      other.Check();
      if begin == NPOS {
        return;
      }
      var n := n0;
      if n >= end - begin {
        n := end - begin;
      }
      Prepare(other, end % DEFAULT_SIZE, rest);
      ghost var moved := CarryBack(other, n, rest);
      BackMoved(old(Contents()), moved, Contents());
      Settle(other, rest);
    }

    // ----- transfer within one buffer, back to front -----

    /** The copying step within one buffer. */
    method TurnLastByte(p: array<byte>, q: array<byte>, ghost rest: multiset<array<byte>>)
      requires Live() && Books(rest) && 0 < begin < end
      requires p == blocks[(end - 1) / DEFAULT_SIZE] && q == blocks[(begin - 1) / DEFAULT_SIZE]
      modifies this`begin, this`end, this`img, q
      ensures Live() && begin == old(begin) - 1 && end == old(end) - 1
      ensures Contents() == RotateRight(old(Contents()), 1)
    {
      assert Shows([], []);
      hide Distinct, Shows, Books, Contents, RotateRight;
      var v, kept := PeekLast(p);
      BooksAreDistinct(rest);
      PutFront(q, v, [], []);
      ghost var x := SkipLast();
      TurnedRight(old(Contents()), Contents(), kept, v, x);
    }

    method AlignSelfBack(ghost rest: multiset<array<byte>>) returns (ghost moved: nat)
      requires Live() && Books(rest) && end % DEFAULT_SIZE == begin % DEFAULT_SIZE
      requires begin + 2 * DEFAULT_SIZE <= end
      modifies this`begin, this`end, this`img, blocks
      ensures Live() && end % DEFAULT_SIZE == 0 == begin % DEFAULT_SIZE
      ensures moved == old(end) % DEFAULT_SIZE && begin == old(begin) - moved && end == old(end) - moved
      ensures moved <= |old(Contents())| && Contents() == RotateRight(old(Contents()), moved)
    {
      hide Bytes, Books, Distinct, Shows, Contents, RotateLeft, RotateRight, Sync;
      NoRotation(Contents());
      moved := 0;
      var last := (end - 1) % DEFAULT_SIZE;
      ghost var first := last;
      assert end % DEFAULT_SIZE == if last == DEFAULT_SIZE - 1 then 0 else last + 1;
      var p, q := blocks[(end - 1) / DEFAULT_SIZE], blocks[begin / DEFAULT_SIZE];
      while last >= 0 && last < DEFAULT_SIZE - 1
        invariant Live()
        invariant -1 <= last && last == first - moved
        invariant moved > 0 ==> first < DEFAULT_SIZE - 1
        invariant end == old(end) - moved && begin == old(begin) - moved
        invariant moved <= |old(Contents())| && Contents() == RotateRight(old(Contents()), moved)
        decreases last
      {
        TurnLastByte(p, q, rest);
        RotateRightTwice(old(Contents()), moved, 1);
        moved := moved + 1;
        last := last - 1;
      }
    }

    /** One turn of the block loop; `begin` stays 0, so its first branch is dead. */
    method RelinkSelfBack()
      requires Live() && begin == 0 && end % DEFAULT_SIZE == 0 && DEFAULT_SIZE <= end && end + DEFAULT_SIZE < NPOS
      modifies this
      ensures Live() && begin == 0 && end == old(end)
      ensures Contents() == RotateRight(old(Contents()), DEFAULT_SIZE)
      ensures Held(blocks) == old(Held(blocks))
    {
      hide Bytes, Contents, Shows;
      if begin != 0 {
        assert false;  // swapping with a spare front block
      } else {
        ShowsLength(blocks, img);
        ghost var was := Held(blocks);
        var last := blocks[(end - 1) / DEFAULT_SIZE];
        ExtendFront(last);
        assert blocks[(end - 1) / DEFAULT_SIZE] == last;
        ghost var moved := RemoveLast();
        RotatedByBlock(old(Contents()), Contents(), moved);
        Cancel(Held(blocks), was, multiset{last});
      }
    }

    method RelinkSelfBackLoop(n0: nat) returns (n: nat)
      requires Live() && begin == 0 && end % DEFAULT_SIZE == 0 && 0 < n0 < end && end + DEFAULT_SIZE < NPOS
      modifies this
      ensures Live() && begin == 0 && end == old(end) && 0 < n <= DEFAULT_SIZE && n <= n0
      ensures |old(Contents())| == old(end) && Contents() == RotateRight(old(Contents()), n0 - n)
      ensures Held(blocks) == old(Held(blocks))
    {
      hide Bytes, Contents, Shows, RotateLeft, RotateRight;
      NoRotation(Contents());
      n := n0;
      while n > DEFAULT_SIZE
        invariant Live() && begin == 0 && end == old(end) && 0 < n <= n0
        invariant Contents() == RotateRight(old(Contents()), n0 - n)
        invariant Held(blocks) == old(Held(blocks))
      {
        RelinkSelfBack();
        RotateRightTwice(old(Contents()), n0 - n, DEFAULT_SIZE);
        n := n - DEFAULT_SIZE;
      }
    }

    /** Room for the next byte before the contents: a spare back block or a new one. */
    method MakeSelfRoomFront(ghost rest: multiset<array<byte>>, ghost reach: set<array<byte>>)
      returns (ghost more: set<array<byte>>)
      requires Live() && Books(rest) && begin == 0 < end && end + DEFAULT_SIZE < NPOS && Within(blocks, reach)
      modifies this, mem`born
      ensures Live() && Books(rest) && OnlyFresh(old(mem.born), mem.born)
      ensures begin == DEFAULT_SIZE && end == old(end) + DEFAULT_SIZE && Contents() == old(Contents())
      ensures Within(blocks, more) && reach <= more && fresh(more - reach)
    {
      hide Bytes, Contents, Shows;
      more := reach;
      if (end - 1) / DEFAULT_SIZE < |blocks| - 1 {
        WithinTurned(blocks, reach);
        TurnBackToFront();
      } else {
        more := AllocateFront(rest, reach);
      }
    }

    ghost predicate CachedSelfBack(p: array<byte>, q: array<byte>)
      requires Live()
      reads this, blocks
    {
      && (end % DEFAULT_SIZE != 0 ==> p == blocks[(end - 1) / DEFAULT_SIZE])
      && (begin % DEFAULT_SIZE != 0 && begin < end ==> q == blocks[begin / DEFAULT_SIZE])
    }

    /** One turn of the byte loop. */
    method StepSelfBack(p0: array<byte>, q0: array<byte>, ghost rest: multiset<array<byte>>,
                        ghost reach: set<array<byte>>)
      returns (p: array<byte>, q: array<byte>, ghost more: set<array<byte>>)
      requires Live() && Books(rest) && begin < end && end + DEFAULT_SIZE < NPOS && CachedSelfBack(p0, q0)
      requires Within(blocks, reach)
      modifies this, mem`born, reach
      ensures Live() && Books(rest) && OnlyFresh(old(mem.born), mem.born) && CachedSelfBack(p, q)
      ensures Within(blocks, more) && reach <= more && fresh(more - reach)
      ensures end - begin == old(end - begin) && (old(begin) <= DEFAULT_SIZE ==> begin <= DEFAULT_SIZE)
      ensures Contents() == RotateRight(old(Contents()), 1)
    {
      hide Bytes, Contents, Shows, Books, Distinct, RotateRight;
      p, q, more := p0, q0, reach;
      if begin == 0 {
        more := MakeSelfRoomFront(rest, reach);
        q := blocks[(begin - 1) / DEFAULT_SIZE];
        p := blocks[(end - 1) / DEFAULT_SIZE];
      }
      if begin % DEFAULT_SIZE == 0 {
        q := blocks[(begin - 1) / DEFAULT_SIZE];
      }
      if end % DEFAULT_SIZE == 0 {
        p := blocks[(end - 1) / DEFAULT_SIZE];
      }
      TurnLastByte(p, q, rest);
    }

    /** The byte loop. */
    method TurnBackLoop(n0: nat, ghost rest: multiset<array<byte>>)
      requires Live() && Books(rest) && begin <= DEFAULT_SIZE && n0 <= end - begin && begin < end
      requires (end - begin) + 2 * DEFAULT_SIZE < NPOS
      modifies this, mem`born, blocks
      ensures Live() && Books(rest) && OnlyFresh(old(mem.born), mem.born)
      ensures n0 <= |old(Contents())| && Contents() == RotateRight(old(Contents()), n0)
    {
      hide Bytes, Contents, Shows, Books, Within, SetOf, RotateLeft, RotateRight;
      NoRotation(Contents());
      var n: nat := n0;
      var q, p := blocks[begin / DEFAULT_SIZE], blocks[(end - 1) / DEFAULT_SIZE];
      ghost var reach := SetOf(blocks);
      ghost var was := reach;
      while n > 0
        invariant Live() && Books(rest) && OnlyFresh(old(mem.born), mem.born) && CachedSelfBack(p, q)
        invariant begin <= DEFAULT_SIZE && end - begin == old(end - begin) && n <= n0
        invariant Within(blocks, reach) && was <= reach && fresh(reach - was)
        invariant |old(Contents())| == old(end - begin) && Contents() == RotateRight(old(Contents()), n0 - n)
      {
        p, q, reach := StepSelfBack(p, q, rest, reach);
        RotateRightTwice(old(Contents()), n0 - n, 1);
        n := n - 1;
      }
    }

    /** The aligned part: prologue and block loop. */
    method AlignedSelfBack(n0: nat, ghost rest: multiset<array<byte>>) returns (n: nat)
      requires Live() && Books(rest) && begin < DEFAULT_SIZE && 0 < n0 < end - begin && end + DEFAULT_SIZE < NPOS
      modifies this, blocks
      ensures Live() && begin < DEFAULT_SIZE && 0 < n <= n0 && end - begin == old(end - begin)
      ensures |old(Contents())| == old(end - begin) && Contents() == RotateRight(old(Contents()), n0 - n)
      ensures Held(blocks) == old(Held(blocks))
    {
      hide Bytes, Contents, Shows, Books, RotateLeft, RotateRight;
      NoRotation(Contents());
      n := n0;
      if (end - begin) % DEFAULT_SIZE == 0 && n > 2 * DEFAULT_SIZE {
        var last := (end - 1) % DEFAULT_SIZE;
        assert end % DEFAULT_SIZE == if last + 1 < DEFAULT_SIZE then last + 1 else 0;
        n := n - (if last + 1 < DEFAULT_SIZE then last + 1 else 0);
        ghost var moved := AlignSelfBack(rest);
        ghost var m := n;
        n := RelinkSelfBackLoop(n);
        RotateRightTwice(old(Contents()), moved, m - n);
      }
    }

    method TurnBack(n0: nat, ghost rest: multiset<array<byte>>)
      requires Live() && Books(rest) && begin < DEFAULT_SIZE && 0 < n0 < end - begin
      requires (end - begin) + 3 * DEFAULT_SIZE < NPOS
      modifies this, mem`born, blocks
      ensures Live() && Books(rest) && OnlyFresh(old(mem.born), mem.born)
      ensures n0 <= |old(Contents())| && Contents() == RotateRight(old(Contents()), n0)
    {
      hide Bytes, Contents, Shows, RotateRight;
      ghost var was := blocks;
      var n := AlignedSelfBack(n0, rest);
      SameBlocks(was, blocks);
      TurnBackLoop(n, rest);
      RotateRightTwice(old(Contents()), n0 - n, n);
    }

    /** `self_pop_back_to_front_n`. */
    method SelfPopBackToFront(n: nat, ghost rest: multiset<array<byte>>)
      requires Rep() && Books(rest)
      modifies this, mem, blocks
      ensures Rep() && Books(rest) && OnlyFresh(old(mem.born), mem.born)
      ensures Contents() == if n < |old(Contents())| then RotateRight(old(Contents()), n) else old(Contents())
    {
      hide Bytes, Contents, Shows, Books, RotateRight, RotateLeft;
      NoRotation(Contents());
      Check();
      if begin == NPOS || n == 0 || n >= end - begin {
        return;
      }
      TurnBack(n, rest);
      Check();
      Shrink(rest);
    }

    // ----- transfer within one buffer, front to back -----

    /** The copying step within one buffer. */
    method TurnFirstByte(p: array<byte>, q: array<byte>, ghost rest: multiset<array<byte>>)
      requires Live() && Books(rest) && begin < end < |blocks| * DEFAULT_SIZE && end + 1 < NPOS
      requires p == blocks[begin / DEFAULT_SIZE] && q == blocks[end / DEFAULT_SIZE]
      modifies this`begin, this`end, this`img, q
      ensures Live() && begin == old(begin) + 1 && end == old(end) + 1
      ensures Contents() == RotateLeft(old(Contents()), 1)
    {
      assert Shows([], []);
      hide Distinct, Shows, Books, Contents, RotateLeft;
      var v, kept := PeekFirst(p);
      BooksAreDistinct(rest);
      PutBack(q, v, [], []);
      ghost var x := SkipFirst();
      TurnedLeft(old(Contents()), Contents(), kept, v, x);
    }

    method AlignSelfFront(ghost rest: multiset<array<byte>>) returns (ghost moved: nat)
      requires Live() && Books(rest) && end % DEFAULT_SIZE == begin % DEFAULT_SIZE
      requires begin + 2 * DEFAULT_SIZE <= end && end + DEFAULT_SIZE < NPOS
      modifies this`begin, this`end, this`img, blocks
      ensures Live() && end % DEFAULT_SIZE == 0 == begin % DEFAULT_SIZE
      ensures moved == if old(begin) % DEFAULT_SIZE == 0 then 0 else DEFAULT_SIZE - old(begin) % DEFAULT_SIZE
      ensures begin == old(begin) + moved && end == old(end) + moved
      ensures moved <= |old(Contents())| && Contents() == RotateLeft(old(Contents()), moved)
    {
      hide Bytes, Books, Distinct, Shows, Contents, RotateLeft, RotateRight;
      NoRotation(Contents());
      moved := 0;
      var first := begin % DEFAULT_SIZE;
      var p, q := blocks[begin / DEFAULT_SIZE], blocks[(end - 1) / DEFAULT_SIZE];
      assert first != 0 ==> (end - 1) / DEFAULT_SIZE == end / DEFAULT_SIZE;
      while first % DEFAULT_SIZE != 0
        invariant Live()
        invariant old(begin) % DEFAULT_SIZE <= first <= DEFAULT_SIZE && first == old(begin) % DEFAULT_SIZE + moved
        invariant old(begin) % DEFAULT_SIZE == 0 ==> moved == 0
        invariant end == old(end) + moved && begin == old(begin) + moved
        invariant moved <= |old(Contents())| && Contents() == RotateLeft(old(Contents()), moved)
        decreases DEFAULT_SIZE - first
      {
        TurnFirstByte(p, q, rest);
        RotateLeftTwice(old(Contents()), moved, 1);
        moved := moved + 1;
        first := first + 1;
      }
    }

    /** One turn of the block loop: three branches, the last two in RemoveFirst. */
    method RelinkSelfFront()
      requires Live() && begin % DEFAULT_SIZE == 0 == end % DEFAULT_SIZE && begin + DEFAULT_SIZE <= end
      requires end + DEFAULT_SIZE < NPOS
      modifies this
      ensures Live() && begin % DEFAULT_SIZE == 0 == end % DEFAULT_SIZE
      ensures end - begin == old(end - begin) && end <= old(end) + DEFAULT_SIZE
      ensures Contents() == RotateLeft(old(Contents()), DEFAULT_SIZE)
      ensures Held(blocks) == old(Held(blocks))
    {
      hide Bytes, Contents, Shows, RotateLeft;
      ShowsLength(blocks, img);
      ghost var was := Held(blocks);
      ghost var moved;
      var first := blocks[begin / DEFAULT_SIZE];
      if end != |blocks| * DEFAULT_SIZE {
        var temp := blocks[end / DEFAULT_SIZE];
        PlaceBack(first);
        moved := ExchangeFirst(temp);
      } else {
        ExtendBack(first);
        moved := RemoveFirst();
      }
      Cancel(Held(blocks), was, multiset{first});
      RotatedLeftByBlock(old(Contents()), Contents(), moved);
    }

    method RelinkSelfFrontLoop(n0: nat) returns (n: nat)
      requires Live() && begin % DEFAULT_SIZE == 0 == end % DEFAULT_SIZE && 0 < n0 < end - begin
      requires end + n0 < NPOS
      modifies this
      ensures Live() && begin < end && end - begin == old(end - begin) && 0 < n <= DEFAULT_SIZE && n <= n0
      ensures end + n <= old(end) + n0
      ensures |old(Contents())| == old(end - begin) && Contents() == RotateLeft(old(Contents()), n0 - n)
      ensures Held(blocks) == old(Held(blocks))
    {
      n := n0;
      hide Bytes, Contents, Shows, RotateLeft, RotateRight;
      NoRotation(Contents());
      while n > DEFAULT_SIZE
        invariant Live() && begin % DEFAULT_SIZE == 0 == end % DEFAULT_SIZE
        invariant end - begin == old(end - begin) && 0 < n <= n0 && end + n <= old(end) + n0
        invariant |old(Contents())| == old(end - begin) && Contents() == RotateLeft(old(Contents()), n0 - n)
        invariant Held(blocks) == old(Held(blocks))
      {
        RelinkSelfFront();
        RotateLeftTwice(old(Contents()), n0 - n, DEFAULT_SIZE);
        n := n - DEFAULT_SIZE;
      }
    }

    /** Room for the next byte behind the contents: a spare front block or a new one. */
    method MakeSelfRoomBack(ghost rest: multiset<array<byte>>, ghost reach: set<array<byte>>)
      returns (ghost more: set<array<byte>>)
      requires Live() && Books(rest) && begin < end == |blocks| * DEFAULT_SIZE && Within(blocks, reach)
      modifies this, mem`born
      ensures Live() && Books(rest) && OnlyFresh(old(mem.born), mem.born)
      ensures begin % DEFAULT_SIZE == old(begin) % DEFAULT_SIZE && end - begin == old(end - begin) && end <= old(end)
      ensures end % DEFAULT_SIZE == 0 && end < |blocks| * DEFAULT_SIZE
      ensures begin < end && blocks[begin / DEFAULT_SIZE] == old(blocks[begin / DEFAULT_SIZE])
      ensures Contents() == old(Contents())
      ensures Within(blocks, more) && reach <= more && fresh(more - reach)
    {
      hide Bytes, Contents, Shows;
      more := reach;
      if begin >= DEFAULT_SIZE {
        WithinTurned(blocks, reach);
        TurnFrontToBack();
      } else {
        more := AllocateBack(rest, reach);
      }
    }

    ghost predicate CachedSelfFront(p: array<byte>, q: array<byte>)
      requires Live()
      reads this, blocks
    {
      && (begin % DEFAULT_SIZE != 0 && begin < end ==> p == blocks[begin / DEFAULT_SIZE])
      && (end % DEFAULT_SIZE != 0 ==> q == blocks[end / DEFAULT_SIZE])
    }

    /** One turn of the byte loop. */
    method StepSelfFront(p0: array<byte>, q0: array<byte>, ghost rest: multiset<array<byte>>,
                         ghost reach: set<array<byte>>)
      returns (p: array<byte>, q: array<byte>, ghost more: set<array<byte>>)
      requires Live() && Books(rest) && begin < end && end + 1 < NPOS && CachedSelfFront(p0, q0)
      requires Within(blocks, reach)
      modifies this, mem`born, reach
      ensures Live() && Books(rest) && OnlyFresh(old(mem.born), mem.born) && CachedSelfFront(p, q)
      ensures Within(blocks, more) && reach <= more && fresh(more - reach)
      ensures end - begin == old(end - begin) && end <= old(end) + 1
      ensures Contents() == RotateLeft(old(Contents()), 1)
    {
      hide Bytes, Contents, Shows, Books, Distinct, RotateLeft;
      p, q, more := p0, q0, reach;
      if end == |blocks| * DEFAULT_SIZE {
        more := MakeSelfRoomBack(rest, reach);
      }
      if end % DEFAULT_SIZE == 0 {
        q := blocks[end / DEFAULT_SIZE];
      }
      if begin % DEFAULT_SIZE == 0 {
        p := blocks[begin / DEFAULT_SIZE];
      }
      TurnFirstByte(p, q, rest);
    }

    /** The byte loop. */
    method TurnFrontLoop(n0: nat, ghost rest: multiset<array<byte>>)
      requires Live() && Books(rest) && n0 <= end - begin && begin < end && end + n0 < NPOS
      modifies this, mem`born, blocks
      ensures Live() && Books(rest) && OnlyFresh(old(mem.born), mem.born)
      ensures n0 <= |old(Contents())| && Contents() == RotateLeft(old(Contents()), n0)
    {
      hide Bytes, Contents, Shows, Books, RotateLeft, Within, SetOf, RotateRight;
      NoRotation(Contents());
      var n: nat := n0;
      var p, q := blocks[begin / DEFAULT_SIZE], blocks[(end - 1) / DEFAULT_SIZE];
      ghost var reach := SetOf(blocks);
      ghost var was := reach;
      while n > 0
        invariant Live() && Books(rest) && OnlyFresh(old(mem.born), mem.born) && CachedSelfFront(p, q)
        invariant end - begin == old(end - begin) && n <= n0 && end + n < NPOS
        invariant Within(blocks, reach) && was <= reach && fresh(reach - was)
        invariant |old(Contents())| == old(end - begin) && Contents() == RotateLeft(old(Contents()), n0 - n)
      {
        p, q, reach := StepSelfFront(p, q, rest, reach);
        RotateLeftTwice(old(Contents()), n0 - n, 1);
        n := n - 1;
      }
    }

    /** The aligned part: prologue and block loop. */
    method AlignedSelfFront(n0: nat, ghost rest: multiset<array<byte>>) returns (n: nat)
      requires Live() && Books(rest) && 0 < n0 < end - begin && end + n0 + DEFAULT_SIZE < NPOS
      modifies this, blocks
      ensures Live() && begin < end && 0 < n <= n0 && end - begin == old(end - begin) && end + n <= old(end) + n0
      ensures |old(Contents())| == old(end - begin) && Contents() == RotateLeft(old(Contents()), n0 - n)
      ensures Held(blocks) == old(Held(blocks))
    {
      hide Bytes, Contents, Shows, Books, RotateLeft, RotateRight;
      NoRotation(Contents());
      n := n0;
      SameResidue(end, begin);
      if (end - begin) % DEFAULT_SIZE == 0 && n > 2 * DEFAULT_SIZE {
        var first := begin % DEFAULT_SIZE;
        n := n - (if first % DEFAULT_SIZE == 0 then 0 else DEFAULT_SIZE - first);
        ghost var moved := AlignSelfFront(rest);
        ghost var m := n;
        n := RelinkSelfFrontLoop(n);
        RotateLeftTwice(old(Contents()), moved, m - n);
      }
    }

    method TurnFront(n0: nat, ghost rest: multiset<array<byte>>)
      requires Live() && Books(rest) && 0 < n0 < end - begin && end + n0 + DEFAULT_SIZE < NPOS
      modifies this, mem`born, blocks
      ensures Live() && Books(rest) && OnlyFresh(old(mem.born), mem.born)
      ensures n0 <= |old(Contents())| && Contents() == RotateLeft(old(Contents()), n0)
    {
      hide Bytes, Contents, Shows, RotateLeft;
      ghost var was := blocks;
      var n := AlignedSelfFront(n0, rest);
      SameBlocks(was, blocks);
      TurnFrontLoop(n, rest);
      RotateLeftTwice(old(Contents()), n0 - n, n);
    }

    /** `self_pop_front_to_back_n`. */
    method SelfPopFrontToBack(n: nat, ghost rest: multiset<array<byte>>)
      requires Rep() && Books(rest)
      modifies this, mem, blocks
      ensures Rep() && Books(rest) && OnlyFresh(old(mem.born), mem.born)
      ensures Contents() == if n < |old(Contents())| then RotateLeft(old(Contents()), n) else old(Contents())
    {
      hide Bytes, Contents, Shows, Books, RotateLeft, RotateRight;
      NoRotation(Contents());
      Check();
      if begin == NPOS || n == 0 || n >= end - begin {
        return;
      }
      TurnFront(n, rest);
      Check();
      Shrink(rest);
    }

    // ----- the two public transfers -----

    /** `pop_back_to_other_front_n`: two handles may share one buffer. */
    method PopBackToOtherFront(other: Buffer, n: nat, ghost rest: multiset<array<byte>>)
      requires other.mem == mem && Rep() && other.Rep()
      requires if this == other then Books(rest) else Books(rest + Held(other.blocks))
      requires this != other ==> |Contents()| + |other.Contents()| <= MAX_BYTES
      modifies this, other, mem, blocks, other.blocks
      ensures Rep() && other.Rep() && OnlyFresh(old(mem.born), mem.born)
      ensures if this == other then Books(rest) else Books(rest + Held(other.blocks))
      ensures var c, d := old(Contents()), old(other.Contents());
              var k := |c| - Min(n, |c|);
              if this == other then Contents() == if n < |c| then RotateRight(c, n) else c
              else Contents() == c[..k] && other.Contents() == c[k..] + d
    {
      hide Bytes, Contents, Shows, Books, RotateRight;
      if this == other {
        SelfPopBackToFront(n, rest);
      } else {
        OtherPopBackToFront(other, n, rest);
      }
    }

    /** `pop_front_to_other_back_n`. */
    method PopFrontToOtherBack(other: Buffer, n: nat, ghost rest: multiset<array<byte>>)
      requires other.mem == mem && Rep() && other.Rep()
      requires if this == other then Books(rest) else Books(rest + Held(other.blocks))
      requires this != other ==> |Contents()| + |other.Contents()| <= MAX_BYTES
      modifies this, other, mem, blocks, other.blocks
      ensures Rep() && other.Rep() && OnlyFresh(old(mem.born), mem.born)
      ensures if this == other then Books(rest) else Books(rest + Held(other.blocks))
      ensures var c, d := old(Contents()), old(other.Contents());
              var m := Min(n, |c|);
              if this == other then Contents() == if n < |c| then RotateLeft(c, n) else c
              else Contents() == c[m..] && other.Contents() == d + c[..m]
    {
      hide Bytes, Contents, Shows, Books, RotateLeft;
      if this == other {
        SelfPopFrontToBack(n, rest);
      } else {
        OtherPopFrontToBack(other, n, rest);
      }
    }
  }

  /** How many bytes the copying `pop_back_n` takes when the contents start at `begin`. */
  function PoppedBack(begin: nat, len: nat, size: nat): nat {
    if size > len then len else if size > begin then size - begin else 0
  }

  /** How many bytes `pop_front_n` and `get_n` copy from position n of the contents. */
  function CopiedFrom(begin: nat, n: nat, len: nat, size: nat): nat
    requires n <= len
  {
    if begin + n + size == 0 then len else Min(size, len - n)
  }

  /** The copying `pop_back_n` takes what was asked for, or all there is, exactly when the contents start at offset 0 or
      the size is 0 or larger than the contents. */
  lemma PoppedBackIsIntended(begin: nat, len: nat, size: nat)
    ensures PoppedBack(begin, len, size) == Min(size, len) <==> begin == 0 || size == 0 || size > len
  {
  }

  /** `pop_front_n` and `get_n` copy what was asked for, or all there is, except for size 0 at offset 0. */
  lemma CopiedFromIsIntended(begin: nat, n: nat, len: nat, size: nat)
    requires n <= len
    ensures CopiedFrom(begin, n, len, size) == Min(size, len - n) <==> begin + n + size > 0 || len == 0
  {
  }
}
