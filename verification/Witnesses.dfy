/** Runs in which the code does not do what is meant. */
module Witnesses {
  import opened AsyncIo
  import opened Blocks
  import opened IoBuffer
  import opened IoLaws
  import opened Options
  import opened Pool

  /** After pushing 1, 2, 3 and popping one byte in front, the copying `pop_back_n` of one byte returns nothing. */
  method PopBackReturnsNothing() returns (front: seq<byte>, back: seq<byte>, left: seq<byte>)
    ensures front == [1] && back == [] && left == [2, 3]
  {
    hide Bytes, Shows, Held, Buffer.Rep, Buffer.Books, Buffer.Contents;
    var mem := new MemContainer(0);
    var b := new Buffer(mem);
    NothingHeld(b);
    b.PushBackN(Some([1, 2, 3]), multiset{});
    RepSpans(b);
    assert b.Contents() == [1, 2, 3];
    front := b.PopFrontN(1, multiset{});
    RepSpans(b);
    SplitOff(front, b.Contents());
    back := b.PopBackN(1, multiset{});
    RepSpans(b);
    assert b.Contents() + [] == b.Contents();
    left := b.GetN(0, 2);
  }

  /** After pushing 1, 2, 3, the copying `pop_front_n` of no byte returns all of them. */
  method PopFrontReturnsAll() returns (front: seq<byte>)
    ensures front == [1, 2, 3]
  {
    hide Bytes, Shows, Held, Buffer.Rep, Buffer.Books, Buffer.Contents;
    var mem := new MemContainer(0);
    var b := new Buffer(mem);
    NothingHeld(b);
    b.PushBackN(Some([1, 2, 3]), multiset{});
    RepSpans(b);
    assert b.Contents() == [1, 2, 3];
    front := b.PopFrontN(0, multiset{});
    RepSpans(b);
    assert front == (front + b.Contents())[..3];
  }

  lemma NothingHeld(b: Buffer)
    requires b.mem.Valid() && b.mem.container == [] && b.mem.freed == b.mem.born == multiset{}
    requires b.blocks == []
    ensures b.Books(multiset{})
  {
  }

  lemma SplitOff(a: seq<byte>, b: seq<byte>)
    requires a + b == [1, 2, 3] && |a| == 1
    ensures a == [1] && b == [2, 3]
  {
    assert a == (a + b)[..1] && b == (a + b)[1..];
  }

  /** A fresh io, managed by an event processor. */
  method FreshIo() returns (io: Io, ghost rest: multiset<array<byte>>)
    ensures fresh(io) && fresh(io.writeBuffer) && fresh(io.writeBuffer.mem) && io.writeBuffer.mem.born == multiset{}
    ensures io.Accounts() && io.writeBuffer.Rep() && io.writeBuffer.Books(rest)
    ensures io.valid && io.managed && io.writable && io.writeList == [] && io.sent == []
    ensures io.writeBuffer.begin == NPOS && io.writeBuffer.Contents() == []
  {
    hide Bytes, Shows, Held, Buffer.Rep, Buffer.Books, Buffer.Contents, Balanced, Prompt;
    var mem := new MemContainer(0);
    AllInPool(mem);
    io := new Io(3, true, true, true, true, mem, multiset{});
    io.Join();
    rest := multiset{} + Held(io.readBuffer.blocks);
    RepMeans(io.writeBuffer);
  }

  /** Its write operation of the bytes 1, 2 is in the buffer. */
  method FlushedIo() returns (io: Io, ghost rest: multiset<array<byte>>)
    ensures fresh(io) && fresh(io.writeBuffer) && fresh(io.writeBuffer.mem)
    ensures io.Accounts() && io.writeBuffer.Rep() && io.writeBuffer.Books(rest)
    ensures io.valid && io.writable && io.sent == []
    ensures io.writeBuffer.begin == 0 && io.writeBuffer.Contents() == [1, 2]
  {
    hide Bytes, Shows, Held, Buffer.Rep, Buffer.Books, Buffer.Contents, Balanced, Prompt, Io.Accounts, OpData, Sizes;
    io, rest := FreshIo();
    var op := WriteOp(0, [1, 2]);
    OneOp(op);
    RepSpans(io.writeBuffer);
    var ok, wakes := io.Register(op, None);
    assert io.writeList == [op];
    io.WriteFlush(rest);
    RepMeans(io.writeBuffer);
  }

  /** An operation of the bytes 1, 2 and a kernel that takes one byte at a time: it is sent 1 twice. */
  method DirectWriteSendsTwice() returns (stop: Option<Errno>, ghost buffered: seq<byte>, ghost sent: seq<byte>)
    ensures stop == None && buffered == [1, 2] && sent == [1, 1]
  {
    hide Bytes, Shows, Held, Buffer.Rep, Buffer.Books, Buffer.Contents, Balanced, Sends, Writes, StopOf,
         Handed, Io.Accounts;
    var io;
    ghost var rest;
    io, rest := FlushedIo();
    RepMeans(io.writeBuffer);
    buffered := io.writeBuffer.Contents();
    TwoAccepts();
    ghost var img := io.writeBuffer.img;
    ghost var writes, k;
    stop, writes, k := io.DirectWrite([Accept(1), Accept(1)], rest);
    sent := io.sent;
    TwoSent(img, sent);
  }

  lemma AllInPool(mem: MemContainer)
    requires mem.container == [] && mem.freed == mem.born == multiset{}
    ensures Held(mem.container) + mem.freed + multiset{} == mem.born
  {
  }

  lemma OneOp(op: WriteOp)
    ensures Sizes([op]) == |op.data| && OpData([op]) == op.data && [] + [op] == [op] && [] + op.data == op.data
  {
    SizesOne(op);
    assert [op][1..] == [] && op.data + [] == op.data;
  }

  lemma TwoAccepts()
    ensures Writes([Accept(1), Accept(1)], 0, 2) == [1, 1] && StopOf([Accept(1), Accept(1)], 0, 2) == None
  {
    var kernel := [Accept(1), Accept(1)];
    assert kernel[1..] == [Accept(1)] && kernel[1..][1..] == [];
    AcceptsFirst(kernel, 0, 2, 0);
    AcceptsFirst(kernel[1..], 1, 2, 0);
    AcceptsNone([], 2, 0);
  }

  lemma TwoSent(img: seq<seq<byte>>, sent: seq<byte>)
    requires IsImage(img) && |img| > 0 && Bytes(img, 0, 2) == [1, 2] && Sends(img, 0, 2, [1, 1], [], sent)
    ensures sent == [1, 1]
  {
    assert [1, 1][1..] == [1] && [1][1..] == [];
    BytesAt(img, 0, 2, 0);
    assert img[0][..1] == [1];
    assert Handed(img, 0, [1, 1]) == Chunk(img, 0, 1) + (Chunk(img, 1, 1) + Handed(img, 2, []));
  }
}
