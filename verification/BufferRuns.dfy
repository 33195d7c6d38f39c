/** Arbitrary runs of operations on any number of buffers that share one pool. */
module BufferRuns {
  import opened Blocks
  import opened IoBuffer
  import opened Options
  import opened Pool

  // ----- the specification: byte sequences, and what has been returned from each -----

  datatype Op =
    | PushBack(i: nat, src: Option<seq<byte>>)
    | PushFront(i: nat, src: Option<seq<byte>>)
    | DropBack(i: nat, n: nat)
    | DropFront(i: nat, n: nat)
    | PopBack(i: nat, n: nat)
    | PopFront(i: nat, n: nat)
    | Get(i: nat, at: nat)
    | GetN(i: nat, at: nat, n: nat)
    | Set(i: nat, at: nat, v: byte)
    | BackToFront(i: nat, j: nat, n: nat)
    | FrontToBack(i: nat, j: nat, n: nat)

  datatype Model = Model(bufs: seq<seq<byte>>, returned: seq<seq<byte>>)

  function Given(src: Option<seq<byte>>): seq<byte> {
    if src.Some? then src.value else []
  }

  /** The handles exist, positions are of type size_t, and a copy from the front or the middle asks for at least one
      byte and for no absurd number of bytes. */
  predicate Fits(op: Op, n: nat) {
    && op.i < n
    && (op.BackToFront? || op.FrontToBack? ==> op.j < n)
    && (op.PopFront? || op.GetN? ==> 1 <= op.n <= MAX_BYTES)
    && (op.Get? || op.GetN? ==> op.at <= NPOS)
  }

  predicate Single(op: Op) {
    !op.BackToFront? && !op.FrontToBack?
  }

  /** What an operation on one buffer leaves there, and what it hands to the caller. */
  function Left(op: Op, c: seq<byte>): seq<byte>
    requires Single(op)
  {
    match op
    case PushBack(_, src) => c + Given(src)
    case PushFront(_, src) => Given(src) + c
    case DropBack(_, n) => c[..|c| - Min(n, |c|)]
    case DropFront(_, n) => c[Min(n, |c|)..]
    case PopBack(_, n) => c[..|c| - Min(n, |c|)]
    case PopFront(_, n) => c[Min(n, |c|)..]
    case Set(_, at, v) => if at < |c| then c[at := v] else c
    case _ => c
  }

  function Taken(op: Op, c: seq<byte>): seq<byte>
    requires Single(op)
  {
    match op
    case PopBack(_, n) => c[|c| - Min(n, |c|)..]
    case PopFront(_, n) => c[..Min(n, |c|)]
    case Get(_, at) => if at < |c| then [c[at]] else []
    case GetN(_, at, n) => if at < |c| then c[at..at + Min(n, |c| - at)] else []
    case _ => []
  }

  /** How an operation on a buffer of so many bytes turns out: the copying pop from the back takes all when it is asked
      for more than there is, and may otherwise fall short of what it is asked for by less than a block. */
  predicate Outcome(op: Op, did: Op, len: nat) {
    if !op.PopBack? then did == op
    else
      && did.PopBack? && did.i == op.i
      && if op.n > len then did.n == len else did.n <= op.n < did.n + DEFAULT_SIZE
  }

  function Rotated(op: Op, c: seq<byte>): (r: seq<byte>)
    requires !Single(op)
    ensures |r| == |c|
  {
    if op.n >= |c| then c
    else if op.BackToFront? then RotateRight(c, op.n) else RotateLeft(c, op.n)
  }

  /** What a transfer leaves in its source and in its destination. */
  function Source(op: Op, c: seq<byte>): seq<byte>
    requires !Single(op)
  {
    if op.BackToFront? then c[..|c| - Min(op.n, |c|)] else c[Min(op.n, |c|)..]
  }

  function Destination(op: Op, c: seq<byte>, d: seq<byte>): seq<byte>
    requires !Single(op)
  {
    if op.BackToFront? then c[|c| - Min(op.n, |c|)..] + d else d + c[..Min(op.n, |c|)]
  }

  function After(op: Op, cs: seq<seq<byte>>): (r: seq<seq<byte>>)
    requires Fits(op, |cs|)
    ensures |r| == |cs|
  {
    var c := cs[op.i];
    if Single(op) then cs[op.i := Left(op, c)]
    else if op.i == op.j then cs[op.i := Rotated(op, c)]
    else cs[op.i := Source(op, c)][op.j := Destination(op, c, cs[op.j])]
  }

  function Step(op: Op, m: Model): (r: Model)
    requires |m.bufs| == |m.returned| && Fits(op, |m.bufs|)
    ensures |r.bufs| == |r.returned| == |m.bufs|
  {
    var taken := if Single(op) then Taken(op, m.bufs[op.i]) else [];
    Model(After(op, m.bufs), m.returned[op.i := m.returned[op.i] + taken])
  }

  predicate AllFit(script: seq<Op>, n: nat) {
    forall k :: 0 <= k < |script| ==> Fits(script[k], n)
  }

  function Run(script: seq<Op>, m: Model): (r: Model)
    requires |m.bufs| == |m.returned| && AllFit(script, |m.bufs|)
    ensures |r.bufs| == |r.returned| == |m.bufs|
  {
    if script == [] then m else Step(script[|script| - 1], Run(script[..|script| - 1], m))
  }

  /** Total length. */
  function Total(bufs: seq<seq<byte>>): nat {
    if bufs == [] then 0 else Total(bufs[..|bufs| - 1]) + |bufs[|bufs| - 1]|
  }

  lemma {:induction false} TotalUpdate(bufs: seq<seq<byte>>, i: nat, c: seq<byte>)
    requires i < |bufs|
    ensures Total(bufs[i := c]) + |bufs[i]| == Total(bufs) + |c|
  {
    var n := |bufs| - 1;
    if i < n {
      assert bufs[i := c][..n] == bufs[..n][i := c];
      TotalUpdate(bufs[..n], i, c);
    } else {
      assert bufs[i := c][..n] == bufs[..n];
    }
  }

  lemma {:induction false} TotalAtLeast(bufs: seq<seq<byte>>, i: nat, j: nat)
    requires i < |bufs| && j < |bufs| && i != j
    ensures |bufs[i]| + |bufs[j]| <= Total(bufs)
  {
    TotalUpdate(bufs, i, []);
    TotalUpdate(bufs[i := []], j, []);
  }

  /** Bytes that a script brings in. */
  function Brought(script: seq<Op>): nat {
    if script == [] then 0
    else
      var op := script[|script| - 1];
      Brought(script[..|script| - 1]) + if op.PushBack? || op.PushFront? then |Given(op.src)| else 0
  }

  // ----- the ledger over all buffers -----

  ghost function AllHeld(lists: seq<seq<array<byte>>>): multiset<array<byte>> {
    if lists == [] then multiset{} else AllHeld(lists[..|lists| - 1]) + Held(lists[|lists| - 1])
  }

  lemma {:induction false} AllHeldSplit(lists: seq<seq<array<byte>>>, i: nat)
    requires i < |lists|
    ensures AllHeld(lists) == AllHeld(lists[i := []]) + Held(lists[i])
  {
    var n := |lists| - 1;
    if i < n {
      assert lists[i := []][..n] == lists[..n][i := []];
      AllHeldSplit(lists[..n], i);
    } else {
      assert lists[i := []][..n] == lists[..n];
    }
  }

  lemma AllHeldSplit2(lists: seq<seq<array<byte>>>, i: nat, j: nat)
    requires i < |lists| && j < |lists| && i != j
    ensures AllHeld(lists) == AllHeld(lists[i := []][j := []]) + Held(lists[i]) + Held(lists[j])
  {
    AllHeldSplit(lists, i);
    AllHeldSplit(lists[i := []], j);
  }

  ghost function Lists(bufs: seq<Buffer>): (lists: seq<seq<array<byte>>>)
    reads bufs
    ensures |lists| == |bufs|
    ensures forall i {:trigger lists[i]} :: 0 <= i < |bufs| ==> lists[i] == bufs[i].blocks
  {
    if bufs == [] then [] else Lists(bufs[..|bufs| - 1]) + [bufs[|bufs| - 1].blocks]
  }

  ghost predicate Stands(b: Buffer, mem: MemContainer, c: seq<byte>)
    reads b, b.blocks
  {
    b.mem == mem && b.Rep() && b.Contents() == c
  }

  /** The arrays that the buffers refer to. */
  ghost function Arrays(bufs: seq<Buffer>): (s: set<array<byte>>)
    reads bufs
    ensures forall k, p | 0 <= k < |bufs| && 0 <= p < |bufs[k].blocks| :: bufs[k].blocks[p] in s
  {
    set k, p | 0 <= k < |bufs| && 0 <= p < |bufs[k].blocks| :: bufs[k].blocks[p]
  }

  ghost predicate AllStand(bufs: seq<Buffer>, mem: MemContainer, cs: seq<seq<byte>>)
    requires |cs| == |bufs|
    reads bufs, Arrays(bufs)
  {
    forall i :: 0 <= i < |bufs| ==> Stands(bufs[i], mem, cs[i])
  }

  predicate AllDifferent(bufs: seq<Buffer>) {
    forall i, j :: 0 <= i < j < |bufs| ==> bufs[i] != bufs[j]
  }

  /** All buffers are as the model says; every block is in one buffer, in the pool, or freed. */
  ghost predicate World(bufs: seq<Buffer>, mem: MemContainer, m: Model)
    reads mem, bufs, Arrays(bufs)
  {
    && |m.bufs| == |m.returned| == |bufs|
    && AllDifferent(bufs)
    && AllStand(bufs, mem, m.bufs)
    && Total(m.bufs) <= MAX_BYTES
    && Ledger(bufs, mem)
  }

  ghost predicate Ledger(bufs: seq<Buffer>, mem: MemContainer)
    reads mem, bufs
  {
    mem.Valid() && AllHeld(Lists(bufs)) + Held(mem.container) + mem.freed == mem.born
  }

  /** The blocks of all buffers but two. */
  ghost function Others(lists: seq<seq<array<byte>>>, i: nat, j: nat): multiset<array<byte>>
    requires i < |lists| && j < |lists|
  {
    AllHeld(lists[i := []][j := []])
  }

  /** What an operation on buffers i and j may touch, no other buffer holds. */
  lemma OthersApart(lists: seq<seq<array<byte>>>, container: seq<array<byte>>, freed: multiset<array<byte>>,
                    born: multiset<array<byte>>, i: nat, j: nat, k: nat, p: nat)
    requires AllHeld(lists) + Held(container) + freed == born && Linear(born)
    requires i < |lists| && j < |lists| && k < |lists| && k != i && k != j && p < |lists[k]|
    ensures lists[k][p] !in lists[i] && lists[k][p] !in lists[j] && lists[k][p] !in container
  {
    var b := lists[k][p];
    var at := multiset(lists[k])[b];
    assert b in lists[k] && at >= 1;
    AllHeldSplit2(lists, i, k);
    AllHeldSplit2(lists, j, k);
    assert born[b] == 1;
    assert Held(lists[i])[b] == Held(lists[j])[b] == Held(container)[b] == 0;
  }

  lemma BooksFromLedger(bufs: seq<Buffer>, mem: MemContainer, i: nat, j: nat)
    requires i < |bufs| && j < |bufs| && bufs[i].mem == mem
    ensures i == j ==> (Ledger(bufs, mem) <==> bufs[i].Books(Others(Lists(bufs), i, j)))
    ensures i != j ==> (Ledger(bufs, mem) <==> bufs[i].Books(Others(Lists(bufs), i, j) + Held(bufs[j].blocks)))
  {
    var lists := Lists(bufs);
    if i == j {
      AllHeldSplit(lists, i);
      assert lists[i := []][i := []] == lists[i := []];
      assert Held(lists[i]) + Held(mem.container) + mem.freed + Others(lists, i, j)
          == AllHeld(lists) + Held(mem.container) + mem.freed;
    } else {
      AllHeldSplit2(lists, i, j);
      assert Held(lists[i]) + Held(mem.container) + mem.freed + (Others(lists, i, j) + Held(lists[j]))
          == AllHeld(lists) + Held(mem.container) + mem.freed;
    }
  }

  /** Operations that return bytes, carried out by the code. */
  predicate Returns(op: Op) {
    op.PopBack? || op.PopFront? || op.Get? || op.GetN?
  }

  method PerformReturning(b: Buffer, op: Op, ghost c: seq<byte>, ghost rest: multiset<array<byte>>)
      returns (out: seq<byte>, ghost did: Op)
    requires Returns(op) && Fits(op, op.i + 1) && Stands(b, b.mem, c) && b.Books(rest)
    modifies b, b.mem
    ensures Outcome(op, did, |c|) && Stands(b, b.mem, Left(did, c)) && out == Taken(did, c)
    ensures b.Books(rest) && b.mem.born == old(b.mem.born)
  {
    hide Bytes, Shows, Held;
    did := op;
    match op {
      case PopBack(_, n) =>
        out := b.PopBackN(n, rest);
        did := PopBack(op.i, |out|);
        assert c[|c| - |out|..] == out && c[..|c| - |out|] == b.Contents();
      case PopFront(_, n) =>
        out := b.PopFrontN(n, rest);
        assert c[..|out|] == out && c[|out|..] == b.Contents();
      case Get(_, at) =>
        var v := b.Get(at);
        out := if v.Some? then [v.value] else [];
      case GetN(_, at, n) => out := b.GetN(at, n);
    }
  }

  /** One operation on one buffer, carried out by the code. A caller of `set` looks at `size` first. */
  method PerformOne(b: Buffer, op: Op, ghost c: seq<byte>, ghost rest: multiset<array<byte>>)
      returns (out: seq<byte>, ghost did: Op)
    requires Single(op) && Fits(op, op.i + 1) && Stands(b, b.mem, c) && b.Books(rest)
    requires op.PushBack? || op.PushFront? ==> |c| + |Given(op.src)| <= MAX_BYTES
    modifies b, b.blocks, b.mem, b.mem.container
    ensures Outcome(op, did, |c|) && Stands(b, b.mem, Left(did, c)) && out == Taken(did, c)
    ensures b.Books(rest) && OnlyFresh(old(b.mem.born), b.mem.born)
  {
    hide Bytes, Shows, Held;
    out, did := [], op;
    match op {
      case PushBack(_, src) => b.PushBackN(src, rest);
      case PushFront(_, src) => b.PushFrontN(src, rest);
      case DropBack(_, n) => b.DropBackN(n, rest);
      case DropFront(_, n) => b.DropFrontN(n, rest);
      case Set(_, at, v) =>
        var size := b.Size();
        if at < size {
          var ok := b.Set(at, v, rest);
        }
      case PopBack(_, _) | PopFront(_, _) | Get(_, _) | GetN(_, _, _) => out, did := PerformReturning(b, op, c, rest);
    }
  }

  /** One transfer, carried out by the code. */
  method PerformTwo(a: Buffer, b: Buffer, op: Op, ghost c: seq<byte>, ghost d: seq<byte>,
                    ghost rest: multiset<array<byte>>)
    requires !Single(op) && Stands(a, a.mem, c) && Stands(b, a.mem, d)
    requires if a == b then a.Books(rest) else a.Books(rest + Held(b.blocks))
    requires a != b ==> |c| + |d| <= MAX_BYTES
    modifies a, b, a.mem, a.blocks, b.blocks
    ensures if a == b then Stands(a, a.mem, Rotated(op, c))
            else Stands(a, a.mem, Source(op, c)) && Stands(b, a.mem, Destination(op, c, d))
    ensures if a == b then a.Books(rest) else a.Books(rest + Held(b.blocks))
    ensures OnlyFresh(old(a.mem.born), a.mem.born)
  {
    hide Bytes, Shows, Held;
    if op.BackToFront? {
      a.PopBackToOtherFront(b, op.n, rest);
    } else {
      a.PopFrontToOtherBack(b, op.n, rest);
    }
  }

  lemma BroughtByOne(op: Op)
    ensures Brought([op]) == if op.PushBack? || op.PushFront? then |Given(op.src)| else 0
  {
    assert [op][..0] == [];
  }

  lemma BroughtBySame(op: Op, did: Op)
    requires did == op || (op.PopBack? && did.PopBack?)
    ensures Brought([did]) == Brought([op])
  {
    BroughtByOne(op);
    BroughtByOne(did);
  }

  lemma LengthsAfter(op: Op, c: seq<byte>, d: seq<byte>)
    ensures Single(op) ==>
              |Left(op, c)| <= |c| + if op.PushBack? || op.PushFront? then |Given(op.src)| else 0
    ensures !Single(op) ==> |Source(op, c)| + |Destination(op, c, d)| == |c| + |d|
  {
  }

  lemma StepTotal(op: Op, cs: seq<seq<byte>>)
    requires Fits(op, |cs|)
    ensures Total(After(op, cs)) <= Total(cs) + Brought([op])
    ensures !Single(op) ==> Total(After(op, cs)) == Total(cs)
  {
    hide Total, Brought, Left, Source, Destination;
    var c := cs[op.i];
    BroughtByOne(op);
    LengthsAfter(op, c, cs[if Single(op) then op.i else op.j]);
    if Single(op) {
      TotalUpdate(cs, op.i, Left(op, c));
    } else if op.i == op.j {
      TotalUpdate(cs, op.i, Rotated(op, c));
    } else {
      TotalUpdate(cs, op.i, Source(op, c));
      TotalUpdate(cs[op.i := Source(op, c)], op.j, Destination(op, c, cs[op.j]));
    }
  }

  /** Buffers that an operation on i and j does not name stay as they were. */
  lemma SameOthers(was: seq<seq<array<byte>>>, now: seq<seq<array<byte>>>, i: nat, j: nat)
    requires |was| == |now| && i < |was| && j < |was|
    requires forall k :: 0 <= k < |was| && k != i && k != j ==> now[k] == was[k]
    ensures Others(now, i, j) == Others(was, i, j)
  {
    assert now[i := []][j := []] == was[i := []][j := []];
  }

  lemma BlocksAreBorn(bufs: seq<Buffer>, mem: MemContainer)
    requires Ledger(bufs, mem)
    ensures forall k, p | 0 <= k < |bufs| && 0 <= p < |bufs[k].blocks| :: bufs[k].blocks[p] in mem.born
    ensures forall p | 0 <= p < |mem.container| :: mem.container[p] in mem.born
  {
    var lists := Lists(bufs);
    forall k, p | 0 <= k < |bufs| && 0 <= p < |bufs[k].blocks|
      ensures bufs[k].blocks[p] in mem.born
    {
      AllHeldSplit(lists, k);
      assert lists[k][p] in multiset(lists[k]);
    }
    forall p | 0 <= p < |mem.container| ensures mem.container[p] in mem.born {
      assert mem.container[p] in multiset(mem.container);
    }
  }

  /** The arrays that an operation on buffers i and j may write to. */
  ghost function Touched(lists: seq<seq<array<byte>>>, container: seq<array<byte>>, i: nat, j: nat): set<array<byte>>
    requires i < |lists| && j < |lists|
  {
    Buffer.SetOf(lists[i]) + Buffer.SetOf(lists[j]) + Buffer.SetOf(container)
  }

  twostate predicate Same(b: Buffer)
    reads b
  {
    b.blocks == old(b.blocks) && b.img == old(b.img) && b.begin == old(b.begin) && b.end == old(b.end)
  }

  twostate predicate SameArrays(s: set<array<byte>>)
    reads s
  {
    forall b | b in s :: b[..] == old(b[..])
  }

  /** The buffers, their contents, and an operation on buffers i and j that touches some arrays. */
  datatype Scene = Scene(bufs: seq<Buffer>, mem: MemContainer, cs: seq<seq<byte>>, i: nat, j: nat,
                         touched: set<array<byte>>)

  predicate Bystander(sc: Scene, k: nat) {
    k < |sc.bufs| && k != sc.i && k != sc.j
  }

  lemma OthersUntouched(sc: Scene)
    requires Ledger(sc.bufs, sc.mem) && sc.i < |sc.bufs| && sc.j < |sc.bufs|
    requires sc.touched == Touched(Lists(sc.bufs), sc.mem.container, sc.i, sc.j)
    ensures forall k: nat, p | Bystander(sc, k) && 0 <= p < |sc.bufs[k].blocks| :: sc.bufs[k].blocks[p] !in sc.touched
  {
    var lists := Lists(sc.bufs);
    forall k: nat, p | Bystander(sc, k) && 0 <= p < |sc.bufs[k].blocks|
      ensures sc.bufs[k].blocks[p] !in sc.touched
    {
      OthersApart(lists, sc.mem.container, sc.mem.freed, sc.mem.born, sc.i, sc.j, k, p);
    }
  }

  /** Buffers that an operation does not name stand as before, when none of their blocks is touched. */
  twostate lemma Bystanders(sc: Scene)
    requires |sc.cs| == |sc.bufs| && old(AllStand(sc.bufs, sc.mem, sc.cs))
    requires forall k: nat | Bystander(sc, k) :: Same(sc.bufs[k])
    requires forall k: nat, p | Bystander(sc, k) && 0 <= p < |sc.bufs[k].blocks| :: sc.bufs[k].blocks[p] !in sc.touched
    requires SameArrays(old(Arrays(sc.bufs)) - sc.touched)
    ensures forall k: nat | Bystander(sc, k) :: Stands(sc.bufs[k], sc.mem, sc.cs[k])
  {
    hide Buffer.Rep, Buffer.Contents, SameArrays;
    forall k: nat | Bystander(sc, k) ensures Stands(sc.bufs[k], sc.mem, sc.cs[k]) {
      assert old(Stands(sc.bufs[k], sc.mem, sc.cs[k]));
      StandsStill(Still(sc.bufs[k], sc.mem, sc.cs[k], old(Arrays(sc.bufs)) - sc.touched));
    }
  }

  /** A buffer, its contents, and arrays that keep their bytes. */
  datatype Still = Still(b: Buffer, mem: MemContainer, c: seq<byte>, kept: set<array<byte>>)

  twostate lemma StandsStill(st: Still)
    requires old(Stands(st.b, st.mem, st.c)) && Same(st.b) && SameArrays(st.kept)
    requires forall p | 0 <= p < |st.b.blocks| :: st.b.blocks[p] in st.kept
    ensures Stands(st.b, st.mem, st.c)
  {
    hide Bytes;
    var b := st.b;
    assert old(Shows(b.blocks, b.img));
    forall p | 0 <= p < |b.blocks| ensures b.blocks[p][..] == b.img[p] {
    }
  }

  lemma StandsAt(sc: Scene, k: nat)
    requires |sc.cs| == |sc.bufs| && AllStand(sc.bufs, sc.mem, sc.cs) && k < |sc.bufs|
    ensures Stands(sc.bufs[k], sc.mem, sc.cs[k]) && sc.bufs[k].mem == sc.mem
  {
  }

  lemma AllStandAgain(sc: Scene, cs: seq<seq<byte>>)
    requires |cs| == |sc.cs| == |sc.bufs| && sc.i < |cs| && sc.j < |cs|
    requires forall k: nat | Bystander(sc, k) :: cs[k] == sc.cs[k] && Stands(sc.bufs[k], sc.mem, sc.cs[k])
    requires Stands(sc.bufs[sc.i], sc.mem, cs[sc.i]) && Stands(sc.bufs[sc.j], sc.mem, cs[sc.j])
    ensures AllStand(sc.bufs, sc.mem, cs)
  {
    forall k | 0 <= k < |cs| ensures Stands(sc.bufs[k], sc.mem, cs[k]) {
      assert k == sc.i || k == sc.j || Bystander(sc, k);
    }
  }

  /** An operation on buffer i leaves the others and the ledger in order. */
  method PerformAt(bufs: seq<Buffer>, mem: MemContainer, op: Op, ghost cs: seq<seq<byte>>)
      returns (out: seq<byte>, ghost did: Op)
    requires |cs| == |bufs| && AllDifferent(bufs) && AllStand(bufs, mem, cs) && Ledger(bufs, mem)
    requires Fits(op, |bufs|) && Single(op)
    requires op.PushBack? || op.PushFront? ==> |cs[op.i]| + |Given(op.src)| <= MAX_BYTES
    modifies bufs[op.i], bufs[op.i].blocks, mem, mem.container
    ensures Outcome(op, did, |cs[op.i]|) && Fits(did, |bufs|) && Single(did)
    ensures AllStand(bufs, mem, After(did, cs)) && Ledger(bufs, mem)
    ensures OnlyFresh(old(mem.born), mem.born) && out == Taken(did, cs[op.i])
  {
    hide Bytes, Shows, Held, Left, Taken, Ledger, Others, Stands, AllStand;
    var i := op.i;
    ghost var lists := Lists(bufs);
    ghost var sc := Scene(bufs, mem, cs, i, i, Touched(lists, mem.container, i, i));
    OthersUntouched(sc);
    StandsAt(sc, i);
    BooksFromLedger(bufs, mem, i, i);
    out, did := PerformOne(bufs[i], op, cs[i], Others(lists, i, i));
    Bystanders(sc);
    AllStandAgain(sc, After(did, cs));
    SameOthers(lists, Lists(bufs), i, i);
    BooksFromLedger(bufs, mem, i, i);
  }

  /** The same for a transfer between buffers i and j, which may be the same. */
  method PerformBetween(bufs: seq<Buffer>, mem: MemContainer, op: Op, ghost cs: seq<seq<byte>>)
    requires |cs| == |bufs| && AllDifferent(bufs) && AllStand(bufs, mem, cs) && Ledger(bufs, mem)
    requires Fits(op, |bufs|) && !Single(op)
    requires op.i != op.j ==> |cs[op.i]| + |cs[op.j]| <= MAX_BYTES
    modifies bufs[op.i], bufs[op.j], bufs[op.i].blocks, bufs[op.j].blocks, mem
    ensures AllStand(bufs, mem, After(op, cs)) && Ledger(bufs, mem)
    ensures OnlyFresh(old(mem.born), mem.born)
  {
    hide Bytes, Shows, Held, Rotated, Source, Destination, Ledger, Others, Stands, AllStand;
    var i, j := op.i, op.j;
    ghost var lists := Lists(bufs);
    ghost var sc := Scene(bufs, mem, cs, i, j, Touched(lists, mem.container, i, j));
    OthersUntouched(sc);
    StandsAt(sc, i);
    StandsAt(sc, j);
    BooksFromLedger(bufs, mem, i, j);
    PerformTwo(bufs[i], bufs[j], op, cs[i], cs[j], Others(lists, i, j));
    Bystanders(sc);
    AllStandAgain(sc, After(op, cs));
    SameOthers(lists, Lists(bufs), i, j);
    BooksFromLedger(bufs, mem, i, j);
  }

  /** One operation of a run. */
  method Perform(bufs: seq<Buffer>, mem: MemContainer, op: Op, ghost m: Model)
      returns (out: seq<byte>, ghost did: Op)
    requires World(bufs, mem, m) && Fits(op, |bufs|) && Total(m.bufs) + Brought([op]) <= MAX_BYTES
    modifies bufs, mem, mem.born
    ensures Outcome(op, did, |m.bufs[op.i]|) && Fits(did, |bufs|)
    ensures World(bufs, mem, Step(did, m)) && OnlyFresh(old(mem.born), mem.born)
    ensures out == if Single(did) then Taken(did, m.bufs[op.i]) else []
  {
    hide Held, Taken, After, Ledger, AllStand;
    BlocksAreBorn(bufs, mem);
    if Single(op) {
      TotalUpdate(m.bufs, op.i, []);
      BroughtByOne(op);
      out, did := PerformAt(bufs, mem, op, m.bufs);
      BroughtBySame(op, did);
      StepTotal(did, m.bufs);
    } else {
      StepTotal(op, m.bufs);
      out, did := [], op;
      if op.i != op.j { TotalAtLeast(m.bufs, op.i, op.j); }
      PerformBetween(bufs, mem, op, m.bufs);
    }
  }

  lemma {:induction false} RunTotal(script: seq<Op>, m: Model)
    requires |m.bufs| == |m.returned| && AllFit(script, |m.bufs|)
    ensures Total(Run(script, m).bufs) <= Total(m.bufs) + Brought(script)
  {
    if script != [] {
      var n := |script| - 1;
      RunTotal(script[..n], m);
      StepTotal(script[n], Run(script[..n], m).bufs);
      BroughtByOne(script[n]);
    }
  }

  lemma {:induction false} BroughtMonotone(script: seq<Op>, k: nat)
    requires k < |script|
    ensures Brought(script[..k]) + Brought([script[k]]) <= Brought(script)
  {
    var n := |script| - 1;
    BroughtByOne(script[k]);
    if k < n {
      assert script[..n][..k] == script[..k];
      BroughtMonotone(script[..n], k);
    }
  }

  /** A script, and how its operations turned out one after the other. */
  ghost predicate TurnsOut(script: seq<Op>, did: seq<Op>, m: Model)
    requires |m.bufs| == |m.returned|
  {
    && |did| == |script| && AllFit(script, |m.bufs|) && AllFit(did, |m.bufs|)
    && (script != [] ==>
          var n := |script| - 1;
          TurnsOut(script[..n], did[..n], m) && Outcome(script[n], did[n], |Run(did[..n], m).bufs[script[n].i]|))
  }

  lemma TurnsOutNext(script: seq<Op>, k: nat, did: seq<Op>, done: Op, m: Model)
    requires |m.bufs| == |m.returned| && AllFit(script, |m.bufs|) && k < |script|
    requires TurnsOut(script[..k], did, m) && Fits(done, |m.bufs|)
    requires Outcome(script[k], done, |Run(did, m).bufs[script[k].i]|)
    ensures TurnsOut(script[..k + 1], did + [done], m)
  {
    hide Run, Outcome, Fits;
    assert script[..k + 1][..k] == script[..k] && (did + [done])[..k] == did;
  }

  /** A whole run: the code does what the specification says of the operations as they turned out, and returns all that
      it is to return. */
  method Execute(bufs: seq<Buffer>, mem: MemContainer, script: seq<Op>, ghost m: Model)
      returns (returned: seq<seq<byte>>, ghost did: seq<Op>)
    requires World(bufs, mem, m) && AllFit(script, |bufs|) && Total(m.bufs) + Brought(script) <= MAX_BYTES
    requires forall i :: 0 <= i < |bufs| ==> m.returned[i] == []
    modifies bufs, mem, mem.born
    ensures TurnsOut(script, did, m) && World(bufs, mem, Run(did, m)) && returned == Run(did, m).returned
    ensures OnlyFresh(old(mem.born), mem.born)
  {
    hide World, Step, Run, Total, Brought, TurnsOut;
    returned, did := seq(|bufs|, _ => []), [];
    WorldSizes(bufs, mem, m);
    RunNone(m);
    NothingTurnsOut(m);
    for k := 0 to |script|
      invariant |did| == k && AllFit(did, |bufs|) && TurnsOut(script[..k], did, m)
      invariant World(bufs, mem, Run(did, m))
      invariant Brought(did) == Brought(script[..k])
      invariant returned == Run(did, m).returned
      invariant OnlyFresh(old(mem.born), mem.born)
    {
      ghost var now := Run(did, m);
      RunTotal(did, m);
      BroughtMonotone(script, k);
      var out;
      ghost var done;
      out, done := Perform(bufs, mem, script[k], now);
      RunNext(did, done, m);
      TurnsOutNext(script, k, did, done, m);
      BroughtNext(script, k, did, done);
      StepReturned(done, now, out);
      returned := returned[script[k].i := returned[script[k].i] + out];
      did := did + [done];
    }
    assert script[..|script|] == script;
  }

  lemma NothingTurnsOut(m: Model)
    requires |m.bufs| == |m.returned|
    ensures TurnsOut([], [], m)
  {
  }

  lemma RunNone(m: Model)
    requires |m.bufs| == |m.returned|
    ensures Run([], m) == m
  {
  }

  lemma RunNext(script: seq<Op>, op: Op, m: Model)
    requires |m.bufs| == |m.returned| && AllFit(script, |m.bufs|) && Fits(op, |m.bufs|)
    ensures Run(script + [op], m) == Step(op, Run(script, m))
  {
    assert (script + [op])[..|script|] == script;
  }

  lemma BroughtNext(script: seq<Op>, k: nat, did: seq<Op>, done: Op)
    requires k < |script| && Brought(did) == Brought(script[..k])
    requires done == script[k] || (script[k].PopBack? && done.PopBack?)
    ensures Brought(did + [done]) == Brought(script[..k + 1])
  {
    assert (did + [done])[..|did|] == did && script[..k + 1][..k] == script[..k];
  }

  lemma WorldSizes(bufs: seq<Buffer>, mem: MemContainer, m: Model)
    requires World(bufs, mem, m)
    ensures |m.bufs| == |m.returned| == |bufs|
  {
  }

  lemma StepReturned(op: Op, m: Model, out: seq<byte>)
    requires |m.bufs| == |m.returned| && Fits(op, |m.bufs|)
    requires out == if Single(op) then Taken(op, m.bufs[op.i]) else []
    ensures Step(op, m).returned == m.returned[op.i := m.returned[op.i] + out]
  {
  }

  // ----- laws of the specification -----

  predicate Names(op: Op, i: nat) {
    op.i == i || (!Single(op) && op.j == i)
  }

  /** Buffer i is only pushed to at the back and popped by copying from the front. */
  predicate Streams(script: seq<Op>, i: nat) {
    forall k :: 0 <= k < |script| && Names(script[k], i) ==> script[k].PushBack? || script[k].PopFront?
  }

  function PushedTo(script: seq<Op>, i: nat): seq<byte> {
    if script == [] then []
    else
      var op := script[|script| - 1];
      PushedTo(script[..|script| - 1], i) + if op.PushBack? && op.i == i then Given(op.src) else []
  }

  /** First in, first out, whatever happens to other buffers in between. */
  lemma {:induction false} StreamLaw(script: seq<Op>, m: Model, i: nat)
    requires |m.bufs| == |m.returned| && AllFit(script, |m.bufs|) && i < |m.bufs| && Streams(script, i)
    ensures Run(script, m).returned[i] + Run(script, m).bufs[i] == m.returned[i] + m.bufs[i] + PushedTo(script, i)
  {
    if script == [] {
      assert m.bufs[i] + [] == m.bufs[i];
    } else {
      var n := |script| - 1;
      var op, was := script[n], Run(script[..n], m);
      StreamLaw(script[..n], m, i);
      var c := was.bufs[i];
      if Names(op, i) {
        if op.PushBack? {
          Associative(was.returned[i], c, Given(op.src));
          Associative(m.returned[i] + m.bufs[i], PushedTo(script[..n], i), Given(op.src));
          assert was.returned[i] + [] == was.returned[i];
        } else {
          assert c == c[..Min(op.n, |c|)] + c[Min(op.n, |c|)..];
          Associative(was.returned[i], c[..Min(op.n, |c|)], c[Min(op.n, |c|)..]);
          assert PushedTo(script, i) == PushedTo(script[..n], i);
        }
      } else {
        assert PushedTo(script, i) == PushedTo(script[..n], i);
      }
    }
  }

  /** Moving bytes front to back and as many back to front leaves both buffers as they were. */
  lemma TransfersUndo(m: Model, i: nat, j: nat, n: nat)
    requires |m.bufs| == |m.returned| && i < |m.bufs| && j < |m.bufs|
    requires i != j ==> n <= |m.bufs[i]|
    ensures Step(BackToFront(j, i, n), Step(FrontToBack(i, j, n), m)).bufs == m.bufs
    ensures Step(FrontToBack(j, i, n), Step(BackToFront(i, j, n), m)).bufs == m.bufs
  {
    var c, d := m.bufs[i], m.bufs[j];
    if i == j {
      if n < |c| {
        RotationsUndo(c, n);
      }
    } else {
      CarriesUndo(c, d, n);
    }
  }

  lemma RotationsUndo(c: seq<byte>, n: nat)
    requires n <= |c|
    ensures RotateRight(RotateLeft(c, n), n) == c == RotateLeft(RotateRight(c, n), n)
  {
  }

  lemma CarriesUndo(c: seq<byte>, d: seq<byte>, n: nat)
    requires n <= |c|
    ensures (d + c[..n])[..|d|] == d && (d + c[..n])[|d|..] + c[n..] == c
    ensures (c[|c| - n..] + d)[n..] == d && c[..|c| - n] + (c[|c| - n..] + d)[..n] == c
  {
  }

  /** All bytes in all buffers. */
  function Census(cs: seq<seq<byte>>): multiset<byte> {
    if cs == [] then multiset{} else Census(cs[..|cs| - 1]) + multiset(cs[|cs| - 1])
  }

  lemma {:induction false} CensusUpdate(cs: seq<seq<byte>>, i: nat, c: seq<byte>)
    requires i < |cs|
    ensures Census(cs[i := c]) + multiset(cs[i]) == Census(cs) + multiset(c)
  {
    var n := |cs| - 1;
    if i < n {
      assert cs[i := c][..n] == cs[..n][i := c];
      CensusUpdate(cs[..n], i, c);
      assert Census(cs[i := c]) + multiset(cs[i]) == (Census(cs[..n][i := c]) + multiset(cs[i])) + multiset(cs[n]);
      assert Census(cs) + multiset(c) == (Census(cs[..n]) + multiset(c)) + multiset(cs[n]);
    } else {
      assert cs[i := c][..n] == cs[..n];
    }
  }

  lemma RotatedSameBytes(op: Op, c: seq<byte>)
    requires !Single(op)
    ensures multiset(Rotated(op, c)) == multiset(c)
  {
    if op.n < |c| {
      var k := if op.BackToFront? then |c| - op.n else op.n;
      assert c == c[..k] + c[k..];
      assert Rotated(op, c) == c[k..] + c[..k];
      assert multiset(Rotated(op, c)) == multiset(c[k..]) + multiset(c[..k]);
    }
  }

  lemma CarriedSameBytes(op: Op, c: seq<byte>, d: seq<byte>)
    requires !Single(op)
    ensures multiset(Source(op, c)) + multiset(Destination(op, c, d)) == multiset(c) + multiset(d)
  {
    var k := if op.BackToFront? then |c| - Min(op.n, |c|) else Min(op.n, |c|);
    assert c == c[..k] + c[k..];
  }

  lemma SameSum(was: multiset<byte>, mid: multiset<byte>, now: multiset<byte>,
                c: multiset<byte>, d: multiset<byte>, c': multiset<byte>, d': multiset<byte>)
    requires mid + c == was + c' && now + d == mid + d' && c' + d' == c + d
    ensures now == was
  {
    forall e ensures now[e] == was[e] {
      assert (mid + c)[e] == (was + c')[e] && (now + d)[e] == (mid + d')[e] && (c' + d')[e] == (c + d)[e];
    }
  }

  lemma TransferConserves(op: Op, cs: seq<seq<byte>>)
    requires Fits(op, |cs|) && !Single(op)
    ensures Census(After(op, cs)) == Census(cs)
  {
    hide Census, Rotated, Source, Destination;
    var c, d := cs[op.i], cs[op.j];
    if op.i == op.j {
      CensusUpdate(cs, op.i, Rotated(op, c));
      RotatedSameBytes(op, c);
      SameSum(Census(cs), Census(cs), Census(After(op, cs)), multiset{}, multiset(c), multiset{}, multiset(c));
    } else {
      var mid := cs[op.i := Source(op, c)];
      CensusUpdate(cs, op.i, Source(op, c));
      CensusUpdate(mid, op.j, Destination(op, c, d));
      CarriedSameBytes(op, c, d);
      SameSum(Census(cs), Census(mid), Census(After(op, cs)), multiset(c), multiset(d),
              multiset(Source(op, c)), multiset(Destination(op, c, d)));
    }
  }

  /** A run of transfers neither loses nor invents a byte. */
  lemma {:induction false} TransfersConserve(script: seq<Op>, m: Model)
    requires |m.bufs| == |m.returned| && AllFit(script, |m.bufs|)
    requires forall k :: 0 <= k < |script| ==> !Single(script[k])
    ensures Census(Run(script, m).bufs) == Census(m.bufs)
  {
    if script != [] {
      var n := |script| - 1;
      TransfersConserve(script[..n], m);
      TransferConserves(script[n], Run(script[..n], m).bufs);
    }
  }

  /** Pushes, copying pops and transfers: nothing is dropped, overwritten or read without being popped. */
  predicate Conserving(op: Op) {
    op.PushBack? || op.PushFront? || op.PopBack? || op.PopFront? || !Single(op)
  }

  function Pushed(op: Op): multiset<byte> {
    if op.PushBack? || op.PushFront? then multiset(Given(op.src)) else multiset{}
  }

  function AllPushed(script: seq<Op>): multiset<byte> {
    if script == [] then multiset{} else AllPushed(script[..|script| - 1]) + Pushed(script[|script| - 1])
  }

  lemma OneConserves(op: Op, c: seq<byte>)
    requires Single(op) && Conserving(op)
    ensures multiset(Left(op, c)) + multiset(Taken(op, c)) == multiset(c) + Pushed(op)
  {
    match op
    case PopBack(_, n) => assert c == c[..|c| - Min(n, |c|)] + c[|c| - Min(n, |c|)..];
    case PopFront(_, n) => assert c == c[..Min(n, |c|)] + c[Min(n, |c|)..];
    case _ =>
  }

  /** The multiset sums behind StepConserves. */
  lemma SameBalance(bufs: multiset<byte>, bufs': multiset<byte>, out: multiset<byte>, out': multiset<byte>,
                    c: multiset<byte>, left: multiset<byte>, was: multiset<byte>, taken: multiset<byte>,
                    pushed: multiset<byte>)
    requires bufs' + c == bufs + left && out' + was == out + (was + taken) && left + taken == c + pushed
    ensures out' + bufs' == out + bufs + pushed
  {
    forall e ensures (out' + bufs')[e] == (out + bufs + pushed)[e] {
      assert (bufs' + c)[e] == (bufs + left)[e] && (out' + was)[e] == (out + (was + taken))[e];
      assert (left + taken)[e] == (c + pushed)[e];
    }
  }

  lemma StepConserves(op: Op, m: Model)
    requires |m.bufs| == |m.returned| && Fits(op, |m.bufs|) && Conserving(op)
    ensures Census(Step(op, m).returned) + Census(Step(op, m).bufs) == Census(m.returned) + Census(m.bufs) + Pushed(op)
  {
    hide Census, Left, Taken;
    if Single(op) {
      var c, was := m.bufs[op.i], m.returned[op.i];
      var out := Taken(op, c);
      CensusUpdate(m.bufs, op.i, Left(op, c));
      CensusUpdate(m.returned, op.i, was + out);
      OneConserves(op, c);
      SameBalance(Census(m.bufs), Census(Step(op, m).bufs), Census(m.returned), Census(Step(op, m).returned),
                  multiset(c), multiset(Left(op, c)), multiset(was), multiset(out), Pushed(op));
    } else {
      assert m.returned[op.i] + [] == m.returned[op.i];
      assert Step(op, m).returned == m.returned;
      TransferConserves(op, m.bufs);
    }
  }

  /** What has been returned and what the buffers hold are, as bytes, what was there and what was pushed: whatever a
      copying pop from the back takes, it returns. */
  lemma {:induction false} RunConserves(script: seq<Op>, m: Model)
    requires |m.bufs| == |m.returned| && AllFit(script, |m.bufs|)
    requires forall k :: 0 <= k < |script| ==> Conserving(script[k])
    ensures Census(Run(script, m).returned) + Census(Run(script, m).bufs)
         == Census(m.returned) + Census(m.bufs) + AllPushed(script)
  {
    hide Census, Pushed, Step;
    if script != [] {
      var n := |script| - 1;
      RunConserves(script[..n], m);
      StepConserves(script[n], Run(script[..n], m));
    }
  }

  /** Two places in the block lists. */
  ghost predicate Elsewhere(bufs: seq<Buffer>, i: int, p: int, k: int, q: int)
    reads bufs
  {
    0 <= i < |bufs| && 0 <= k < |bufs| && 0 <= p < |bufs[i].blocks| && 0 <= q < |bufs[k].blocks| && (i != k || p != q)
  }

  /** No block is in two places, and every block ever allocated is somewhere. */
  lemma EachBlockInOnePlace(bufs: seq<Buffer>, mem: MemContainer, m: Model)
    requires World(bufs, mem, m)
    ensures forall i, p, k, q | Elsewhere(bufs, i, p, k, q) ::
              bufs[i].blocks[p] != bufs[k].blocks[q]
    ensures forall i, p | 0 <= i < |bufs| && 0 <= p < |bufs[i].blocks| ::
              bufs[i].blocks[p] !in mem.container && bufs[i].blocks[p] !in mem.freed
    ensures forall b | b in mem.container :: b !in mem.freed
    ensures forall b | b in mem.born :: b in Arrays(bufs) || b in mem.container || b in mem.freed
  {
    var lists := Lists(bufs);
    forall i, p, k, q | Elsewhere(bufs, i, p, k, q)
      ensures bufs[i].blocks[p] != bufs[k].blocks[q]
    {
      if i == k {
        BooksFromLedger(bufs, mem, i, i);
        bufs[i].BooksAreDistinct(Others(lists, i, i));
      } else {
        OthersApart(lists, mem.container, mem.freed, mem.born, i, i, k, q);
        assert lists[k][q] !in lists[i] && lists[i][p] in lists[i];
      }
    }
    forall i, p | 0 <= i < |bufs| && 0 <= p < |bufs[i].blocks|
      ensures bufs[i].blocks[p] !in mem.container && bufs[i].blocks[p] !in mem.freed
    {
      BooksFromLedger(bufs, mem, i, i);
      bufs[i].BooksAreDistinct(Others(lists, i, i));
      assert bufs[i].blocks[p] in bufs[i].blocks;
    }
    forall b | b in mem.container ensures b !in mem.freed {
      assert b in multiset(mem.container) && mem.born[b] == 1;
    }
    forall b | b in mem.born ensures b in Arrays(bufs) || b in mem.container || b in mem.freed {
      if b !in mem.container && b !in mem.freed {
        assert b in AllHeld(lists);
        InSomeList(lists, b);
      }
    }
  }

  lemma {:induction false} InSomeList(lists: seq<seq<array<byte>>>, b: array<byte>)
    requires b in AllHeld(lists)
    ensures exists i, p :: 0 <= i < |lists| && 0 <= p < |lists[i]| && lists[i][p] == b
  {
    var n := |lists| - 1;
    if b in multiset(lists[n]) {
      assert b in lists[n];
    } else {
      InSomeList(lists[..n], b);
      var i, p :| 0 <= i < n && 0 <= p < |lists[..n][i]| && lists[..n][i][p] == b;
      assert lists[i][p] == b;
    }
  }
}
