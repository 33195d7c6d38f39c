/** What given answers of the kernel make direct_write, direct_read and process_read do: laws that say nothing of how a
    single step is computed. */
module KernelLaws {
  import opened Blocks
  import opened IoBuffer
  import opened IoLaws
  import opened Options

  // ----- writing -----

  /** The amounts of the answers that accept, in order. */
  function Amounts(kernel: seq<WriteAnswer>): seq<nat> {
    if kernel == [] then []
    else (if kernel[0].Accept? then [kernel[0].n] else []) + Amounts(kernel[1..])
  }

  /** How many answers are interruptions. */
  function Interrupts(kernel: seq<WriteAnswer>): nat {
    if kernel == [] then 0
    else (if kernel[0] == Refuse(EINTR) then 1 else 0) + Interrupts(kernel[1..])
  }

  /** A write goes as far as the kernel takes it, to the end of its block, or to the end of the contents. */
  ghost predicate Fills(begin: nat, end: nat, writes: seq<nat>, amounts: seq<nat>) {
    && |writes| <= |amounts|
    && forall i | 0 <= i < |writes| :: FillsAt(begin, end, writes, amounts, i)
  }

  ghost predicate FillsAt(begin: nat, end: nat, writes: seq<nat>, amounts: seq<nat>, i: nat)
    requires i < |writes| <= |amounts|
  {
    var at := begin + Sum(writes[..i + 1]);
    && 0 < writes[i] <= amounts[i] && at <= end
    && (writes[i] == amounts[i] || at % DEFAULT_SIZE == 0 || at == end)
  }

  lemma FillsFirst(begin: nat, end: nat, first: nat, amount: nat, writes: seq<nat>, amounts: seq<nat>)
    requires Fills(begin + first, end, writes, amounts)
    requires 0 < first <= amount && begin + first <= end
    requires first == amount || (begin + first) % DEFAULT_SIZE == 0 || begin + first == end
    ensures Fills(begin, end, [first] + writes, [amount] + amounts)
  {
    var more := [first] + writes;
    forall i | 0 <= i < |more| ensures FillsAt(begin, end, more, [amount] + amounts, i) {
      assert more[..i + 1][1..] == writes[..i];
      if i > 0 {
        assert FillsAt(begin + first, end, writes, amounts, i - 1);
      }
    }
  }

  lemma OneWrite(begin: nat, end: nat, n: Positive)
    requires begin < end
    ensures var ret := Min(n, CanWrite(begin, end));
            && 0 < ret <= n && begin + ret <= end
            && (ret == n || (begin + ret) % DEFAULT_SIZE == 0 || begin + ret == end)
  {
    CanWriteFits(begin, end);
    if end / DEFAULT_SIZE != begin / DEFAULT_SIZE {
      assert begin + CanWrite(begin, end) == (begin / DEFAULT_SIZE + 1) * DEFAULT_SIZE;
    }
  }

  /** The i-th write takes what the i-th accepting answer offers to take, unless its block or the contents end first. */
  lemma {:induction false} WritesFill(kernel: seq<WriteAnswer>, begin: nat, end: nat, retryTimes: nat)
    requires begin <= end
    ensures Fills(begin, end, Accepts(kernel, begin, end, retryTimes), Amounts(kernel))
    decreases |kernel|
  {
    if begin < end && kernel != [] {
      AcceptsFirst(kernel, begin, end, retryTimes);
      hide Accepts, CanWrite, Fills;
      if kernel[0].Accept? {
        var ret := Min(kernel[0].n, CanWrite(begin, end));
        OneWrite(begin, end, kernel[0].n);
        WritesFill(kernel[1..], begin + ret, end, retryTimes);
        FillsFirst(begin, end, ret, kernel[0].n, Accepts(kernel[1..], begin + ret, end, retryTimes),
                   Amounts(kernel[1..]));
      } else if kernel[0].errno == EINTR && retryTimes + 1 != MAX_RETRY_TIMES {
        WritesFill(kernel[1..], begin, end, retryTimes + 1);
        assert [] + Amounts(kernel[1..]) == Amounts(kernel[1..]);
      } else {
        FillsNone(begin, end, Amounts(kernel));
      }
    } else {
      FillsNone(begin, end, Amounts(kernel));
    }
  }

  lemma FillsNone(begin: nat, end: nat, amounts: seq<nat>)
    ensures Fills(begin, end, [], amounts)
  {
  }

  lemma UsesOneMore(kernel: seq<WriteAnswer>, j: nat)
    requires j < |kernel|
    ensures Amounts(kernel[..j + 1])
         == (if kernel[0].Accept? then [kernel[0].n] else []) + Amounts(kernel[1..][..j])
    ensures Interrupts(kernel[..j + 1]) == (if kernel[0] == Refuse(EINTR) then 1 else 0) + Interrupts(kernel[1..][..j])
  {
    assert kernel[..j + 1][1..] == kernel[1..][..j] && kernel[..j + 1][0] == kernel[0];
  }

  /** The first k answers go on, with interruptions only up to the limit; `at` is how far the writes have come. It ends
      when the contents are written, when there are no more answers, or at a refusal. */
  ghost predicate WritingEnds(kernel: seq<WriteAnswer>, retryTimes: nat, k: nat, at: nat, end: nat,
                              stop: Option<Errno>)
  {
    && k <= |kernel| && retryTimes + Interrupts(kernel[..k]) < MAX_RETRY_TIMES
    && (forall i | 0 <= i < k :: kernel[i].Accept? || kernel[i] == Refuse(EINTR))
    && if stop.None? then at == end
       else
         && at < end
         && if k == |kernel| then stop.value == EAGAIN
            else
              && kernel[k] == Refuse(stop.value)
              && (stop.value == EINTR ==> retryTimes + Interrupts(kernel[..k]) + 1 == MAX_RETRY_TIMES)
  }

  lemma WritingEndsNext(kernel: seq<WriteAnswer>, retryTimes: nat, k: nat, at: nat, end: nat, stop: Option<Errno>)
    requires kernel != [] && (kernel[0].Accept? || kernel[0] == Refuse(EINTR))
    requires WritingEnds(kernel[1..], retryTimes + Interrupts(kernel[..1]), k, at, end, stop)
    ensures WritingEnds(kernel, retryTimes, k + 1, at, end, stop)
  {
    UsesOneMore(kernel, k);
    UsesOneMore(kernel, 0);
    hide Interrupts, Amounts;
    assert kernel[1..][..0] == [] && Interrupts([]) == 0 by { NoAnswers(); }
    forall i | 0 <= i < k + 1 ensures kernel[i].Accept? || kernel[i] == Refuse(EINTR) {
      assert i > 0 ==> kernel[i] == kernel[1..][i - 1];
    }
  }

  lemma NoAnswers()
    ensures Amounts([]) == [] && Interrupts([]) == 0
  {
  }

  lemma Interrupted(kernel: seq<WriteAnswer>)
    requires kernel != []
    ensures Interrupts(kernel[..1]) == if kernel[0] == Refuse(EINTR) then 1 else 0
  {
    UsesOneMore(kernel, 0);
    assert kernel[1..][..0] == [];
  }

  /** Writing uses the first k answers, with one write for each that accepts. */
  ghost predicate Uses(kernel: seq<WriteAnswer>, begin: nat, end: nat, retryTimes: nat, k: nat)
    requires begin <= end
  {
    var writes := Accepts(kernel, begin, end, retryTimes);
    && WritingEnds(kernel, retryTimes, k, begin + Sum(writes), end, Refusal(kernel, begin, end, retryTimes))
    && |writes| == |Amounts(kernel[..k])|
  }

  lemma UsesAccept(kernel: seq<WriteAnswer>, begin: nat, end: nat, retryTimes: nat, ret: nat, k: nat)
    requires begin < end && kernel != [] && kernel[0].Accept? && ret == Min(kernel[0].n, CanWrite(begin, end))
    requires begin + ret <= end && Uses(kernel[1..], begin + ret, end, retryTimes, k)
    ensures Uses(kernel, begin, end, retryTimes, k + 1)
  {
    AcceptsFirst(kernel, begin, end, retryTimes);
    Interrupted(kernel);
    var writes := Accepts(kernel[1..], begin + ret, end, retryTimes);
    SumFirst(ret, writes);
    WritingEndsNext(kernel, retryTimes, k, begin + ret + Sum(writes), end,
                    Refusal(kernel[1..], begin + ret, end, retryTimes));
    assert k <= |kernel[1..]|;
    AmountsOneMore(kernel, k);
    hide Accepts, Refusal, CanWrite, Amounts, Sum, WritingEnds;
  }

  lemma UsesInterrupt(kernel: seq<WriteAnswer>, begin: nat, end: nat, retryTimes: nat, k: nat)
    requires begin < end && kernel != [] && kernel[0] == Refuse(EINTR) && retryTimes + 1 != MAX_RETRY_TIMES
    requires Uses(kernel[1..], begin, end, retryTimes + 1, k)
    ensures Uses(kernel, begin, end, retryTimes, k + 1)
  {
    AcceptsFirst(kernel, begin, end, retryTimes);
    Interrupted(kernel);
    WritingEndsNext(kernel, retryTimes, k, begin + Sum(Accepts(kernel[1..], begin, end, retryTimes + 1)), end,
                    Refusal(kernel[1..], begin, end, retryTimes + 1));
    assert k <= |kernel[1..]|;
    AmountsOneMore(kernel, k);
    hide Accepts, Refusal, CanWrite, Amounts, Sum, WritingEnds;
  }

  lemma UsesNothing(kernel: seq<WriteAnswer>, begin: nat, end: nat, retryTimes: nat)
    requires begin <= end && retryTimes < MAX_RETRY_TIMES
    requires begin < end && kernel != [] ==>
               kernel[0].Refuse? && (kernel[0].errno == EINTR ==> retryTimes + 1 == MAX_RETRY_TIMES)
    ensures Uses(kernel, begin, end, retryTimes, 0)
  {
    assert kernel[..0] == [];
    NoSum();
    NoAnswers();
    if begin == end {
      AcceptsNone(kernel, end, retryTimes);
    } else {
      AcceptsFirst(kernel, begin, end, retryTimes);
    }
    hide Accepts, Refusal, CanWrite, Amounts, Sum, Interrupts;
  }

  lemma {:induction false} WritesUse(kernel: seq<WriteAnswer>, begin: nat, end: nat, retryTimes: nat) returns (k: nat)
    requires begin <= end && retryTimes < MAX_RETRY_TIMES
    ensures Uses(kernel, begin, end, retryTimes, k)
    decreases |kernel|
  {
    hide Uses, CanWrite;
    if begin < end && kernel != [] && kernel[0].Accept? {
      var ret := Min(kernel[0].n, CanWrite(begin, end));
      OneWrite(begin, end, kernel[0].n);
      var j := WritesUse(kernel[1..], begin + ret, end, retryTimes);
      UsesAccept(kernel, begin, end, retryTimes, ret, j);
      k := j + 1;
    } else if begin < end && kernel != [] && kernel[0].errno == EINTR && retryTimes + 1 != MAX_RETRY_TIMES {
      var j := WritesUse(kernel[1..], begin, end, retryTimes + 1);
      UsesInterrupt(kernel, begin, end, retryTimes, j);
      k := j + 1;
    } else {
      UsesNothing(kernel, begin, end, retryTimes);
      k := 0;
    }
  }

  lemma AmountsOneMore(kernel: seq<WriteAnswer>, j: nat)
    requires kernel != [] && j <= |kernel| - 1
    ensures |Amounts(kernel[..j + 1])| == |Amounts(kernel[1..][..j])| + if kernel[0].Accept? then 1 else 0
  {
    UsesOneMore(kernel, j);
  }

  lemma NoSum()
    ensures Sum([]) == 0
  {
  }

  lemma SumFirst(first: nat, writes: seq<nat>)
    ensures Sum([first] + writes) == first + Sum(writes) && |[first] + writes| == |writes| + 1
  {
    assert ([first] + writes)[1..] == writes;
  }

  /** Every answer accepts a whole block. */
  ghost predicate Generous(kernel: seq<WriteAnswer>) {
    forall i | 0 <= i < |kernel| :: kernel[i].Accept? && kernel[i].n >= DEFAULT_SIZE
  }

  /** How many blocks the contents lie in. */
  function BlocksOf(begin: nat, end: nat): nat
    requires begin <= end
  {
    if begin == end then 0 else (end - 1) / DEFAULT_SIZE - begin / DEFAULT_SIZE + 1
  }

  lemma BlocksNext(begin: nat, end: nat)
    requires begin < end
    ensures begin + CanWrite(begin, end) <= end && CanWrite(begin, end) <= DEFAULT_SIZE
    ensures BlocksOf(begin + CanWrite(begin, end), end) + 1 == BlocksOf(begin, end)
  {
    CanWriteFits(begin, end);
    var q := begin / DEFAULT_SIZE;
    if end / DEFAULT_SIZE == q {
      assert (end - 1) / DEFAULT_SIZE == q;
    } else {
      assert begin + CanWrite(begin, end) == (q + 1) * DEFAULT_SIZE;
    }
  }

  /** A kernel that accepts a whole block on each of as many answers as the contents have blocks is given all of it. */
  lemma {:induction false} GenerousTakesAll(kernel: seq<WriteAnswer>, begin: nat, end: nat, retryTimes: nat)
    requires begin <= end && Generous(kernel) && |kernel| >= BlocksOf(begin, end)
    ensures begin + Sum(Accepts(kernel, begin, end, retryTimes)) == end
    ensures Refusal(kernel, begin, end, retryTimes) == None
    decreases |kernel|
  {
    if begin == end {
      AcceptsNone(kernel, end, retryTimes);
    } else {
      BlocksNext(begin, end);
      AcceptsFirst(kernel, begin, end, retryTimes);
      hide Accepts, Refusal, CanWrite, BlocksOf;
      var ret := CanWrite(begin, end);
      GenerousTakesAll(kernel[1..], begin + ret, end, retryTimes);
      SumFirst(ret, Accepts(kernel[1..], begin + ret, end, retryTimes));
    }
  }

  /** How many bytes the kernel takes of contents of `len` bytes; `begin` is their offset, if there were any before. */
  function TakenBy(kernel: seq<WriteAnswer>, begin: nat, len: nat): nat {
    if len == 0 then 0
    else
      var at := if begin == NPOS then 0 else begin;
      Sum(Accepts(kernel, at, at + len, 0))
  }

  /** Why it stops. */
  function StopBy(kernel: seq<WriteAnswer>, begin: nat, len: nat): Option<Errno> {
    if len == 0 then None
    else
      var at := if begin == NPOS then 0 else begin;
      Refusal(kernel, at, at + len, 0)
  }

  /** There is enough in the answers for `len` bytes. */
  ghost predicate Enough(kernel: seq<WriteAnswer>, len: nat) {
    Generous(kernel) && len + DEFAULT_SIZE <= |kernel| * DEFAULT_SIZE
  }

  lemma TakenByMeans(kernel: seq<WriteAnswer>, begin: nat, len: nat)
    ensures TakenBy(kernel, begin, len) <= len
    ensures StopBy(kernel, begin, len) == None <==> TakenBy(kernel, begin, len) == len
    ensures kernel == [] ==> TakenBy(kernel, begin, len) == 0
  {
    if len > 0 {
      var at := if begin == NPOS then 0 else begin;
      var k := WritesUse(kernel, at, at + len, 0);
      hide Refusal, Interrupts, Amounts;
    }
  }

  lemma TakenIs(kernel: seq<WriteAnswer>, begin: nat, end: nat, len: nat)
    requires if begin == NPOS then len == 0 else begin < end && len == end - begin
    ensures Sum(Writes(kernel, begin, end)) == TakenBy(kernel, begin, len)
    ensures StopOf(kernel, begin, end) == StopBy(kernel, begin, len)
  {
    hide Accepts, Refusal;
  }

  /** What makes it stop is one of the answers, unless they have run out. */
  lemma StopIsAnAnswer(kernel: seq<WriteAnswer>, begin: nat, len: nat)
    ensures var stop := StopBy(kernel, begin, len);
            stop.Some? && stop.value != EAGAIN ==> Refuse(stop.value) in kernel
  {
    if len > 0 {
      var at := if begin == NPOS then 0 else begin;
      var k := WritesUse(kernel, at, at + len, 0);
      hide Accepts, Refusal, Interrupts, Amounts, Sum;
    }
  }

  lemma EnoughTakesAll(kernel: seq<WriteAnswer>, begin: nat, len: nat)
    requires (begin == NPOS || begin < DEFAULT_SIZE) && Enough(kernel, len)
    ensures TakenBy(kernel, begin, len) == len && StopBy(kernel, begin, len) == None
  {
    if len > 0 {
      var at := if begin == NPOS then 0 else begin;
      BlocksEnough(at, len, |kernel|);
      hide BlocksOf, Accepts, Refusal, Sum, Generous;
      GenerousTakesAll(kernel, at, at + len, 0);
    }
  }

  lemma BlocksEnough(begin: nat, len: nat, n: nat)
    requires begin < DEFAULT_SIZE && len > 0 && len + DEFAULT_SIZE <= n * DEFAULT_SIZE
    ensures BlocksOf(begin, begin + len) <= n
  {
  }

  /** Answers that take all that is offered leave nothing buffered, and so no operation waiting. */
  lemma EmptyMeansAllDone(b: Books)
    requires Balanced(b) && b.lost == 0 && b.buffered == 0
    requires b.waiting != [] ==> b.haveWrite < |b.waiting[0].data|
    ensures b.waiting == [] && b.done == b.flushed && b.accepted == Sizes(b.flushed)
  {
    Credit(b);
    if b.waiting != [] {
      HeadSize(b.waiting);
    }
    assert b.done + [] == b.done;
  }

  // ----- reading -----

  function AllBytes(kernel: seq<ReadAnswer>): seq<byte> {
    if kernel == [] then []
    else (if kernel[0].Data? then kernel[0].bytes else []) + AllBytes(kernel[1..])
  }

  function ReadInterrupts(kernel: seq<ReadAnswer>): nat {
    if kernel == [] then 0
    else (if kernel[0] == ReadError(EINTR) then 1 else 0) + ReadInterrupts(kernel[1..])
  }

  lemma ReadsOneMore(kernel: seq<ReadAnswer>, j: nat)
    requires j < |kernel|
    ensures AllBytes(kernel[..j + 1]) == (if kernel[0].Data? then kernel[0].bytes else []) + AllBytes(kernel[1..][..j])
    ensures ReadInterrupts(kernel[..j + 1])
         == (if kernel[0] == ReadError(EINTR) then 1 else 0) + ReadInterrupts(kernel[1..][..j])
  {
    assert kernel[..j + 1][1..] == kernel[1..][..j] && kernel[..j + 1][0] == kernel[0];
  }

  lemma ReadsFirst(kernel: seq<ReadAnswer>, retryTimes: nat)
    requires kernel != []
    ensures kernel[0].Data? && kernel[0].bytes != [] ==>
              && Delivered(kernel, retryTimes) == kernel[0].bytes + Delivered(kernel[1..], retryTimes)
              && Ending(kernel, retryTimes) == Ending(kernel[1..], retryTimes)
    ensures kernel[0] == ReadError(EINTR) && retryTimes + 1 != MAX_RETRY_TIMES ==>
              && Delivered(kernel, retryTimes) == Delivered(kernel[1..], retryTimes + 1)
              && Ending(kernel, retryTimes) == Ending(kernel[1..], retryTimes + 1)
  {
  }

  /** The first k answers go on, with interruptions only up to the limit. It ends when there are no more answers, at the
      end of file, or at an error. */
  ghost predicate ReadingEnds(kernel: seq<ReadAnswer>, retryTimes: nat, k: nat, end: ReadEnd) {
    && k <= |kernel| && retryTimes + ReadInterrupts(kernel[..k]) < MAX_RETRY_TIMES
    && (forall i | 0 <= i < k :: (kernel[i].Data? && kernel[i].bytes != []) || kernel[i] == ReadError(EINTR))
    && if k == |kernel| then end == Stopped(EAGAIN)
       else if kernel[k].Data? then end == EndOfFile && kernel[k].bytes == []
       else
         && end == Stopped(kernel[k].errno)
         && (kernel[k].errno == EINTR ==> retryTimes + ReadInterrupts(kernel[..k]) + 1 == MAX_RETRY_TIMES)
  }

  lemma ReadingEndsNext(kernel: seq<ReadAnswer>, retryTimes: nat, k: nat, end: ReadEnd)
    requires kernel != [] && ((kernel[0].Data? && kernel[0].bytes != []) || kernel[0] == ReadError(EINTR))
    requires ReadingEnds(kernel[1..], if kernel[0].Data? then retryTimes else retryTimes + 1, k, end)
    ensures ReadingEnds(kernel, retryTimes, k + 1, end)
  {
    ReadsOneMore(kernel, k);
    hide ReadInterrupts, AllBytes;
    forall i | 0 <= i < k + 1
      ensures (kernel[i].Data? && kernel[i].bytes != []) || kernel[i] == ReadError(EINTR)
    {
      assert i > 0 ==> kernel[i] == kernel[1..][i - 1];
    }
  }

  /** Reading uses a first part of the answers and delivers all their bytes. */
  lemma {:induction false} ReadsUse(kernel: seq<ReadAnswer>, retryTimes: nat) returns (k: nat)
    requires retryTimes < MAX_RETRY_TIMES
    ensures ReadingEnds(kernel, retryTimes, k, Ending(kernel, retryTimes))
    ensures Delivered(kernel, retryTimes) == AllBytes(kernel[..k])
    decreases |kernel|
  {
    k := 0;
    assert kernel[..0] == [] && AllBytes([]) == [] && ReadInterrupts([]) == 0;
    DeliveredFirst(kernel, retryTimes);
    EndingFirst(kernel, retryTimes);
    if kernel != [] {
      ReadsFirst(kernel, retryTimes);
      hide Delivered, Ending, AllBytes, ReadInterrupts;
      if kernel[0].Data? && kernel[0].bytes != [] {
        var j := ReadsUse(kernel[1..], retryTimes);
        k := j + 1;
        ReadingEndsNext(kernel, retryTimes, j, Ending(kernel, retryTimes));
        ReadsOneMore(kernel, j);
        hide ReadingEnds;
      } else if kernel[0] == ReadError(EINTR) && retryTimes + 1 != MAX_RETRY_TIMES {
        var j := ReadsUse(kernel[1..], retryTimes + 1);
        k := j + 1;
        ReadingEndsNext(kernel, retryTimes, j, Ending(kernel, retryTimes));
        ReadsOneMore(kernel, j);
        hide ReadingEnds;
        assert [] + AllBytes(kernel[1..][..j]) == AllBytes(kernel[1..][..j]);
      }
    }
  }

  // ----- serving -----

  lemma {:induction false} GivenFirst(one: Served, served: seq<Served>)
    ensures Given([one] + served) == one.data + Given(served)
  {
    if served == [] {
      assert [one] + served == [one] && [one][..0] == [];
    } else {
      var n := |served| - 1;
      GivenFirst(one, served[..n]);
      Associative(one.data, Given(served[..n]), served[n].data);
      GivenLast([one] + served);
      GivenLast(served);
      hide Given;
      assert ([one] + served)[..n + 1] == [one] + served[..n];
    }
  }

  lemma GivenLast(served: seq<Served>)
    requires served != []
    ensures Given(served) == Given(served[..|served| - 1]) + served[|served| - 1].data
  {
  }

  /** Call i, which serves `op`, takes what its answer says of what is left of c after `at` bytes. */
  ghost predicate CallTakes(one: Served, op: ReadOp, answers: seq<Processed>, c: seq<byte>, at: nat, i: nat) {
    var got := if i < |answers| then answers[i] else Processed(0, false);
    && one.op == op && one.done == got.done
    && at <= |c| && one.data == c[at..at + Min(got.take, |c| - at)]
  }

  lemma CallTakesNext(one: Served, op: ReadOp, answers: seq<Processed>, c: seq<byte>, k: nat, at: nat, i: nat)
    requires i > 0 && k <= |c| && CallTakes(one, op, Remaining(answers), c[k..], at, i - 1)
    ensures CallTakes(one, op, answers, c, k + at, i)
  {
    var got := if i < |answers| then answers[i] else Processed(0, false);
    assert c[k..][at..at + Min(got.take, |c| - k - at)] == c[k + at..k + at + Min(got.take, |c| - k - at)];
  }

  /** The calls in `served` serve operations in turn, each with what its answer says of what the calls before have left,
      and go on exactly as long as operations are done and there are any. */
  ghost predicate InTurn(served: seq<Served>, ops: seq<ReadOp>, answers: seq<Processed>, c: seq<byte>, i: nat)
    requires i < |served|
  {
    && i < |ops| && CallTakes(served[i], ops[i], answers, c, |Given(served[..i])|, i)
    && (i + 1 < |served| <==> served[i].done && i + 1 < |ops|)
  }

  lemma InTurnNext(first: Served, served: seq<Served>, ops: seq<ReadOp>, answers: seq<Processed>, c: seq<byte>, k: nat,
                   i: nat)
    requires i < |served| && ops != [] && k <= |c| && |first.data| == k
    requires InTurn(served, ops[1..], Remaining(answers), c[k..], i)
    ensures InTurn([first] + served, ops, answers, c, i + 1)
  {
    hide Given, CallTakes, Remaining;
    var all := [first] + served;
    assert all[..i + 1] == [first] + served[..i] && all[i + 1] == served[i] && ops[i + 1] == ops[1..][i];
    GivenFirst(first, served[..i]);
    CallTakesNext(served[i], ops[i + 1], answers, c, k, |Given(served[..i])|, i + 1);
  }

  lemma InTurnFirst(ops: seq<ReadOp>, answers: seq<Processed>, c: seq<byte>)
    requires ops != []
    ensures Serves(ops, answers, c) != [] && InTurn(Serves(ops, answers, c), ops, answers, c, 0)
  {
    ServesFirst(ops, answers, c);
    ServesSome(ops[1..], Remaining(answers), c[Min(Outcome(answers).take, |c|)..]);
    hide Serves;
    assert Serves(ops, answers, c)[..0] == [] && Given([]) == [];
  }

  lemma {:induction false} ServesInTurn(ops: seq<ReadOp>, answers: seq<Processed>, c: seq<byte>, i: nat)
    requires i < |Serves(ops, answers, c)|
    ensures InTurn(Serves(ops, answers, c), ops, answers, c, i)
    decreases i
  {
    ServesSome(ops, answers, c);
    if i == 0 {
      InTurnFirst(ops, answers, c);
    } else {
      ServesFirst(ops, answers, c);
      hide Serves, InTurn, Given;
      var k := Min(Outcome(answers).take, |c|);
      var rest := Serves(ops[1..], Remaining(answers), c[k..]);
      ServesInTurn(ops[1..], Remaining(answers), c[k..], i - 1);
      InTurnNext(Served(ops[0], c[..k], Outcome(answers).done), rest, ops, answers, c, k, i - 1);
    }
  }

  lemma ServesSome(ops: seq<ReadOp>, answers: seq<Processed>, c: seq<byte>)
    ensures Serves(ops, answers, c) == [] <==> ops == []
  {
  }
}
