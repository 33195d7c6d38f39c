/** Where every handle comes from: laws of runs of copies, assignments and swaps. */
module LoggerLaws {
  import opened LoggerLocks

  // ----- origins -----

  /** The logger whose handle an operation leaves in x. */
  ghost function Before(op: Op, x: Addr): Addr {
    match op
    case Copy(_) => x
    case Assign(dst, src) => if x == dst then src else x
    case Swap(first, second) => if x == first then second else if x == second then first else x
  }

  /** The logger in which the handle that x holds after these operations was at first, traced back from the last. */
  ghost function Origin(order: seq<(nat, Op)>, x: Addr): Addr {
    if order == [] then x
    else
      var n := |order| - 1;
      Origin(order[..n], Before(order[n].1, x))
  }

  /** Where the handles that thread t has copied were at first. */
  ghost function CopiedFrom(order: seq<(nat, Op)>, t: nat): seq<Addr> {
    if order == [] then []
    else
      var n := |order| - 1;
      CopiedFrom(order[..n], t)
      + if order[n].0 == t && order[n].1.Copy? then [Origin(order[..n], order[n].1.src)] else []
  }

  lemma BeforeInRange(m: Memory, t: nat, op: Op, x: Addr)
    requires Fits(m, t, op) && x < |m.handles|
    ensures Before(op, x) < |m.handles| && Apply(m, t, op).handles[x] == m.handles[Before(op, x)]
  {
    if Needs(op) != [] {
      SourceInRange(op);
      assert Needs(op)[0] < |m.handles|;
      assert |Needs(op)| == 2 ==> Needs(op)[1] < |m.handles|;
    }
  }

  lemma CopiesAppend(m: Memory, t: nat, op: Op)
    requires Fits(m, t, op)
    ensures op.Copy? ==> op.src < |m.handles|
    ensures Apply(m, t, op).copies == if op.Copy? then m.copies[t := m.copies[t] + [m.handles[op.src]]] else m.copies
  {
    if op.Copy? {
      CopyInRange(m, t, op);
    }
  }

  lemma CopyInRange(m: Memory, t: nat, op: Op)
    requires Fits(m, t, op) && op.Copy?
    ensures op.src < |m.handles|
  {
    assert Needs(op)[0] == op.src;
  }

  lemma {:induction false} OriginsOfHandles(m: Memory, order: seq<(nat, Op)>, x: Addr)
    requires AllFit(m, order) && x < |m.handles|
    ensures Origin(order, x) < |m.handles| && Serial(m, order).handles[x] == m.handles[Origin(order, x)]
  {
    if order != [] {
      var n := |order| - 1;
      var op := order[n].1;
      assert forall i | 0 <= i < n :: order[..n][i] == order[i];
      assert Fits(m, order[n].0, op);
      BeforeInRange(Serial(m, order[..n]), order[n].0, op, x);
      OriginsOfHandles(m, order[..n], Before(op, x));
    }
  }

  ghost function HandlesAt(handles: seq<Handle>, xs: seq<Addr>): seq<Handle>
    requires forall k | 0 <= k < |xs| :: xs[k] < |handles|
  {
    seq(|xs|, k requires 0 <= k < |xs| => handles[xs[k]])
  }

  lemma HandlesAtSnoc(handles: seq<Handle>, xs: seq<Addr>, x: Addr)
    requires (forall k | 0 <= k < |xs| :: xs[k] < |handles|) && x < |handles|
    ensures forall k | 0 <= k < |xs + [x]| :: (xs + [x])[k] < |handles|
    ensures HandlesAt(handles, xs + [x]) == HandlesAt(handles, xs) + [handles[x]]
  {
  }

  /** The last operation, forwards in the memory and backwards in the origins. */
  lemma LastSerial(m: Memory, order: seq<(nat, Op)>)
    requires AllFit(m, order) && order != []
    ensures var n := |order| - 1;
            && AllFit(m, order[..n]) && Fits(m, order[n].0, order[n].1)
            && Fits(Serial(m, order[..n]), order[n].0, order[n].1)
            && Serial(m, order) == Apply(Serial(m, order[..n]), order[n].0, order[n].1)
  {
    var n := |order| - 1;
    assert forall i | 0 <= i < n :: order[..n][i] == order[i];
    hide Needs, Apply;
  }

  lemma {:induction false} OriginsOfCopies(m: Memory, order: seq<(nat, Op)>, t: nat)
    requires AllFit(m, order) && t < |m.copies|
    ensures forall k | 0 <= k < |CopiedFrom(order, t)| :: CopiedFrom(order, t)[k] < |m.handles|
    ensures Serial(m, order).copies[t] == m.copies[t] + HandlesAt(m.handles, CopiedFrom(order, t))
  {
    if order == [] {
      assert m.copies[t] + [] == m.copies[t];
    } else {
      hide AllFit, Fits, Serial, Apply, CopiedFrom, Origin, HandlesAt, OpsOf;
      var n := |order| - 1;
      var u, op := order[n].0, order[n].1;
      LastSerial(m, order);
      LastOf(order, t);
      OriginsOfCopies(m, order[..n], t);
      CopiesAppend(Serial(m, order[..n]), u, op);
      if op.Copy? {
        CopyInRange(m, u, op);
        OriginsOfHandles(m, order[..n], op.src);
        HandlesAtSnoc(m.handles, CopiedFrom(order[..n], t), Origin(order[..n], op.src));
      }
    }
  }

  /** When all threads are finished, every handle and every copy is the initial handle of the logger it is traced back
      to along the order in which the operations took effect. */
  lemma FinishedOrigins(handles: seq<Handle>, programs: seq<seq<Op>>, schedule: seq<nat>)
    requires InRange(handles, programs) && Run(handles, programs, schedule).At?
    requires Finished(Run(handles, programs, schedule).system)
    ensures var s := Run(handles, programs, schedule).system;
            && |s.handles| == |handles| && |s.runners| == |programs|
            && (forall x | 0 <= x < |handles| :: Origin(s.order, x) < |handles|)
            && (forall x | 0 <= x < |handles| :: s.handles[x] == handles[Origin(s.order, x)])
            && (forall t, k | 0 <= t < |programs| && 0 <= k < |CopiedFrom(s.order, t)| ::
                  CopiedFrom(s.order, t)[k] < |handles|)
            && forall t | 0 <= t < |programs| :: s.runners[t].copies == HandlesAt(handles, CopiedFrom(s.order, t))
  {
    FinishedIsSerial(handles, programs, schedule);
    var s, m := Run(handles, programs, schedule).system, StartMemory(handles, programs);
    hide Run, Serial, AllFit, Origin, CopiedFrom, HandlesAt;
    forall x | 0 <= x < |handles|
      ensures Origin(s.order, x) < |handles| && s.handles[x] == handles[Origin(s.order, x)]
    {
      OriginsOfHandles(m, s.order, x);
    }
    forall t | 0 <= t < |programs|
      ensures forall k | 0 <= k < |CopiedFrom(s.order, t)| :: CopiedFrom(s.order, t)[k] < |handles|
      ensures s.runners[t].copies == HandlesAt(handles, CopiedFrom(s.order, t))
    {
      OriginsOfCopies(m, s.order, t);
      var copied := HandlesAt(handles, CopiedFrom(s.order, t));
      assert m.copies[t] == [] && [] + copied == copied;
    }
  }

  // ----- loggers that nothing changes -----

  predicate Changes(op: Op, x: Addr) {
    (op.Assign? && op.dst == x) || (op.Swap? && (op.first == x || op.second == x))
  }

  predicate NeverChanged(programs: seq<seq<Op>>, x: Addr) {
    forall t, i | 0 <= t < |programs| && 0 <= i < |programs[t]| :: !Changes(programs[t][i], x)
  }

  lemma StepLeaves(s: System, t: nat, x: Addr)
    requires Ok(s) && CanStep(s, t) && x < |s.handles| && !Changes(s.runners[t].Op(), x)
    ensures |Step(s, t).handles| == |s.handles| && Step(s, t).handles[x] == s.handles[x]
  {
    hide Fit, Holding, Runner.Holds, LocksAfter, RunnerAfter;
  }

  /** At every moment of every run, a logger that is never assigned to nor swapped has its initial handle. */
  lemma {:induction false} UntouchedKeeps(handles: seq<Handle>, programs: seq<seq<Op>>, schedule: seq<nat>, x: Addr)
    requires InRange(handles, programs) && Run(handles, programs, schedule).At?
    requires x < |handles| && NeverChanged(programs, x)
    ensures var s := Run(handles, programs, schedule).system; |s.handles| == |handles| && s.handles[x] == handles[x]
  {
    if schedule != [] {
      hide Ok, CanStep, Step;
      var n := |schedule| - 1;
      var s, t := Run(handles, programs, schedule[..n]).system, schedule[n];
      UntouchedKeeps(handles, programs, schedule[..n], x);
      NextOp(handles, programs, schedule[..n], t);
      StepLeaves(s, t, x);
    }
  }

  /** What a thread does next is in its program. */
  lemma NextOp(handles: seq<Handle>, programs: seq<seq<Op>>, schedule: seq<nat>, t: nat)
    requires InRange(handles, programs) && Run(handles, programs, schedule).At?
    ensures var s := Run(handles, programs, schedule).system;
            Ok(s) && (Unfinished(s, t) ==>
              && t < |programs| && s.runners[t].done < |programs[t]|
              && s.runners[t].Op() == programs[t][s.runners[t].done])
  {
    RunIsOk(handles, programs, schedule);
    RunnersStay(handles, programs, schedule);
    if t < |programs| {
      ProgramOrder(handles, programs, schedule, t);
    }
    hide Run, Ok;
  }

  // ----- the order holds the programs -----

  lemma {:induction false} InItsProgram(order: seq<(nat, Op)>, k: nat)
    requires k < |order|
    ensures order[k].1 in OpsOf(order, order[k].0)
  {
    var n := |order| - 1;
    if k < n {
      InItsProgram(order[..n], k);
      assert order[..n][k] == order[k];
    }
  }

  lemma {:induction false} InTheOrder(order: seq<(nat, Op)>, t: nat, op: Op) returns (k: nat)
    requires op in OpsOf(order, t)
    ensures k < |order| && order[k] == (t, op)
  {
    var n := |order| - 1;
    if order[n] == (t, op) {
      k := n;
    } else {
      k := InTheOrder(order[..n], t, op);
    }
  }

  // ----- one source -----

  /** Everything is assigned or copied from one logger. */
  predicate FromOne(programs: seq<seq<Op>>, src: Addr) {
    forall t, i | 0 <= t < |programs| && 0 <= i < |programs[t]| :: Takes(programs[t][i], src)
  }

  predicate Takes(op: Op, src: Addr) {
    (op.Copy? || op.Assign?) && op.src == src
  }

  ghost predicate Assigned(programs: seq<seq<Op>>, x: Addr) {
    exists t, i :: 0 <= t < |programs| && 0 <= i < |programs[t]| && programs[t][i].Assign? && programs[t][i].dst == x
  }

  function CopiesIn(ops: seq<Op>): nat {
    if ops == [] then 0 else CopiesIn(ops[..|ops| - 1]) + if ops[|ops| - 1].Copy? then 1 else 0
  }

  ghost predicate TakesAll(order: seq<(nat, Op)>, src: Addr) {
    forall k | 0 <= k < |order| :: Takes(order[k].1, src)
  }

  ghost predicate AssignedIn(order: seq<(nat, Op)>, x: Addr) {
    exists k :: 0 <= k < |order| && order[k].1.Assign? && order[k].1.dst == x
  }

  lemma {:induction false} OriginOfSource(order: seq<(nat, Op)>, src: Addr)
    requires TakesAll(order, src)
    ensures Origin(order, src) == src
  {
    if order != [] {
      var n := |order| - 1;
      assert Takes(order[n].1, src);
      assert forall k | 0 <= k < n :: order[..n][k] == order[k];
      OriginOfSource(order[..n], src);
    }
  }

  lemma {:induction false} OriginFromOne(order: seq<(nat, Op)>, src: Addr, x: Addr)
    requires TakesAll(order, src)
    ensures Origin(order, x) == if AssignedIn(order, x) then src else x
  {
    if order != [] {
      var n := |order| - 1;
      assert Takes(order[n].1, src);
      assert forall k | 0 <= k < n :: order[..n][k] == order[k];
      if order[n].1.Assign? && order[n].1.dst == x {
        OriginOfSource(order[..n], src);
      } else {
        OriginFromOne(order[..n], src, x);
        assert AssignedIn(order, x) <==> AssignedIn(order[..n], x);
      }
    }
  }

  lemma {:induction false} CopiesFromOne(order: seq<(nat, Op)>, src: Addr, t: nat)
    requires TakesAll(order, src)
    ensures |CopiedFrom(order, t)| == CopiesIn(OpsOf(order, t))
    ensures forall k | 0 <= k < |CopiedFrom(order, t)| :: CopiedFrom(order, t)[k] == src
  {
    if order != [] {
      var n := |order| - 1;
      assert Takes(order[n].1, src);
      assert forall k | 0 <= k < n :: order[..n][k] == order[k];
      CopiesFromOne(order[..n], src, t);
      OriginOfSource(order[..n], src);
      CopiesInSnoc(OpsOf(order[..n], t), order[n].1);
      LastOf(order, t);
      hide CopiedFrom, OpsOf, CopiesIn, Origin, TakesAll;
    }
  }

  lemma CopiesInSnoc(ops: seq<Op>, op: Op)
    ensures CopiesIn(ops + [op]) == CopiesIn(ops) + if op.Copy? then 1 else 0
  {
    assert (ops + [op])[..|ops|] == ops;
  }

  lemma LastOf(order: seq<(nat, Op)>, t: nat)
    requires order != []
    ensures var n := |order| - 1;
            var u, op := order[n].0, order[n].1;
            && OpsOf(order, t) == (if u == t then OpsOf(order[..n], t) + [op] else OpsOf(order[..n], t))
            && CopiedFrom(order, t)
               == if u == t && op.Copy? then CopiedFrom(order[..n], t) + [Origin(order[..n], op.src)]
                  else CopiedFrom(order[..n], t)
  {
    var n := |order| - 1;
    assert OpsOf(order[..n], t) + [] == OpsOf(order[..n], t);
    assert CopiedFrom(order[..n], t) + [] == CopiedFrom(order[..n], t);
  }

  /** When all programs only assign and copy from one logger, and all threads are finished, exactly the loggers that
      were assigned to have that logger's initial handle instead of their own, and so has every copy, one for each in
      the program. */
  lemma AllFromOne(handles: seq<Handle>, programs: seq<seq<Op>>, schedule: seq<nat>, src: Addr)
    requires InRange(handles, programs) && Run(handles, programs, schedule).At? && FromOne(programs, src)
    requires Finished(Run(handles, programs, schedule).system) && src < |handles|
    ensures var s := Run(handles, programs, schedule).system;
            && |s.handles| == |handles| && |s.runners| == |programs|
            && (forall x | 0 <= x < |handles| :: s.handles[x] == handles[if Assigned(programs, x) then src else x])
            && (forall t | 0 <= t < |programs| :: |s.runners[t].copies| == CopiesIn(programs[t]))
            && forall t, k | 0 <= t < |programs| && 0 <= k < |s.runners[t].copies| ::
                 s.runners[t].copies[k] == handles[src]
  {
    FinishedOrigins(handles, programs, schedule);
    OrderIsPrograms(handles, programs, schedule);
    var s := Run(handles, programs, schedule).system;
    hide Run, Finished, Origin, CopiedFrom, OpsOf;
    forall k | 0 <= k < |s.order| ensures Takes(s.order[k].1, src) {
      InItsProgram(s.order, k);
      var t := s.order[k].0;
      var i :| 0 <= i < |programs[t]| && programs[t][i] == s.order[k].1;
    }
    forall x | 0 <= x < |handles| ensures s.handles[x] == handles[if Assigned(programs, x) then src else x] {
      OriginFromOne(s.order, src, x);
      SameAssigned(s.order, programs, x);
    }
    forall t | 0 <= t < |programs|
      ensures |s.runners[t].copies| == CopiesIn(programs[t])
      ensures forall k | 0 <= k < |s.runners[t].copies| :: s.runners[t].copies[k] == handles[src]
    {
      CopiesFromOne(s.order, src, t);
    }
  }

  /** The order holds exactly the operations of the programs. */
  ghost predicate Holds(order: seq<(nat, Op)>, programs: seq<seq<Op>>) {
    && (forall k | 0 <= k < |order| :: order[k].0 < |programs|)
    && forall t | 0 <= t < |programs| :: OpsOf(order, t) == programs[t]
  }

  lemma OrderIsPrograms(handles: seq<Handle>, programs: seq<seq<Op>>, schedule: seq<nat>)
    requires InRange(handles, programs) && Run(handles, programs, schedule).At?
    requires Finished(Run(handles, programs, schedule).system)
    ensures Holds(Run(handles, programs, schedule).system.order, programs)
  {
    FinishedIsSerial(handles, programs, schedule);
    var order, m := Run(handles, programs, schedule).system.order, StartMemory(handles, programs);
    forall k | 0 <= k < |order| ensures order[k].0 < |programs| {
      assert Fits(m, order[k].0, order[k].1);
    }
  }

  lemma SameAssigned(order: seq<(nat, Op)>, programs: seq<seq<Op>>, x: Addr)
    requires Holds(order, programs)
    ensures AssignedIn(order, x) <==> Assigned(programs, x)
  {
    hide OpsOf;
    if AssignedIn(order, x) {
      var k :| 0 <= k < |order| && order[k].1.Assign? && order[k].1.dst == x;
      InItsProgram(order, k);
      var t := order[k].0;
      var i :| 0 <= i < |programs[t]| && programs[t][i] == order[k].1;
    }
    if Assigned(programs, x) {
      var t, i :| 0 <= t < |programs| && 0 <= i < |programs[t]| && programs[t][i].Assign? && programs[t][i].dst == x;
      var k := InTheOrder(order, t, programs[t][i]);
    }
  }

  // ----- two loggers that are only swapped with each other -----

  predicate Exchanges(op: Op, a: Addr, b: Addr) {
    op == Swap(a, b) || op == Swap(b, a)
  }

  /** a and b are not changed but by swapping the two. */
  predicate Paired(programs: seq<seq<Op>>, a: Addr, b: Addr) {
    forall t, i | 0 <= t < |programs| && 0 <= i < |programs[t]| :: PairedIn(programs[t][i], a, b)
  }

  predicate PairedIn(op: Op, a: Addr, b: Addr) {
    Exchanges(op, a, b) || (!Changes(op, a) && !Changes(op, b))
  }

  function ExchangesIn(ops: seq<Op>, a: Addr, b: Addr): nat {
    if ops == [] then 0 else ExchangesIn(ops[..|ops| - 1], a, b) + if Exchanges(ops[|ops| - 1], a, b) then 1 else 0
  }

  function AllExchanges(programs: seq<seq<Op>>, a: Addr, b: Addr): nat {
    if programs == [] then 0
    else AllExchanges(programs[..|programs| - 1], a, b) + ExchangesIn(programs[|programs| - 1], a, b)
  }

  ghost function ExchangesDone(order: seq<(nat, Op)>, a: Addr, b: Addr): nat {
    if order == [] then 0
    else ExchangesDone(order[..|order| - 1], a, b) + if Exchanges(order[|order| - 1].1, a, b) then 1 else 0
  }

  ghost predicate PairedAll(order: seq<(nat, Op)>, a: Addr, b: Addr) {
    forall k | 0 <= k < |order| :: PairedIn(order[k].1, a, b)
  }

  lemma {:induction false} OriginOfPaired(order: seq<(nat, Op)>, a: Addr, b: Addr)
    requires a != b && PairedAll(order, a, b)
    ensures Origin(order, a) == (if ExchangesDone(order, a, b) % 2 == 1 then b else a)
    ensures Origin(order, b) == (if ExchangesDone(order, a, b) % 2 == 1 then a else b)
  {
    if order != [] {
      var n := |order| - 1;
      assert PairedIn(order[n].1, a, b);
      assert forall k | 0 <= k < n :: order[..n][k] == order[k];
      OriginOfPaired(order[..n], a, b);
    }
  }

  /** The operations that each of n threads has in the order. */
  ghost function Split(order: seq<(nat, Op)>, n: nat): (parts: seq<seq<Op>>)
    ensures |parts| == n && forall t | 0 <= t < n :: parts[t] == OpsOf(order, t)
  {
    seq(n, t requires 0 <= t < n => OpsOf(order, t))
  }

  lemma {:induction false} AllExchangesUpdate(programs: seq<seq<Op>>, t: nat, ops: seq<Op>, a: Addr, b: Addr)
    requires t < |programs|
    ensures AllExchanges(programs[t := ops], a, b) + ExchangesIn(programs[t], a, b)
         == AllExchanges(programs, a, b) + ExchangesIn(ops, a, b)
  {
    var n := |programs| - 1;
    if t < n {
      assert programs[t := ops][..n] == programs[..n][t := ops];
      AllExchangesUpdate(programs[..n], t, ops, a, b);
    } else {
      assert programs[t := ops][..n] == programs[..n];
    }
  }

  lemma {:induction false} NoExchanges(n: nat, a: Addr, b: Addr)
    ensures AllExchanges(Split([], n), a, b) == 0
  {
    if n > 0 {
      NoExchanges(n - 1, a, b);
      assert Split([], n)[..n - 1] == Split([], n - 1);
    }
  }

  /** One more operation is one more for its thread. */
  lemma SplitNext(order: seq<(nat, Op)>, n: nat)
    requires order != [] && order[|order| - 1].0 < n
    ensures var k := |order| - 1;
            var t, op := order[k].0, order[k].1;
            Split(order, n) == Split(order[..k], n)[t := OpsOf(order[..k], t) + [op]]
  {
    var k := |order| - 1;
    var t, op := order[k].0, order[k].1;
    forall u | 0 <= u < n ensures Split(order, n)[u] == Split(order[..k], n)[t := OpsOf(order[..k], t) + [op]][u] {
      assert OpsOf(order[..k], u) + [] == OpsOf(order[..k], u);
    }
  }

  lemma ExchangesInSnoc(ops: seq<Op>, op: Op, a: Addr, b: Addr)
    ensures ExchangesIn(ops + [op], a, b) == ExchangesIn(ops, a, b) + if Exchanges(op, a, b) then 1 else 0
  {
    assert (ops + [op])[..|ops|] == ops;
  }

  lemma {:induction false} ExchangesCounted(order: seq<(nat, Op)>, n: nat, a: Addr, b: Addr)
    requires forall k | 0 <= k < |order| :: order[k].0 < n
    ensures AllExchanges(Split(order, n), a, b) == ExchangesDone(order, a, b)
  {
    hide AllExchanges, ExchangesIn, OpsOf, Split, Exchanges;
    if order == [] {
      NoExchanges(n, a, b);
    } else {
      var k := |order| - 1;
      var t, op := order[k].0, order[k].1;
      ExchangesCounted(order[..k], n, a, b);
      SplitNext(order, n);
      AllExchangesUpdate(Split(order[..k], n), t, OpsOf(order[..k], t) + [op], a, b);
      ExchangesInSnoc(OpsOf(order[..k], t), op, a, b);
    }
  }

  /** Two loggers that are swapped with each other and not changed otherwise have exchanged their initial handles when
      all threads are finished, if and only if the programs swap them an odd number of times. */
  lemma SwapsExchange(handles: seq<Handle>, programs: seq<seq<Op>>, schedule: seq<nat>, a: Addr, b: Addr)
    requires InRange(handles, programs) && Run(handles, programs, schedule).At? && Paired(programs, a, b)
    requires Finished(Run(handles, programs, schedule).system) && a < |handles| && b < |handles| && a != b
    ensures var s := Run(handles, programs, schedule).system;
            && |s.handles| == |handles|
            && s.handles[a] == handles[if AllExchanges(programs, a, b) % 2 == 1 then b else a]
            && s.handles[b] == handles[if AllExchanges(programs, a, b) % 2 == 1 then a else b]
  {
    FinishedOrigins(handles, programs, schedule);
    OrderIsPrograms(handles, programs, schedule);
    var s := Run(handles, programs, schedule).system;
    hide Run, Finished, Origin, CopiedFrom, OpsOf, AllExchanges, ExchangesDone;
    forall k | 0 <= k < |s.order| ensures PairedIn(s.order[k].1, a, b) {
      InItsProgram(s.order, k);
      var t := s.order[k].0;
      var i :| 0 <= i < |programs[t]| && programs[t][i] == s.order[k].1;
    }
    OriginOfPaired(s.order, a, b);
    ExchangesCounted(s.order, |programs|, a, b);
    assert Split(s.order, |programs|) == programs;
  }
}
