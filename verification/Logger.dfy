/** Copying, assigning and swapping logger handles under two reentrant locks, taken in the order of the addresses. */
module LoggerLocks {
  import opened SpinLock

  /** The loggers are numbered in the order of their addresses. */
  type Addr = nat
  type Handle = nat

  datatype Op = Copy(src: Addr) | Assign(dst: Addr, src: Addr) | Swap(first: Addr, second: Addr)

  /** The locks an operation takes, in this order. A self-assignment takes none, a self-swap takes its lock twice. */
  function Needs(op: Op): seq<Addr> {
    match op
    case Copy(src) => [src]
    case Assign(dst, src) => if dst == src then [] else if dst < src then [dst, src] else [src, dst]
    case Swap(first, second) => if first < second then [first, second] else [second, first]
  }

  /** The handle that is read first: the source, or for a swap that of the lower address. */
  function Source(op: Op): Addr {
    match op
    case Copy(src) => src
    case Assign(_, src) => src
    case Swap(_, _) => Needs(op)[0]
  }

  datatype Phase =
    | Locking(k: nat)      // holds the first k locks
    | Reading
    | Writing              // has read the source
    | Finishing            // swap only: has overwritten the lower handle
    | Unlocking(k: nat)    // still holds the first k locks

  /** A thread runs its program; `copies` are the handles of the loggers it has copy-constructed. */
  datatype Runner = Runner(program: seq<Op>, done: nat, phase: Phase, reg: Handle, copies: seq<Handle>) {
    ghost predicate Active() {
      done < |program|
    }

    ghost function Op(): Op
      requires Active()
    {
      program[done]
    }

    /** How often it holds each lock. */
    ghost function Holds(): multiset<Addr> {
      if !Active() then multiset{}
      else
        var needs := Needs(Op());
        match phase
        case Locking(k) => if k <= |needs| then multiset(needs[..k]) else multiset{}
        case Unlocking(k) => if k <= |needs| then multiset(needs[..k]) else multiset{}
        case _ => multiset(needs)
    }

    ghost predicate Valid(size: nat) {
      && done <= |program|
      && (forall i, k | 0 <= i < |program| && 0 <= k < |Needs(program[i])| :: Needs(program[i])[k] < size)
      && (!Active() ==> phase == Locking(0))
      && (Active() ==>
            var n := |Needs(Op())|;
            match phase
            case Locking(k) => k == 0 || k < n
            case Unlocking(k) => 0 < k <= n
            case Finishing => Op().Swap?
            case _ => n > 0)
    }
  }

  /** `order` records which operation of which thread took effect; it is not part of the program. */
  datatype System = System(locks: seq<Atomic>, handles: seq<Handle>, runners: seq<Runner>, order: seq<(nat, Op)>)

  ghost function Start(handles: seq<Handle>, programs: seq<seq<Op>>): System {
    System(seq(|handles|, i => Free), handles,
        seq(|programs|, t requires 0 <= t < |programs| => Runner(programs[t], 0, Locking(0), 0, [])), [])
  }

  ghost predicate InRange(handles: seq<Handle>, programs: seq<seq<Op>>) {
    forall t, i, k | 0 <= t < |programs| && 0 <= i < |programs[t]| && 0 <= k < |Needs(programs[t][i])| ::
      Needs(programs[t][i])[k] < |handles|
  }

  // ----- steps -----

  ghost predicate Unfinished(s: System, t: nat) {
    t < |s.runners| && s.runners[t].Active()
  }

  /** A thread waits only for a lock that another thread holds. */
  ghost predicate CanStep(s: System, t: nat)
    requires Ok(s)
  {
    Unfinished(s, t) && !Waits(s, t)
  }

  ghost predicate Waits(s: System, t: nat)
    requires Ok(s) && Unfinished(s, t)
  {
    var me := s.runners[t];
    me.phase.Locking? && me.phase.k < |Needs(me.Op())| &&
    var lock := s.locks[Needs(me.Op())[me.phase.k]];
    lock.Held? && lock.owner != t
  }

  ghost function Acquired(a: Atomic, t: nat): (b: Atomic)
    requires a.Held? ==> a.owner == t
    ensures Acquires(a, b, t)
  {
    if a.Free? then Held(t, 1) else Held(t, a.times + 1)
  }

  ghost function Released(a: Atomic, t: nat): (b: Atomic)
    requires a.Held? && a.owner == t && a.times > 0
    ensures Releases(a, b, t)
  {
    if a.times == 1 then Free else Held(t, a.times - 1)
  }

  /** What every thread holds. */
  ghost function Holding(s: System): seq<multiset<Addr>> {
    seq(|s.runners|, t requires 0 <= t < |s.runners| => s.runners[t].Holds())
  }

  /** A lock is held exactly by the thread whose position says so, and as often. */
  ghost predicate Fit(locks: seq<Atomic>, holding: seq<multiset<Addr>>) {
    && (forall x, t | 0 <= x < |locks| && 0 <= t < |holding| && holding[t][x] > 0 :: locks[x] == Held(t, holding[t][x]))
    && forall x | 0 <= x < |locks| && locks[x].Held? :: locks[x].owner < |holding| && holding[locks[x].owner][x] > 0
  }

  lemma FitAcquired(locks: seq<Atomic>, holding: seq<multiset<Addr>>, t: nat, x: Addr)
    requires Fit(locks, holding) && t < |holding| && x < |locks| && (locks[x].Held? ==> locks[x].owner == t)
    ensures Fit(locks[x := Acquired(locks[x], t)], holding[t := holding[t] + multiset{x}])
  {
    assert locks[x].Free? ==> holding[t][x] == 0;
  }

  lemma FitReleased(locks: seq<Atomic>, holding: seq<multiset<Addr>>, t: nat, x: Addr)
    requires Fit(locks, holding) && t < |holding| && x < |locks| && holding[t][x] > 0
    ensures Fit(locks[x := Released(locks[x], t)], holding[t := holding[t] - multiset{x}])
  {
  }

  ghost predicate Ok(s: System) {
    && |s.locks| == |s.handles|
    && (forall t | 0 <= t < |s.runners| :: s.runners[t].Valid(|s.locks|))
    && Fit(s.locks, Holding(s))
  }

  /** The step of thread t, field by field. */
  ghost function Step(s: System, t: nat): System
    requires Ok(s) && CanStep(s, t)
  {
    System(LocksAfter(s, t), HandlesAfter(s, t), s.runners[t := RunnerAfter(s, t)],
           s.order + if Commits(s.runners[t]) then [(t, s.runners[t].Op())] else [])
  }

  ghost function LocksAfter(s: System, t: nat): seq<Atomic>
    requires Ok(s) && CanStep(s, t)
  {
    var me := s.runners[t];
    var needs := Needs(me.Op());
    match me.phase
    case Locking(k) =>
      if needs == [] then s.locks else s.locks[needs[k] := Acquired(s.locks[needs[k]], t)]
    case Unlocking(k) =>
      HoldsLast(me, s, t);
      s.locks[needs[k - 1] := Released(s.locks[needs[k - 1]], t)]
    case _ => s.locks
  }

  ghost function HandlesAfter(s: System, t: nat): (handles: seq<Handle>)
    requires Ok(s) && Unfinished(s, t)
    ensures |handles| == |s.handles|
  {
    var me := s.runners[t];
    var op := me.Op();
    match me.phase
    case Writing =>
      (match op
       case Copy(_) => s.handles
       case Assign(dst, _) =>
         assert dst == Needs(op)[0] || dst == Needs(op)[1];
         s.handles[dst := me.reg]
       case Swap(_, _) => s.handles[Needs(op)[0] := s.handles[Needs(op)[1]]])
    case Finishing => s.handles[Needs(op)[1] := me.reg]
    case _ => s.handles
  }

  ghost function RunnerAfter(s: System, t: nat): Runner
    requires Ok(s) && Unfinished(s, t)
  {
    var me := s.runners[t];
    if me.phase.Reading? then
      SourceInRange(me.Op());
      me.(phase := Writing, reg := s.handles[Source(me.Op())])
    else Moved(me)
  }

  ghost function Moved(me: Runner): Runner
    requires me.Active()
  {
    var op := me.Op();
    var n := |Needs(op)|;
    match me.phase
    case Locking(k) =>
      if n == 0 then me.(done := me.done + 1) else me.(phase := if k + 1 == n then Reading else Locking(k + 1))
    case Reading => me
    case Writing =>
      if op.Swap? then me.(phase := Finishing)
      else if op.Copy? then me.(phase := Unlocking(1), copies := me.copies + [me.reg])
      else me.(phase := Unlocking(2))
    case Finishing => me.(phase := Unlocking(2))
    case Unlocking(k) =>
      if k <= 1 then me.(done := me.done + 1, phase := Locking(0)) else me.(phase := Unlocking(k - 1))
  }

  /** The step at which an operation takes effect. */
  ghost predicate Commits(me: Runner)
    requires me.Active()
  {
    match me.phase
    case Locking(_) => Needs(me.Op()) == []
    case Writing => !me.Op().Swap?
    case Finishing => true
    case _ => false
  }

  lemma SourceInRange(op: Op)
    requires Needs(op) != []
    ensures Source(op) == Needs(op)[0] || (|Needs(op)| == 2 && Source(op) == Needs(op)[1])
  {
  }

  lemma HoldsLast(me: Runner, s: System, t: nat)
    requires Ok(s) && t < |s.runners| && me == s.runners[t] && me.Active() && me.phase.Unlocking?
    ensures var x := Needs(me.Op())[me.phase.k - 1];
            x < |s.locks| && s.locks[x] == Held(t, me.Holds()[x]) && me.Holds()[x] > 0
  {
    var needs := Needs(me.Op());
    assert needs[..me.phase.k][me.phase.k - 1] == needs[me.phase.k - 1];
    assert Holding(s)[t] == me.Holds();
  }

  lemma TakeOne(needs: seq<Addr>, k: nat)
    requires k < |needs|
    ensures multiset(needs[..k + 1]) == multiset(needs[..k]) + multiset{needs[k]}
  {
    assert needs[..k + 1] == needs[..k] + [needs[k]];
  }

  lemma HoldsNothing(me: Runner)
    requires me.phase == Locking(0)
    ensures me.Holds() == multiset{}
  {
    if me.Active() {
      assert Needs(me.Op())[..0] == [];
    }
  }

  lemma HoldsLocking(me: Runner, size: nat)
    requires me.Valid(size) && me.Active() && me.phase.Locking?
    ensures var needs := Needs(me.Op());
            Moved(me).Holds() == if needs == [] then me.Holds() else me.Holds() + multiset{needs[me.phase.k]}
  {
    hide Needs;
    var needs := Needs(me.Op());
    if needs == [] {
      HoldsNothing(me);
      HoldsNothing(Moved(me));
    } else {
      TakeOne(needs, me.phase.k);
      assert needs[..|needs|] == needs;
    }
  }

  lemma HoldsUnlocking(me: Runner, size: nat)
    requires me.Valid(size) && me.Active() && me.phase.Unlocking?
    ensures Moved(me).Holds() == me.Holds() - multiset{Needs(me.Op())[me.phase.k - 1]}
  {
    var needs := Needs(me.Op());
    TakeOne(needs, me.phase.k - 1);
    if me.phase.k == 1 {
      HoldsNothing(Moved(me));
      assert needs[..0] == [];
    }
  }

  lemma HoldsInside(me: Runner, size: nat)
    requires me.Valid(size) && me.Active() && (me.phase.Writing? || me.phase.Finishing?)
    ensures Moved(me).Holds() == me.Holds()
  {
    var needs := Needs(me.Op());
    assert needs[..|needs|] == needs;
  }

  lemma RunnerStaysValid(s: System, t: nat)
    requires Ok(s) && CanStep(s, t)
    ensures RunnerAfter(s, t).Valid(|s.locks|)
  {
  }

  lemma StepKeepsLocks(s: System, t: nat)
    requires Ok(s) && CanStep(s, t)
    ensures Fit(LocksAfter(s, t), Holding(Step(s, t)))
  {
    hide Fit, Runner.Holds, Moved, HandlesAfter;
    var me := s.runners[t];
    var needs := Needs(me.Op());
    assert Holding(Step(s, t)) == Holding(s)[t := RunnerAfter(s, t).Holds()];
    match me.phase
    case Locking(k) =>
      HoldsLocking(me, |s.locks|);
      if needs != [] {
        FitAcquired(s.locks, Holding(s), t, needs[k]);
      } else {
        assert Holding(s)[t := me.Holds()] == Holding(s);
      }
    case Unlocking(k) =>
      HoldsUnlocking(me, |s.locks|);
      HoldsLast(me, s, t);
      FitReleased(s.locks, Holding(s), t, needs[k - 1]);
    case Reading =>
      SourceInRange(me.Op());
      HoldsReading(me, s.handles[Source(me.Op())]);
      assert Holding(s)[t := me.Holds()] == Holding(s);
    case _ =>
      HoldsInside(me, |s.locks|);
      assert Holding(s)[t := me.Holds()] == Holding(s);
  }

  lemma HoldsReading(me: Runner, read: Handle)
    requires me.Active() && me.phase.Reading?
    ensures me.(phase := Writing, reg := read).Holds() == me.Holds()
  {
  }

  lemma StepKeepsOk(s: System, t: nat)
    requires Ok(s) && CanStep(s, t)
    ensures Ok(Step(s, t))
  {
    StepKeepsLocks(s, t);
    RunnerStaysValid(s, t);
    assert |LocksAfter(s, t)| == |s.locks| && |HandlesAfter(s, t)| == |s.handles|;
    hide Fit, Runner.Valid, RunnerAfter, Holding, LocksAfter, HandlesAfter;
    var r := Step(s, t);
    forall u | 0 <= u < |r.runners| ensures r.runners[u].Valid(|r.locks|) {
      assert s.runners[u].Valid(|s.locks|);
    }
  }

  // ----- runs -----

  lemma StartIsOk(handles: seq<Handle>, programs: seq<seq<Op>>)
    requires InRange(handles, programs)
    ensures Ok(Start(handles, programs))
  {
    var s := Start(handles, programs);
    forall t | 0 <= t < |s.runners| ensures s.runners[t].Holds() == multiset{} && s.runners[t].Valid(|s.locks|) {
      HoldsNothing(s.runners[t]);
    }
    assert forall t | 0 <= t < |s.runners| :: Holding(s)[t] == s.runners[t].Holds();
  }

  /** The system after the threads have made their steps in the order of the schedule, if each of them could. */
  ghost function Run(handles: seq<Handle>, programs: seq<seq<Op>>, schedule: seq<nat>): Outcome {
    if schedule == [] then At(Start(handles, programs))
    else
      var n := |schedule| - 1;
      var before := Run(handles, programs, schedule[..n]);
      if before.Stuck? || !Ready(before.system, schedule[n]) then Stuck else At(Step(before.system, schedule[n]))
  }

  datatype Outcome = Stuck | At(system: System)

  ghost predicate Ready(s: System, t: nat) {
    Ok(s) && CanStep(s, t)
  }

  lemma {:induction false} RunIsOk(handles: seq<Handle>, programs: seq<seq<Op>>, schedule: seq<nat>)
    requires InRange(handles, programs) && Run(handles, programs, schedule).At?
    ensures Ok(Run(handles, programs, schedule).system)
  {
    if schedule == [] {
      StartIsOk(handles, programs);
    } else {
      var n := |schedule| - 1;
      RunIsOk(handles, programs, schedule[..n]);
      StepKeepsOk(Run(handles, programs, schedule[..n]).system, schedule[n]);
    }
  }

  // ----- no deadlock, and every run ends -----

  ghost predicate Owns(s: System, t: nat, x: Addr) {
    x < |s.locks| && s.locks[x].Held? && s.locks[x].owner == t
  }

  lemma HoldsMeansOwns(s: System, t: nat, k: nat)
    requires Ok(s) && Unfinished(s, t) && k < |Needs(s.runners[t].Op())|
    requires var p := s.runners[t].phase;
             p.Reading? || p.Writing? || p.Finishing? || (p.Locking? && k < p.k) || (p.Unlocking? && k < p.k)
    ensures Owns(s, t, Needs(s.runners[t].Op())[k])
  {
    var me := s.runners[t];
    var needs := Needs(me.Op());
    var x := needs[k];
    if me.phase.Locking? || me.phase.Unlocking? {
      assert needs[..me.phase.k][k] == x;
    }
    assert Holding(s)[t][x] > 0;
  }

  lemma OwnerIsActive(s: System, x: Addr)
    requires Ok(s) && x < |s.locks| && s.locks[x].Held?
    ensures Unfinished(s, s.locks[x].owner)
    ensures var u := s.runners[s.locks[x].owner];
            u.phase.Locking? ==> u.phase.k > 0 && exists k :: 0 <= k < u.phase.k && Needs(u.Op())[k] == x
  {
    var t := s.locks[x].owner;
    assert Holding(s)[t][x] > 0;
    var u := s.runners[t];
    if u.phase.Locking? {
      assert x in Needs(u.Op())[..u.phase.k];
      var k :| 0 <= k < u.phase.k && Needs(u.Op())[..u.phase.k][k] == x;
      assert Needs(u.Op())[k] == x;
    }
  }

  ghost function Wanted(s: System, t: nat): (x: Addr)
    requires Ok(s) && Unfinished(s, t) && Waits(s, t)
    ensures x < |s.locks|
  {
    Needs(s.runners[t].Op())[s.runners[t].phase.k]
  }

  /** A thread that waits for the owner of x, which itself waits, waits for one that wants a higher address. */
  lemma ChainClimbs(s: System, t: nat) returns (u: nat)
    requires Ok(s) && Unfinished(s, t) && Waits(s, t)
    ensures Unfinished(s, u) && (Waits(s, u) ==> Wanted(s, u) > Wanted(s, t))
  {
    hide Fit, Runner.Valid, Holding, Needs, Runner.Holds;
    var x := Wanted(s, t);
    OwnerIsActive(s, x);
    u := s.locks[x].owner;
    if Waits(s, u) {
      var op, k := s.runners[u].Op(), s.runners[u].phase.k;
      Ascending(op);
      var i :| 0 <= i < k && Needs(op)[i] == x;
      assert i == 0 && k == 1 && Wanted(s, u) == Needs(op)[1] >= x;
      assert s.locks[Wanted(s, u)].owner != u;
    }
  }

  lemma Ascending(op: Op)
    ensures |Needs(op)| <= 2 && (|Needs(op)| == 2 ==> Needs(op)[0] <= Needs(op)[1])
  {
  }

  lemma {:induction false} SomeoneCanStep(s: System, t: nat) returns (u: nat)
    requires Ok(s) && Unfinished(s, t)
    ensures CanStep(s, u)
    decreases if Waits(s, t) then |s.locks| - Wanted(s, t) else 0
  {
    hide Ok, Wanted, Waits;
    u := t;
    if Waits(s, t) {
      u := ChainClimbs(s, t);
      if Waits(s, u) {
        u := SomeoneCanStep(s, u);
      }
    }
  }

  /** While some thread is unfinished, some thread can step. */
  lemma NoDeadlock(handles: seq<Handle>, programs: seq<seq<Op>>, schedule: seq<nat>, t: nat)
    requires InRange(handles, programs) && Run(handles, programs, schedule).At?
    requires Unfinished(Run(handles, programs, schedule).system, t)
    ensures exists u :: Ready(Run(handles, programs, schedule).system, u)
  {
    hide Run, Ok;
    RunIsOk(handles, programs, schedule);
    var u := SomeoneCanStep(Run(handles, programs, schedule).system, t);
    assert Ready(Run(handles, programs, schedule).system, u);
  }

  function Cost(op: Op): nat {
    match op
    case Copy(_) => 4
    case Assign(dst, src) => if dst == src then 1 else 6
    case Swap(_, _) => 7
  }

  ghost function Costs(ops: seq<Op>): nat {
    if ops == [] then 0 else Cost(ops[0]) + Costs(ops[1..])
  }

  /** The steps that a thread has ahead of it. */
  ghost function Work(me: Runner): int {
    if !me.Active() then 0 else Costs(me.program[me.done + 1..]) + Left(me.phase, me.Op())
  }

  /** The steps that are left of one operation. */
  ghost function Left(phase: Phase, op: Op): int {
    match phase
    case Locking(k) => Cost(op) - k
    case Reading => Cost(op) - |Needs(op)|
    case Writing => Cost(op) - |Needs(op)| - 1
    case Finishing => 3
    case Unlocking(k) => k
  }

  lemma WorkOfNext(me: Runner)
    requires me.Active()
    ensures Work(me.(done := me.done + 1, phase := Locking(0))) == Costs(me.program[me.done + 1..])
  {
    if me.done + 1 < |me.program| {
      assert me.program[me.done + 1..][1..] == me.program[me.done + 2..];
    } else {
      assert me.program[me.done + 1..] == [];
    }
  }

  lemma WorkShrinks(me: Runner, size: nat, read: Handle)
    requires me.Valid(size) && me.Active()
    ensures Work(if me.phase.Reading? then me.(phase := Writing, reg := read) else Moved(me)) == Work(me) - 1
    ensures Work(me) > 0
  {
    hide Costs;
    match me.phase
    case Locking(k) =>
      if Needs(me.Op()) == [] {
        WorkOfNext(me);
      }
    case Unlocking(k) =>
      if k == 1 {
        WorkOfNext(me);
      }
    case Reading =>
    case Writing =>
    case Finishing =>
  }

  ghost function TotalWork(runners: seq<Runner>): int {
    if runners == [] then 0 else Work(runners[0]) + TotalWork(runners[1..])
  }

  lemma {:induction false} TotalWorkUpdate(runners: seq<Runner>, t: nat, r: Runner)
    requires t < |runners|
    ensures TotalWork(runners[t := r]) == TotalWork(runners) - Work(runners[t]) + Work(r)
  {
    if t > 0 {
      TotalWorkUpdate(runners[1..], t - 1, r);
      assert runners[t := r][1..] == runners[1..][t - 1 := r];
    } else {
      assert runners[t := r][1..] == runners[1..];
    }
  }

  lemma {:induction false} TotalWorkNonNegative(runners: seq<Runner>, size: nat)
    requires forall t | 0 <= t < |runners| :: runners[t].Valid(size)
    ensures TotalWork(runners) >= 0
  {
    if runners != [] {
      TotalWorkNonNegative(runners[1..], size);
      if runners[0].Active() {
        WorkShrinks(runners[0], size, 0);
      }
    }
  }

  /** Every step is one unit of work, so that no run is longer than the work there is at the start: together with
      NoDeadlock, every run that goes on as long as it can ends with all threads finished. */
  lemma {:induction false} EveryRunEnds(handles: seq<Handle>, programs: seq<seq<Op>>, schedule: seq<nat>)
    requires InRange(handles, programs) && Run(handles, programs, schedule).At?
    ensures |schedule| + TotalWork(Run(handles, programs, schedule).system.runners)
            == TotalWork(Start(handles, programs).runners)
    ensures |schedule| <= TotalWork(Start(handles, programs).runners)
  {
    hide Ok, CanStep, Step, TotalWork;
    var s := Run(handles, programs, schedule).system;
    RunIsOk(handles, programs, schedule);
    OkRunners(s);
    TotalWorkNonNegative(s.runners, |s.locks|);
    if schedule != [] {
      var n := |schedule| - 1;
      EveryRunEnds(handles, programs, schedule[..n]);
      var before, t := Run(handles, programs, schedule[..n]).system, schedule[n];
      WorkStep(before, t);
    }
  }

  lemma OkRunners(s: System)
    requires Ok(s)
    ensures forall t | 0 <= t < |s.runners| :: s.runners[t].Valid(|s.locks|)
  {
  }

  lemma WorkStep(s: System, t: nat)
    requires Ok(s) && CanStep(s, t)
    ensures TotalWork(Step(s, t).runners) == TotalWork(s.runners) - 1
  {
    var me := s.runners[t];
    if me.phase.Reading? {
      SourceInRange(me.Op());
      WorkShrinks(me, |s.locks|, s.handles[Source(me.Op())]);
    } else {
      WorkShrinks(me, |s.locks|, 0);
    }
    TotalWorkUpdate(s.runners, t, RunnerAfter(s, t));
  }

  // ----- serial order -----

  /** The handles, and for each thread the handles that it has copied. */
  datatype Memory = Memory(handles: seq<Handle>, copies: seq<seq<Handle>>)

  ghost predicate Fits(m: Memory, t: nat, op: Op) {
    t < |m.copies| && forall k | 0 <= k < |Needs(op)| :: Needs(op)[k] < |m.handles|
  }

  /** One operation, all at once. */
  ghost function Apply(m: Memory, t: nat, op: Op): (r: Memory)
    requires Fits(m, t, op)
    ensures |r.handles| == |m.handles| && |r.copies| == |m.copies|
  {
    match op
    case Copy(src) => m.(copies := m.copies[t := m.copies[t] + [m.handles[Needs(op)[0]]]])
    case Assign(dst, src) =>
      if dst == src then m
      else
        SourceInRange(op);
        assert dst == Needs(op)[0] || dst == Needs(op)[1];
        m.(handles := m.handles[dst := m.handles[src]])
    case Swap(_, _) =>
      var a, b := Needs(op)[0], Needs(op)[1];
      m.(handles := m.handles[a := m.handles[b]][b := m.handles[a]])
  }

  ghost predicate AllFit(m: Memory, order: seq<(nat, Op)>) {
    forall i | 0 <= i < |order| :: Fits(m, order[i].0, order[i].1)
  }

  /** The operations of a list, one after the other. */
  ghost function Serial(m: Memory, order: seq<(nat, Op)>): (r: Memory)
    requires AllFit(m, order)
    ensures |r.handles| == |m.handles| && |r.copies| == |m.copies|
  {
    if order == [] then m
    else
      var n := |order| - 1;
      assert forall i | 0 <= i < n :: order[..n][i] == order[i];
      Apply(Serial(m, order[..n]), order[n].0, order[n].1)
  }

  /** Inside a swap the lower handle is already overwritten. */
  ghost predicate Tears(me: Runner, x: Addr) {
    me.Active() && me.phase.Finishing? && Needs(me.Op()) != [] && x == Needs(me.Op())[0]
  }

  ghost predicate Torn(s: System, x: Addr) {
    x < |s.locks| && s.locks[x].Held? && s.locks[x].owner < |s.runners| && Tears(s.runners[s.locks[x].owner], x)
  }

  /** What a thread has read is still there, and a swap under way has written the right handle. */
  ghost predicate ReadRight(me: Runner, handles: seq<Handle>, m: Memory)
    requires me.Valid(|handles|) && |m.handles| == |handles|
  {
    if me.Active() && (me.phase.Writing? || me.phase.Finishing?) then
      SourceInRange(me.Op());
      var needs := Needs(me.Op());
      me.reg == m.handles[Source(me.Op())] && (me.phase.Finishing? ==> handles[needs[0]] == m.handles[needs[1]])
    else true
  }

  /** The shared memory is that of the serial execution, but for the swaps under way. */
  ghost predicate Agrees(s: System, m: Memory)
    requires Ok(s)
  {
    && |m.handles| == |s.handles| && |m.copies| == |s.runners|
    && (forall t | 0 <= t < |s.runners| :: m.copies[t] == s.runners[t].copies)
    && (forall t | 0 <= t < |s.runners| :: ReadRight(s.runners[t], s.handles, m))
    && forall x | 0 <= x < |s.handles| && !Torn(s, x) :: s.handles[x] == m.handles[x]
  }

  ghost function MemoryAfter(s: System, t: nat, m: Memory): (r: Memory)
    requires Ok(s) && CanStep(s, t) && |m.handles| == |s.handles| && |m.copies| == |s.runners|
    ensures |r.handles| == |m.handles| && |r.copies| == |m.copies|
  {
    if Commits(s.runners[t]) then Apply(m, t, s.runners[t].Op()) else m
  }

  lemma ReadRightFrame(me: Runner, h: seq<Handle>, m: Memory, h2: seq<Handle>, m2: Memory)
    requires me.Valid(|h|) && |m.handles| == |h| == |h2| == |m2.handles| && ReadRight(me, h, m)
    requires me.Active() && (me.phase.Writing? || me.phase.Finishing?) ==>
               forall k | 0 <= k < |Needs(me.Op())| ::
                 var x := Needs(me.Op())[k]; h2[x] == h[x] && m2.handles[x] == m.handles[x]
    ensures ReadRight(me, h2, m2)
  {
    if me.Active() && (me.phase.Writing? || me.phase.Finishing?) {
      SourceInRange(me.Op());
    }
  }

  lemma TornElsewhere(s: System, t: nat, x: Addr)
    requires Ok(s) && CanStep(s, t) && x < |s.locks|
    requires !Tears(s.runners[t], x) && !Tears(RunnerAfter(s, t), x)
    ensures Torn(Step(s, t), x) <==> Torn(s, x)
  {
    hide Tears, Runner.Holds, HandlesAfter, RunnerAfter;
    if s.runners[t].phase.Unlocking? {
      HoldsLast(s.runners[t], s, t);
    }
    hide Holding, Fit;
  }

  /** The operations of two threads inside their critical sections concern different loggers. */
  lemma Disjoint(s: System, t: nat, u: nat, i: nat, k: nat)
    requires Ok(s) && Unfinished(s, t) && Unfinished(s, u) && t != u
    requires !s.runners[t].phase.Locking? && !s.runners[t].phase.Unlocking?
    requires s.runners[u].phase.Writing? || s.runners[u].phase.Finishing?
    requires i < |Needs(s.runners[t].Op())| && k < |Needs(s.runners[u].Op())|
    ensures Needs(s.runners[t].Op())[i] != Needs(s.runners[u].Op())[k]
  {
    HoldsMeansOwns(s, t, i);
    HoldsMeansOwns(s, u, k);
  }

  /** A step changes handles, in the program and in the serial execution, only of loggers that its operation locks. */
  lemma OnlyOwn(s: System, t: nat, m: Memory, x: Addr)
    requires Ok(s) && CanStep(s, t) && |m.handles| == |s.handles| && |m.copies| == |s.runners| && x < |s.handles|
    requires x !in Needs(s.runners[t].Op()) || !(s.runners[t].phase.Writing? || s.runners[t].phase.Finishing?)
    ensures HandlesAfter(s, t)[x] == s.handles[x] && MemoryAfter(s, t, m).handles[x] == m.handles[x]
  {
  }

  lemma OthersReadRight(s: System, t: nat, m: Memory, u: nat)
    requires Ok(s) && CanStep(s, t) && Agrees(s, m) && u < |s.runners| && u != t
    ensures ReadRight(s.runners[u], HandlesAfter(s, t), MemoryAfter(s, t, m))
  {
    var h2, m2 := HandlesAfter(s, t), MemoryAfter(s, t, m);
    var op := s.runners[t].Op();
    var you := s.runners[u];
    if you.Active() && (you.phase.Writing? || you.phase.Finishing?) {
      forall k | 0 <= k < |Needs(you.Op())|
        ensures var x := Needs(you.Op())[k]; h2[x] == s.handles[x] && m2.handles[x] == m.handles[x]
      {
        var x := Needs(you.Op())[k];
        if x in Needs(op) && (s.runners[t].phase.Writing? || s.runners[t].phase.Finishing?) {
          var i :| 0 <= i < |Needs(op)| && Needs(op)[i] == x;
          Disjoint(s, t, u, i, k);
          assert false;
        }
        OnlyOwn(s, t, m, x);
      }
    }
    ReadRightFrame(you, s.handles, m, h2, m2);
  }

  lemma OwnIsNotTorn(s: System, t: nat, k: nat)
    requires Ok(s) && Unfinished(s, t) && (s.runners[t].phase.Reading? || s.runners[t].phase.Writing?)
    requires k < |Needs(s.runners[t].Op())|
    ensures Needs(s.runners[t].Op())[k] < |s.locks| && !Torn(s, Needs(s.runners[t].Op())[k])
  {
    HoldsMeansOwns(s, t, k);
  }

  lemma SelfReadsRight(s: System, t: nat, m: Memory)
    requires Ok(s) && CanStep(s, t) && Agrees(s, m)
    ensures RunnerAfter(s, t).Valid(|s.locks|)
    ensures ReadRight(RunnerAfter(s, t), HandlesAfter(s, t), MemoryAfter(s, t, m))
  {
    RunnerStaysValid(s, t);
    var me := s.runners[t];
    hide Holding, Fit, Runner.Holds, Torn;
    if me.phase.Reading? {
      SourceInRange(me.Op());
      OwnIsNotTorn(s, t, if Source(me.Op()) == Needs(me.Op())[0] then 0 else 1);
    } else if me.phase.Writing? && me.Op().Swap? {
      OwnIsNotTorn(s, t, 1);
    }
  }

  lemma CopiesAfter(s: System, t: nat, m: Memory, u: nat)
    requires Ok(s) && CanStep(s, t) && Agrees(s, m) && u < |s.runners|
    ensures MemoryAfter(s, t, m).copies[u] == Step(s, t).runners[u].copies
  {
    hide Holding, Fit, Runner.Holds, Torn;
  }

  lemma HandlesAgree(s: System, t: nat, m: Memory, x: Addr)
    requires Ok(s) && CanStep(s, t) && Agrees(s, m) && x < |s.handles| && !Torn(Step(s, t), x)
    ensures HandlesAfter(s, t)[x] == MemoryAfter(s, t, m).handles[x]
  {
    var me := s.runners[t];
    if !(me.phase.Writing? || me.phase.Finishing?) || x !in Needs(me.Op()) {
      OnlyOwn(s, t, m, x);
      TornElsewhere(s, t, x);
    } else if me.phase.Writing? && !me.Op().Swap? {
      WriteAgrees(s, t, m, x);
    } else if me.phase.Writing? {
      SwapHalfAgrees(s, t, m, x);
    } else {
      SwapAgrees(s, t, m, x);
    }
  }

  lemma WriteAgrees(s: System, t: nat, m: Memory, x: Addr)
    requires Ok(s) && CanStep(s, t) && Agrees(s, m) && s.runners[t].phase.Writing? && !s.runners[t].Op().Swap?
    requires x < |s.handles| && x in Needs(s.runners[t].Op())
    ensures HandlesAfter(s, t)[x] == MemoryAfter(s, t, m).handles[x]
  {
    var needs := Needs(s.runners[t].Op());
    var k :| 0 <= k < |needs| && needs[k] == x;
    OwnIsNotTorn(s, t, k);
    hide Holding, Fit, Runner.Holds, Torn;
  }

  lemma SwapHalfAgrees(s: System, t: nat, m: Memory, x: Addr)
    requires Ok(s) && CanStep(s, t) && Agrees(s, m) && s.runners[t].phase.Writing? && s.runners[t].Op().Swap?
    requires x < |s.handles| && x in Needs(s.runners[t].Op()) && !Torn(Step(s, t), x)
    ensures HandlesAfter(s, t)[x] == MemoryAfter(s, t, m).handles[x]
  {
    HoldsMeansOwns(s, t, 0);
    OwnIsNotTorn(s, t, 1);
    hide Holding, Fit, Runner.Holds;
  }

  lemma SwapAgrees(s: System, t: nat, m: Memory, x: Addr)
    requires Ok(s) && CanStep(s, t) && Agrees(s, m) && s.runners[t].phase.Finishing?
    requires x < |s.handles| && x in Needs(s.runners[t].Op())
    ensures HandlesAfter(s, t)[x] == MemoryAfter(s, t, m).handles[x]
  {
    hide Holding, Fit, Runner.Holds, Torn;
  }

  /** The step that commits an operation does to the shared memory what the operation does all at once. */
  lemma StepAgrees(s: System, t: nat, m: Memory)
    requires Ok(s) && CanStep(s, t) && Agrees(s, m)
    ensures Ok(Step(s, t)) && Agrees(Step(s, t), MemoryAfter(s, t, m))
  {
    StepKeepsOk(s, t);
    var r, m2 := Step(s, t), MemoryAfter(s, t, m);
    forall u | 0 <= u < |r.runners|
      ensures m2.copies[u] == r.runners[u].copies && ReadRight(r.runners[u], r.handles, m2)
    {
      CopiesAfter(s, t, m, u);
      if u == t {
        SelfReadsRight(s, t, m);
      } else {
        OthersReadRight(s, t, m, u);
      }
    }
    forall x | 0 <= x < |r.handles| && !Torn(r, x) ensures r.handles[x] == m2.handles[x] {
      HandlesAgree(s, t, m, x);
    }
  }

  ghost function StartMemory(handles: seq<Handle>, programs: seq<seq<Op>>): Memory {
    Memory(handles, seq(|programs|, t => []))
  }

  lemma SerialSnoc(m: Memory, order: seq<(nat, Op)>, t: nat, op: Op)
    requires AllFit(m, order) && Fits(m, t, op)
    ensures AllFit(m, order + [(t, op)]) && Serial(m, order + [(t, op)]) == Apply(Serial(m, order), t, op)
  {
    var more := order + [(t, op)];
    assert more[..|order|] == order;
    forall i | 0 <= i < |more| ensures Fits(m, more[i].0, more[i].1) {
      assert i < |order| ==> more[i] == order[i];
    }
  }

  lemma StartAgrees(handles: seq<Handle>, programs: seq<seq<Op>>)
    requires InRange(handles, programs)
    ensures Ok(Start(handles, programs)) && Agrees(Start(handles, programs), StartMemory(handles, programs))
    ensures var m := StartMemory(handles, programs); AllFit(m, []) && Serial(m, []) == m
  {
    StartIsOk(handles, programs);
  }

  lemma OpFits(s: System, t: nat, m: Memory)
    requires Ok(s) && Unfinished(s, t) && AllFit(m, s.order) && Agrees(s, Serial(m, s.order))
    ensures Fits(m, t, s.runners[t].Op())
  {
  }

  /** In every run the handles, and the copies made, are those of the operations done one at a time in the order in
      which they took effect; a handle may differ only while a swap that holds its lock is half done. */
  lemma {:induction false} Serializable(handles: seq<Handle>, programs: seq<seq<Op>>, schedule: seq<nat>)
    requires InRange(handles, programs) && Run(handles, programs, schedule).At?
    ensures var s, m := Run(handles, programs, schedule).system, StartMemory(handles, programs);
            Ok(s) && AllFit(m, s.order) && Agrees(s, Serial(m, s.order))
  {
    hide Ok, Agrees, Serial, AllFit;
    var s0 := StartMemory(handles, programs);
    if schedule == [] {
      StartAgrees(handles, programs);
    } else {
      var n := |schedule| - 1;
      Serializable(handles, programs, schedule[..n]);
      var s, t := Run(handles, programs, schedule[..n]).system, schedule[n];
      StepAgrees(s, t, Serial(s0, s.order));
      if Commits(s.runners[t]) {
        OpFits(s, t, s0);
        SerialSnoc(s0, s.order, t, s.runners[t].Op());
      } else {
        assert Step(s, t).order == s.order;
      }
    }
  }

  ghost predicate Finished(s: System) {
    forall t | 0 <= t < |s.runners| :: !s.runners[t].Active()
  }

  function OpsOf(order: seq<(nat, Op)>, t: nat): seq<Op> {
    if order == [] then []
    else
      var n := |order| - 1;
      OpsOf(order[..n], t) + if order[n].0 == t then [order[n].1] else []
  }

  /** The operations of a thread that have taken effect. */
  ghost function Committed(me: Runner): seq<Op>
    requires me.done <= |me.program|
  {
    me.program[..if me.Active() && me.phase.Unlocking? then me.done + 1 else me.done]
  }

  lemma CommitsInOrder(me: Runner, size: nat)
    requires me.Valid(size) && me.Active() && !me.phase.Reading?
    ensures Moved(me).done <= |Moved(me).program| && Moved(me).program == me.program
    ensures Committed(Moved(me)) == Committed(me) + if Commits(me) then [me.Op()] else []
  {
    hide Runner.Holds;
    assert me.program[..me.done + 1] == me.program[..me.done] + [me.Op()];
  }

  lemma OpsOfSnoc(order: seq<(nat, Op)>, t: nat, op: Op, u: nat)
    ensures OpsOf(order + [(t, op)], u) == OpsOf(order, u) + if t == u then [op] else []
    ensures order + [] == order
  {
    assert (order + [(t, op)])[..|order|] == order;
  }

  lemma OrderStep(s: System, t: nat, u: nat)
    requires Ok(s) && CanStep(s, t) && u < |s.runners| && OpsOf(s.order, u) == Committed(s.runners[u])
    ensures RunnerAfter(s, t).done <= |RunnerAfter(s, t).program|
    ensures var r := Step(s, t);
            OpsOf(r.order, u) == Committed(r.runners[u]) && r.runners[u].program == s.runners[u].program
  {
    hide Fit, Holding, Runner.Holds, HandlesAfter, LocksAfter, Moved, OpsOf;
    var me := s.runners[t];
    OpsOfSnoc(s.order, t, me.Op(), u);
    if !me.phase.Reading? {
      CommitsInOrder(me, |s.locks|);
    } else {
      assert !Commits(me);
    }
  }

  /** The serial order keeps the order of every program: what took effect of a thread is a first part of its program. */
  lemma {:induction false} ProgramOrder(handles: seq<Handle>, programs: seq<seq<Op>>, schedule: seq<nat>, u: nat)
    requires InRange(handles, programs) && Run(handles, programs, schedule).At? && u < |programs|
    ensures var s := Run(handles, programs, schedule).system;
            && |s.runners| == |programs| && s.runners[u].program == programs[u]
            && s.runners[u].done <= |programs[u]| && OpsOf(s.order, u) == Committed(s.runners[u])
  {
    if schedule != [] {
      var n := |schedule| - 1;
      ProgramOrder(handles, programs, schedule[..n], u);
      OrderStep(Run(handles, programs, schedule[..n]).system, schedule[n], u);
    }
  }

  /** When all threads are finished, the handles and the copies are exactly those of a serial execution of all the
      programs that keeps the order of each. */
  lemma FinishedIsSerial(handles: seq<Handle>, programs: seq<seq<Op>>, schedule: seq<nat>)
    requires InRange(handles, programs) && Run(handles, programs, schedule).At?
    requires Finished(Run(handles, programs, schedule).system)
    ensures var s, m := Run(handles, programs, schedule).system, StartMemory(handles, programs);
            && AllFit(m, s.order) && |s.runners| == |programs|
            && s.handles == Serial(m, s.order).handles
            && (forall t | 0 <= t < |programs| :: s.runners[t].copies == Serial(m, s.order).copies[t])
            && forall t | 0 <= t < |programs| :: OpsOf(s.order, t) == programs[t]
  {
    var s := Run(handles, programs, schedule).system;
    Serializable(handles, programs, schedule);
    RunnersStay(handles, programs, schedule);
    forall t | 0 <= t < |programs| ensures OpsOf(s.order, t) == programs[t] {
      ProgramOrder(handles, programs, schedule, t);
      assert s.runners[t].Valid(|s.locks|);
      assert programs[t][..|programs[t]|] == programs[t];
    }
    forall x | 0 <= x < |s.handles| ensures !Torn(s, x) {
    }
  }

  lemma {:induction false} RunnersStay(handles: seq<Handle>, programs: seq<seq<Op>>, schedule: seq<nat>)
    requires InRange(handles, programs) && Run(handles, programs, schedule).At?
    ensures |Run(handles, programs, schedule).system.runners| == |programs|
  {
    if schedule != [] {
      RunnersStay(handles, programs, schedule[..|schedule| - 1]);
    }
  }

  // ----- swaps only -----

  ghost predicate OnlySwaps(programs: seq<seq<Op>>) {
    forall t, i | 0 <= t < |programs| && 0 <= i < |programs[t]| :: programs[t][i].Swap?
  }

  lemma SwapPermutes(h: seq<Handle>, a: nat, b: nat)
    requires a < |h| && b < |h|
    ensures multiset(h[a := h[b]][b := h[a]]) == multiset(h)
  {
  }

  lemma {:induction false} SerialSwapsPermute(m: Memory, order: seq<(nat, Op)>)
    requires AllFit(m, order) && forall i | 0 <= i < |order| :: order[i].1.Swap?
    ensures multiset(Serial(m, order).handles) == multiset(m.handles)
  {
    if order != [] {
      var n := |order| - 1;
      assert forall i | 0 <= i < n :: order[..n][i] == order[i];
      SerialSwapsPermute(m, order[..n]);
      var before, op := Serial(m, order[..n]), order[n].1;
      SwapPermutes(before.handles, Needs(op)[0], Needs(op)[1]);
    }
  }

  lemma {:induction false} OrderIsFromPrograms(handles: seq<Handle>, programs: seq<seq<Op>>, schedule: seq<nat>)
    requires InRange(handles, programs) && Run(handles, programs, schedule).At? && OnlySwaps(programs)
    ensures forall i | 0 <= i < |Run(handles, programs, schedule).system.order| ::
              Run(handles, programs, schedule).system.order[i].1.Swap?
  {
    if schedule != [] {
      var n := |schedule| - 1;
      OrderIsFromPrograms(handles, programs, schedule[..n]);
      RunnersStay(handles, programs, schedule[..n]);
      var s, t := Run(handles, programs, schedule[..n]).system, schedule[n];
      ProgramOrder(handles, programs, schedule[..n], t);
      assert s.runners[t].Op() == programs[t][s.runners[t].done];
    }
  }

  /** Threads that only swap end with a permutation of the initial handles, although no swap is atomic. */
  lemma SwapsPermute(handles: seq<Handle>, programs: seq<seq<Op>>, schedule: seq<nat>)
    requires InRange(handles, programs) && Run(handles, programs, schedule).At? && OnlySwaps(programs)
    requires Finished(Run(handles, programs, schedule).system)
    ensures multiset(Run(handles, programs, schedule).system.handles) == multiset(handles)
  {
    FinishedIsSerial(handles, programs, schedule);
    OrderIsFromPrograms(handles, programs, schedule);
    SerialSwapsPermute(StartMemory(handles, programs), Run(handles, programs, schedule).system.order);
  }
}
