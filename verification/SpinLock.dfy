/** reentrant_spin_lock, step by step, under any interleaving of any number of threads. */
module SpinLock {
  import opened Options

  type Thread = nat

  /** `default_id`: no thread holds the lock. */
  const NOBODY: Thread := 0

  /** Where a thread is. Between two atomic accesses it keeps what it read in a register. */
  datatype Pc =
    | Idle                                  // not inside a call
    | Trying(blocking: bool)                // about to compare-exchange, in lock (blocking) or try_lock
    | Pausing                               // the inner loop of lock: about to load thread_id
    | Counting                              // owns the lock, about to read count for count++
    | Storing(seen: int)                    // about to write count
    | Checking                              // unlock: about to compare thread_id with itself
    | Uncounting                            // about to read count for --count
    | Unstoring(seen: int)                  // about to write count
    | Releasing                             // count is 0, about to store default_id

  datatype Call = Lock | TryLock | Unlock

  /** A thread enters a call, or makes the next atomic step of the call it is in. */
  datatype Event = Enter(t: Thread, call: Call) | Next(t: Thread)

  /** What the last event returned to its caller, if it ended a call. */
  datatype Outcome = Running | Returned | Refused | Thrown

  /** `depth` is how many more locks than unlocks a thread has completed; it is not part of the program. */
  datatype State = State(threadId: Thread, count: int, pcs: map<Thread, Pc>, depths: map<Thread, nat>,
                         outcome: Outcome)
  {
    function Pc(t: Thread): Pc {
      if t in pcs then pcs[t] else Idle
    }

    function Depth(t: Thread): nat {
      if t in depths then depths[t] else 0
    }

    function Goto(t: Thread, pc: Pc, outcome: Outcome): State {
      this.(pcs := pcs[t := pc], outcome := outcome)
    }
  }

  const INIT := State(NOBODY, 0, map[], map[], Running)

  ghost predicate Enabled(s: State, e: Event) {
    e.t != NOBODY && (e.Enter? <==> s.Pc(e.t) == Idle)
  }

  ghost function Step(s: State, e: Event): State
    requires Enabled(s, e)
  {
    match e
    case Enter(t, Lock) => s.Goto(t, Trying(true), Running)
    case Enter(t, TryLock) => s.Goto(t, Trying(false), Running)
    case Enter(t, Unlock) => s.Goto(t, Checking, Running)
    case Next(t) =>
      match s.Pc(t)
      case Trying(blocking) =>
        if s.threadId == NOBODY then s.(threadId := t).Goto(t, Counting, Running)
        else if s.threadId == t then s.Goto(t, Counting, Running)
        else if blocking then s.Goto(t, Pausing, Running)
        else s.Goto(t, Idle, Refused)
      case Pausing =>
        if s.threadId == t || s.threadId == NOBODY then s.Goto(t, Trying(true), Running)
        else s.Goto(t, Pausing, Running)
      case Counting => s.Goto(t, Storing(s.count), Running)
      case Storing(seen) => s.(count := seen + 1, depths := s.depths[t := s.Depth(t) + 1]).Goto(t, Idle, Returned)
      case Checking => if s.threadId != t then s.Goto(t, Idle, Thrown) else s.Goto(t, Uncounting, Running)
      case Uncounting => s.Goto(t, Unstoring(s.count), Running)
      case Unstoring(seen) =>
        var less := s.(count := seen - 1, depths := s.depths[t := if s.Depth(t) > 0 then s.Depth(t) - 1 else 0]);
        if seen - 1 == 0 then less.Goto(t, Releasing, Running) else less.Goto(t, Idle, Returned)
      case Releasing => s.(threadId := NOBODY).Goto(t, Idle, Returned)
      case Idle => s
  }

  // ----- mutual exclusion -----

  /** Between its successful compare-exchange and its releasing store. */
  ghost predicate Inside(s: State, t: Thread) {
    s.Depth(t) > 0 || s.Pc(t).Counting? || s.Pc(t).Storing? || s.Pc(t).Uncounting? || s.Pc(t).Unstoring?
        || s.Pc(t).Releasing?
  }

  /** `count` is the nesting depth of the owner; inside a window the register of the owner agrees with both. */
  ghost predicate CountIsDepth(s: State) {
    var t := s.threadId;
    && s.count == s.Depth(t)
    && match s.Pc(t)
       case Counting => true
       case Storing(seen) => seen == s.Depth(t)
       case Uncounting => s.Depth(t) > 0
       case Unstoring(seen) => seen == s.Depth(t) > 0
       case Releasing => s.Depth(t) == 0
       case _ => t == NOBODY || s.Depth(t) > 0
  }

  ghost predicate Valid(s: State) {
    && s.Depth(NOBODY) == 0 && s.Pc(NOBODY) == Idle
    && CountIsDepth(s)
    && forall t | Inside(s, t) :: t == s.threadId
  }

  lemma StepKeepsValid(s: State, e: Event)
    requires Valid(s) && Enabled(s, e)
    ensures Valid(Step(s, e))
  {
    var r := Step(s, e);
    assert Inside(s, e.t) ==> e.t == s.threadId;
    forall t | Inside(r, t) ensures t == r.threadId {
      assert t != e.t ==> Inside(s, t);
    }
  }

  /** The state after a script, if every event of it can happen. */
  ghost function Run(es: seq<Event>): Option<State> {
    if es == [] then Some(INIT)
    else
      var before := Run(es[..|es| - 1]);
      var e := es[|es| - 1];
      if before.None? || !Enabled(before.value, e) then None else Some(Step(before.value, e))
  }

  lemma {:induction false} RunIsValid(es: seq<Event>)
    requires Run(es).Some?
    ensures Valid(Run(es).value)
  {
    if es != [] {
      hide Valid, Step, Enabled;
      RunIsValid(es[..|es| - 1]);
      StepKeepsValid(Run(es[..|es| - 1]).value, es[|es| - 1]);
    } else {
      StartIsValid();
    }
  }

  lemma StartIsValid()
    ensures Valid(INIT)
  {
  }

  /** In every run at most one thread is inside, and outside the windows of the owner `count` is its nesting depth. */
  lemma MutualExclusion(es: seq<Event>, t: Thread, u: Thread)
    requires Run(es).Some? && Inside(Run(es).value, t)
    ensures var s := Run(es).value;
            (Inside(s, u) ==> u == t) && s.threadId == t && s.count == s.Depth(t)
  {
    RunIsValid(es);
    hide Run;
  }

  /** A free lock has count 0 and nobody inside, so that the next owner starts from depth 0. */
  lemma FreeMeansEmpty(es: seq<Event>, t: Thread)
    requires Run(es).Some? && Run(es).value.threadId == NOBODY
    ensures var s := Run(es).value; s.count == 0 && !Inside(s, t)
  {
    RunIsValid(es);
    hide Run;
  }

  /** An unlock throws exactly when its thread has no lock to undo, and then it changes neither field. */
  lemma UnlockThrows(es: seq<Event>, t: Thread)
    requires Run(es).Some? && t != NOBODY && Run(es).value.Pc(t) == Checking
    ensures var s := Run(es).value;
            var r := Step(s, Next(t));
            (r.outcome == Thrown <==> s.Depth(t) == 0) && r.threadId == s.threadId && r.count == s.count
                && r.depths == s.depths
  {
    RunIsValid(es);
    hide Run;
    assert Inside(Run(es).value, t) <==> Run(es).value.Depth(t) > 0;
  }

  /** try_lock is refused exactly when another thread is inside; the owner always gets in again. */
  lemma TryLockRefused(es: seq<Event>, t: Thread)
    requires Run(es).Some? && t != NOBODY && Run(es).value.Pc(t) == Trying(false)
    ensures var s := Run(es).value;
            Step(s, Next(t)).outcome == Refused <==> exists u :: u != t && Inside(s, u)
  {
    RunIsValid(es);
    hide Run;
    var s := Run(es).value;
    if s.threadId != t && s.threadId != NOBODY {
      assert Inside(s, s.threadId);
    }
  }

  // ----- refinement -----

  /** A reentrant lock whose operations are atomic. */
  datatype Atomic = Free | Held(owner: Thread, times: nat)

  ghost predicate Acquires(a: Atomic, b: Atomic, t: Thread) {
    b == (if a.Free? then Held(t, 1) else Held(t, a.times + 1)) && (a.Held? ==> a.owner == t)
  }

  ghost predicate Releases(a: Atomic, b: Atomic, t: Thread) {
    a.Held? && a.owner == t && a.times > 0 && b == if a.times == 1 then Free else Held(t, a.times - 1)
  }

  /** A lock counts from its compare-exchange on; an unlock, when it writes count or gives the lock back. */
  ghost function Abstract(s: State): Atomic
    requires Valid(s)
  {
    var pc := s.Pc(s.threadId);
    if s.threadId == NOBODY then Free
    else Held(s.threadId, s.Depth(s.threadId) + if pc.Counting? || pc.Storing? || pc.Releasing? then 1 else 0)
  }

  ghost predicate TakesEffect(s: State, e: Event) {
    e.Next? && s.Pc(e.t).Trying? && (s.threadId == NOBODY || s.threadId == e.t)
  }

  ghost predicate GivesBack(s: State, e: Event) {
    e.Next? && ((s.Pc(e.t).Unstoring? && s.Pc(e.t).seen != 1) || s.Pc(e.t).Releasing?)
  }

  /** Every step of every run is an atomic acquire, an atomic release, or no change of the atomic lock. */
  lemma RefinesAtomicLock(s: State, e: Event)
    requires Valid(s) && Enabled(s, e)
    ensures Valid(Step(s, e))
    ensures var a, b := Abstract(s), Abstract(Step(s, e));
            if TakesEffect(s, e) then Acquires(a, b, e.t) else if GivesBack(s, e) then Releases(a, b, e.t) else a == b
  {
    StepKeepsValid(s, e);
    assert Inside(s, e.t) ==> e.t == s.threadId;
  }

  // ----- a waiting thread can get in -----

  lemma RunSnoc(es: seq<Event>, e: Event)
    requires Run(es).Some? && Enabled(Run(es).value, e)
    ensures Run(es + [e]) == Some(Step(Run(es).value, e))
  {
    assert (es + [e])[..|es|] == es;
  }

  ghost predicate Waits(pc: Pc) {
    pc == Trying(true) || pc == Pausing
  }

  /** When the lock is free, or its own, a thread that waits in lock gets it by its own steps alone. */
  lemma GetsFreeLock(es: seq<Event>, t: Thread) returns (more: seq<Event>)
    requires Run(es).Some? && t != NOBODY && Waits(Run(es).value.Pc(t))
    requires Run(es).value.threadId == NOBODY || Run(es).value.threadId == t
    ensures forall k | 0 <= k < |more| :: more[k] == Next(t)
    ensures Run(es + more).Some?
    ensures var s, r := Run(es).value, Run(es + more).value;
            r.threadId == t && r.Pc(t) == Idle && r.outcome == Returned && r.Depth(t) == s.Depth(t) + 1
    decreases if Run(es).value.Pc(t) == Pausing then 1 else 0
  {
    var e := Next(t);
    var s := Run(es).value;
    RunSnoc(es, e);
    if s.Pc(t) == Pausing {
      var rest := GetsFreeLock(es + [e], t);
      hide Run;
      more := [e] + rest;
      assert es + more == es + [e] + rest;
    } else {
      RunSnoc(es + [e], e);
      RunSnoc(es + [e] + [e], e);
      hide Run;
      more := [e, e, e];
      assert es + more == es + [e] + [e] + [e];
    }
  }

  /** How many steps the owner is from having given the lock back, if it only unlocks. */
  ghost function OwnerRank(s: State, t: Thread): nat {
    var d := s.Depth(t);
    match s.Pc(t)
    case Pausing => 10 * d + 19
    case Trying(_) => 10 * d + 18
    case Counting => 10 * d + 17
    case Storing(_) => 10 * d + 16
    case Idle => 10 * d + 5
    case Checking => 10 * d + 4
    case Uncounting => 10 * d + 3
    case Unstoring(_) => 10 * d + 2
    case Releasing => 1
  }

  ghost function OwnerNext(s: State, t: Thread): Event {
    if s.Pc(t) == Idle then Enter(t, Unlock) else Next(t)
  }

  lemma OwnerProgresses(s: State)
    requires Valid(s) && s.threadId != NOBODY
    ensures var t := s.threadId;
            var e := OwnerNext(s, t);
            && Enabled(s, e) && (Step(s, e).threadId == NOBODY || Step(s, e).threadId == t)
            && (Step(s, e).threadId == t ==> OwnerRank(Step(s, e), t) < OwnerRank(s, t))
            && forall u | u != t :: Step(s, e).Pc(u) == s.Pc(u) && Step(s, e).Depth(u) == s.Depth(u)
  {
  }

  /** From every state of every run the owner can still give the lock back, and nobody else needs to move. */
  lemma {:induction false} CanBeFreed(es: seq<Event>) returns (more: seq<Event>)
    requires Run(es).Some?
    ensures Run(es + more).Some? && Run(es + more).value.threadId == NOBODY
    ensures forall u | u != NOBODY && u != Run(es).value.threadId ::
              Run(es + more).value.Pc(u) == Run(es).value.Pc(u)
              && Run(es + more).value.Depth(u) == Run(es).value.Depth(u)
    decreases if Run(es).value.threadId == NOBODY then 0 else OwnerRank(Run(es).value, Run(es).value.threadId) + 1
  {
    hide Valid, Step, Enabled, OwnerRank, OwnerNext;
    var s := Run(es).value;
    RunIsValid(es);
    if s.threadId == NOBODY {
      more := [];
      assert es + more == es;
    } else {
      OwnerProgresses(s);
      var e := OwnerNext(s, s.threadId);
      RunSnoc(es, e);
      hide Run;
      var rest := CanBeFreed(es + [e]);
      more := [e] + rest;
      assert es + more == es + [e] + rest;
    }
  }

  /** No thread that waits in lock is shut out for good: from every state of every run it can still get the lock. */
  lemma CanAcquire(es: seq<Event>, t: Thread) returns (more: seq<Event>)
    requires Run(es).Some? && t != NOBODY && Waits(Run(es).value.Pc(t))
    ensures Run(es + more).Some?
    ensures var r := Run(es + more).value; r.threadId == t && r.Pc(t) == Idle && r.Depth(t) > 0
  {
    if Run(es).value.threadId == t {
      more := GetsFreeLock(es, t);
    } else {
      var freed := CanBeFreed(es);
      var taken := GetsFreeLock(es + freed, t);
      hide Run;
      more := freed + taken;
      assert es + more == es + freed + taken;
    }
  }
}
