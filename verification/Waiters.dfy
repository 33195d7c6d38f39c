/** The waiter list of a coroutine's promise: add_waitor against return_value and the destructor. */
module PromiseWaiters {
  import opened Options

  /** A call of add_waitor; `fails` counts its failed try_locks. The call names the coroutine that waits. */
  datatype CallPc =
    | Starting               // about to load finish_
    | Trying(fails: nat)     // about to try_lock
    | Failed(fails: nat)     // try_lock failed, about to load finish_
    | Locked(fails: nat)     // holds the mutex, about to load finish_
    | Added                  // holds the mutex, has pushed its handle
    | Refusing(fails: nat)   // holds the mutex, has seen finish_
    | Returned(ok: bool, fails: nat)

  /** The thread that runs the coroutine: return_value (at most once), then the destructor (`last`). */
  datatype OwnerPc =
    | Running | Suspended                  // before return_value; between it and the destructor
    | Locking(last: bool)                  // about to take the mutex in resume_all_waitor
    | Marking                              // about to store finish_
    | Draining(last: bool)                 // about to look at the list
    | Popping(last: bool)                  // has resumed the front, about to pop it
    | Dead

  datatype Mutex = Free | ByOwner | ByCall(c: nat)

  /** `added` and `resumed` are histories: the handles pushed and the handles resumed. */
  datatype State = State(finish: bool, mutex: Mutex, waiters: seq<nat>, owner: OwnerPc, calls: seq<CallPc>,
                         added: seq<nat>, resumed: seq<nat>)

  datatype Event =
    | Call                              // another thread calls add_waitor
    | Next(c: nat)                      // the next step of a call, except try_lock
    | TryLock(c: nat, success: bool)    // try_lock may fail even when the mutex is free
    | Return | Destroy                  // the owner enters return_value, or the destructor
    | Owner                             // the next step of the owner

  const INIT := State(false, Free, [], Running, [], [], [])

  ghost predicate Enabled(s: State, e: Event) {
    match e
    case Call => true
    case Next(c) => c < |s.calls| && !s.calls[c].Trying? && !s.calls[c].Returned?
    case TryLock(c, success) => c < |s.calls| && s.calls[c].Trying? && (success ==> s.mutex == Free)
    case Return => s.owner == Running
    case Destroy => s.owner == Running || s.owner == Suspended
    case Owner => s.owner.Marking? || s.owner.Draining? || s.owner.Popping? || (s.owner.Locking? && s.mutex == Free)
  }

  ghost function Goto(s: State, c: nat, pc: CallPc): State
    requires c < |s.calls|
  {
    s.(calls := s.calls[c := pc])
  }

  ghost function Step(s: State, e: Event): State
    requires Enabled(s, e)
  {
    match e
    case Call => s.(calls := s.calls + [Starting])
    case TryLock(c, success) =>
      var fails := s.calls[c].fails;
      if success then Goto(s, c, Locked(fails)).(mutex := ByCall(c)) else Goto(s, c, Failed(fails + 1))
    case Next(c) =>
      (match s.calls[c]
       case Starting => Goto(s, c, if s.finish then Returned(false, 0) else Trying(0))
       case Failed(fails) => Goto(s, c, if s.finish || fails > 3 then Returned(false, fails) else Trying(fails))
       case Locked(fails) =>
         if s.finish then Goto(s, c, Refusing(fails))
         else Goto(s, c, Added).(waiters := s.waiters + [c], added := s.added + [c])
       case Added => Goto(s, c, Returned(true, 0)).(mutex := Free)
       case Refusing(fails) => Goto(s, c, Returned(false, fails)).(mutex := Free)
       case _ => s)
    case Return => s.(owner := Locking(false))
    case Destroy => s.(owner := Locking(true))
    case Owner => OwnerStep(s)
  }

  ghost function OwnerStep(s: State): State {
    match s.owner
    case Locking(last) => s.(mutex := ByOwner, owner := if last then Marking else Draining(false))
    case Marking => s.(finish := true, owner := Draining(true))
    case Draining(last) =>
      if s.waiters != [] then s.(resumed := s.resumed + [s.waiters[0]], owner := Popping(last))
      else s.(mutex := Free, owner := if last then Dead else Suspended)
    case Popping(last) => s.(waiters := if s.waiters != [] then s.waiters[1..] else [], owner := Draining(last))
    case _ => s
  }

  // ----- exactly once -----

  ghost predicate IsAdded(pc: CallPc) {
    pc == Added || (pc.Returned? && pc.ok)
  }

  ghost predicate HoldsMutex(pc: CallPc) {
    pc.Locked? || pc.Added? || pc.Refusing?
  }

  /** The mutex has one holder, and finish_ is set while it is held for the last time. */
  ghost predicate MutexFits(s: State) {
    && (forall c | 0 <= c < |s.calls| :: HoldsMutex(s.calls[c]) <==> s.mutex == ByCall(c))
    && (s.mutex.ByCall? ==> s.mutex.c < |s.calls|)
    && (s.mutex == ByOwner <==> s.owner.Marking? || s.owner.Draining? || s.owner.Popping?)
    && (s.finish <==> s.owner == Dead || s.owner == Draining(true) || s.owner == Popping(true))
  }

  /** The list holds what was added and not yet resumed, in order. */
  ghost predicate ListFits(s: State) {
    && (s.owner.Popping? ==> s.waiters != [])
    && s.added == s.resumed + (if s.owner.Popping? then s.waiters[1..] else s.waiters)
    && (s.owner == Dead ==> s.waiters == [])
    && (forall j, k | 0 <= j < k < |s.added| :: s.added[j] != s.added[k])
  }

  ghost predicate AddedFits(s: State) {
    && (forall c | 0 <= c < |s.calls| :: c in s.added <==> IsAdded(s.calls[c]))
    && (forall k | 0 <= k < |s.added| :: s.added[k] < |s.calls|)
  }

  /** A refusal has a reason. */
  ghost predicate ReasonFits(pc: CallPc, finish: bool) {
    match pc
    case Trying(fails) => fails < 4
    case Locked(fails) => fails < 4
    case Failed(fails) => 0 < fails <= 4
    case Refusing(fails) => finish || fails == 4
    case Returned(ok, fails) => ok || finish || fails == 4
    case _ => true
  }

  ghost predicate Valid(s: State) {
    && MutexFits(s) && ListFits(s) && AddedFits(s)
    && forall c | 0 <= c < |s.calls| :: ReasonFits(s.calls[c], s.finish)
  }

  lemma OwnerKeepsValid(s: State)
    requires Valid(s) && Enabled(s, Owner)
    ensures Valid(OwnerStep(s))
  {
    var r := OwnerStep(s);
    if s.owner.Draining? && s.waiters != [] {
      assert s.waiters == [s.waiters[0]] + s.waiters[1..];
      assert s.resumed + s.waiters == r.resumed + s.waiters[1..];
    } else if s.owner.Draining? {
      assert s.resumed + s.waiters == s.resumed;
    }
  }

  lemma AddKeepsValid(s: State, c: nat)
    requires Valid(s) && c < |s.calls| && s.calls[c].Locked? && !s.finish
    ensures Valid(Step(s, Next(c)))
  {
    var r := Step(s, Next(c));
    assert s.mutex == ByCall(c) && c !in s.added;
    assert s.resumed + (s.waiters + [c]) == (s.resumed + s.waiters) + [c];
    assert r.added[|s.added|] == c;
    forall d | 0 <= d < |r.calls| ensures d in r.added <==> IsAdded(r.calls[d]) {
      assert d in r.added <==> d in s.added || d == c;
    }
  }

  lemma CallKeepsMutex(s: State, e: Event)
    requires MutexFits(s) && Enabled(s, e) && (e.Next? || e.TryLock?)
    ensures MutexFits(Step(s, e))
  {
    assert HoldsMutex(s.calls[e.c]) <==> s.mutex == ByCall(e.c);
  }

  lemma CallKeepsReasons(s: State, e: Event, c: nat)
    requires Enabled(s, e) && (e.Next? || e.TryLock?) && c < |s.calls| && ReasonFits(s.calls[c], s.finish)
    ensures var r := Step(s, e); |r.calls| == |s.calls| && ReasonFits(r.calls[c], r.finish)
  {
  }

  lemma CallKeepsList(s: State, e: Event)
    requires ListFits(s) && AddedFits(s) && Enabled(s, e) && (e.Next? || e.TryLock?) && Step(s, e).added == s.added
    ensures ListFits(Step(s, e)) && AddedFits(Step(s, e))
  {
    var r := Step(s, e);
    assert IsAdded(r.calls[e.c]) == IsAdded(s.calls[e.c]);
    forall d | 0 <= d < |r.calls| ensures d in r.added <==> IsAdded(r.calls[d]) {
      assert d in s.added <==> IsAdded(s.calls[d]);
    }
  }

  lemma CallKeepsValid(s: State, e: Event)
    requires Valid(s) && Enabled(s, e) && (e.Next? || e.TryLock?) && Step(s, e).added == s.added
    ensures Valid(Step(s, e))
  {
    CallKeepsMutex(s, e);
    CallKeepsList(s, e);
    hide MutexFits, ListFits, AddedFits, ReasonFits, Step, Enabled;
    forall c | 0 <= c < |Step(s, e).calls| ensures ReasonFits(Step(s, e).calls[c], Step(s, e).finish) {
      CallsStay(s, e);
      CallKeepsReasons(s, e, c);
    }
  }

  lemma CallsStay(s: State, e: Event)
    requires Enabled(s, e) && (e.Next? || e.TryLock?)
    ensures |Step(s, e).calls| == |s.calls|
  {
  }

  lemma CallIsNew(s: State)
    requires Valid(s)
    ensures Valid(Step(s, Call))
  {
    assert |s.calls| !in s.added;
  }

  lemma StepKeepsValid(s: State, e: Event)
    requires Valid(s) && Enabled(s, e)
    ensures Valid(Step(s, e))
  {
    match e
    case Call => CallIsNew(s);
    case Owner => OwnerKeepsValid(s);
    case Next(c) =>
      if s.calls[c].Locked? && !s.finish {
        AddKeepsValid(s, c);
      } else {
        CallKeepsValid(s, e);
      }
    case TryLock(_, _) => CallKeepsValid(s, e);
    case Return =>
    case Destroy =>
  }

  ghost function Run(es: seq<Event>): Option<State> {
    if es == [] then Some(INIT)
    else
      var before := Run(es[..|es| - 1]);
      var e := es[|es| - 1];
      if before.None? || !Enabled(before.value, e) then None else Some(Step(before.value, e))
  }

  lemma {:induction false} RunIsValid(es: seq<Event>)
    requires Run(es).Some?
    ensures Valid(Run(es).value)
  {
    if es != [] {
      hide Valid, Step, Enabled;
      RunIsValid(es[..|es| - 1]);
      StepKeepsValid(Run(es[..|es| - 1]).value, es[|es| - 1]);
    }
  }

  lemma {:induction false} CountDistinct(items: seq<nat>, c: nat)
    requires forall j, k | 0 <= j < k < |items| :: items[j] != items[k]
    ensures multiset(items)[c] == if c in items then 1 else 0
  {
    if items != [] {
      var n := |items| - 1;
      assert items == items[..n] + [items[n]];
      CountDistinct(items[..n], c);
    }
  }

  /** When the promise is destroyed, each waiter for which add_waitor returned true has been resumed exactly once, and
      no other, in the order in which they were added. */
  lemma ResumedExactlyOnce(es: seq<Event>, c: nat)
    requires Run(es).Some? && Run(es).value.owner == Dead && c < |Run(es).value.calls|
             && Run(es).value.calls[c].Returned?
    ensures var s := Run(es).value;
            s.resumed == s.added && multiset(s.resumed)[c] == if s.calls[c].ok then 1 else 0
  {
    RunIsValid(es);
    hide Run;
    var s := Run(es).value;
    assert s.resumed == s.added;
    CountDistinct(s.added, c);
  }

  /** At every moment of every run: nobody is resumed twice, nobody whose add_waitor returned false is ever resumed, and
      add_waitor returns false only when the promise is finished or try_lock has failed four times. */
  lemma NeverTwiceNeverRefused(es: seq<Event>, c: nat)
    requires Run(es).Some? && c < |Run(es).value.calls|
    ensures var s := Run(es).value;
            && s.resumed <= s.added && multiset(s.resumed)[c] <= 1
            && (s.calls[c].Returned? && !s.calls[c].ok ==> c !in s.resumed && (s.finish || s.calls[c].fails == 4))
  {
    RunIsValid(es);
    hide Run;
    var s := Run(es).value;
    var n := |s.resumed|;
    assert s.added[..n] == s.resumed;
    forall j, k | 0 <= j < k < n ensures s.resumed[j] != s.resumed[k] {
      assert s.added[j] == s.resumed[j] && s.added[k] == s.resumed[k];
    }
    CountDistinct(s.resumed, c);
    if c in s.resumed {
      assert c in s.added;
    }
  }

  /** Whenever the owner lets go of the mutex, at return_value as well as in the destructor, everyone who has been added
      until then has been resumed. */
  lemma DrainedBeforeUnlock(es: seq<Event>)
    requires Run(es + [Owner]).Some? && Run(es).Some?
    requires Run(es).value.mutex == ByOwner && Run(es + [Owner]).value.mutex != ByOwner
    ensures var s := Run(es + [Owner]).value;
            s.waiters == [] && s.resumed == s.added && (s.owner == Suspended || s.owner == Dead)
  {
    assert (es + [Owner])[..|es|] == es;
    RunIsValid(es);
    RunIsValid(es + [Owner]);
    hide Run;
  }

  /** return_value and the destructor end: the owner alone, as long as the mutex is its own, gets to that point. */
  lemma {:induction false} OwnerGetsThrough(es: seq<Event>) returns (more: seq<Event>)
    requires Run(es).Some? && Run(es).value.mutex == ByOwner
    ensures forall k | 0 <= k < |more| :: more[k] == Owner
    ensures Run(es + more).Some?
    ensures var r := Run(es + more).value; r.resumed == r.added == Run(es).value.added && r.mutex == Free
    decreases OwnerRank(Run(es).value)
  {
    RunIsValid(es);
    var s := Run(es).value;
    hide Step, Valid;
    OwnerStepsOn(s);
    assert (es + [Owner])[..|es|] == es;
    if Step(s, Owner).mutex == ByOwner {
      hide Run;
      var rest := OwnerGetsThrough(es + [Owner]);
      more := [Owner] + rest;
      assert es + more == es + [Owner] + rest;
    } else {
      DrainedBeforeUnlock(es);
      more := [Owner];
    }
  }

  ghost function OwnerRank(s: State): nat {
    2 * |s.waiters| + match s.owner case Marking => 3 case Draining(_) => 2 case Popping(_) => 1 case _ => 0
  }

  lemma OwnerStepsOn(s: State)
    requires Valid(s) && s.mutex == ByOwner
    ensures Enabled(s, Owner) && Step(s, Owner).added == s.added
    ensures Step(s, Owner).mutex == ByOwner ==> OwnerRank(Step(s, Owner)) < OwnerRank(s)
    ensures Step(s, Owner).mutex != ByOwner ==> Step(s, Owner).mutex == Free
  {
  }
}
