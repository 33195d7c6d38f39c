/** Awaiting a task of the pool: the suspending coroutine against the worker that runs it. */
module AwaitHandshake {
  import opened Options

  /** submit_task_start or submit_task_end. */
  datatype Mode = AtStart | AtEnd

  /** co_await, as far as the awaiting thread runs it. */
  datatype AwaiterPc =
    | Asking                  // about to call await_ready
    | Loading                 // set_callback: about to load has_ran
    | Trying(fails: nat)      // about to try_lock
    | Failed(fails: nat)      // try_lock failed, about to load has_ran
    | Locked                  // holds the mutex, about to look at has_ran and callback
    | Stored                  // holds the mutex, has stored the callback
    | Refusing                // holds the mutex, has not
    | Polling(count: nat)     // the callback is not set: loops on await_ready
    | Fetching(count: nat)    // in this loop, about to block in future_.get()
    | Suspended               // await_suspend has returned true
    | Resumed                 // continues without suspending

  /** The lambda in submit_task, with execute_callback and the callback inside. */
  datatype WorkerPc =
    | Creating                // about to create the inner coroutine and set the future
    | Locking | Marking | Checking
    | Calling                 // in the callback
    | Adding(fails: nat)      // in add_waitor of the inner promise, about to try_lock
    | Unlocking
    | Resuming                // about to resume the inner coroutine
    | Finished

  datatype InnerPc = Waiting | Running | Returning | Destroyed

  datatype Mutex = Free | ByAwaiter | ByWorker

  /** `fetched`: return_value holds the inner task. `waiter`: the inner promise has the awaiting coroutine in its list.
      `queued`: the pool has it in its queue. `continued` counts how often it has been continued, `gaveUp` records that
      add_waitor has returned false. */
  datatype State = State(mode: Mode, awaiter: AwaiterPc, fetched: bool, mutex: Mutex, hasRan: bool, callback: bool,
                         worker: WorkerPc, futureSet: bool, inner: InnerPc, valueSet: bool, waiter: bool, queued: bool,
                         continued: nat, gaveUp: bool)

  datatype Event =
    | Awaiter                      // the next step of the awaiter, except try_lock
    | AwaiterTry(success: bool)    // try_lock may fail even when the mutex is free
    | Worker                       // the next step of the worker
    | Callback(busy: bool)         // the callback at start: is_busy() says if the worker resumes it itself
    | WorkerTry(success: bool)     // the try_lock in add_waitor; nobody contends for this mutex
    | Inner                        // the inner coroutine runs, sets its value and is destroyed
    | PoolRuns                     // a pool thread resumes the queued coroutine

  ghost function Init(mode: Mode): State {
    State(mode, Asking, false, Free, false, false, Creating, false, Waiting, false, false, false, 0, false)
  }

  /** await_ready. */
  ghost predicate IsReady(s: State) {
    (s.fetched || s.futureSet) && (s.mode == AtEnd ==> s.valueSet)
  }

  ghost predicate Enabled(s: State, e: Event) {
    match e
    case Awaiter =>
      && !s.awaiter.Trying? && !s.awaiter.Suspended? && !s.awaiter.Resumed?
      && (s.awaiter.Fetching? ==> s.fetched || s.futureSet)
    case AwaiterTry(success) => s.awaiter.Trying? && (success ==> s.mutex == Free)
    case Worker =>
      && !s.worker.Calling? && !s.worker.Adding? && !s.worker.Finished?
      && (s.worker.Locking? ==> s.mutex == Free)
    case Callback(_) => s.worker.Calling?
    case WorkerTry(_) => s.worker.Adding?
    case Inner => s.inner == Running || s.inner == Returning
    case PoolRuns => s.queued
  }

  ghost function Step(s: State, e: Event): State
    requires Enabled(s, e)
  {
    match e
    case Awaiter => AwaiterStep(s)
    case AwaiterTry(success) =>
      s.(mutex := if success then ByAwaiter else s.mutex,
         awaiter := if success then Locked else Failed(s.awaiter.fails + 1))
    case Worker => WorkerStep(s)
    case Callback(busy) =>
      s.(worker := if s.mode == AtEnd && !s.valueSet then Adding(0) else Unlocking,
         queued := s.queued || if s.mode == AtEnd then s.valueSet else !busy,
         gaveUp := s.gaveUp || (s.mode == AtEnd && s.valueSet),
         continued := s.continued + One(s.mode == AtStart && busy))
    case WorkerTry(success) =>
      var last := !success && s.worker.fails + 1 > 3;
      s.(worker := if success || last then Unlocking else Adding(s.worker.fails + 1),
         waiter := s.waiter || success, queued := s.queued || last, gaveUp := s.gaveUp || last)
    case Inner =>
      s.(valueSet := s.valueSet || s.inner == Running,
         inner := if s.inner == Running || s.waiter then Returning else Destroyed,
         waiter := s.waiter && s.inner == Running,
         continued := s.continued + One(s.waiter && s.inner != Running))
    case PoolRuns => s.(queued := false, continued := s.continued + 1)
  }

  /** The step of the awaiter, field by field. Before each await_ready it fetches the inner task if it can. */
  ghost function AwaiterStep(s: State): State {
    s.(awaiter := AwaiterAfter(s),
       fetched := s.fetched || (s.futureSet && Asks(s.awaiter)) || s.awaiter.Fetching?,
       mutex := if s.awaiter.Stored? || s.awaiter.Refusing? then Free else s.mutex,
       callback := s.callback || (s.awaiter.Locked? && !s.hasRan),
       continued := s.continued + One(Asks(s.awaiter) && IsReady(s)))
  }

  ghost predicate Asks(pc: AwaiterPc) {
    pc.Asking? || pc.Polling?
  }

  ghost function AwaiterAfter(s: State): AwaiterPc {
    match s.awaiter
    case Asking => if IsReady(s) then Resumed else Loading
    case Loading => if s.hasRan then Polling(0) else Trying(0)
    case Failed(fails) => if s.hasRan || fails > 3 then Polling(0) else Trying(fails)
    case Locked => if !s.hasRan && !s.callback then Stored else Refusing
    case Stored => Suspended
    case Refusing => Polling(0)
    case Polling(count) =>
      if IsReady(s) then Resumed
      else if count + 1 > 3 && !(s.fetched || s.futureSet) then Fetching(count + 1)
      else Polling(count + 1)
    case Fetching(count) => Polling(count)
    case pc => pc
  }

  /** The step of the worker, field by field. */
  ghost function WorkerStep(s: State): State {
    s.(worker := WorkerAfter(s.worker, s.callback),
       futureSet := s.futureSet || s.worker.Creating?,
       mutex := if s.worker.Locking? then ByWorker else if s.worker.Unlocking? then Free else s.mutex,
       hasRan := s.hasRan || s.worker.Marking?,
       inner := if s.worker.Resuming? then Running else s.inner)
  }

  ghost function WorkerAfter(pc: WorkerPc, callback: bool): WorkerPc {
    match pc
    case Creating => Locking
    case Locking => Marking
    case Marking => Checking
    case Checking => if callback then Calling else Unlocking
    case Unlocking => Resuming
    case Resuming => Finished
    case _ => pc
  }

  // ----- at most once -----

  ghost predicate AwaiterHolds(pc: AwaiterPc) {
    pc.Locked? || pc.Stored? || pc.Refusing?
  }

  ghost predicate HasStored(pc: AwaiterPc) {
    pc.Stored? || pc.Suspended?
  }

  ghost predicate AfterMark(pc: WorkerPc) {
    !pc.Creating? && !pc.Locking? && !pc.Marking?
  }

  ghost predicate InLock(pc: WorkerPc) {
    pc.Marking? || pc.Checking? || pc.Calling? || pc.Adding? || pc.Unlocking?
  }

  ghost predicate CallbackToCome(pc: WorkerPc) {
    !pc.Unlocking? && !pc.Resuming? && !pc.Finished?
  }

  function One(b: bool): nat {
    if b then 1 else 0
  }

  /** Who is going to continue the coroutine: the awaiter itself, the callback, the inner promise or the pool. */
  ghost function Pending(s: State): nat {
    One(!s.awaiter.Resumed? && !s.callback)
    + One(s.callback && CallbackToCome(s.worker))
    + One(s.waiter) + One(s.queued)
  }

  /** The mutex, and what it protects. */
  ghost predicate LockFits(s: State) {
    && (s.mutex == ByAwaiter <==> AwaiterHolds(s.awaiter))
    && (s.mutex == ByWorker <==> InLock(s.worker))
    && (s.callback <==> HasStored(s.awaiter))
    && (s.hasRan <==> AfterMark(s.worker))
    && (s.worker.Calling? || s.worker.Adding? || s.waiter || s.queued ==> s.callback)
  }

  /** The future that the worker sets, and the value of the inner coroutine. */
  ghost predicate DataFits(s: State) {
    && (s.futureSet <==> !s.worker.Creating?) && (s.fetched ==> s.futureSet)
    && (s.inner == Waiting <==> !s.worker.Finished?)
    && (s.valueSet <==> s.inner == Returning || s.inner == Destroyed)
    && (s.waiter || s.worker.Adding? ==> s.mode == AtEnd) && (s.waiter ==> s.inner != Destroyed)
    && (s.worker.Adding? ==> s.worker.fails < 4)
  }

  /** Exactly one continuation, done or to come. */
  ghost predicate OneContinuation(s: State) {
    s.continued + Pending(s) == 1
  }

  /** None before the future, and at the end none before the value unless add_waitor has given up. */
  ghost predicate NotEarly(s: State) {
    && (s.continued > 0 || s.queued || s.waiter ==> s.futureSet)
    && (s.mode == AtEnd ==> (s.queued ==> s.gaveUp) && (s.continued > 0 ==> s.valueSet || s.gaveUp))
    && (s.gaveUp ==> s.mode == AtEnd && (s.queued || s.continued > 0) && s.callback && !s.waiter && !s.worker.Adding?)
  }

  ghost predicate Valid(s: State) {
    LockFits(s) && DataFits(s) && OneContinuation(s) && NotEarly(s)
  }

  lemma AwaiterKeepsLock(s: State)
    requires LockFits(s) && Enabled(s, Awaiter)
    ensures LockFits(AwaiterStep(s))
  {
    hide InLock, AfterMark;
  }

  lemma AwaiterKeepsData(s: State)
    requires DataFits(s) && Enabled(s, Awaiter)
    ensures DataFits(AwaiterStep(s))
  {
    hide AwaiterAfter, IsReady;
  }

  lemma AwaiterKeepsCount(s: State)
    requires LockFits(s) && OneContinuation(s) && Enabled(s, Awaiter)
    requires s.awaiter.Locked? ==> CallbackToCome(s.worker) || s.hasRan
    ensures OneContinuation(AwaiterStep(s))
  {
    hide InLock, AfterMark, CallbackToCome, IsReady;
  }

  lemma AwaiterKeepsEarly(s: State)
    requires DataFits(s) && NotEarly(s)
    ensures NotEarly(AwaiterStep(s))
  {
    hide AwaiterAfter;
  }

  lemma AwaiterKeepsValid(s: State)
    requires Valid(s) && Enabled(s, Awaiter)
    ensures Valid(AwaiterStep(s))
  {
    AwaiterKeepsLock(s);
    AwaiterKeepsData(s);
    AwaiterKeepsCount(s);
    AwaiterKeepsEarly(s);
    hide LockFits, DataFits, OneContinuation, NotEarly;
  }

  lemma WorkerKeepsLock(s: State)
    requires LockFits(s) && Enabled(s, Worker)
    ensures LockFits(WorkerStep(s))
  {
    hide AwaiterHolds, HasStored;
  }

  lemma WorkerKeepsValid(s: State)
    requires Valid(s) && Enabled(s, Worker)
    ensures Valid(WorkerStep(s))
  {
    hide AwaiterHolds, HasStored, InLock, AfterMark;
    WorkerKeepsLock(s);
  }

  lemma CallbackKeepsValid(s: State, e: Event)
    requires Valid(s) && Enabled(s, e) && (e.Callback? || e.WorkerTry?)
    ensures Valid(Step(s, e))
  {
  }

  lemma OthersKeepValid(s: State, e: Event)
    requires Valid(s) && Enabled(s, e) && (e.Inner? || e.PoolRuns? || e.AwaiterTry?)
    ensures Valid(Step(s, e))
  {
    match e
    case Inner =>
    case PoolRuns =>
    case _ =>
  }

  lemma StepKeepsMode(s: State, e: Event)
    requires Enabled(s, e)
    ensures Step(s, e).mode == s.mode
  {
    hide AwaiterAfter, WorkerAfter, IsReady, Asks, Enabled;
    match e
    case Awaiter =>
    case AwaiterTry(_) =>
    case Worker =>
    case Callback(_) =>
    case WorkerTry(_) =>
    case Inner =>
    case PoolRuns =>
  }

  lemma StepKeepsValid(s: State, e: Event)
    requires Valid(s) && Enabled(s, e)
    ensures Valid(Step(s, e)) && Step(s, e).mode == s.mode
  {
    StepKeepsMode(s, e);
    hide Valid, AwaiterStep, WorkerStep;
    match e
    case Awaiter =>
      AwaiterKeepsValid(s);
    case Worker => WorkerKeepsValid(s);
    case Callback(_) => CallbackKeepsValid(s, e);
    case WorkerTry(_) => CallbackKeepsValid(s, e);
    case _ => OthersKeepValid(s, e);
  }

  ghost function Run(mode: Mode, es: seq<Event>): Option<State> {
    if es == [] then Some(Init(mode))
    else
      var before := Run(mode, es[..|es| - 1]);
      var e := es[|es| - 1];
      if before.None? || !Enabled(before.value, e) then None else Some(Step(before.value, e))
  }

  lemma {:induction false} RunIsValid(mode: Mode, es: seq<Event>)
    requires Run(mode, es).Some?
    ensures Valid(Run(mode, es).value) && Run(mode, es).value.mode == mode
  {
    if es != [] {
      hide Valid, Step, Enabled;
      var before := es[..|es| - 1];
      RunIsValid(mode, before);
      StepKeepsValid(Run(mode, before).value, es[|es| - 1]);
    }
  }

  /** In every run the coroutine is continued at most once, never before the inner one exists; and when the inner
      coroutine is gone and the pool's queue has run, a suspended coroutine has been continued. */
  lemma ContinuedAtMostOnce(mode: Mode, es: seq<Event>)
    requires Run(mode, es).Some?
    ensures var s := Run(mode, es).value;
            && s.continued <= 1 && (s.continued == 1 ==> s.futureSet)
            && (s.inner == Destroyed && !s.queued && s.awaiter.Suspended? ==> s.continued == 1)
            && (s.awaiter.Resumed? ==> s.continued == 1 && !s.waiter && !s.queued && !s.callback)
  {
    RunIsValid(mode, es);
    hide Run, Valid;
    ValidMeansOnce(Run(mode, es).value);
  }

  lemma ValidMeansOnce(s: State)
    requires Valid(s)
    ensures s.continued <= 1 && (s.continued == 1 ==> s.futureSet)
    ensures s.inner == Destroyed && !s.queued && s.awaiter.Suspended? ==> s.continued == 1
    ensures s.awaiter.Resumed? ==> s.continued == 1 && !s.waiter && !s.queued && !s.callback
  {
  }

  // ----- at the end: only after the value -----

  /** At the end, the next step can continue the coroutine before the value is set exactly when the pool has it in its
      queue, and it is there only because add_waitor has returned false. */
  lemma EarlyIff(es: seq<Event>)
    requires Run(AtEnd, es).Some?
    ensures var s := Run(AtEnd, es).value;
            (exists e :: Enabled(s, e) && Step(s, e).continued > s.continued && !Step(s, e).valueSet) <==>
            s.queued && !s.valueSet
    ensures Run(AtEnd, es).value.queued ==> Run(AtEnd, es).value.gaveUp
  {
    RunIsValid(AtEnd, es);
    var s := Run(AtEnd, es).value;
    hide Run;
    forall e | Enabled(s, e) && Step(s, e).continued > s.continued && !Step(s, e).valueSet
      ensures s.queued && !s.valueSet
    {
      WhoContinues(s, e);
    }
    if s.queued && !s.valueSet {
      assert Enabled(s, PoolRuns) && Step(s, PoolRuns).continued > s.continued;
    }
  }

  lemma WhoContinues(s: State, e: Event)
    requires DataFits(s) && Enabled(s, e) && s.mode == AtEnd && Step(s, e).continued > s.continued
    ensures e == PoolRuns || Step(s, e).valueSet
    ensures s.valueSet ==> Step(s, e).valueSet
  {
    hide AwaiterAfter, WorkerAfter;
    match e
    case Awaiter =>
    case Worker =>
    case _ =>
  }

  /** At the end the coroutine continues only after the value is set, as long as add_waitor's try_lock, for which nobody
      contends, does not fail four times in a row. */
  lemma ContinuedAfterValue(es: seq<Event>)
    requires Run(AtEnd, es).Some?
    ensures var s := Run(AtEnd, es).value; s.continued == 1 && !s.gaveUp ==> s.valueSet
    ensures var s := Run(AtEnd, es).value; (!s.gaveUp <==> !FourFailures(es))
  {
    RunIsValid(AtEnd, es);
    GaveUpIff(es);
  }

  /** At some point of the run a try_lock of add_waitor fails after three failures. */
  ghost predicate FourFailures(es: seq<Event>) {
    es != [] &&
    var before, e := es[..|es| - 1], es[|es| - 1];
    FourFailures(before) ||
    (e == WorkerTry(false) && Run(AtEnd, before).Some? && Run(AtEnd, before).value.worker == Adding(3))
  }

  lemma {:induction false} GaveUpIff(es: seq<Event>)
    requires Run(AtEnd, es).Some?
    ensures Run(AtEnd, es).value.gaveUp <==> FourFailures(es)
  {
    if es != [] {
      hide Valid, Step, Enabled;
      var before := es[..|es| - 1];
      GaveUpIff(before);
      RunIsValid(AtEnd, before);
      GaveUpStep(Run(AtEnd, before).value, es[|es| - 1]);
    }
  }

  lemma GaveUpStep(s: State, e: Event)
    requires Valid(s) && Enabled(s, e)
    ensures Step(s, e).gaveUp <==> s.gaveUp || (e == WorkerTry(false) && s.worker == Adding(3))
  {
    hide AwaiterAfter, WorkerAfter, IsReady;
    match e
    case Awaiter =>
    case Worker =>
    case Callback(_) =>
    case _ =>
  }

  /** How the awaiter comes to be suspended while the worker has not begun. */
  lemma AwaiterNext(s: State)
    requires Valid(s) && s.mode == AtEnd && s.worker.Creating?
    ensures s.awaiter.Asking? ==> Enabled(s, Awaiter) && AwaiterStep(s).awaiter == Loading
    ensures s.awaiter.Loading? ==> Enabled(s, Awaiter) && AwaiterStep(s).awaiter == Trying(0)
    ensures s.awaiter.Trying? ==> Enabled(s, AwaiterTry(true)) && Step(s, AwaiterTry(true)).awaiter == Locked
    ensures s.awaiter.Locked? ==> Enabled(s, Awaiter) && AwaiterStep(s).awaiter == Stored
    ensures s.awaiter.Stored? ==> Enabled(s, Awaiter) && AwaiterStep(s).awaiter == Suspended
    ensures AwaiterStep(s).worker == s.worker
    ensures s.awaiter.Trying? ==> Step(s, AwaiterTry(true)).worker == s.worker
  {
    hide NotEarly;
  }

  /** How the worker then comes to add it to the inner promise. */
  lemma WorkerNext(s: State)
    requires Valid(s) && s.mode == AtEnd && s.awaiter.Suspended?
    ensures s.worker.Creating? ==> Enabled(s, Worker) && WorkerStep(s).worker == Locking
    ensures s.worker.Locking? ==> Enabled(s, Worker) && WorkerStep(s).worker == Marking
    ensures s.worker.Marking? ==> Enabled(s, Worker) && WorkerStep(s).worker == Checking
    ensures s.worker.Checking? ==> Enabled(s, Worker) && WorkerStep(s).worker == Calling
    ensures s.worker.Calling? ==> Enabled(s, Callback(false)) && Step(s, Callback(false)).worker == Adding(0)
    ensures WorkerStep(s).awaiter == s.awaiter
    ensures s.worker.Calling? ==> Step(s, Callback(false)).awaiter == s.awaiter
    ensures s.worker.Adding? && s.worker.fails < 3 ==>
              && Enabled(s, WorkerTry(false)) && Step(s, WorkerTry(false)).worker == Adding(s.worker.fails + 1)
              && Step(s, WorkerTry(false)).awaiter == s.awaiter
  {
    hide NotEarly, OneContinuation;
  }

  /** Until it is at its fourth failure, a run that has the awaiter on its way can go on to it. */
  lemma {:induction false} ReachFourthFailure(es: seq<Event>) returns (more: seq<Event>)
    requires Run(AtEnd, es).Some?
    requires AwaiterOnItsWay(Run(AtEnd, es).value) || WorkerOnItsWay(Run(AtEnd, es).value)
    ensures Run(AtEnd, es + more).Some? && Run(AtEnd, es + more).value.worker == Adding(3)
    decreases WayRank(Run(AtEnd, es).value)
  {
    hide Valid, WayRank, AwaiterOnItsWay, WorkerOnItsWay, OnTheWay, Step, Enabled;
    var s := Run(AtEnd, es).value;
    RunIsValid(AtEnd, es);
    if s.worker == Adding(3) {
      more := [];
      assert es + more == es;
    } else {
      if AwaiterOnItsWay(s) { AwaiterWayShrinks(s); } else { WorkerWayShrinks(s); }
      var e := OnTheWay(s);
      RunSnoc(AtEnd, es, e);
      hide Run;
      var rest := ReachFourthFailure(es + [e]);
      more := [e] + rest;
      assert es + more == es + [e] + rest;
    }
  }

  ghost function WayRank(s: State): nat {
    10 * WorkerRank(s.worker) + AwaiterRank(s.awaiter)
    + match s.worker case Adding(fails) => (if fails < 4 then 4 - fails else 0) case _ => 5
  }

  ghost predicate AwaiterOnItsWay(s: State) {
    && s.worker.Creating?
    && (s.awaiter.Asking? || s.awaiter.Loading? || s.awaiter.Trying? || s.awaiter.Locked? || s.awaiter.Stored?)
  }

  ghost predicate WorkerOnItsWay(s: State) {
    s.awaiter.Suspended? && CallbackToCome(s.worker)
  }

  ghost function OnTheWay(s: State): Event {
    if s.awaiter.Suspended? then
      if s.worker.Calling? then Callback(false) else if s.worker.Adding? then WorkerTry(false) else Worker
    else if s.awaiter.Trying? then AwaiterTry(true) else Awaiter
  }

  lemma AwaiterWayShrinks(s: State)
    requires Valid(s) && s.mode == AtEnd && AwaiterOnItsWay(s)
    ensures var e := OnTheWay(s); Enabled(s, e) && WayRank(Step(s, e)) < WayRank(s)
    ensures var r := Step(s, OnTheWay(s)); AwaiterOnItsWay(r) || WorkerOnItsWay(r)
  {
    hide Valid, AwaiterStep, WorkerStep;
    AwaiterNext(s);
  }

  lemma WorkerWayShrinks(s: State)
    requires Valid(s) && s.mode == AtEnd && WorkerOnItsWay(s) && s.worker != Adding(3)
    ensures var e := OnTheWay(s); Enabled(s, e) && WayRank(Step(s, e)) < WayRank(s)
    ensures WorkerOnItsWay(Step(s, OnTheWay(s)))
  {
    hide Valid, AwaiterStep, WorkerStep;
    WorkerNext(s);
    AddingCounts(s);
  }

  lemma AddingCounts(s: State)
    requires Valid(s)
    ensures s.worker.Adding? ==> s.worker.fails < 4
  {
  }

  /** There is such a run: the pool resumes the coroutine before the inner one has even run. */
  lemma FourFailuresContinueEarly() returns (es: seq<Event>)
    ensures Run(AtEnd, es).Some?
    ensures var s := Run(AtEnd, es).value; s.continued == 1 && !s.valueSet
  {
    var way := ReachFourthFailure([]);
    assert [] + way == way;
    FourthFailure(way);
    es := way + [WorkerTry(false), PoolRuns];
  }

  /** From every run that is at its fourth failure the coroutine can be resumed before the value is set: the failure,
      and then the pool. */
  lemma FourthFailure(es: seq<Event>)
    requires Run(AtEnd, es).Some? && Run(AtEnd, es).value.worker == Adding(3)
    ensures var r := Run(AtEnd, es + [WorkerTry(false), PoolRuns]);
            r.Some? && r.value.continued == 1 && !r.value.valueSet
  {
    RunIsValid(AtEnd, es);
    var s := Run(AtEnd, es).value;
    RunSnoc(AtEnd, es, WorkerTry(false));
    var t := Step(s, WorkerTry(false));
    assert t.queued && t.continued == s.continued;
    RunIsValid(AtEnd, es + [WorkerTry(false)]);
    RunSnoc(AtEnd, es + [WorkerTry(false)], PoolRuns);
    assert es + [WorkerTry(false)] + [PoolRuns] == es + [WorkerTry(false), PoolRuns];
    hide Run;
    ValidMeansOnce(t);
    FailureIsEarly(s);
  }

  lemma FailureIsEarly(s: State)
    requires Valid(s) && s.worker == Adding(3)
    ensures !s.valueSet && s.continued == 0
  {
  }

  // ----- no dead end -----

  /** An event that brings the continuation nearer: by the pool, else the worker, the inner coroutine, the awaiter. */
  ghost function NextEvent(s: State): Event {
    if s.queued then PoolRuns
    else if s.worker.Calling? then Callback(false)
    else if s.worker.Adding? then WorkerTry(true)
    else if !s.worker.Finished? && !(s.worker.Locking? && s.mutex == ByAwaiter) then Worker
    else if s.inner == Running || s.inner == Returning then Inner
    else if s.awaiter.Trying? then AwaiterTry(true)
    else Awaiter
  }

  function AwaiterRank(pc: AwaiterPc): nat {
    match pc
    case Asking => 10
    case Loading => 9
    case Failed(_) => 8
    case Trying(_) => 7
    case Locked => 6
    case Stored => 5
    case Refusing => 5
    case Fetching(_) => 4
    case Polling(_) => 3
    case _ => 0
  }

  function WorkerRank(pc: WorkerPc): nat {
    match pc
    case Creating => 8
    case Locking => 7
    case Marking => 6
    case Checking => 5
    case Calling => 4
    case Adding(_) => 3
    case Unlocking => 2
    case Resuming => 1
    case Finished => 0
  }

  function InnerRank(pc: InnerPc): nat {
    match pc
    case Waiting => 3
    case Running => 2
    case Returning => 1
    case Destroyed => 0
  }

  ghost function Rank(s: State): nat {
    10 * WorkerRank(s.worker) + InnerRank(s.inner) + One(s.waiter) + One(s.queued) + AwaiterRank(s.awaiter)
  }

  lemma NextEventIsEnabled(s: State)
    requires Valid(s) && s.continued == 0
    ensures Enabled(s, NextEvent(s))
  {
    hide NotEarly;
  }

  /** When it is the awaiter's turn, either all is ready for it or it holds the mutex. */
  lemma AwaiterIsNext(s: State)
    requires Valid(s) && s.continued == 0 && NextEvent(s) == Awaiter
    ensures (s.futureSet && s.valueSet && s.hasRan) || AwaiterHolds(s.awaiter)
  {
    hide NotEarly, OneContinuation;
  }

  lemma AwaiterRanks(s: State)
    requires s.continued == 0 && Enabled(s, Awaiter)
    requires (s.futureSet && s.valueSet && s.hasRan) || AwaiterHolds(s.awaiter)
    ensures AwaiterStep(s).continued == 1 || AwaiterRank(AwaiterStep(s).awaiter) < AwaiterRank(s.awaiter)
  {
  }

  lemma NextEventProgresses(s: State)
    requires Valid(s) && s.continued == 0
    ensures var e := NextEvent(s);
            Enabled(s, e) && (Step(s, e).continued == 1 || Rank(Step(s, e)) < Rank(s))
  {
    NextEventIsEnabled(s);
    if NextEvent(s) == Awaiter {
      AwaiterIsNext(s);
      AwaiterRanks(s);
    }
    hide Valid, AwaiterAfter, IsReady;
  }

  lemma RunSnoc(mode: Mode, es: seq<Event>, e: Event)
    requires Run(mode, es).Some? && Enabled(Run(mode, es).value, e)
    ensures Run(mode, es + [e]) == Some(Step(Run(mode, es).value, e))
  {
    assert (es + [e])[..|es|] == es;
  }

  /** From every state of every run the coroutine can still be continued. */
  lemma {:induction false} CanComplete(mode: Mode, es: seq<Event>) returns (more: seq<Event>)
    requires Run(mode, es).Some?
    ensures Run(mode, es + more).Some? && Run(mode, es + more).value.continued == 1
    decreases Rank(Run(mode, es).value)
  {
    hide Valid, Rank, Step, Enabled;
    var s := Run(mode, es).value;
    RunIsValid(mode, es);
    ValidMeansOnce(s);
    if s.continued == 1 {
      more := [];
      assert es + more == es;
    } else {
      NextEventProgresses(s);
      var e := NextEvent(s);
      RunSnoc(mode, es, e);
      hide Run;
      if Step(s, e).continued == 1 {
        more := [e];
      } else {
        var rest := CanComplete(mode, es + [e]);
        more := [e] + rest;
        assert es + more == es + [e] + rest;
      }
    }
  }

  // ----- await_resume -----

  /** Once resumed, the coroutine runs await_resume: it takes the inner task out of the future, and at the end the value
      out of the task. Both block until they are there; only then it is past the co_await. */
  datatype ResumePc = NotYet | TakingTask | TakingValue | Past

  datatype Whole = Whole(core: State, resume: ResumePc)

  datatype WholeEvent = Core(e: Event) | Take

  ghost predicate WholeEnabled(w: Whole, e: WholeEvent) {
    match e
    case Core(c) => Enabled(w.core, c)
    case Take =>
      || (w.resume == TakingTask && (w.core.fetched || w.core.futureSet))
      || (w.resume == TakingValue && w.core.valueSet)
  }

  ghost function WholeStep(w: Whole, e: WholeEvent): Whole
    requires WholeEnabled(w, e)
  {
    match e
    case Core(c) =>
      var core := Step(w.core, c);
      Whole(core, if core.continued > w.core.continued then TakingTask else w.resume)
    case Take => Whole(w.core, if w.resume == TakingTask && w.core.mode == AtEnd then TakingValue else Past)
  }

  ghost function RunWhole(mode: Mode, es: seq<WholeEvent>): Option<Whole> {
    if es == [] then Some(Whole(Init(mode), NotYet))
    else
      var before := RunWhole(mode, es[..|es| - 1]);
      var e := es[|es| - 1];
      if before.None? || !WholeEnabled(before.value, e) then None else Some(WholeStep(before.value, e))
  }

  ghost predicate WholeValid(w: Whole) {
    && Valid(w.core)
    && (w.resume == NotYet <==> w.core.continued == 0)
    && (w.resume == TakingValue ==> w.core.mode == AtEnd)
    && (w.resume == Past ==> w.core.futureSet && (w.core.mode == AtEnd ==> w.core.valueSet))
  }

  lemma NothingUnset(s: State, e: Event)
    requires Enabled(s, e)
    ensures var r := Step(s, e);
            (s.futureSet ==> r.futureSet) && (s.valueSet ==> r.valueSet) && s.continued <= r.continued
  {
    hide AwaiterAfter, WorkerAfter, IsReady, Asks, Enabled;
    match e
    case Awaiter =>
    case Worker =>
    case _ =>
  }

  lemma WholeStepKeepsValid(w: Whole, e: WholeEvent)
    requires WholeValid(w) && WholeEnabled(w, e)
    ensures WholeValid(WholeStep(w, e)) && WholeStep(w, e).core.mode == w.core.mode
  {
    hide Valid, Step, Enabled;
    match e
    case Core(c) =>
      StepKeepsValid(w.core, c);
      NothingUnset(w.core, c);
      ValidMeansOnce(Step(w.core, c));
    case Take =>
      ValidMeansOnce(w.core);
  }

  lemma {:induction false} WholeIsValid(mode: Mode, es: seq<WholeEvent>)
    requires RunWhole(mode, es).Some?
    ensures WholeValid(RunWhole(mode, es).value) && RunWhole(mode, es).value.core.mode == mode
  {
    if es != [] {
      hide WholeValid, WholeStep, WholeEnabled;
      var before := es[..|es| - 1];
      WholeIsValid(mode, before);
      WholeStepKeepsValid(RunWhole(mode, before).value, es[|es| - 1]);
    } else {
      InitIsValid(mode);
    }
  }

  lemma InitIsValid(mode: Mode)
    ensures WholeValid(Whole(Init(mode), NotYet))
  {
  }

  /** In every run, whatever try_lock does, the coroutine is past the co_await only after the task has started, and at
      the end only after the value is set. Taking the task never blocks, and taking the value blocks only after
      add_waitor has given up. */
  lemma PastOnlyAfterValue(mode: Mode, es: seq<WholeEvent>)
    requires RunWhole(mode, es).Some?
    ensures var w := RunWhole(mode, es).value;
            && (w.resume == Past ==> w.core.futureSet && (mode == AtEnd ==> w.core.valueSet))
            && (w.resume == TakingTask ==> WholeEnabled(w, Take))
            && (w.resume == TakingValue && !WholeEnabled(w, Take) ==> w.core.gaveUp)
  {
    WholeIsValid(mode, es);
    hide RunWhole;
    var w := RunWhole(mode, es).value;
    ValidMeansOnce(w.core);
    ValidMeansEarly(w.core);
    hide Valid;
  }

  lemma ValidMeansEarly(s: State)
    requires Valid(s)
    ensures s.mode == AtEnd && s.continued > 0 ==> s.valueSet || s.gaveUp
  {
  }

  /** An event that brings the value nearer. */
  ghost function TowardsValue(s: State): Event {
    if s.worker.Calling? then Callback(false)
    else if s.worker.Adding? then WorkerTry(true)
    else if s.worker.Locking? && s.mutex == ByAwaiter then Awaiter
    else if !s.worker.Finished? then Worker
    else Inner
  }

  ghost function ValueRank(s: State): nat {
    20 * WorkerRank(s.worker) + InnerRank(s.inner) + if s.worker.Locking? then AwaiterRank(s.awaiter) else 0
  }

  lemma TowardsValueIsEnabled(s: State)
    requires Valid(s) && !s.valueSet
    ensures Enabled(s, TowardsValue(s))
  {
    hide NotEarly, OneContinuation;
  }

  lemma WorkerRanks(pc: WorkerPc, callback: bool)
    requires !pc.Calling? && !pc.Adding? && !pc.Finished?
    ensures WorkerRank(WorkerAfter(pc, callback)) < WorkerRank(pc)
  {
  }

  lemma HolderRanks(s: State)
    requires Valid(s) && s.mutex == ByAwaiter
    ensures AwaiterRank(AwaiterAfter(s)) < AwaiterRank(s.awaiter)
  {
    hide DataFits, NotEarly, OneContinuation;
  }

  lemma BeforeTheValue(s: State)
    requires Valid(s) && !s.valueSet && s.worker.Finished?
    ensures s.inner == Running
  {
    hide LockFits, NotEarly, OneContinuation;
  }

  lemma WorkerBringsValue(s: State)
    requires !s.worker.Calling? && !s.worker.Adding? && !s.worker.Finished?
             && (s.worker.Resuming? || s.inner == Waiting)
    ensures ValueRank(WorkerStep(s)) < ValueRank(s)
  {
    WorkerRanks(s.worker, s.callback);
    hide WorkerAfter;
  }

  lemma AwaiterBringsValue(s: State)
    requires Valid(s) && s.mutex == ByAwaiter && s.worker.Locking?
    ensures ValueRank(AwaiterStep(s)) < ValueRank(s)
  {
    HolderRanks(s);
    hide Valid, AwaiterAfter, IsReady;
  }

  lemma CallbackBringsValue(s: State, e: Event)
    requires Enabled(s, e) && (e == Callback(false) || e == WorkerTry(true))
    ensures ValueRank(Step(s, e)) < ValueRank(s)
  {
    hide AwaiterStep, WorkerStep;
  }

  lemma WaitsForWorker(s: State)
    requires Valid(s)
    ensures s.inner == Waiting <==> !s.worker.Finished?
  {
  }

  lemma TowardsValueProgresses(s: State)
    requires Valid(s) && !s.valueSet
    ensures var e := TowardsValue(s);
            Enabled(s, e) && (Step(s, e).valueSet || ValueRank(Step(s, e)) < ValueRank(s))
  {
    TowardsValueIsEnabled(s);
    WaitsForWorker(s);
    hide Valid, ValueRank, AwaiterStep, WorkerStep;
    match TowardsValue(s)
    case Worker => WorkerBringsValue(s);
    case Awaiter => AwaiterBringsValue(s);
    case Inner => BeforeTheValue(s);
    case e => CallbackBringsValue(s, e);
  }

  ghost function WholeNext(w: Whole): WholeEvent {
    if w.core.continued == 0 then Core(NextEvent(w.core))
    else if !w.core.valueSet then Core(TowardsValue(w.core))
    else Take
  }

  /** What is still to come: the resume, then the value, then await_resume. */
  ghost function Phase(w: Whole): nat {
    if w.core.continued == 0 then 2 else if !w.core.valueSet then 1 else 0
  }

  ghost function PhaseRank(w: Whole): nat {
    if w.core.continued == 0 then Rank(w.core)
    else if !w.core.valueSet then ValueRank(w.core)
    else if w.resume == TakingTask then 2 else if w.resume == TakingValue then 1 else 0
  }

  lemma WholeNextProgresses(w: Whole)
    requires WholeValid(w) && w.resume != Past
    ensures WholeEnabled(w, WholeNext(w))
    ensures var r := WholeStep(w, WholeNext(w));
            r.resume == Past || Phase(r) < Phase(w) || (Phase(r) == Phase(w) && PhaseRank(r) < PhaseRank(w))
  {
    ValidMeansOnce(w.core);
    if w.core.continued == 0 {
      NextEventProgresses(w.core);
      NothingUnset(w.core, NextEvent(w.core));
    } else if !w.core.valueSet {
      TowardsValueProgresses(w.core);
      NothingUnset(w.core, TowardsValue(w.core));
      StepKeepsValid(w.core, TowardsValue(w.core));
      ValidMeansOnce(Step(w.core, TowardsValue(w.core)));
    }
    hide Valid, Step, Enabled, Rank, ValueRank, NextEvent, TowardsValue;
  }

  /** From every state of every run the coroutine can still get past the co_await. */
  lemma {:induction false} CanPass(mode: Mode, es: seq<WholeEvent>) returns (more: seq<WholeEvent>)
    requires RunWhole(mode, es).Some?
    ensures RunWhole(mode, es + more).Some? && RunWhole(mode, es + more).value.resume == Past
    decreases Phase(RunWhole(mode, es).value), PhaseRank(RunWhole(mode, es).value)
  {
    hide WholeValid, WholeStep, WholeEnabled, Phase, PhaseRank, WholeNext;
    var w := RunWhole(mode, es).value;
    WholeIsValid(mode, es);
    if w.resume == Past {
      more := [];
      assert es + more == es;
    } else {
      WholeNextProgresses(w);
      var e := WholeNext(w);
      WholeSnoc(mode, es, e);
      hide RunWhole;
      if WholeStep(w, e).resume == Past {
        more := [e];
      } else {
        var rest := CanPass(mode, es + [e]);
        more := [e] + rest;
        assert es + more == es + [e] + rest;
      }
    }
  }

  lemma WholeSnoc(mode: Mode, es: seq<WholeEvent>, e: WholeEvent)
    requires RunWhole(mode, es).Some? && WholeEnabled(RunWhole(mode, es).value, e)
    ensures RunWhole(mode, es + [e]) == Some(WholeStep(RunWhole(mode, es).value, e))
  {
    assert (es + [e])[..|es|] == es;
  }

  // ----- at the start: the value is not awaited -----

  /** At the start an event that brings the coroutine nearer to going on, and that is not a step of the inner one. */
  ghost function StartNext(s: State): Event {
    if s.queued then PoolRuns
    else if s.worker.Calling? then Callback(false)
    else if !s.worker.Finished? && !(s.worker.Locking? && s.mutex == ByAwaiter) then Worker
    else if s.awaiter.Trying? then AwaiterTry(true)
    else Awaiter
  }

  ghost function StartRank(s: State): nat {
    20 * WorkerRank(s.worker) + One(s.queued) + AwaiterRank(s.awaiter)
  }

  lemma StartNextIsEnabled(s: State)
    requires Valid(s) && s.continued == 0 && s.mode == AtStart
    ensures Enabled(s, StartNext(s)) && !s.worker.Adding?
    ensures StartNext(s) == Awaiter ==> (s.futureSet && s.hasRan) || AwaiterHolds(s.awaiter)
  {
    hide NotEarly;
  }

  lemma StartAwaiterRanks(s: State)
    requires s.mode == AtStart && s.continued == 0 && Enabled(s, Awaiter)
    requires (s.futureSet && s.hasRan) || AwaiterHolds(s.awaiter)
    ensures AwaiterStep(s).continued == 1 || AwaiterRank(AwaiterStep(s).awaiter) < AwaiterRank(s.awaiter)
  {
  }

  lemma StartWorkerRanks(s: State)
    requires Enabled(s, Worker)
    ensures StartRank(WorkerStep(s)) < StartRank(s)
  {
    WorkerRanks(s.worker, s.callback);
    hide WorkerAfter;
  }

  lemma StartProgresses(s: State)
    requires Valid(s) && s.continued == 0 && s.mode == AtStart
    ensures var e := StartNext(s);
            Enabled(s, e) && (Step(s, e).continued == 1 || StartRank(Step(s, e)) < StartRank(s))
  {
    StartNextIsEnabled(s);
    match StartNext(s)
    case Awaiter =>
      StartAwaiterRanks(s);
      hide Valid, AwaiterAfter, IsReady;
    case Worker =>
      StartWorkerRanks(s);
      hide Valid, WorkerStep, StartRank;
    case _ =>
      hide Valid, AwaiterStep, WorkerStep;
  }

  ghost function StartWholeNext(w: Whole): WholeEvent {
    if w.core.continued == 0 then Core(StartNext(w.core)) else Take
  }

  ghost function StartPhase(w: Whole): nat {
    if w.core.continued == 0 then 1 else 0
  }

  lemma StartWholeProgresses(w: Whole)
    requires WholeValid(w) && w.resume != Past && w.core.mode == AtStart
    ensures WholeEnabled(w, StartWholeNext(w))
    ensures var r := WholeStep(w, StartWholeNext(w));
            r.resume == Past || StartPhase(r) < StartPhase(w)
            || (StartPhase(r) == StartPhase(w) == 1 && StartRank(r.core) < StartRank(w.core))
  {
    ValidMeansOnce(w.core);
    if w.core.continued == 0 {
      StartProgresses(w.core);
    }
    hide Valid, Step, Enabled, StartRank, StartNext;
  }

  /** The events of a run in which the inner coroutine makes no step. */
  ghost predicate WithoutInner(es: seq<WholeEvent>) {
    forall k | 0 <= k < |es| :: es[k] != Core(Inner)
  }

  /** With submit_task_start every run can go on until the coroutine is past the co_await without a single step of the
      inner coroutine: its value is not awaited. */
  lemma {:induction false} StartNeedsNoValue(es: seq<WholeEvent>) returns (more: seq<WholeEvent>)
    requires RunWhole(AtStart, es).Some?
    ensures RunWhole(AtStart, es + more).Some? && RunWhole(AtStart, es + more).value.resume == Past
    ensures WithoutInner(more)
    decreases StartPhase(RunWhole(AtStart, es).value), StartRank(RunWhole(AtStart, es).value.core)
  {
    hide WholeValid, WholeStep, WholeEnabled, StartPhase, StartRank, StartNext;
    var w := RunWhole(AtStart, es).value;
    WholeIsValid(AtStart, es);
    if w.resume == Past {
      more := [];
      assert es + more == es;
    } else {
      StartWholeProgresses(w);
      var e := StartWholeNext(w);
      NotInner(w);
      WholeSnoc(AtStart, es, e);
      hide RunWhole;
      if WholeStep(w, e).resume == Past {
        more := [e];
      } else {
        var rest := StartNeedsNoValue(es + [e]);
        more := [e] + rest;
        assert es + more == es + [e] + rest;
      }
    }
  }

  lemma NotInner(w: Whole)
    ensures StartWholeNext(w) != Core(Inner)
  {
  }

  // ----- the awaiter tries at most four times -----

  ghost function TriesIn(es: seq<Event>): nat {
    if es == [] then 0 else TriesIn(es[..|es| - 1]) + One(es[|es| - 1].AwaiterTry?)
  }

  ghost predicate TriesFit(pc: AwaiterPc, n: nat) {
    match pc
    case Asking => n == 0
    case Loading => n == 0
    case Trying(fails) => n == fails < 4
    case Failed(fails) => n == fails <= 4
    case _ => n <= 4
  }

  lemma TriesStep(s: State, e: Event, n: nat)
    requires TriesFit(s.awaiter, n) && Enabled(s, e)
    ensures TriesFit(Step(s, e).awaiter, n + One(e.AwaiterTry?))
  {
    hide IsReady, WorkerAfter;
    match e
    case Awaiter =>
    case AwaiterTry(_) =>
    case Worker =>
    case _ =>
  }

  /** In every run the awaiting thread tries the lock at most four times before it gives up suspending. */
  lemma {:induction false} AtMostFourTries(mode: Mode, es: seq<Event>)
    requires Run(mode, es).Some?
    ensures TriesIn(es) <= 4 && TriesFit(Run(mode, es).value.awaiter, TriesIn(es))
  {
    if es != [] {
      hide Step, Enabled, TriesFit;
      var before := es[..|es| - 1];
      AtMostFourTries(mode, before);
      TriesStep(Run(mode, before).value, es[|es| - 1], TriesIn(before));
      FitMeansFour(Run(mode, es).value.awaiter, TriesIn(es));
    }
  }

  lemma FitMeansFour(pc: AwaiterPc, n: nat)
    requires TriesFit(pc, n)
    ensures n <= 4
  {
  }

  // ----- who resumes at the start, and when the awaiter blocks -----

  /** At the start the worker resumes the coroutine itself if the pool is busy, and leaves it to the pool otherwise. */
  lemma BusyWorkerResumes(es: seq<Event>, busy: bool)
    requires Run(AtStart, es).Some? && Run(AtStart, es + [Callback(busy)]).Some?
    ensures var s := Run(AtStart, es + [Callback(busy)]).value; s.continued == One(busy) && s.queued == !busy
  {
    assert (es + [Callback(busy)])[..|es|] == es;
    RunIsValid(AtStart, es);
    hide Run;
    CallbackIsFirst(Run(AtStart, es).value);
  }

  lemma CallbackIsFirst(s: State)
    requires Valid(s) && s.worker.Calling?
    ensures s.continued == 0 && !s.queued && !s.waiter
  {
  }

  ghost predicate PollsFit(s: State) {
    match s.awaiter
    case Polling(count) => count > 3 ==> s.fetched
    case Fetching(count) => count > 3
    case _ => true
  }

  lemma PollsStep(s: State, e: Event)
    requires PollsFit(s) && Enabled(s, e)
    ensures PollsFit(Step(s, e))
  {
    hide WorkerAfter;
    match e
    case Awaiter =>
    case AwaiterTry(_) =>
    case Worker =>
    case _ =>
  }

  /** An awaiter that has not suspended asks at least four times whether all is ready before it blocks in the future,
      and it does not ask a fifth time without the inner task. */
  lemma {:induction false} PollsThenBlocks(mode: Mode, es: seq<Event>)
    requires Run(mode, es).Some?
    ensures var s := Run(mode, es).value;
            && (s.awaiter.Fetching? ==> s.awaiter.count > 3)
            && (s.awaiter.Polling? && s.awaiter.count > 3 ==> s.fetched)
            && PollsFit(s)
  {
    if es != [] {
      hide Step, Enabled;
      var before := es[..|es| - 1];
      PollsThenBlocks(mode, before);
      PollsStep(Run(mode, before).value, es[|es| - 1]);
    }
  }
}
