/** The event loop and its wake-up pipe, under any interleaving with any number of producer calls. */
module WakeUp {
  import opened Options

  datatype Status = Working | ReadyWaiting | Waiting

  datatype Kind = Task | Write

  /** Where a call of add_task or add_write_instant_task is. Its item is named by the number of the call. */
  datatype CallPc = Pushed | MustWrite | Done

  datatype Producer = Producer(kind: Kind, pc: CallPc)

  /** Where the loop is. In Handle it works on the events that epoll_wait returned; `pipe` says if the pipe is still
      to be read. */
  datatype LoopPc = Top | DrainTasks | DrainWrites | SetWaiting | Blocked | Woken(pipe: bool) | Handle(pipe: bool)

  /** `handled` is the history of the items that the loop has run. */
  datatype State = State(status: Status, pc: LoopPc, tasks: seq<nat>, writes: seq<nat>, pipe: nat,
                         calls: seq<Producer>, handled: seq<nat>)

  datatype Event =
    | Push(kind: Kind)         // a thread other than the worker enqueues an item
    | Load(c: nat)             // it loads the status
    | WritePipe(c: nat)        // it writes a byte, or fails because the pipe is full
    | WorkerPush               // code that the worker runs calls add_write_instant_task
    | Wake(byPipe: bool)       // epoll_wait returns, with the pipe among the events or without
    | Loop                     // any other step of the loop

  const INIT := State(Working, Top, [], [], 0, [], [])

  ghost predicate Enabled(s: State, e: Event) {
    match e
    case Push(_) => true
    case Load(c) => c < |s.calls| && s.calls[c].pc == Pushed
    case WritePipe(c) => c < |s.calls| && s.calls[c].pc == MustWrite
    case WorkerPush => s.pc == DrainTasks || s.pc == DrainWrites || s.pc.Handle?
    case Wake(byPipe) => s.pc == Blocked && (byPipe ==> s.pipe > 0)
    case Loop => s.pc != Blocked
  }

  ghost function Finish(s: State, c: nat, pc: CallPc): State
    requires c < |s.calls|
  {
    s.(calls := s.calls[c := s.calls[c].(pc := pc)])
  }

  /** One step; the pipe holds up to `capacity` bytes. */
  ghost function Step(capacity: nat, s: State, e: Event): State
    requires Enabled(s, e)
  {
    match e
    case Push(kind) =>
      var id := |s.calls|;
      var called := s.(calls := s.calls + [Producer(kind, Pushed)]);
      if kind == Task then called.(tasks := s.tasks + [id]) else called.(writes := s.writes + [id])
    case Load(c) => Finish(s, c, if s.status != Working then MustWrite else Done)
    case WritePipe(c) => Finish(if s.pipe < capacity then s.(pipe := s.pipe + 1) else s, c, Done)
    case WorkerPush =>
      s.(calls := s.calls + [Producer(Write, Done)], writes := s.writes + [|s.calls|])
    case Wake(byPipe) => s.(pc := Woken(byPipe))
    case Loop => LoopStep(s)
  }

  ghost function LoopStep(s: State): State
    requires s.pc != Blocked
  {
    match s.pc
    case Top => s.(status := ReadyWaiting, pc := DrainTasks)
    case DrainTasks =>
      if s.tasks != [] then s.(tasks := s.tasks[1..], handled := s.handled + [s.tasks[0]]) else s.(pc := DrainWrites)
    case DrainWrites =>
      if s.writes != [] then s.(writes := s.writes[1..], handled := s.handled + [s.writes[0]]) else s.(pc := SetWaiting)
    case SetWaiting => s.(status := Waiting, pc := Blocked)
    case Woken(pipe) => s.(status := Working, pc := Handle(pipe))
    case Handle(pipe) =>
      if pipe then s.(pipe := if s.pipe > 0 then s.pipe - 1 else 0, pc := Handle(false)) else s.(pc := Top)
  }

  // ----- no lost wake-up -----

  ghost predicate Unfinished(s: State, c: nat) {
    c < |s.calls| && s.calls[c].pc != Done
  }

  /** The loop drains the queue again before it can block. */
  ghost predicate WillDrain(pc: LoopPc, kind: Kind) {
    pc.Top? || pc.DrainTasks? || pc.Woken? || pc.Handle? || (kind == Write && pc.DrainWrites?)
  }

  ghost predicate Noticed(s: State, c: nat, kind: Kind) {
    Unfinished(s, c) || WillDrain(s.pc, kind) || s.pipe > 0
  }

  ghost predicate Valid(s: State) {
    && (s.status == Working <==> s.pc.Top? || s.pc.Handle?)
    && (s.pc == Woken(true) || s.pc == Handle(true) ==> s.pipe > 0)
    && (forall k | 0 <= k < |s.tasks| :: s.tasks[k] < |s.calls| && Noticed(s, s.tasks[k], Task))
    && (forall k | 0 <= k < |s.writes| :: s.writes[k] < |s.calls| && Noticed(s, s.writes[k], Write))
  }

  /** Each kind of step on its own; only the loop takes items and bytes away. */
  lemma LoopKeepsValid(s: State)
    requires Valid(s) && s.pc != Blocked
    ensures Valid(LoopStep(s))
  {
    var r := LoopStep(s);
    assert r.calls == s.calls;
    if r.tasks != s.tasks {
      assert forall k | 0 <= k < |r.tasks| :: r.tasks[k] == s.tasks[k + 1];
    }
    if r.writes != s.writes {
      assert forall k | 0 <= k < |r.writes| :: r.writes[k] == s.writes[k + 1];
    }
  }

  lemma CallKeepsValid(capacity: nat, s: State, e: Event)
    requires capacity > 0 && Valid(s) && Enabled(s, e) && (e.Load? || e.WritePipe?)
    ensures Valid(Step(capacity, s, e))
  {
    var r := Step(capacity, s, e);
    forall c | c != e.c && Unfinished(s, c) ensures Unfinished(r, c) {
    }
  }

  lemma PushKeepsValid(capacity: nat, s: State, e: Event)
    requires Valid(s) && Enabled(s, e) && (e.Push? || e.WorkerPush?)
    ensures Valid(Step(capacity, s, e))
  {
    var r := Step(capacity, s, e);
    forall c | Unfinished(s, c) ensures Unfinished(r, c) {
    }
    assert e.Push? ==> Unfinished(r, |s.calls|);
  }

  lemma StepKeepsValid(capacity: nat, s: State, e: Event)
    requires capacity > 0 && Valid(s) && Enabled(s, e)
    ensures Valid(Step(capacity, s, e))
  {
    match e
    case Push(_) => PushKeepsValid(capacity, s, e);
    case WorkerPush => PushKeepsValid(capacity, s, e);
    case Loop => LoopKeepsValid(s);
    case Load(_) => CallKeepsValid(capacity, s, e);
    case WritePipe(_) => CallKeepsValid(capacity, s, e);
    case Wake(_) =>
      var r := Step(capacity, s, e);
      assert forall c | Unfinished(s, c) :: Unfinished(r, c);
  }

  /** The state after a script of events, if all of them can happen. */
  ghost function Run(capacity: nat, es: seq<Event>): Option<State> {
    if es == [] then Some(INIT)
    else
      var before := Run(capacity, es[..|es| - 1]);
      var e := es[|es| - 1];
      if before.None? || !Enabled(before.value, e) then None else Some(Step(capacity, before.value, e))
  }

  lemma {:induction false} RunIsValid(capacity: nat, es: seq<Event>)
    requires capacity > 0 && Run(capacity, es).Some?
    ensures Valid(Run(capacity, es).value)
  {
    if es != [] {
      hide Valid, Step, Enabled;
      RunIsValid(capacity, es[..|es| - 1]);
      StepKeepsValid(capacity, Run(capacity, es[..|es| - 1]).value, es[|es| - 1]);
    }
  }

  /** Whenever the loop is blocked on an empty pipe, each item that waits belongs to a call of another thread that has
      still to load the status and see that it must write to the pipe, or to write to it. */
  lemma NoLostWakeUp(capacity: nat, es: seq<Event>, item: nat)
    requires capacity > 0 && Run(capacity, es).Some?
    requires var s := Run(capacity, es).value; s.pc == Blocked && s.pipe == 0 && (item in s.tasks || item in s.writes)
    ensures Unfinished(Run(capacity, es).value, item)
  {
    RunIsValid(capacity, es);
    hide Run;
    WaitingIsUnfinished(Run(capacity, es).value);
  }

  lemma WaitingIsUnfinished(s: State)
    requires Valid(s) && s.pc == Blocked && s.pipe == 0
    ensures forall k | 0 <= k < |s.tasks| :: Unfinished(s, s.tasks[k])
    ensures forall k | 0 <= k < |s.writes| :: Unfinished(s, s.writes[k])
    ensures (s.tasks != [] ==> Unfinished(s, s.tasks[0])) && (s.writes != [] ==> Unfinished(s, s.writes[0]))
  {
    assert forall k | 0 <= k < |s.tasks| :: Noticed(s, s.tasks[k], Task);
    assert forall k | 0 <= k < |s.writes| :: Noticed(s, s.writes[k], Write);
  }

  /** The exception is needed: the loop can be blocked while a call has pushed its item and not loaded the status. */
  lemma BlockedBeforeNotify()
    ensures var r := Run(1, [Loop, Loop, Push(Task), Loop, Loop]);
            r.Some? && r.value.pc == Blocked && r.value.pipe == 0 && r.value.tasks == [0]
  {
    var es := [Loop, Loop, Push(Task), Loop, Loop];
    assert es[..5] == es && es[..4][..3] == es[..3] && es[..3][..2] == es[..2] && es[..2][..1] == es[..1]
           && es[..1][..0] == [];
    assert Run(1, es[..1]).Some? && Run(1, es[..1]).value.pc == DrainTasks;
    assert Run(1, es[..2]).Some? && Run(1, es[..2]).value.pc == DrainWrites;
    assert Run(1, es[..3]).Some? && Run(1, es[..3]).value.tasks == [0];
    assert Run(1, es[..4]).Some? && Run(1, es[..4]).value.pc == SetWaiting;
  }

  // ----- every item is handled once, in order -----

  ghost function OfKind(items: seq<nat>, calls: seq<Producer>, kind: Kind): seq<nat> {
    if items == [] then []
    else
      var n := |items| - 1;
      OfKind(items[..n], calls, kind) + if items[n] < |calls| && calls[items[n]].kind == kind then [items[n]] else []
  }

  /** All items of a kind, in the order in which they were enqueued. */
  ghost function Enqueued(calls: seq<Producer>, kind: Kind): seq<nat> {
    if calls == [] then []
    else
      var n := |calls| - 1;
      Enqueued(calls[..n], kind) + if calls[n].kind == kind then [n] else []
  }

  ghost predicate Accounted(s: State) {
    && (forall k | 0 <= k < |s.handled| :: s.handled[k] < |s.calls|)
    && (forall k | 0 <= k < |s.tasks| :: s.tasks[k] < |s.calls| && s.calls[s.tasks[k]].kind == Task)
    && (forall k | 0 <= k < |s.writes| :: s.writes[k] < |s.calls| && s.calls[s.writes[k]].kind == Write)
    && OfKind(s.handled, s.calls, Task) + s.tasks == Enqueued(s.calls, Task)
    && OfKind(s.handled, s.calls, Write) + s.writes == Enqueued(s.calls, Write)
  }

  ghost predicate SameKinds(a: seq<Producer>, b: seq<Producer>) {
    |a| <= |b| && forall c | 0 <= c < |a| :: a[c].kind == b[c].kind
  }

  lemma {:induction false} OfKindFrame(items: seq<nat>, a: seq<Producer>, b: seq<Producer>, kind: Kind)
    requires SameKinds(a, b) && forall k | 0 <= k < |items| :: items[k] < |a|
    ensures OfKind(items, a, kind) == OfKind(items, b, kind)
  {
    if items != [] {
      OfKindFrame(items[..|items| - 1], a, b, kind);
    }
  }

  lemma {:induction false} EnqueuedFrame(a: seq<Producer>, b: seq<Producer>, kind: Kind)
    requires |a| == |b| && SameKinds(a, b)
    ensures Enqueued(a, kind) == Enqueued(b, kind)
  {
    if a != [] {
      EnqueuedFrame(a[..|a| - 1], b[..|b| - 1], kind);
    }
  }

  lemma OfKindSnoc(items: seq<nat>, item: nat, calls: seq<Producer>, kind: Kind)
    requires item < |calls|
    ensures OfKind(items + [item], calls, kind)
            == OfKind(items, calls, kind) + if calls[item].kind == kind then [item] else []
  {
    assert (items + [item])[..|items|] == items;
  }

  lemma AccountedCall(s: State, calls: seq<Producer>)
    requires Accounted(s) && |calls| == |s.calls| && SameKinds(s.calls, calls)
    ensures Accounted(s.(calls := calls))
  {
    OfKindFrame(s.handled, s.calls, calls, Task);
    OfKindFrame(s.handled, s.calls, calls, Write);
    EnqueuedFrame(s.calls, calls, Task);
    EnqueuedFrame(s.calls, calls, Write);
  }

  lemma AccountedPush(s: State, p: Producer)
    requires Accounted(s)
    ensures var id := |s.calls|;
            var r := s.(calls := s.calls + [p]);
            Accounted(if p.kind == Task then r.(tasks := s.tasks + [id]) else r.(writes := s.writes + [id]))
  {
    var calls := s.calls + [p];
    assert calls[..|s.calls|] == s.calls;
    OfKindFrame(s.handled, s.calls, calls, Task);
    OfKindFrame(s.handled, s.calls, calls, Write);
    var task, write := OfKind(s.handled, s.calls, Task), OfKind(s.handled, s.calls, Write);
    assert task + (s.tasks + [|s.calls|]) == (task + s.tasks) + [|s.calls|];
    assert write + (s.writes + [|s.calls|]) == (write + s.writes) + [|s.calls|];
  }

  lemma AccountedLoop(s: State)
    requires Accounted(s) && s.pc != Blocked
    ensures Accounted(LoopStep(s))
  {
    hide OfKind, Enqueued;
    if s.pc == DrainTasks && s.tasks != [] {
      OfKindSnoc(s.handled, s.tasks[0], s.calls, Task);
      OfKindSnoc(s.handled, s.tasks[0], s.calls, Write);
    } else if s.pc == DrainWrites && s.writes != [] {
      OfKindSnoc(s.handled, s.writes[0], s.calls, Task);
      OfKindSnoc(s.handled, s.writes[0], s.calls, Write);
    }
  }

  /** In every run each item is handled at most once, none is lost or invented, and the items of either kind are handled
      in the order in which they were enqueued. */
  lemma {:induction false} HandledInOrder(capacity: nat, es: seq<Event>)
    requires capacity > 0 && Run(capacity, es).Some?
    ensures Accounted(Run(capacity, es).value)
  {
    if es != [] {
      HandledInOrder(capacity, es[..|es| - 1]);
      var s, e := Run(capacity, es[..|es| - 1]).value, es[|es| - 1];
      hide Accounted, OfKind, Enqueued;
      match e
      case Push(kind) => AccountedPush(s, Producer(kind, Pushed));
      case WorkerPush => AccountedPush(s, Producer(Write, Done));
      case Loop => AccountedLoop(s);
      case Wake(_) => AccountedQuiet(s, Step(capacity, s, e));
      case Load(c) =>
        AccountedCall(s, Step(capacity, s, e).calls);
      case WritePipe(c) =>
        AccountedCall(s, Step(capacity, s, e).calls);
        AccountedQuiet(s.(calls := Step(capacity, s, e).calls), Step(capacity, s, e));
    }
  }

  lemma AccountedQuiet(s: State, r: State)
    requires Accounted(s) && r.calls == s.calls && r.tasks == s.tasks && r.writes == s.writes && r.handled == s.handled
    ensures Accounted(r)
  {
  }

  // ----- the loop catches up -----

  /** The next step of the worker when no other descriptor is ready. */
  ghost function Alone(s: State): State
    requires !(s.pc == Blocked && s.pipe == 0)
  {
    if s.pc == Blocked then s.(pc := Woken(true)) else LoopStep(s)
  }

  /** How far the loop is from its next read of the pipe. */
  ghost function Distance(pc: LoopPc): nat {
    match pc
    case Woken(pipe) => if pipe then 2 else 9
    case Handle(pipe) => if pipe then 1 else 8
    case Top => 7
    case DrainTasks => 6
    case DrainWrites => 5
    case SetWaiting => 4
    case Blocked => 3
  }

  ghost predicate Undisturbed(s: State, r: State) {
    r.calls == s.calls && s.handled <= r.handled
  }

  lemma AloneKeepsValid(s: State)
    requires Valid(s) && !(s.pc == Blocked && s.pipe == 0)
    ensures Valid(Alone(s)) && Undisturbed(s, Alone(s))
  {
    if s.pc == Blocked {
      assert forall c | Unfinished(s, c) :: Unfinished(Alone(s), c);
    } else {
      LoopKeepsValid(s);
    }
  }

  /** The states that the worker goes through alone until it blocks on an empty pipe. */
  ghost function CatchUp(s: State): (r: State)
    requires Valid(s)
    ensures Valid(r) && r.pc == Blocked && r.pipe == 0 && Undisturbed(s, r)
    decreases 10 * s.pipe + Distance(s.pc), |s.tasks| + |s.writes|
  {
    if s.pc == Blocked && s.pipe == 0 then s
    else
      AloneKeepsValid(s);
      CatchUp(Alone(s))
  }

  /** Once all calls have returned, the worker alone handles every item before it blocks for good. */
  lemma AllIsHandled(capacity: nat, es: seq<Event>)
    requires capacity > 0 && Run(capacity, es).Some?
    requires forall c | 0 <= c < |Run(capacity, es).value.calls| :: !Unfinished(Run(capacity, es).value, c)
    ensures Valid(Run(capacity, es).value)
    ensures var r := CatchUp(Run(capacity, es).value); r.tasks == [] && r.writes == []
  {
    RunIsValid(capacity, es);
    hide Run;
    var s := Run(capacity, es).value;
    var r := CatchUp(s);
    assert forall c :: Unfinished(r, c) <==> Unfinished(s, c);
    WaitingIsUnfinished(r);
  }

  // ----- no needless byte -----

  /** How often a call has found the loop not working, and so has to write. */
  ghost function Alarms(capacity: nat, es: seq<Event>): nat {
    if es == [] then 0
    else
      var n := |es| - 1;
      var before := Run(capacity, es[..n]);
      Alarms(capacity, es[..n]) + if es[n].Load? && before.Some? && before.value.status != Working then 1 else 0
  }

  ghost function MustWrites(calls: seq<Producer>): nat {
    if calls == [] then 0
    else MustWrites(calls[..|calls| - 1]) + if calls[|calls| - 1].pc == MustWrite then 1 else 0
  }

  lemma {:induction false} MustWritesUpdate(calls: seq<Producer>, c: nat, p: Producer)
    requires c < |calls|
    ensures MustWrites(calls[c := p]) + (if calls[c].pc == MustWrite then 1 else 0)
         == MustWrites(calls) + if p.pc == MustWrite then 1 else 0
  {
    var n := |calls| - 1;
    if c < n {
      assert calls[c := p][..n] == calls[..n][c := p];
      MustWritesUpdate(calls[..n], c, p);
    } else {
      assert calls[c := p][..n] == calls[..n];
    }
  }

  /** While the loop is working no call decides to write: in every run the bytes in the pipe, and those about to be
      written, are at most as many as the times that a call has found the loop not working. */
  lemma {:induction false} NoNeedlessByte(capacity: nat, es: seq<Event>)
    requires Run(capacity, es).Some?
    ensures Run(capacity, es).value.pipe + MustWrites(Run(capacity, es).value.calls) <= Alarms(capacity, es)
  {
    if es != [] {
      var n := |es| - 1;
      NoNeedlessByte(capacity, es[..n]);
      var s, e := Run(capacity, es[..n]).value, es[n];
      match e
      case Load(c) => MustWritesUpdate(s.calls, c, Step(capacity, s, e).calls[c]);
      case WritePipe(c) => MustWritesUpdate(s.calls, c, Step(capacity, s, e).calls[c]);
      case Push(kind) => assert (s.calls + [Producer(kind, Pushed)])[..|s.calls|] == s.calls;
      case WorkerPush => assert (s.calls + [Producer(Write, Done)])[..|s.calls|] == s.calls;
      case _ =>
    }
  }
}
