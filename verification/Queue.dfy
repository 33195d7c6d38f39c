/** mpsc_queue: one owner thread pops; its own items carry their stamp, the items of other threads only take one. */
module MpscQueue {
  /** The range of the two 64-bit counters. */
  const WORD: nat := 0x1_0000_0000_0000_0000

  type Thread = nat

  /** A pushed value: who pushed it, the value of `index` it took, and how many foreign items were enqueued before. */
  datatype Item<T> = Item(who: Thread, stamp: nat, seen: nat, value: T)

  /** A push of the owner is one event, since no other thread looks at its list. Any other thread first takes a stamp
      (Push) and enqueues later (Enqueue). Pop is try_pop by the owner. */
  datatype Event<T> = Push(who: Thread, value: T) | Enqueue(who: Thread) | Pop

  /** The queue, with unbounded counters, and its history: the items popped, and the foreign items enqueued. */
  datatype State<T> = State(owner: Thread, reserved: nat, local: seq<Item<T>>, remote: seq<Item<T>>,
                            flying: map<Thread, Item<T>>, out: seq<Item<T>>, enqueued: seq<Item<T>>)

  ghost function Init<T>(owner: Thread): State<T> {
    State(owner, 0, [], [], map[], [], [])
  }

  /** A thread does one push at a time. */
  ghost predicate Enabled<T>(s: State<T>, e: Event<T>) {
    match e
    case Push(who, _) => who == s.owner || who !in s.flying
    case Enqueue(who) => who in s.flying
    case Pop => true
  }

  /** The front item of the owner is due when as many items have been popped as its stamp says. */
  ghost predicate LocalIsDue<T>(s: State<T>) {
    s.local != [] && s.local[0].stamp == |s.out|
  }

  ghost predicate PopFails<T>(s: State<T>) {
    !LocalIsDue(s) && s.remote == []
  }

  ghost function Step<T>(s: State<T>, e: Event<T>): State<T>
    requires Enabled(s, e)
  {
    match e
    case Push(who, value) =>
      var item := Item(who, s.reserved, |s.enqueued|, value);
      if who == s.owner then s.(reserved := s.reserved + 1, local := s.local + [item])
      else s.(reserved := s.reserved + 1, flying := s.flying[who := item])
    case Enqueue(who) =>
      s.(remote := s.remote + [s.flying[who]], enqueued := s.enqueued + [s.flying[who]], flying := s.flying - {who})
    case Pop =>
      if LocalIsDue(s) then s.(local := s.local[1..], out := s.out + [s.local[0]])
      else if s.remote != [] then s.(remote := s.remote[1..], out := s.out + [s.remote[0]])
      else s
  }

  ghost predicate Possible<T>(owner: Thread, es: seq<Event<T>>)
    decreases |es|, 0
  {
    es != [] ==>
      var n := |es| - 1;
      Possible(owner, es[..n]) && Enabled(Run(owner, es[..n]), es[n])
  }

  /** The state after any interleaving of the events of any number of threads. */
  ghost function Run<T>(owner: Thread, es: seq<Event<T>>): (s: State<T>)
    requires Possible(owner, es)
    ensures s.owner == owner
    decreases |es|, 1
  {
    if es == [] then Init(owner) else Step(Run(owner, es[..|es| - 1]), es[|es| - 1])
  }

  // ----- counting -----

  /** Stamps taken and not yet popped: waiting in a list, or still in flight. */
  ghost function Outstanding<T>(s: State<T>): nat {
    |s.local| + |s.remote| + |s.flying|
  }

  ghost predicate Counted<T>(s: State<T>) {
    s.reserved == |s.out| + Outstanding(s)
  }

  ghost predicate Increasing<T>(items: seq<Item<T>>) {
    forall i, j | 0 <= i < j < |items| :: items[i].stamp < items[j].stamp
  }

  ghost predicate OwnerWaits<T>(s: State<T>) {
    && Increasing(s.local)
    && (forall k | 0 <= k < |s.local| :: s.local[k].who == s.owner && |s.out| <= s.local[k].stamp < s.reserved)
    && forall k | 0 <= k < |s.local| ::
         s.local[k].seen - (|s.enqueued| - |s.remote|) + k <= s.local[k].stamp - |s.out|
  }

  lemma CountedPush<T>(s: State<T>, who: Thread, value: T)
    requires Enabled(s, Push(who, value)) && Counted(s) && OwnerWaits(s)
    ensures Counted(Step(s, Push(who, value))) && OwnerWaits(Step(s, Push(who, value)))
  {
    if who != s.owner {
      assert s.flying[who := Item(who, s.reserved, |s.enqueued|, value)].Keys == s.flying.Keys + {who};
    }
  }

  lemma CountedEnqueue<T>(s: State<T>, who: Thread)
    requires Enabled(s, Enqueue(who)) && Counted(s) && OwnerWaits(s)
    ensures Counted(Step(s, Enqueue(who))) && OwnerWaits(Step(s, Enqueue(who)))
  {
    assert (s.flying - {who}).Keys == s.flying.Keys - {who};
  }

  lemma CountedLocalPop<T>(s: State<T>)
    requires Counted(s) && OwnerWaits(s) && LocalIsDue(s)
    ensures Counted(Step(s, Pop)) && OwnerWaits(Step(s, Pop))
  {
    var t := Step(s, Pop);
    assert forall k | 0 <= k < |t.local| :: t.local[k] == s.local[k + 1];
  }

  lemma CountedRemotePop<T>(s: State<T>)
    requires Counted(s) && OwnerWaits(s) && !LocalIsDue(s)
    ensures Counted(Step(s, Pop)) && OwnerWaits(Step(s, Pop))
  {
    assert forall k | 0 < k < |s.local| :: s.local[0].stamp < s.local[k].stamp;
  }

  lemma CountedPop<T>(s: State<T>)
    requires Counted(s) && OwnerWaits(s)
    ensures Counted(Step(s, Pop)) && OwnerWaits(Step(s, Pop))
  {
    hide Counted, OwnerWaits, Step;
    if LocalIsDue(s) {
      CountedLocalPop(s);
    } else {
      CountedRemotePop(s);
    }
  }

  lemma CountedStep<T>(s: State<T>, e: Event<T>)
    requires Enabled(s, e) && Counted(s) && OwnerWaits(s)
    ensures Counted(Step(s, e)) && OwnerWaits(Step(s, e))
  {
    hide Counted, OwnerWaits, Step, Enabled;
    match e
    case Push(who, value) => CountedPush(s, who, value);
    case Enqueue(who) => CountedEnqueue(s, who);
    case Pop => CountedPop(s);
  }

  /** In every run the stamps taken are the items popped, waiting and in flight, and the list of the owner is in
      stamp order with no stamp overdue. */
  lemma {:induction false} CountingLaw<T>(owner: Thread, es: seq<Event<T>>)
    requires Possible(owner, es)
    ensures var s := Run(owner, es); Counted(s) && OwnerWaits(s)
  {
    if es != [] {
      var n := |es| - 1;
      CountingLaw(owner, es[..n]);
      CountedStep(Run(owner, es[..n]), es[n]);
    }
  }

  lemma {:induction false} IncreasingSpreads<T>(items: seq<Item<T>>)
    requires Increasing(items) && items != []
    ensures items[0].stamp + |items| - 1 <= items[|items| - 1].stamp
  {
    var n := |items| - 1;
    if n > 0 {
      IncreasingSpreads(items[..n]);
    }
  }

  /** With no push in flight, try_pop returns false exactly when nothing waits. */
  lemma PopFailsOnlyWhenEmpty<T>(owner: Thread, es: seq<Event<T>>)
    requires Possible(owner, es) && Run(owner, es).flying == map[]
    ensures var s := Run(owner, es); PopFails(s) <==> s.local == [] && s.remote == []
  {
    var s := Run(owner, es);
    CountingLaw(owner, es);
    if s.local != [] && s.remote == [] {
      IncreasingSpreads(s.local);
    }
  }

  // ----- when an item of the owner comes out -----

  ghost function Foreign<T>(owner: Thread, items: seq<Item<T>>): seq<Item<T>> {
    if items == [] then []
    else
      var n := |items| - 1;
      Foreign(owner, items[..n]) + if items[n].who == owner then [] else [items[n]]
  }

  lemma ForeignSnoc<T>(owner: Thread, items: seq<Item<T>>, item: Item<T>)
    ensures Foreign(owner, items + [item]) == Foreign(owner, items) + if item.who == owner then [] else [item]
  {
    assert (items + [item])[..|items|] == items;
  }

  /** Foreign items are popped in the order in which they were enqueued, and each item of the owner comes out at the
      position that its stamp names, behind all foreign items enqueued before it was pushed. */
  ghost predicate InPlace<T>(s: State<T>) {
    && Foreign(s.owner, s.out) + s.remote == s.enqueued
    && (forall k | 0 <= k < |s.remote| :: s.remote[k].who != s.owner)
    && (forall p | p in s.flying :: s.flying[p].who == p != s.owner)
    && forall i | 0 <= i < |s.out| && s.out[i].who == s.owner ::
         s.out[i].stamp == i && s.out[i].seen <= |Foreign(s.owner, s.out[..i])|
  }

  lemma InPlacePush<T>(s: State<T>, who: Thread, value: T)
    requires Enabled(s, Push(who, value)) && InPlace(s)
    ensures InPlace(Step(s, Push(who, value)))
  {
  }

  lemma InPlaceEnqueue<T>(s: State<T>, who: Thread)
    requires Enabled(s, Enqueue(who)) && InPlace(s)
    ensures InPlace(Step(s, Enqueue(who)))
  {
    var foreign := Foreign(s.owner, s.out);
    assert foreign + (s.remote + [s.flying[who]]) == (foreign + s.remote) + [s.flying[who]];
  }

  lemma OutSnoc<T>(owner: Thread, out: seq<Item<T>>, item: Item<T>)
    requires forall i | 0 <= i < |out| && out[i].who == owner ::
               out[i].stamp == i && out[i].seen <= |Foreign(owner, out[..i])|
    requires item.who == owner ==> item.stamp == |out| && item.seen <= |Foreign(owner, out)|
    ensures var more := out + [item];
            forall i | 0 <= i < |more| && more[i].who == owner ::
              more[i].stamp == i && more[i].seen <= |Foreign(owner, more[..i])|
  {
    var more := out + [item];
    forall i | 0 <= i < |more| && more[i].who == owner
      ensures more[i].stamp == i && more[i].seen <= |Foreign(owner, more[..i])|
    {
      assert more[..i] == out[..i];
    }
    assert more[..|out|] == out;
  }

  lemma InPlacePop<T>(s: State<T>)
    requires Counted(s) && OwnerWaits(s) && InPlace(s)
    ensures InPlace(Step(s, Pop))
  {
    hide Foreign;
    if LocalIsDue(s) {
      OutSnoc(s.owner, s.out, s.local[0]);
      ForeignSnoc(s.owner, s.out, s.local[0]);
    } else if s.remote != [] {
      OutSnoc(s.owner, s.out, s.remote[0]);
      ForeignSnoc(s.owner, s.out, s.remote[0]);
    }
  }

  lemma InPlaceStep<T>(s: State<T>, e: Event<T>)
    requires Enabled(s, e) && Counted(s) && OwnerWaits(s) && InPlace(s)
    ensures InPlace(Step(s, e))
  {
    hide Counted, OwnerWaits, InPlace, Step, Enabled;
    match e
    case Push(who, value) => InPlacePush(s, who, value);
    case Enqueue(who) => InPlaceEnqueue(s, who);
    case Pop => InPlacePop(s);
  }

  lemma {:induction false} PlaceLaw<T>(owner: Thread, es: seq<Event<T>>)
    requires Possible(owner, es)
    ensures InPlace(Run(owner, es))
  {
    if es != [] {
      var n := |es| - 1;
      PlaceLaw(owner, es[..n]);
      CountingLaw(owner, es[..n]);
      InPlaceStep(Run(owner, es[..n]), es[n]);
    }
  }

  /** An item of the owner with stamp i is the (i+1)-th item popped. */
  lemma LocalComesOutInTurn<T>(owner: Thread, es: seq<Event<T>>, i: nat)
    requires Possible(owner, es) && i < |Run(owner, es).out| && Run(owner, es).out[i].who == owner
    ensures Run(owner, es).out[i].stamp == i
  {
    PlaceLaw(owner, es);
  }

  lemma StepGrows<T>(s: State<T>, e: Event<T>)
    requires Enabled(s, e)
    ensures s.enqueued <= Step(s, e).enqueued && s.out <= Step(s, e).out
  {
  }

  lemma {:induction false} HistoryGrows<T>(owner: Thread, es: seq<Event<T>>, more: seq<Event<T>>)
    requires Possible(owner, es) && Possible(owner, es + more)
    ensures Run(owner, es).enqueued <= Run(owner, es + more).enqueued
    ensures Run(owner, es).out <= Run(owner, es + more).out
    decreases |more|
  {
    if more == [] {
      assert es + more == es;
    } else {
      var n := |more| - 1;
      assert (es + more)[..|es| + n] == es + more[..n];
      hide Step, Enabled;
      HistoryGrows(owner, es, more[..n]);
      StepGrows(Run(owner, es + more[..n]), more[n]);
    }
  }

  /** A push that another thread completed before a push of the owner is popped before it: whenever the owner's item
      has come out, at position i, every item enqueued by then is among the foreign items that came out before it. */
  lemma CompletedPushComesFirst<T>(owner: Thread, before: seq<Event<T>>, value: T, after: seq<Event<T>>, i: nat)
    requires Possible(owner, before) && Possible(owner, before + ([Push(owner, value)] + after))
    requires var s, t := Run(owner, before), Run(owner, before + ([Push(owner, value)] + after));
             i < |t.out| && t.out[i] == Item(owner, s.reserved, |s.enqueued|, value)
    ensures var s, t := Run(owner, before), Run(owner, before + ([Push(owner, value)] + after));
            s.enqueued <= Foreign(owner, t.out[..i])
  {
    var es := before + ([Push(owner, value)] + after);
    var s, t := Run(owner, before), Run(owner, es);
    PlaceLaw(owner, es);
    HistoryGrows(owner, before, [Push(owner, value)] + after);
    ForeignGrows(owner, t.out, i);
    var first := Foreign(owner, t.out[..i]);
    assert first <= t.enqueued;
  }

  lemma {:induction false} ForeignGrows<T>(owner: Thread, items: seq<Item<T>>, i: nat)
    requires i <= |items|
    ensures Foreign(owner, items[..i]) <= Foreign(owner, items)
  {
    if i < |items| {
      var n := |items| - 1;
      ForeignGrows(owner, items[..n], i);
      assert items[..n][..i] == items[..i];
    } else {
      assert items[..i] == items;
    }
  }

  // ----- nothing lost, and every thread in its own order -----

  function Pushed<T>(es: seq<Event<T>>, who: Thread): seq<T> {
    if es == [] then []
    else
      var n := |es| - 1;
      Pushed(es[..n], who) + if es[n].Push? && es[n].who == who then [es[n].value] else []
  }

  function ValuesOf<T>(items: seq<Item<T>>, who: Thread): seq<T> {
    if items == [] then []
    else
      var n := |items| - 1;
      ValuesOf(items[..n], who) + if items[n].who == who then [items[n].value] else []
  }

  lemma {:induction false} ValuesOfConcat<T>(a: seq<Item<T>>, b: seq<Item<T>>, who: Thread)
    ensures ValuesOf(a + b, who) == ValuesOf(a, who) + ValuesOf(b, who)
  {
    if b == [] {
      assert a + b == a;
    } else {
      var n := |b| - 1;
      assert (a + b)[..|a| + n] == a + b[..n];
      ValuesOfConcat(a, b[..n], who);
    }
  }

  ghost function InFlight<T>(s: State<T>, who: Thread): seq<T> {
    if who in s.flying then [s.flying[who].value] else []
  }

  /** The waiting items of one thread: its own list for the owner, the concurrent queue for the others. */
  ghost function Waiting<T>(s: State<T>, who: Thread): seq<T> {
    ValuesOf(if who == s.owner then s.local else s.remote, who)
  }

  /** What is known of the values of one thread: popped, waiting, in flight. */
  ghost function Account<T>(s: State<T>, who: Thread): seq<T> {
    ValuesOf(s.out, who) + Waiting(s, who) + InFlight(s, who)
  }

  lemma ThreadPush<T>(s: State<T>, pusher: Thread, value: T, who: Thread)
    requires Enabled(s, Push(pusher, value)) && InPlace(s)
    ensures Account(Step(s, Push(pusher, value)), who) == Account(s, who) + if pusher == who then [value] else []
  {
    hide ValuesOf;
    var item := Item(pusher, s.reserved, |s.enqueued|, value);
    var out, waiting := ValuesOf(s.out, who), Waiting(s, who);
    if pusher == s.owner {
      if who == pusher {
        ValuesOfSnoc(s.local, item);
        assert out + (waiting + [value]) + [] == out + waiting + [] + [value];
      }
    } else if who == pusher {
      assert out + waiting + [value] == out + waiting + [] + [value];
    }
  }

  lemma ValuesOfSnoc<T>(items: seq<Item<T>>, item: Item<T>)
    ensures ValuesOf(items + [item], item.who) == ValuesOf(items, item.who) + [item.value]
  {
    ValuesOfConcat(items, [item], item.who);
  }

  lemma ThreadEnqueue<T>(s: State<T>, pusher: Thread, who: Thread)
    requires Enabled(s, Enqueue(pusher)) && InPlace(s)
    ensures Account(Step(s, Enqueue(pusher)), who) == Account(s, who)
  {
    ValuesOfConcat(s.remote, [s.flying[pusher]], who);
  }

  lemma ValuesOfMoved<T>(out: seq<Item<T>>, waiting: seq<Item<T>>, who: Thread)
    requires waiting != []
    ensures ValuesOf(out + [waiting[0]], who) + ValuesOf(waiting[1..], who)
            == ValuesOf(out, who) + ValuesOf(waiting, who)
  {
    assert waiting == [waiting[0]] + waiting[1..];
    ValuesOfConcat([waiting[0]], waiting[1..], who);
    ValuesOfConcat(out, [waiting[0]], who);
  }

  lemma ValuesOfOther<T>(out: seq<Item<T>>, item: Item<T>, who: Thread)
    requires item.who != who
    ensures ValuesOf(out + [item], who) == ValuesOf(out, who)
  {
    ValuesOfConcat(out, [item], who);
  }

  lemma ThreadPop<T>(s: State<T>, who: Thread)
    requires OwnerWaits(s) && InPlace(s)
    ensures Account(Step(s, Pop), who) == Account(s, who)
  {
    hide ValuesOf;
    if LocalIsDue(s) {
      if who == s.owner {
        ValuesOfMoved(s.out, s.local, who);
      } else {
        ValuesOfOther(s.out, s.local[0], who);
      }
    } else if s.remote != [] {
      if who == s.owner {
        ValuesOfOther(s.out, s.remote[0], who);
      } else {
        ValuesOfMoved(s.out, s.remote, who);
      }
    }
  }

  lemma ThreadStep<T>(s: State<T>, e: Event<T>, who: Thread)
    requires Enabled(s, e) && OwnerWaits(s) && InPlace(s)
    ensures Account(Step(s, e), who) == Account(s, who) + if e.Push? && e.who == who then [e.value] else []
  {
    hide OwnerWaits, InPlace, Step, Enabled, Account;
    match e
    case Push(pusher, value) => ThreadPush(s, pusher, value, who);
    case Enqueue(pusher) => ThreadEnqueue(s, pusher, who);
    case Pop => ThreadPop(s, who);
  }

  /** For every thread: what was popped of its values, what waits and what is in flight, in this order, are exactly
      the values it pushed in the order in which it pushed them. */
  lemma {:induction false} ThreadOrderLaw<T>(owner: Thread, es: seq<Event<T>>, who: Thread)
    requires Possible(owner, es)
    ensures Account(Run(owner, es), who) == Pushed(es, who)
  {
    if es != [] {
      var n := |es| - 1;
      ThreadOrderLaw(owner, es[..n], who);
      CountingLaw(owner, es[..n]);
      PlaceLaw(owner, es[..n]);
      ThreadStep(Run(owner, es[..n]), es[n], who);
    }
  }

  // ----- one FIFO -----

  /** The whole queue behaves as one FIFO in the order of the stamps. */
  ghost predicate StampOrder<T>(s: State<T>) {
    forall i | 0 <= i < |s.out| :: s.out[i].stamp == i
  }

  /** Foreign pushes were completed in the order in which they took their stamps. */
  ghost predicate InTurn<T>(s: State<T>) {
    && Increasing(s.enqueued)
    && forall i, p | 0 <= i < |s.enqueued| && p in s.flying :: s.enqueued[i].stamp < s.flying[p].stamp
  }

  ghost function Stamps<T>(items: seq<Item<T>>): set<nat> {
    set i | 0 <= i < |items| :: items[i].stamp
  }

  lemma StampsSnoc<T>(items: seq<Item<T>>, item: Item<T>)
    ensures Stamps(items + [item]) == Stamps(items) + {item.stamp}
  {
    var more := items + [item];
    assert more[|items|] == item;
    forall n | n in Stamps(items) + {item.stamp} ensures n in Stamps(more) {
      if n in Stamps(items) {
        var i :| 0 <= i < |items| && items[i].stamp == n;
        assert more[i] == items[i];
      }
    }
  }

  lemma StampsHead<T>(items: seq<Item<T>>)
    requires items != []
    ensures Stamps(items) == {items[0].stamp} + Stamps(items[1..])
  {
    forall n | n in Stamps(items) ensures n in {items[0].stamp} + Stamps(items[1..]) {
      var i :| 0 <= i < |items| && items[i].stamp == n;
      if i > 0 {
        assert items[1..][i - 1] == items[i];
      }
    }
  }

  /** The stamps of all items that came out or wait. */
  ghost function Settled<T>(s: State<T>): set<nat> {
    Stamps(s.out) + Stamps(s.local) + Stamps(s.remote)
  }

  /** The stamp of a push in flight is its own, and all stamps are below the counter. */
  ghost predicate Unique<T>(s: State<T>) {
    && (forall n | n in Settled(s) :: n < s.reserved)
    && (forall p | p in s.flying :: s.flying[p].stamp < s.reserved && s.flying[p].stamp !in Settled(s))
    && (forall p, q | p in s.flying && q in s.flying && p != q :: s.flying[p].stamp != s.flying[q].stamp)
    && Stamps(s.local) !! Stamps(s.remote)
  }

  lemma SettledStep<T>(s: State<T>, e: Event<T>)
    requires Enabled(s, e)
    ensures Settled(Step(s, e)) == Settled(s) +
            match e
            case Push(who, _) => if who == s.owner then {s.reserved} else {}
            case Enqueue(who) => {s.flying[who].stamp}
            case Pop => {}
  {
    hide Stamps;
    match e
    case Push(who, value) =>
      StampsSnoc(s.local, Item(who, s.reserved, |s.enqueued|, value));
    case Enqueue(who) =>
      StampsSnoc(s.remote, s.flying[who]);
    case Pop =>
      if LocalIsDue(s) {
        StampsHead(s.local);
        StampsSnoc(s.out, s.local[0]);
      } else if s.remote != [] {
        StampsHead(s.remote);
        StampsSnoc(s.out, s.remote[0]);
      }
  }

  lemma ApartStep<T>(s: State<T>, e: Event<T>)
    requires Enabled(s, e) && Unique(s)
    ensures Stamps(Step(s, e).local) !! Stamps(Step(s, e).remote)
  {
    hide Stamps;
    match e
    case Push(who, value) =>
      StampsSnoc(s.local, Item(who, s.reserved, |s.enqueued|, value));
    case Enqueue(who) =>
      StampsSnoc(s.remote, s.flying[who]);
    case Pop =>
      if LocalIsDue(s) {
        StampsHead(s.local);
      } else if s.remote != [] {
        StampsHead(s.remote);
      }
  }

  lemma UniqueStep<T>(s: State<T>, e: Event<T>)
    requires Enabled(s, e) && Unique(s)
    ensures Unique(Step(s, e))
  {
    hide Settled, Stamps;
    SettledStep(s, e);
    ApartStep(s, e);
  }

  lemma {:induction false} UniqueLaw<T>(owner: Thread, es: seq<Event<T>>)
    requires Possible(owner, es)
    ensures Unique(Run(owner, es))
  {
    if es != [] {
      var n := |es| - 1;
      UniqueLaw(owner, es[..n]);
      UniqueStep(Run(owner, es[..n]), es[n]);
    }
  }

  ghost function FlyingStamps<T>(s: State<T>): set<nat> {
    set p | p in s.flying :: s.flying[p].stamp
  }

  /** The stamps from the number of popped items on, up to the counter, are exactly the outstanding ones. */
  ghost predicate Covered<T>(s: State<T>) {
    && (forall n | n in Stamps(s.local) + Stamps(s.remote) + FlyingStamps(s) :: |s.out| <= n)
    && forall n | |s.out| <= n < s.reserved :: n in Stamps(s.local) + Stamps(s.remote) + FlyingStamps(s)
  }

  lemma InTurnBefore<T>(s: State<T>, e: Event<T>)
    requires Enabled(s, e) && InTurn(Step(s, e))
    ensures InTurn(s)
  {
    var t := Step(s, e);
    forall i, j | 0 <= i < j < |s.enqueued| ensures s.enqueued[i].stamp < s.enqueued[j].stamp {
      assert t.enqueued[i] == s.enqueued[i] && t.enqueued[j] == s.enqueued[j];
    }
    forall i, p | 0 <= i < |s.enqueued| && p in s.flying ensures s.enqueued[i].stamp < s.flying[p].stamp {
      assert t.enqueued[i] == s.enqueued[i];
      if e == Enqueue(p) {
        assert t.enqueued[|s.enqueued|] == s.flying[p];
      } else {
        assert p in t.flying;
      }
    }
  }

  lemma FlyingStampsPush<T>(flying: map<Thread, Item<T>>, s: State<T>, who: Thread, item: Item<T>)
    requires who !in s.flying && flying == s.flying[who := item]
    ensures FlyingStamps(s.(flying := flying)) == FlyingStamps(s) + {item.stamp}
  {
    var t := s.(flying := flying);
    assert t.flying[who] == item;
    forall n | n in FlyingStamps(s) ensures n in FlyingStamps(t) {
      var p :| p in s.flying && s.flying[p].stamp == n;
      assert p in t.flying && t.flying[p] == s.flying[p];
    }
    forall n | n in FlyingStamps(t) ensures n in FlyingStamps(s) + {item.stamp} {
      var p :| p in t.flying && t.flying[p].stamp == n;
    }
  }

  lemma CoveredPush<T>(s: State<T>, who: Thread, value: T)
    requires Enabled(s, Push(who, value)) && Counted(s) && Covered(s)
    ensures Covered(Step(s, Push(who, value)))
  {
    hide Stamps;
    var t := Step(s, Push(who, value));
    var item := Item(who, s.reserved, |s.enqueued|, value);
    if who == s.owner {
      StampsSnoc(s.local, item);
      assert FlyingStamps(t) == FlyingStamps(s);
    } else {
      FlyingStampsPush(t.flying, s, who, item);
      assert FlyingStamps(t) == FlyingStamps(s.(flying := t.flying));
    }
    forall n: nat | |t.out| <= n < t.reserved ensures n in Stamps(t.local) + Stamps(t.remote) + FlyingStamps(t) {
      assert n == s.reserved || n in Stamps(s.local) + Stamps(s.remote) + FlyingStamps(s);
    }
  }

  lemma CoveredEnqueue<T>(s: State<T>, who: Thread)
    requires Enabled(s, Enqueue(who)) && Covered(s)
    ensures Covered(Step(s, Enqueue(who)))
  {
    hide Stamps;
    var t := Step(s, Enqueue(who));
    StampsSnoc(s.remote, s.flying[who]);
    forall n | n in FlyingStamps(s) ensures n in FlyingStamps(t) + {s.flying[who].stamp} {
      var p :| p in s.flying && s.flying[p].stamp == n;
      assert p == who || (p in t.flying && t.flying[p] == s.flying[p]);
    }
    assert forall p | p in t.flying :: p in s.flying && t.flying[p] == s.flying[p];
    assert s.flying[who].stamp in FlyingStamps(s) && FlyingStamps(t) <= FlyingStamps(s);
    forall n: nat | |t.out| <= n < t.reserved ensures n in Stamps(t.local) + Stamps(t.remote) + FlyingStamps(t) {
      assert n in Stamps(s.local) + Stamps(s.remote) + FlyingStamps(s);
    }
  }

  lemma NotAhead<T>(s: State<T>)
    requires OwnerWaits(s) && !LocalIsDue(s)
    ensures |s.out| !in Stamps(s.local)
  {
    forall k | 0 <= k < |s.local| ensures s.local[k].stamp != |s.out| {
      assert k == 0 || s.local[0].stamp < s.local[k].stamp;
    }
  }

  lemma RemoteInTurn<T>(s: State<T>)
    requires InPlace(s) && InTurn(s)
    ensures Increasing(s.remote)
    ensures forall k, p | 0 <= k < |s.remote| && p in s.flying :: s.remote[k].stamp < s.flying[p].stamp
  {
    var done := |Foreign(s.owner, s.out)|;
    assert forall k | 0 <= k < |s.remote| :: s.remote[k] == s.enqueued[done + k];
  }

  /** When the owner's front is not due, the front of the concurrent queue carries the least outstanding stamp. */
  lemma RemoteIsDue<T>(s: State<T>)
    requires OwnerWaits(s) && InPlace(s) && Covered(s) && InTurn(s) && Unique(s)
    requires !LocalIsDue(s) && s.remote != []
    ensures s.remote[0].stamp == |s.out|
  {
    var n := |s.out|;
    RemoteInTurn(s);
    NotAhead(s);
    assert s.remote[0].stamp in Stamps(s.remote) && s.remote[0].stamp in Settled(s);
    forall p | p in s.flying ensures s.flying[p].stamp != n {
      assert s.remote[0].stamp < s.flying[p].stamp;
    }
    assert n in Stamps(s.remote);
    var k :| 0 <= k < |s.remote| && s.remote[k].stamp == n;
    assert s.remote[0].stamp <= s.remote[k].stamp;
  }

  lemma FrontIsLeast<T>(items: seq<Item<T>>)
    requires Increasing(items) && items != []
    ensures items[0].stamp !in Stamps(items[1..])
  {
  }

  /** Without its least number, an interval starts one higher. */
  lemma WithoutLeast(held: set<nat>, rest: set<nat>, least: nat, end: nat)
    requires forall n | n in held :: least <= n
    requires forall n | least <= n < end :: n in held
    requires held == {least} + rest && least !in rest
    ensures forall n | n in rest :: least + 1 <= n
    ensures forall n | least + 1 <= n < end :: n in rest
  {
    forall n | least + 1 <= n < end ensures n in rest {
      assert n in held;
    }
  }

  lemma CoveredLocalPop<T>(s: State<T>)
    requires OwnerWaits(s) && Covered(s) && Unique(s) && LocalIsDue(s)
    ensures Covered(Step(s, Pop))
  {
    FrontIsLeast(s.local);
    StampsHead(s.local);
    NotInFlight(s, |s.out|);
    var t := Step(s, Pop);
    assert FlyingStamps(t) == FlyingStamps(s);
    hide Stamps, FlyingStamps, Unique, OwnerWaits, Increasing;
    var f, r, l := FlyingStamps(s), Stamps(s.remote), Stamps(s.local[1..]);
    assert Stamps(s.local) + r + f == {|s.out|} + (l + r + f);
    WithoutLeast(Stamps(s.local) + r + f, l + r + f, |s.out|, s.reserved);
  }

  lemma CoveredRemotePop<T>(s: State<T>)
    requires OwnerWaits(s) && InPlace(s) && Covered(s) && InTurn(s) && Unique(s) && !LocalIsDue(s) && s.remote != []
    ensures Covered(Step(s, Pop)) && s.remote[0].stamp == |s.out|
  {
    RemoteIsDue(s);
    RemoteInTurn(s);
    NotAhead(s);
    FrontIsLeast(s.remote);
    StampsHead(s.remote);
    NotInFlight(s, |s.out|);
    var t := Step(s, Pop);
    assert FlyingStamps(t) == FlyingStamps(s);
    hide Stamps, FlyingStamps, InPlace, InTurn, Unique, OwnerWaits, Increasing;
    var f, r, l := FlyingStamps(s), Stamps(s.remote[1..]), Stamps(s.local);
    assert l + Stamps(s.remote) + f == {|s.out|} + (l + r + f);
    WithoutLeast(l + Stamps(s.remote) + f, l + r + f, |s.out|, s.reserved);
  }

  lemma CoveredPop<T>(s: State<T>)
    requires OwnerWaits(s) && InPlace(s) && Covered(s) && InTurn(s) && Unique(s)
    ensures Covered(Step(s, Pop))
    ensures var t := Step(s, Pop); t.out == s.out || t.out[|s.out|].stamp == |s.out|
  {
    hide Covered, InPlace, InTurn, Unique, OwnerWaits;
    if LocalIsDue(s) {
      CoveredLocalPop(s);
    } else if s.remote != [] {
      CoveredRemotePop(s);
    }
  }

  lemma NotInFlight<T>(s: State<T>, n: nat)
    requires Unique(s) && n in Stamps(s.local) + Stamps(s.remote)
    ensures n !in FlyingStamps(s)
    ensures n in Stamps(s.local) ==> n !in Stamps(s.remote)
  {
  }

  lemma FifoStep<T>(s: State<T>, e: Event<T>)
    requires Enabled(s, e) && Counted(s) && OwnerWaits(s) && InPlace(s) && Unique(s)
    requires Covered(s) && StampOrder(s) && InTurn(s)
    ensures Covered(Step(s, e)) && StampOrder(Step(s, e))
  {
    hide Covered, OwnerWaits, InPlace, Unique, InTurn, Counted;
    match e
    case Push(who, value) => CoveredPush(s, who, value);
    case Enqueue(who) => CoveredEnqueue(s, who);
    case Pop =>
      CoveredPop(s);
      if LocalIsDue(s) || s.remote != [] {
        assert Step(s, Pop).out[..|s.out|] == s.out;
      }
  }

  /** When foreign pushes are completed in the order of their stamps, items come out in the order of their stamps. */
  lemma {:induction false} InTurnGivesFifo<T>(owner: Thread, es: seq<Event<T>>)
    requires Possible(owner, es) && InTurn(Run(owner, es))
    ensures Covered(Run(owner, es)) && StampOrder(Run(owner, es))
  {
    if es != [] {
      var n := |es| - 1;
      InTurnBefore(Run(owner, es[..n]), es[n]);
      InTurnGivesFifo(owner, es[..n]);
      CountingLaw(owner, es[..n]);
      PlaceLaw(owner, es[..n]);
      UniqueLaw(owner, es[..n]);
      hide Covered, OwnerWaits, InPlace, Unique, InTurn, Counted, Step, StampOrder, Enabled;
      FifoStep(Run(owner, es[..n]), es[n]);
    }
  }

  lemma {:induction false} ForeignKeepsOrder<T>(owner: Thread, items: seq<Item<T>>)
    requires Increasing(items)
    ensures Increasing(Foreign(owner, items))
    ensures forall item | item in Foreign(owner, items) :: item in items
  {
    if items != [] {
      var n := |items| - 1;
      ForeignKeepsOrder(owner, items[..n]);
      forall item | item in items[..n] ensures item.stamp < items[n].stamp {
      }
    }
  }

  lemma FifoMeansInTurn<T>(owner: Thread, es: seq<Event<T>>)
    requires Possible(owner, es) && Run(owner, es).remote == [] && StampOrder(Run(owner, es))
    ensures InTurn(Run(owner, es))
  {
    var s := Run(owner, es);
    PlaceLaw(owner, es);
    UniqueLaw(owner, es);
    assert Increasing(s.out);
    ForeignKeepsOrder(owner, s.out);
    assert s.enqueued == Foreign(owner, s.out);
    forall i, p | 0 <= i < |s.enqueued| && p in s.flying ensures s.enqueued[i].stamp < s.flying[p].stamp {
      assert s.enqueued[i] in s.out;
      assert s.flying[p].stamp !in Stamps(s.out);
      StampsOfFifo(s, s.flying[p].stamp);
    }
  }

  lemma StampsOfFifo<T>(s: State<T>, n: nat)
    requires StampOrder(s)
    ensures n in Stamps(s.out) <==> n < |s.out|
  {
    if n < |s.out| {
      assert s.out[n].stamp == n;
    }
  }

  /** Once every enqueued item has come out: the queue was one FIFO in stamp order if and only if the foreign pushes
      were completed in the order in which they took their stamps. */
  lemma FifoIffInTurn<T>(owner: Thread, es: seq<Event<T>>)
    requires Possible(owner, es) && Run(owner, es).remote == []
    ensures StampOrder(Run(owner, es)) <==> InTurn(Run(owner, es))
  {
    if InTurn(Run(owner, es)) {
      InTurnGivesFifo(owner, es);
    }
    if StampOrder(Run(owner, es)) {
      FifoMeansInTurn(owner, es);
    }
  }

  ghost predicate OnlyThreads<T>(es: seq<Event<T>>, owner: Thread, p: Thread) {
    forall i | 0 <= i < |es| && es[i].Push? :: es[i].who in {owner, p}
  }

  /** With a single foreign producer the whole queue is one FIFO in stamp order. */
  lemma SingleProducerFifo<T>(owner: Thread, es: seq<Event<T>>, p: Thread)
    requires Possible(owner, es) && OnlyThreads(es, owner, p)
    ensures StampOrder(Run(owner, es))
  {
    SingleProducerInTurn(owner, es, p);
    InTurnGivesFifo(owner, es);
  }

  lemma {:induction false} SingleProducerInTurn<T>(owner: Thread, es: seq<Event<T>>, p: Thread)
    requires Possible(owner, es) && OnlyThreads(es, owner, p)
    ensures var s := Run(owner, es);
            InTurn(s) && s.flying.Keys <= {p} && forall i | 0 <= i < |s.enqueued| :: s.enqueued[i].stamp < s.reserved
  {
    if es != [] {
      var n := |es| - 1;
      assert OnlyThreads(es[..n], owner, p);
      SingleProducerInTurn(owner, es[..n], p);
      UniqueLaw(owner, es[..n]);
      SingleProducerStep(Run(owner, es[..n]), es[n], p);
    }
  }

  lemma SingleProducerStep<T>(s: State<T>, e: Event<T>, p: Thread)
    requires Enabled(s, e) && Unique(s) && InTurn(s) && s.flying.Keys <= {p} && (e.Push? ==> e.who in {s.owner, p})
    requires forall i | 0 <= i < |s.enqueued| :: s.enqueued[i].stamp < s.reserved
    ensures var t := Step(s, e);
            InTurn(t) && t.flying.Keys <= {p} && forall i | 0 <= i < |t.enqueued| :: t.enqueued[i].stamp < t.reserved
  {
    var t := Step(s, e);
    assert forall q | q in t.flying :: q == p;
  }

  /** With two foreign producers it is not: while the push of thread 1 is in flight, the later item of thread 2 comes
      out ahead of the owner's item, although its stamp is larger. */
  lemma TwoProducersOvertake()
    ensures var es := [Push(1, "a"), Push(0, "b"), Push(2, "c"), Enqueue(2), Pop];
            Possible(0, es) && !StampOrder(Run(0, es)) &&
            Run(0, es).out == [Item(2, 2, 0, "c")] && Run(0, es).local == [Item(0, 1, 0, "b")]
  {
    var es: seq<Event<string>> := [Push(1, "a"), Push(0, "b"), Push(2, "c"), Enqueue(2), Pop];
    var es1, es2, es3, es4 := es[..1], es[..2], es[..3], es[..4];
    assert [] + [es[0]] == es1 && es1 + [es[1]] == es2 && es2 + [es[2]] == es3 && es3 + [es[3]] == es4
           && es4 + [es[4]] == es;
    Extend(0, [], es[0]);
    Extend(0, es1, es[1]);
    Extend(0, es2, es[2]);
    Extend(0, es3, es[3]);
    Extend(0, es4, es[4]);
    assert Run(0, es).out[0].stamp == 2;
  }

  // ----- the object -----

  datatype Popped<T> = Value(value: T) | Nothing | WrongThread

  ghost predicate Agrees<T>(index: nat, consumedIndex: nat, local: seq<(T, nat)>, concurrent: seq<T>, s: State<T>) {
    && index == s.reserved % WORD && consumedIndex == (|s.out| + WORD - 1) % WORD
    && |local| == |s.local| && |concurrent| == |s.remote|
    && (forall k | 0 <= k < |local| :: local[k] == (s.local[k].value, s.local[k].stamp % WORD))
    && forall k | 0 <= k < |concurrent| :: concurrent[k] == s.remote[k].value
  }

  lemma AgreesAfterLocal<T>(index: nat, consumedIndex: nat, local: seq<(T, nat)>, concurrent: seq<T>, s: State<T>)
    requires Agrees(index, consumedIndex, local, concurrent, s) && LocalIsDue(s)
    ensures local[0].0 == s.local[0].value
    ensures Agrees(index, (consumedIndex + 1) % WORD, local[1..], concurrent, Step(s, Pop))
  {
    NextPopped(|s.out|);
  }

  lemma AgreesAfterRemote<T>(index: nat, consumedIndex: nat, local: seq<(T, nat)>, concurrent: seq<T>, s: State<T>)
    requires Agrees(index, consumedIndex, local, concurrent, s) && !LocalIsDue(s) && s.remote != []
    ensures concurrent[0] == s.remote[0].value
    ensures Agrees(index, (consumedIndex + 1) % WORD, local, concurrent[1..], Step(s, Pop))
  {
    NextPopped(|s.out|);
  }

  lemma AgreesOnFronts<T>(index: nat, consumedIndex: nat, local: seq<(T, nat)>, concurrent: seq<T>, s: State<T>)
    requires Agrees(index, consumedIndex, local, concurrent, s)
    ensures |local| == |s.local| && |concurrent| == |s.remote| && consumedIndex == (|s.out| + WORD - 1) % WORD
    ensures local != [] ==> local[0].1 == s.local[0].stamp % WORD
  {
  }

  class Queue<T(0)> {
    const threadId: Thread
    var index: nat
    var consumedIndex: nat
    var localQueue: seq<(T, nat)>
    var concurrentQueue: seq<T>
    ghost var trace: seq<Event<T>>   // every event so far

    /** The counters hold the unbounded ones modulo 2^64. */
    ghost predicate Valid()
      reads this
    {
      Possible(threadId, trace) && Shows(Run(threadId, trace))
    }

    ghost predicate Shows(s: State<T>)
      reads this`index, this`consumedIndex, this`localQueue, this`concurrentQueue
    {
      Agrees(index, consumedIndex, localQueue, concurrentQueue, s)
    }

    constructor (owner: Thread)
      ensures Valid() && threadId == owner && trace == []
    {
      threadId, index, consumedIndex := owner, 0, WORD - 1;
      localQueue, concurrentQueue, trace := [], [], [];
    }

    method FetchAdd() returns (was: nat)
      modifies this`index
      ensures was == old(index) && index == (old(index) + 1) % WORD
    {
      was := index;
      index := (index + 1) % WORD;
    }

    /** `push` up to the point where its effect depends on other threads: all of it for the owner, the stamp for
        others. */
    method Push(caller: Thread, source: T)
      requires Valid() && Enabled(Run(threadId, trace), Event.Push(caller, source))
      modifies this
      ensures Valid() && trace == old(trace) + [Event.Push(caller, source)]
    {
      hide Possible, Run, WORD, Outstanding;
      Extend(threadId, trace, Event.Push(caller, source));
      var stamp := FetchAdd();
      NextStamp(Run(threadId, trace).reserved);
      if caller == threadId {
        localQueue := localQueue + [(source, stamp)];
      }
      trace := trace + [Event.Push(caller, source)];
    }

    /** The second half of a foreign `push`. */
    method Enqueue(caller: Thread, source: T)
      requires Valid() && caller in Run(threadId, trace).flying && Run(threadId, trace).flying[caller].value == source
      modifies this
      ensures Valid() && trace == old(trace) + [Event.Enqueue(caller)]
    {
      Extend(threadId, trace, Event.Enqueue(caller));
      concurrentQueue := concurrentQueue + [source];
      trace := trace + [Event.Enqueue(caller)];
    }

    method TakeLocal(ghost s: State<T>) returns (value: T)
      requires Shows(s) && LocalIsDue(s)
      modifies this`localQueue, this`consumedIndex
      ensures Shows(Step(s, Event.Pop)) && value == s.local[0].value
    {
      AgreesAfterLocal(index, consumedIndex, localQueue, concurrentQueue, s);
      hide Agrees, Step;
      value := localQueue[0].0;
      localQueue := localQueue[1..];
      consumedIndex := (consumedIndex + 1) % WORD;
    }

    method TakeRemote(ghost s: State<T>) returns (value: T)
      requires Shows(s) && !LocalIsDue(s) && s.remote != []
      modifies this`concurrentQueue, this`consumedIndex
      ensures Shows(Step(s, Event.Pop)) && value == s.remote[0].value
    {
      AgreesAfterRemote(index, consumedIndex, localQueue, concurrentQueue, s);
      hide Agrees, Step;
      value := concurrentQueue[0];
      concurrentQueue := concurrentQueue[1..];
      consumedIndex := (consumedIndex + 1) % WORD;
    }

    /** `try_pop`, whatever the 64-bit counters have wrapped to, as long as no 2^64 items are outstanding at once. */
    method TryPop(caller: Thread) returns (r: Popped<T>)
      requires Valid() && Outstanding(Run(threadId, trace)) < WORD
      modifies this
      ensures Valid()
      ensures caller != threadId ==> r == WrongThread && trace == old(trace)
      ensures caller == threadId ==> trace == old(trace) + [Event.Pop]
      ensures caller == threadId ==>
                var s, t := Run(threadId, old(trace)), Run(threadId, trace);
                r == if PopFails(s) then Nothing else Value(t.out[|s.out|].value)
    {
      hide Possible, Run, Agrees, Outstanding, Step, LocalIsDue;
      if caller != threadId {
        return WrongThread;
      }
      ghost var s := Run(threadId, trace);
      PopOutcome(s);
      Extend(threadId, trace, Event.Pop);
      AgreesOnFronts(index, consumedIndex, localQueue, concurrentQueue, s);
      if localQueue != [] {
        FrontStamp(threadId, trace);
      }
      trace := trace + [Event.Pop];
      if localQueue != [] && (consumedIndex + 1) % WORD == localQueue[0].1 {
        var value := TakeLocal(s);
        return Value(value);
      }
      assert !LocalIsDue(s);
      if concurrentQueue != [] {
        var value := TakeRemote(s);
        return Value(value);
      }
      return Nothing;
    }
  }

  /** The front of the owner is due exactly when the wrapped counters say so. */
  lemma FrontStamp<T>(owner: Thread, es: seq<Event<T>>)
    requires Possible(owner, es) && Outstanding(Run(owner, es)) < WORD && Run(owner, es).local != []
    ensures var s := Run(owner, es);
            LocalIsDue(s) <==> s.local[0].stamp % WORD == ((|s.out| + WORD - 1) % WORD + 1) % WORD
  {
    CountingLaw(owner, es);
    SameStamp(Run(owner, es).local[0].stamp, |Run(owner, es).out|);
  }

  lemma PopOutcome<T>(s: State<T>)
    ensures s.local == [] ==> !LocalIsDue(s)
    ensures LocalIsDue(s) ==> s.local != [] && Step(s, Pop).out == s.out + [s.local[0]]
    ensures !LocalIsDue(s) && s.remote != [] ==> Step(s, Pop).out == s.out + [s.remote[0]]
    ensures !LocalIsDue(s) && s.remote == [] ==> Step(s, Pop) == s
  {
  }

  lemma NextStamp(reserved: nat)
    ensures (reserved % WORD + 1) % WORD == (reserved + 1) % WORD
  {
  }

  lemma NextPopped(popped: nat)
    ensures ((popped + WORD - 1) % WORD + 1) % WORD == (popped + 1 + WORD - 1) % WORD
  {
  }

  lemma SameStamp(stamp: nat, popped: nat)
    requires popped <= stamp < popped + WORD
    ensures stamp % WORD == ((popped + WORD - 1) % WORD + 1) % WORD <==> stamp == popped
  {
  }

  lemma Extend<T>(owner: Thread, es: seq<Event<T>>, e: Event<T>)
    requires Possible(owner, es) && Enabled(Run(owner, es), e)
    ensures Possible(owner, es + [e]) && Run(owner, es + [e]) == Step(Run(owner, es), e)
  {
    assert (es + [e])[..|es|] == es;
  }
}
