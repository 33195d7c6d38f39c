/** What the operations of a run mean to each other: laws that say nothing of how a step is computed. */
module BufferLaws {
  import opened Blocks
  import opened BufferRuns
  import opened IoBuffer
  import opened Options

  /** A model that an operation, or two, can start from. The laws hold for any such model, and so at any point of any
      run: a run goes on from where it has come to. */
  predicate Can(op: Op, m: Model) {
    |m.bufs| == |m.returned| && Fits(op, |m.bufs|)
  }

  lemma {:induction false} RunGoesOn(before: seq<Op>, after: seq<Op>, m: Model)
    requires |m.bufs| == |m.returned| && AllFit(before, |m.bufs|) && AllFit(after, |m.bufs|)
    ensures AllFit(before + after, |m.bufs|) && Run(before + after, m) == Run(after, Run(before, m))
  {
    hide Step, Fits;
    if after == [] {
      assert before + after == before;
    } else {
      var n := |after| - 1;
      RunGoesOn(before, after[..n], m);
      assert (before + after)[..|before| + n] == before + after[..n];
    }
  }

  ghost function AfterOne(a: Op, m: Model): (r: Model)
    requires Can(a, m)
    ensures |r.bufs| == |r.returned| == |m.bufs|
  {
    Run([a], m)
  }

  ghost function AfterBoth(a: Op, b: Op, m: Model): (r: Model)
    requires Can(a, m) && Can(b, m)
    ensures |r.bufs| == |r.returned| == |m.bufs|
  {
    Run([a, b], m)
  }

  lemma One(op: Op, m: Model)
    requires Can(op, m)
    ensures AfterOne(op, m) == Step(op, m)
  {
    hide Step;
    assert [op][..0] == [];
    assert Run([], m) == m;
  }

  lemma Two(a: Op, b: Op, m: Model)
    requires Can(a, m) && Can(b, m)
    ensures AfterBoth(a, b, m) == Step(b, Step(a, m))
  {
    RunGoesOn([a], [b], m);
    One(a, m);
    One(b, Step(a, m));
    hide Step, Run;
    assert [a] + [b] == [a, b];
  }

  /** A model with buffer i, and what it has returned, replaced. */
  function With(r: Model, i: nat, c: seq<byte>, out: seq<byte>): Model
    requires i < |r.bufs| == |r.returned|
  {
    Model(r.bufs[i := c], r.returned[i := out])
  }

  lemma WithTwice(r: Model, i: nat, c: seq<byte>, out: seq<byte>, c': seq<byte>, out': seq<byte>)
    requires i < |r.bufs| == |r.returned|
    ensures With(With(r, i, c, out), i, c', out') == With(r, i, c', out')
    ensures With(r, i, r.bufs[i], r.returned[i]) == r
    ensures With(r, i, c, out).bufs == With(r, i, c, out').bufs
    ensures With(r, i, c, out).returned == With(r, i, c', out).returned
    ensures With(r, i, r.bufs[i], out).bufs == r.bufs && With(r, i, c, r.returned[i]).returned == r.returned
  {
  }

  /** One operation on one buffer, and two on the same. */
  lemma OneStep(op: Op, m: Model)
    requires Can(op, m) && Single(op)
    ensures AfterOne(op, m) == With(m, op.i, Left(op, m.bufs[op.i]), m.returned[op.i] + Taken(op, m.bufs[op.i]))
  {
    One(op, m);
    hide Left, Taken, AfterOne;
  }

  lemma TwoSteps(a: Op, b: Op, m: Model)
    requires Can(a, m) && Can(b, m) && Single(a) && Single(b) && a.i == b.i
    ensures var c, out := m.bufs[a.i], m.returned[a.i];
            AfterBoth(a, b, m) == With(m, a.i, Left(b, Left(a, c)), out + Taken(a, c) + Taken(b, Left(a, c)))
  {
    Two(a, b, m);
    One(a, m);
    OneStep(a, m);
    var r := Step(a, m);
    One(b, r);
    OneStep(b, r);
    hide Left, Taken, AfterOne, AfterBoth, Step, With;
    var c := m.bufs[a.i];
    WithTwice(m, a.i, Left(a, c), m.returned[a.i] + Taken(a, c), Left(b, Left(a, c)),
              m.returned[a.i] + Taken(a, c) + Taken(b, Left(a, c)));
    WithAt(m, a.i, Left(a, c), m.returned[a.i] + Taken(a, c));
  }

  lemma WithAt(r: Model, i: nat, c: seq<byte>, out: seq<byte>)
    requires i < |r.bufs| == |r.returned|
    ensures var t := With(r, i, c, out);
            |t.bufs| == |t.returned| == |r.bufs| && t.bufs[i] == c && t.returned[i] == out
  {
  }

  /** What is pushed at an end and popped there comes back, and the buffers are as before. */
  lemma PushedFrontIsPopped(m: Model, i: nat, s: seq<byte>)
    requires i < |m.bufs| == |m.returned| && 1 <= |s| <= MAX_BYTES
    ensures var t := AfterBoth(PushFront(i, Some(s)), PopFront(i, |s|), m);
            t.bufs == m.bufs && t.returned == m.returned[i := m.returned[i] + s]
  {
    TwoSteps(PushFront(i, Some(s)), PopFront(i, |s|), m);
    var c, out := m.bufs[i], m.returned[i];
    assert (s + c)[..|s|] == s && (s + c)[|s|..] == c && out + [] == out;
    hide AfterBoth;
  }

  lemma PushedBackIsPopped(m: Model, i: nat, s: seq<byte>)
    requires i < |m.bufs| == |m.returned|
    ensures var t := AfterBoth(PushBack(i, Some(s)), PopBack(i, |s|), m);
            t.bufs == m.bufs && t.returned == m.returned[i := m.returned[i] + s]
  {
    TwoSteps(PushBack(i, Some(s)), PopBack(i, |s|), m);
    var c, out := m.bufs[i], m.returned[i];
    assert (c + s)[|c|..] == s && (c + s)[..|c|] == c && out + [] == out;
    hide AfterBoth;
  }

  /** What is pushed at an end and dropped there leaves no trace. */
  lemma PushedFrontIsDropped(m: Model, i: nat, s: seq<byte>)
    requires i < |m.bufs| == |m.returned|
    ensures AfterBoth(PushFront(i, Some(s)), DropFront(i, |s|), m) == m
  {
    TwoSteps(PushFront(i, Some(s)), DropFront(i, |s|), m);
    var c, out := m.bufs[i], m.returned[i];
    assert (s + c)[|s|..] == c && out + [] + [] == out;
    WithTwice(m, i, c, out, c, out);
    hide AfterBoth, With;
  }

  lemma PushedBackIsDropped(m: Model, i: nat, s: seq<byte>)
    requires i < |m.bufs| == |m.returned|
    ensures AfterBoth(PushBack(i, Some(s)), DropBack(i, |s|), m) == m
  {
    TwoSteps(PushBack(i, Some(s)), DropBack(i, |s|), m);
    var c, out := m.bufs[i], m.returned[i];
    assert (c + s)[..|c|] == c && out + [] + [] == out;
    WithTwice(m, i, c, out, c, out);
    hide AfterBoth, With;
  }

  /** A null source pushes nothing. */
  lemma NothingIsPushed(m: Model, i: nat)
    requires i < |m.bufs| == |m.returned|
    ensures AfterOne(PushFront(i, None), m) == m == AfterOne(PushBack(i, None), m)
  {
    OneStep(PushFront(i, None), m);
    OneStep(PushBack(i, None), m);
    var c, out := m.bufs[i], m.returned[i];
    assert [] + c == c == c + [] && out + [] == out;
    WithTwice(m, i, c, out, c, out);
    hide AfterOne, With;
  }

  /** A pop splits the contents at its end: it returns as many bytes as asked for, or all there are. */
  lemma PopsSplit(m: Model, i: nat, n: nat) returns (back: seq<byte>, front: seq<byte>)
    requires i < |m.bufs| == |m.returned|
    ensures |back| == Min(n, |m.bufs[i]|) && AfterOne(PopBack(i, n), m).returned[i] == m.returned[i] + back
    ensures AfterOne(PopBack(i, n), m).bufs[i] + back == m.bufs[i]
    ensures 1 <= n <= MAX_BYTES ==>
              && |front| == Min(n, |m.bufs[i]|) && AfterOne(PopFront(i, n), m).returned[i] == m.returned[i] + front
              && front + AfterOne(PopFront(i, n), m).bufs[i] == m.bufs[i]
  {
    var c := m.bufs[i];
    var k := Min(n, |c|);
    back, front := c[|c| - k..], c[..k];
    OneStep(PopBack(i, n), m);
    if 1 <= n <= MAX_BYTES {
      OneStep(PopFront(i, n), m);
    }
    hide AfterOne;
    assert c == c[..|c| - k] + back && c == front + c[k..];
  }

  /** Dropping is popping with the result thrown away. */
  lemma DropIsPop(m: Model, i: nat, n: nat)
    requires i < |m.bufs| == |m.returned|
    ensures AfterOne(DropBack(i, n), m) == Model(AfterOne(PopBack(i, n), m).bufs, m.returned)
    ensures 1 <= n <= MAX_BYTES ==>
              AfterOne(DropFront(i, n), m) == Model(AfterOne(PopFront(i, n), m).bufs, m.returned)
  {
    OneStep(DropBack(i, n), m);
    OneStep(PopBack(i, n), m);
    OneStep(DropFront(i, n), m);
    if 1 <= n <= MAX_BYTES {
      OneStep(PopFront(i, n), m);
    }
    var out := m.returned[i];
    assert out + [] == out;
    hide AfterOne;
  }

  /** A transfer does what popping by copying and pushing what was returned does, also from a buffer to itself. */
  lemma TransferBackIsPopAndPush(m: Model, i: nat, j: nat, n: nat) returns (s: seq<byte>)
    requires i < |m.bufs| == |m.returned| && j < |m.bufs|
    ensures AfterOne(PopBack(i, n), m).returned[i] == m.returned[i] + s
    ensures AfterOne(BackToFront(i, j, n), m).bufs == AfterBoth(PopBack(i, n), PushFront(j, Some(s)), m).bufs
    ensures AfterOne(BackToFront(i, j, n), m).returned == m.returned
  {
    var c := m.bufs[i];
    s := c[|c| - Min(n, |c|)..];
    One(PopBack(i, n), m);
    Two(PopBack(i, n), PushFront(j, Some(s)), m);
    One(BackToFront(i, j, n), m);
    hide AfterOne, AfterBoth;
    assert m.returned[i] + [] == m.returned[i];
    if i == j && n >= |c| {
      assert c[0..] + c[..0] == c;
    }
  }

  lemma TransferFrontIsPopAndPush(m: Model, i: nat, j: nat, n: nat) returns (s: seq<byte>)
    requires i < |m.bufs| == |m.returned| && j < |m.bufs| && 1 <= n <= MAX_BYTES
    ensures AfterOne(PopFront(i, n), m).returned[i] == m.returned[i] + s
    ensures AfterOne(FrontToBack(i, j, n), m).bufs == AfterBoth(PopFront(i, n), PushBack(j, Some(s)), m).bufs
    ensures AfterOne(FrontToBack(i, j, n), m).returned == m.returned
  {
    var c := m.bufs[i];
    s := c[..Min(n, |c|)];
    One(PopFront(i, n), m);
    Two(PopFront(i, n), PushBack(j, Some(s)), m);
    One(FrontToBack(i, j, n), m);
    hide AfterOne, AfterBoth;
    assert m.returned[i] + [] == m.returned[i];
    if i == j && n >= |c| {
      assert c[|c|..] + c[..|c|] == c;
    }
  }

  /** A transfer from the front of no byte changes nothing, and one of more than there is moves all there is. */
  lemma TransferIsClamped(m: Model, i: nat, j: nat, n: nat)
    requires i < |m.bufs| == |m.returned| && j < |m.bufs|
    ensures n == 0 ==> AfterOne(FrontToBack(i, j, n), m) == m
    ensures n > |m.bufs[i]| ==> AfterOne(FrontToBack(i, j, n), m) == AfterOne(FrontToBack(i, j, |m.bufs[i]|), m)
  {
    One(FrontToBack(i, j, n), m);
    One(FrontToBack(i, j, |m.bufs[i]|), m);
    hide AfterOne;
    assert m.returned[i] + [] == m.returned[i] && m.bufs[j] + [] == m.bufs[j];
    NoRotation(m.bufs[i]);
  }

  /** Reading returns what dropping what is before and popping would return. */
  lemma ReadIsDropAndPop(m: Model, i: nat, at: nat, n: nat)
    requires i < |m.bufs| == |m.returned| && at <= NPOS && 1 <= n <= MAX_BYTES
    ensures AfterOne(GetN(i, at, n), m).returned == AfterBoth(DropFront(i, at), PopFront(i, n), m).returned
  {
    var c, out := m.bufs[i], m.returned[i];
    OneReturned(GetN(i, at, n), m);
    TwoReturned(DropFront(i, at), PopFront(i, n), m);
    ReadsAlike(i, at, n, c);
    NothingTaken(i, at, c, out);
    hide AfterOne, AfterBoth, Left, Taken;
  }

  lemma NothingTaken(i: nat, at: nat, c: seq<byte>, out: seq<byte>)
    ensures out + Taken(DropFront(i, at), c) == out
  {
  }

  lemma OneReturned(op: Op, m: Model)
    requires Can(op, m) && Single(op)
    ensures AfterOne(op, m).returned == m.returned[op.i := m.returned[op.i] + Taken(op, m.bufs[op.i])]
  {
    OneStep(op, m);
    hide AfterOne, Left, Taken;
  }

  lemma TwoReturned(a: Op, b: Op, m: Model)
    requires Can(a, m) && Can(b, m) && Single(a) && Single(b) && a.i == b.i
    ensures var c := m.bufs[a.i];
            AfterBoth(a, b, m).returned == m.returned[a.i := m.returned[a.i] + Taken(a, c) + Taken(b, Left(a, c))]
  {
    TwoSteps(a, b, m);
    hide AfterBoth, Left, Taken;
  }

  /** Reading changes no buffer, and reading one byte is reading a slice of one. */
  lemma ReadsChangeNothing(m: Model, i: nat, at: nat, n: nat)
    requires i < |m.bufs| == |m.returned| && at <= NPOS && 1 <= n <= MAX_BYTES
    ensures AfterOne(GetN(i, at, n), m).bufs == m.bufs
    ensures AfterOne(Get(i, at), m) == AfterOne(GetN(i, at, 1), m)
  {
    var c, out := m.bufs[i], m.returned[i];
    OneStep(GetN(i, at, n), m);
    OneStep(GetN(i, at, 1), m);
    OneStep(Get(i, at), m);
    ReadsAlike(i, at, n, c);
    hide AfterOne, Left, Taken, With;
    WithTwice(m, i, c, out + Taken(GetN(i, at, n), c), c, out + Taken(GetN(i, at, n), c));
  }

  lemma ReadsAlike(i: nat, at: nat, n: nat, c: seq<byte>)
    ensures Left(GetN(i, at, n), c) == Left(GetN(i, at, 1), c) == Left(Get(i, at), c) == c
    ensures Taken(DropFront(i, at), c) == []
    ensures Taken(GetN(i, at, n), c) == Taken(PopFront(i, n), Left(DropFront(i, at), c))
    ensures Taken(Get(i, at), c) == Taken(GetN(i, at, 1), c)
  {
    if at < |c| {
      assert c[at..][..Min(n, |c| - at)] == c[at..at + Min(n, |c| - at)];
      assert c[at..at + 1] == [c[at]];
    }
  }

  /** What is written in range is read back at its position, and only there. */
  lemma WrittenIsRead(m: Model, i: nat, at: nat, v: byte, k: nat)
    requires i < |m.bufs| == |m.returned| && at <= NPOS && k <= NPOS
    ensures var now := AfterBoth(Set(i, at, v), Get(i, k), m);
            && |now.bufs[i]| == |m.bufs[i]|
            && now.returned == if k == at && k < |m.bufs[i]| then m.returned[i := m.returned[i] + [v]]
                               else AfterOne(Get(i, k), m).returned
  {
    OneStep(Get(i, k), m);
    TwoSteps(Set(i, at, v), Get(i, k), m);
    var out := m.returned[i];
    assert out + [] == out;
    hide AfterOne, AfterBoth;
  }

  /** A buffer that an operation does not name is left alone. */
  lemma UnnamedIsLeftAlone(m: Model, op: Op, k: nat)
    requires Can(op, m) && k < |m.bufs| && !Names(op, k)
    ensures AfterOne(op, m).bufs[k] == m.bufs[k] && AfterOne(op, m).returned[k] == m.returned[k]
  {
    One(op, m);
    hide AfterOne, Left, Taken, Rotated, Source, Destination;
  }

  // ----- a buffer as a tape -----

  /** All bytes that a buffer was given, in the order in which they leave it at the front, and how many have left. */
  datatype Tape = Tape(all: seq<byte>, head: nat)

  /** Pushing in front inserts at the head, pushing at the back appends, popping in front moves the head. */
  function TapeOf(script: seq<Op>, m: Model, i: nat): (t: Tape)
    requires |m.bufs| == |m.returned| && i < |m.bufs|
    ensures t.head <= |t.all|
  {
    if script == [] then Tape(m.returned[i] + m.bufs[i], |m.returned[i]|)
    else
      var n := |script| - 1;
      var t := TapeOf(script[..n], m, i);
      if script[n].i != i then t
      else
        match script[n]
        case PushBack(_, src) => Tape(t.all + Given(src), t.head)
        case PushFront(_, src) => Tape(t.all[..t.head] + Given(src) + t.all[t.head..], t.head)
        case PopFront(_, k) => Tape(t.all, Min(t.head + k, |t.all|))
        case _ => t
  }

  /** Buffer i is pushed to at both ends, popped by copying from the front, and not used otherwise. */
  predicate Tapes(script: seq<Op>, i: nat) {
    forall k :: 0 <= k < |script| && Names(script[k], i) ==>
                  script[k].PushBack? || script[k].PushFront? || script[k].PopFront?
  }

  /** In any run, whatever happens to other buffers, what has left such a buffer is its tape up to the head, and what it
      holds is the rest. */
  lemma {:induction false} TapeLaw(script: seq<Op>, m: Model, i: nat)
    requires i < |m.bufs| == |m.returned| && AllFit(script, |m.bufs|) && Tapes(script, i)
    ensures var r, t := Run(script, m), TapeOf(script, m, i);
            r.returned[i] == t.all[..t.head] && r.bufs[i] == t.all[t.head..]
  {
    if script != [] {
      var n := |script| - 1;
      hide Left, Taken, Step, Fits;
      TapeLaw(script[..n], m, i);
      TapeStep(script[n], Run(script[..n], m), TapeOf(script[..n], m, i), i);
    }
  }

  lemma TapeStep(op: Op, r: Model, t: Tape, i: nat)
    requires |r.bufs| == |r.returned| && Fits(op, |r.bufs|) && i < |r.bufs| && t.head <= |t.all|
    requires Names(op, i) ==> op.PushBack? || op.PushFront? || op.PopFront?
    requires r.returned[i] == t.all[..t.head] && r.bufs[i] == t.all[t.head..]
    ensures var s := Step(op, r);
            if op.i != i then s.returned[i] == r.returned[i] && s.bufs[i] == r.bufs[i]
            else if op.PushBack? then
              s.returned[i] == t.all[..t.head] && s.bufs[i] == (t.all + Given(op.src))[t.head..]
            else if op.PushFront? then
              s.returned[i] == t.all[..t.head] && s.bufs[i] == Given(op.src) + t.all[t.head..]
            else
              var h := Min(t.head + op.n, |t.all|); s.returned[i] == t.all[..h] && s.bufs[i] == t.all[h..]
  {
    assert r.returned[i] + [] == r.returned[i];
    if op.i == i && op.PopFront? {
      var h := Min(t.head + op.n, |t.all|);
      assert t.all[t.head..][..h - t.head] == t.all[t.head..h];
      assert t.all[..h] == t.all[..t.head] + t.all[t.head..h];
    }
  }
}
