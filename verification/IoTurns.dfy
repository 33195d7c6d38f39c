/** Runs of an `io` as its callers see them: the turns, and what they do to its flags and to its writing side. */
module IoTurns {
  import opened Blocks
  import opened IoBuffer
  import opened IoLaws
  import opened KernelLaws
  import opened Options

  /** What has happened on a descriptor: which kinds of events, the scripts of the kernel, and the outcomes of the read
      operations' process functions in each of the three places that may call them. */
  datatype Event = Event(input: bool, hangup: bool, output: bool, fromKernel: seq<ReadAnswer>,
                         toKernel: seq<WriteAnswer>, onInput: seq<Processed>,
                         onHangup: seq<Processed>, onClean: seq<Processed>)

  /** One turn of an io's run: it is given to an event processor, an operation is registered, something happens on the
      descriptor, the loop writes at once, or what waits to be flushed is given up. */
  datatype Turn =
    | Joined
    | Submit(op: WriteOp, ioId: Option<int>)
    | Request(read: ReadOp, ioId: Option<int>)
    | Happens(ev: Event)
    | Instant(kernel: seq<WriteAnswer>)
    | Clean

  /** The bytes that the kernel could deliver in a run. */
  function Arriving(script: seq<Turn>): nat {
    if script == [] then 0
    else (if script[0].Happens? then |Delivered(script[0].ev.fromKernel, 0)| else 0) + Arriving(script[1..])
  }

  /** The bytes of the write operations offered in a run. */
  function Offered(script: seq<Turn>): nat {
    if script == [] then 0
    else (if script[0].Submit? then |script[0].op.data| else 0) + Offered(script[1..])
  }

  predicate NoneEmpty(script: seq<Turn>) {
    forall k | 0 <= k < |script| && script[k].Submit? :: script[k].op.data != []
  }

  /** The operations that join by a turn, when the answer to it is `ok`, and by a run. */
  function Submitted(turn: Turn, ok: bool): seq<WriteOp> {
    if turn.Submit? && ok then [turn.op] else []
  }

  function Requested(turn: Turn, ok: bool): seq<ReadOp> {
    if turn.Request? && ok then [turn.read] else []
  }

  function AllSubmitted(script: seq<Turn>, oks: seq<bool>): seq<WriteOp>
    requires |oks| == |script|
  {
    if script == [] then []
    else
      var n := |script| - 1;
      AllSubmitted(script[..n], oks[..n]) + Submitted(script[n], oks[n])
  }

  function AllRequested(script: seq<Turn>, oks: seq<bool>): seq<ReadOp>
    requires |oks| == |script|
  {
    if script == [] then []
    else
      var n := |script| - 1;
      AllRequested(script[..n], oks[..n]) + Requested(script[n], oks[n])
  }

  lemma NothingJoins()
    ensures AllSubmitted([], []) == [] && AllRequested([], []) == []
  {
  }

  lemma JoinsNext(script: seq<Turn>, k: nat, oks: seq<bool>, ok: bool, ws: seq<WriteOp>, rs: seq<ReadOp>)
    requires k < |script| && |oks| == k
    ensures ws + AllSubmitted(script[..k + 1], oks + [ok])
         == ws + AllSubmitted(script[..k], oks) + Submitted(script[k], ok)
    ensures rs + AllRequested(script[..k + 1], oks + [ok])
         == rs + AllRequested(script[..k], oks) + Requested(script[k], ok)
  {
    hide Submitted, Requested;
    assert script[..k + 1][..k] == script[..k] && (oks + [ok])[..k] == oks;
  }

  /** The last turn was one that writes, or one that reads. */
  predicate EndsWriting(script: seq<Turn>) {
    script != [] && var turn := script[|script| - 1]; turn.Instant? || (turn.Happens? && turn.ev.output)
  }

  predicate EndsReading(script: seq<Turn>) {
    script != [] && var turn := script[|script| - 1]; turn.Happens? && (turn.ev.input || turn.ev.hangup)
  }

  lemma OneTurn(turn: Turn)
    ensures Arriving([turn]) == if turn.Happens? then |Delivered(turn.ev.fromKernel, 0)| else 0
    ensures Offered([turn]) == if turn.Submit? then |turn.op.data| else 0
    ensures NoneEmpty([turn]) <==> turn.Submit? ==> turn.op.data != []
  {
    hide Delivered;
    assert [turn][1..] == [];
    assert [turn][0] == turn;
  }

  // ----- the flags and the writing side -----

  datatype Face = Face(valid: bool, readable: bool, writable: bool, managed: bool, busy: bool, rdhup: bool)

  /** The flags after direct_write has stopped for a reason, and after direct_read has. */
  function AfterStop(f: Face, stop: Option<Errno>): Face {
    if stop == Some(EBADF) then f.(valid := false, readable := false, writable := false, managed := false)
    else if stop == Some(EINVAL) || stop == Some(EPIPE) then f.(writable := false)
    else if stop == Some(EAGAIN) then f.(busy := true)
    else f
  }

  function AfterEnd(f: Face, end: ReadEnd): Face {
    match end
    case EndOfFile => f.(readable := false, rdhup := false)
    case Stopped(errno) =>
      if errno == EBADF then f.(valid := false, readable := false, writable := false, managed := false) else f
  }

  /** `begin` and `len` are the offset and the number of the bytes buffered, `queue` is what is not flushed yet. */
  datatype WriteSide = WriteSide(fd: int, face: Face, begin: nat, len: nat, queue: seq<WriteOp>, accepted: nat)

  function FlushedSide(s: WriteSide): WriteSide {
    var len := s.len + Sizes(s.queue);
    s.(len := len, queue := [], begin := if len == 0 then NPOS else if s.begin == NPOS then 0 else s.begin)
  }

  function WrittenSide(s: WriteSide, kernel: seq<WriteAnswer>): (r: WriteSide) {
    if !s.face.valid || !s.face.writable then s
    else
      TakenByMeans(kernel, s.begin, s.len);
      var k := TakenBy(kernel, s.begin, s.len);
      s.(face := AfterStop(s.face, StopBy(kernel, s.begin, s.len)), len := s.len - k, accepted := s.accepted + k,
         begin := if s.len == k then NPOS else (s.begin + k) % DEFAULT_SIZE)
  }

  /** direct_write on a buffer that ends at `end`: it stops for a reason, after k bytes. */
  lemma WrittenSideIs(s: WriteSide, r: WriteSide, kernel: seq<WriteAnswer>, end: nat, stop: Option<Errno>, k: nat)
    requires if s.begin == NPOS then s.len == 0 else s.begin < end && s.len == end - s.begin
    requires !s.face.valid || !s.face.writable ==> stop == None && k == 0 && r.begin == s.begin
    requires s.face.valid && s.face.writable ==>
               && stop == StopOf(kernel, s.begin, end) && k == Sum(Writes(kernel, s.begin, end))
               && r.begin == if r.len == 0 then NPOS else (s.begin + k) % DEFAULT_SIZE
    requires r.face == AfterStop(s.face, stop)
    requires r.fd == s.fd && r.queue == s.queue && r.accepted == s.accepted + k && r.len + k == s.len
    ensures r == WrittenSide(s, kernel)
  {
    TakenIs(kernel, s.begin, end, s.len);
    TakenByMeans(kernel, s.begin, s.len);
    hide TakenBy, StopBy, StopOf, Writes, Sum;
  }

  lemma StopsWith(f: Face, stop: Option<Errno>)
    ensures AfterStop(f, stop)
         == Face(f.valid && stop != Some(EBADF), f.readable && stop != Some(EBADF),
                 f.writable && stop !in {Some(EBADF), Some(EINVAL), Some(EPIPE)}, f.managed && stop != Some(EBADF),
                 f.busy || stop == Some(EAGAIN), f.rdhup)
  {
  }

  function ReadSide(s: WriteSide, kernel: seq<ReadAnswer>): WriteSide {
    if !s.face.valid || !s.face.readable then s else s.(face := AfterEnd(s.face, Ending(kernel, 0)))
  }

  /** direct_read stops for a reason, if it is carried out. */
  lemma ReadSideIs(s: WriteSide, r: WriteSide, kernel: seq<ReadAnswer>, end: Option<ReadEnd>)
    requires end == if s.face.valid && s.face.readable then Some(Ending(kernel, 0)) else None
    requires var f, broken := s.face, end == Some(Stopped(EBADF));
             r == s.(face := Face(f.valid && !broken, f.readable && !broken && end != Some(EndOfFile),
                                  f.writable && !broken, f.managed && !broken, f.busy,
                                  f.rdhup && end != Some(EndOfFile)))
    ensures r == ReadSide(s, kernel)
  {
    hide Ending;
  }

  function InputSide(s: WriteSide, ev: Event): WriteSide {
    var r := if ev.input then ReadSide(s, ev.fromKernel) else s;
    if ev.hangup then r.(face := r.face.(readable := false)) else r
  }

  function OutputSide(s: WriteSide, ev: Event): WriteSide {
    if ev.output || !s.face.busy then WrittenSide(FlushedSide(s), ev.toKernel) else FlushedSide(s)
  }

  /** The answer to a registration. */
  function Answer(turn: Turn, s: WriteSide): bool {
    match turn
    case Submit(_, ioId) => s.face.valid && s.face.managed && (ioId == None || ioId == Some(s.fd)) && s.face.writable
    case Request(_, ioId) => s.face.valid && s.face.managed && (ioId == None || ioId == Some(s.fd)) && s.face.readable
    case _ => false
  }

  /** The bytes that a turn receives. */
  function Received(turn: Turn, s: WriteSide): seq<byte> {
    if turn.Happens? && turn.ev.input && s.face.valid && s.face.readable then Delivered(turn.ev.fromKernel, 0) else []
  }

  function SideAfter(turn: Turn, s: WriteSide): WriteSide {
    match turn
    case Joined => s.(face := s.face.(managed := true))
    case Submit(op, _) => if Answer(turn, s) then s.(queue := s.queue + [op]) else s
    case Request(_, _) => s
    case Happens(ev) => OutputSide(InputSide(s, ev), ev)
    case Instant(kernel) => WrittenSide(FlushedSide(s), kernel)
    case Clean => s.(queue := [])
  }

  function SideAfterAll(script: seq<Turn>, s: WriteSide): WriteSide {
    if script == [] then s else SideAfter(script[|script| - 1], SideAfterAll(script[..|script| - 1], s))
  }

  /** The bytes that a run receives. */
  function AllReceived(script: seq<Turn>, s: WriteSide): seq<byte> {
    if script == [] then []
    else
      var n := |script| - 1;
      AllReceived(script[..n], s) + Received(script[n], SideAfterAll(script[..n], s))
  }

  /** Each registration is answered as the flags stand when its turn comes. */
  ghost predicate Answered(script: seq<Turn>, oks: seq<bool>, s: WriteSide) {
    |oks| == |script| && forall k | 0 <= k < |script| :: oks[k] == Answer(script[k], SideAfterAll(script[..k], s))
  }

  lemma SidesNext(script: seq<Turn>, k: nat, s: WriteSide)
    requires k < |script|
    ensures SideAfterAll(script[..k + 1], s) == SideAfter(script[k], SideAfterAll(script[..k], s))
    ensures AllReceived(script[..k + 1], s)
         == AllReceived(script[..k], s) + Received(script[k], SideAfterAll(script[..k], s))
  {
    assert script[..k + 1][..k] == script[..k];
  }

  lemma AnsweredNext(script: seq<Turn>, k: nat, oks: seq<bool>, s: WriteSide)
    requires k < |script| && Answered(script[..k], oks, s)
    ensures Answered(script[..k + 1], oks + [Answer(script[k], SideAfterAll(script[..k], s))], s)
  {
    forall q | 0 <= q < k + 1
      ensures (oks + [Answer(script[k], SideAfterAll(script[..k], s))])[q]
           == Answer(script[..k + 1][q], SideAfterAll(script[..k + 1][..q], s))
    {
      assert script[..k + 1][..q] == script[..q];
      if q < k {
        assert script[..k][..q] == script[..q] && script[..k][q] == script[q];
      }
    }
  }

  // ----- what turns and runs do to the whole -----

  /** What an io shows at one moment: the stream, the calls of read operations, those asked for, how many bytes the read
      buffer holds, whether what is pending has been tried on them, the books, and the writing side. */
  datatype Snap = Snap(stream: seq<byte>, served: seq<Served>, asked: seq<ReadOp>, held: nat, tried: bool, books: Books,
                       side: WriteSide)

  /** The bytes that wait to be written or flushed. */
  function Load(a: Snap): nat {
    a.books.buffered + Sizes(a.books.queued)
  }

  /** A turn: the bytes received join the stream, operations join if the answer is yes, nothing done is undone, and the
      bytes held and waiting grow by no more than the turn brings. */
  ghost predicate StepFits(turn: Turn, received: seq<byte>, ok: bool, a: Snap, b: Snap) {
    && b.stream == a.stream + received && a.served <= b.served
    && b.asked == a.asked + Requested(turn, ok) && b.books.registered == a.books.registered + Submitted(turn, ok)
    && b.held <= a.held + Arriving([turn]) && Load(b) <= Load(a) + Offered([turn])
    && a.books.flushed <= b.books.flushed && a.books.done <= b.books.done && a.books.lost <= b.books.lost
    && b.side == SideAfter(turn, a.side) && ok == Answer(turn, a.side) && received == Received(turn, a.side)
    && (EndsReading([turn]) ==> b.tried)
    && (EndsWriting([turn]) || (b.books.lost == 0 && Prompt(a.books) && NoneEmpty([turn])) ==> Prompt(b.books))
    && (Load(a) < UINT_RANGE ==> b.books.lost == a.books.lost)
  }

  /** A run: all received joins the stream, the registrations are answered as the flags stand, those answered yes join,
      and the flags and the writing side are what the turns make of them. */
  ghost predicate RunFits(script: seq<Turn>, received: seq<byte>, oks: seq<bool>, a: Snap, b: Snap) {
    && |oks| == |script| && b.stream == a.stream + received && a.served <= b.served
    && b.asked == a.asked + AllRequested(script, oks)
    && b.books.registered == a.books.registered + AllSubmitted(script, oks)
    && b.held <= a.held + Arriving(script) && Load(b) <= Load(a) + Offered(script)
    && a.books.flushed <= b.books.flushed && a.books.done <= b.books.done && a.books.lost <= b.books.lost
    && b.side == SideAfterAll(script, a.side) && Answered(script, oks, a.side)
    && received == AllReceived(script, a.side)
    && (EndsReading(script) ==> b.tried)
    && (EndsWriting(script) || (b.books.lost == 0 && Prompt(a.books) && NoneEmpty(script)) ==> Prompt(b.books))
    && (Load(a) + Offered(script) < UINT_RANGE ==> b.books.lost == a.books.lost)
  }

  lemma RunStarts(a: Snap)
    ensures RunFits([], [], [], a, a)
  {
    assert a.stream + [] == a.stream && a.asked + [] == a.asked && a.books.registered + [] == a.books.registered;
  }

  lemma {:induction false} ArrivingLast(script: seq<Turn>)
    requires script != []
    ensures var n := |script| - 1;
            && Arriving(script) == Arriving(script[..n]) + Arriving([script[n]])
            && Offered(script) == Offered(script[..n]) + Offered([script[n]])
    decreases |script|
  {
    hide Delivered;
    var n := |script| - 1;
    OneTurn(script[n]);
    OneTurn(script[0]);
    if n > 0 {
      ArrivingLast(script[1..]);
      assert script[1..][..n - 1] == script[..n][1..];
      assert script[1..][n - 1] == script[n];
    } else {
      assert script == [script[0]];
    }
  }

  /** A run can go on as long as there is room for all that the whole script brings. */
  lemma {:induction false} ArrivingMonotone(script: seq<Turn>, k: nat)
    requires k < |script|
    ensures Arriving(script[..k]) + Arriving([script[k]]) <= Arriving(script)
    ensures Offered(script[..k]) + Offered([script[k]]) <= Offered(script)
    decreases |script|
  {
    hide Arriving, Offered;
    var n := |script| - 1;
    ArrivingLast(script);
    if k < n {
      assert script[..n][..k] == script[..k];
      ArrivingMonotone(script[..n], k);
    }
  }

  lemma RunHasRoom(script: seq<Turn>, k: nat, received: seq<byte>, oks: seq<bool>, a: Snap, b: Snap)
    requires k < |script| && RunFits(script[..k], received, oks, a, b)
    ensures b.held + Arriving([script[k]]) <= a.held + Arriving(script)
    ensures Load(b) + Offered([script[k]]) <= Load(a) + Offered(script)
  {
    ArrivingMonotone(script, k);
  }

  /** A run and one more turn. */
  lemma RunGrows(script: seq<Turn>, k: nat, received: seq<byte>, oks: seq<bool>, a: Snap, b: Snap,
                 more: seq<byte>, ok: bool, c: Snap)
    requires k < |script| && RunFits(script[..k], received, oks, a, b) && StepFits(script[k], more, ok, b, c)
    ensures RunFits(script[..k + 1], received + more, oks + [ok], a, c)
  {
    JoinsNext(script, k, oks, ok, a.books.registered, a.asked);
    SidesNext(script, k, a.side);
    AnsweredNext(script, k, oks, a.side);
    Associative(a.stream, received, more);
    PrefixNext(script, k);
    hide AllSubmitted, AllRequested, Submitted, Requested, SideAfter, SideAfterAll, AllReceived, Received, Answered;
    hide Answer, Arriving, Offered, Sizes, Prompt, NoneEmpty, EndsReading, EndsWriting;
  }

  lemma PrefixNext(script: seq<Turn>, k: nat)
    requires k < |script|
    ensures Arriving(script[..k + 1]) == Arriving(script[..k]) + Arriving([script[k]])
    ensures Offered(script[..k + 1]) == Offered(script[..k]) + Offered([script[k]])
    ensures EndsReading(script[..k + 1]) <==> EndsReading([script[k]])
    ensures EndsWriting(script[..k + 1]) <==> EndsWriting([script[k]])
    ensures NoneEmpty(script[..k + 1]) ==> NoneEmpty(script[..k]) && NoneEmpty([script[k]])
  {
    ArrivingLast(script[..k + 1]);
    assert script[..k + 1][..k] == script[..k];
    OneTurn(script[k]);
    assert script[..k + 1][k] == script[k];
    hide Arriving, Offered;
  }

  // ----- laws of runs -----

  /** No answer of the kernel says that the descriptor is broken, or that it cannot be written to any more. */
  ghost predicate Untroubled(script: seq<Turn>) {
    forall k | 0 <= k < |script| :: UntroubledBy(script[k])
  }

  ghost predicate UntroubledBy(turn: Turn) {
    match turn
    case Happens(ev) => !Breaks(ev.fromKernel) && !Stops(ev.toKernel)
    case Instant(kernel) => !Stops(kernel)
    case _ => true
  }

  ghost predicate Breaks(kernel: seq<ReadAnswer>) {
    exists i :: 0 <= i < |kernel| && kernel[i] == ReadError(EBADF)
  }

  ghost predicate Stops(kernel: seq<WriteAnswer>) {
    exists i :: 0 <= i < |kernel| && kernel[i] in {Refuse(EBADF), Refuse(EINVAL), Refuse(EPIPE)}
  }

  lemma UntroubledWrite(s: WriteSide, kernel: seq<WriteAnswer>)
    requires !Stops(kernel)
    ensures var f, g := s.face, WrittenSide(s, kernel).face;
            g.valid == f.valid && g.writable == f.writable && g.managed == f.managed && g.readable == f.readable
  {
    StopIsAnAnswer(kernel, s.begin, s.len);
    hide StopBy, TakenBy;
    assert forall errno | errno in {EBADF, EINVAL, EPIPE} :: Refuse(errno) !in kernel;
  }

  lemma UntroubledRead(s: WriteSide, kernel: seq<ReadAnswer>)
    requires !Breaks(kernel)
    ensures var f, g := s.face, ReadSide(s, kernel).face;
            g.valid == f.valid && g.writable == f.writable && g.managed == f.managed
  {
    var k := ReadsUse(kernel, 0);
    hide Ending, Delivered, ReadInterrupts;
    assert k < |kernel| ==> kernel[k] != ReadError(EBADF);
  }

  lemma UntroubledTurn(turn: Turn, s: WriteSide)
    requires UntroubledBy(turn)
    ensures var f, g := s.face, SideAfter(turn, s).face;
            g.valid == f.valid && g.writable == f.writable && (f.managed ==> g.managed) && SideAfter(turn, s).fd == s.fd
  {
    match turn
    case Happens(ev) =>
      UntroubledRead(s, ev.fromKernel);
      UntroubledWrite(FlushedSide(InputSide(s, ev)), ev.toKernel);
      FdStays(FlushedSide(InputSide(s, ev)), ev.toKernel);
      hide WrittenSide, Ending, Breaks, Stops, Sizes;
    case Instant(kernel) =>
      UntroubledWrite(FlushedSide(s), kernel);
      FdStays(FlushedSide(s), kernel);
      hide WrittenSide, Stops, Sizes;
    case _ =>
  }

  lemma FdStays(s: WriteSide, kernel: seq<WriteAnswer>)
    ensures WrittenSide(s, kernel).fd == s.fd
  {
    hide TakenBy, StopBy;
  }

  /** While the kernel reports no trouble, a valid, writable and managed io stays so. */
  lemma {:induction false} StaysOpen(script: seq<Turn>, s: WriteSide)
    requires Untroubled(script) && s.face.valid && s.face.writable && s.face.managed
    ensures var r := SideAfterAll(script, s); r.face.valid && r.face.writable && r.face.managed && r.fd == s.fd
  {
    if script != [] {
      var n := |script| - 1;
      assert forall k | 0 <= k < n :: script[..n][k] == script[k];
      StaysOpen(script[..n], s);
      UntroubledTurn(script[n], SideAfterAll(script[..n], s));
      hide SideAfter;
    }
  }

  /** An io is managed from its first Joined on, if the kernel reports no trouble. */
  predicate JoinedIn(script: seq<Turn>) {
    exists k :: 0 <= k < |script| && script[k].Joined?
  }

  lemma {:induction false} StaysJoined(script: seq<Turn>, s: WriteSide)
    requires Untroubled(script) && s.face.valid && s.face.writable && (s.face.managed || JoinedIn(script))
    ensures var r := SideAfterAll(script, s); r.face.valid && r.face.writable && r.face.managed && r.fd == s.fd
  {
    if s.face.managed {
      StaysOpen(script, s);
    } else {
      var n := |script| - 1;
      assert forall k | 0 <= k < n :: script[..n][k] == script[k];
      if script[n].Joined? {
        StaysValid(script[..n], s);
      } else {
        var k :| 0 <= k < n && script[k].Joined?;
        assert script[..n][k].Joined?;
        StaysJoined(script[..n], s);
      }
      UntroubledTurn(script[n], SideAfterAll(script[..n], s));
      hide Untroubled;
    }
  }

  lemma {:induction false} StaysValid(script: seq<Turn>, s: WriteSide)
    requires Untroubled(script) && s.face.valid && s.face.writable
    ensures var r := SideAfterAll(script, s); r.face.valid && r.face.writable && r.fd == s.fd
  {
    if script != [] {
      var n := |script| - 1;
      assert forall k | 0 <= k < n :: script[..n][k] == script[k];
      StaysValid(script[..n], s);
      UntroubledTurn(script[n], SideAfterAll(script[..n], s));
      hide SideAfter;
    }
  }

  /** And then every write operation that is meant for it is accepted. */
  ghost predicate AllAccepted(script: seq<Turn>, oks: seq<bool>, fd: int, managed: bool) {
    |oks| == |script|
    && forall k | 0 <= k < |script| && script[k].Submit? && script[k].ioId in {None, Some(fd)}
                  && (managed || JoinedIn(script[..k])) :: oks[k]
  }

  lemma AllAreTaken(script: seq<Turn>, oks: seq<bool>, s: WriteSide)
    requires Untroubled(script) && s.face.valid && s.face.writable && Answered(script, oks, s)
    ensures AllAccepted(script, oks, s.fd, s.face.managed)
  {
    forall k | 0 <= k < |script| && script[k].Submit? && script[k].ioId in {None, Some(s.fd)}
               && (s.face.managed || JoinedIn(script[..k]))
      ensures oks[k]
    {
      assert forall q | 0 <= q < k :: script[..k][q] == script[q];
      StaysJoined(script[..k], s);
    }
  }

  // ----- reading on -----

  /** No event of a run hangs up, ends the file, or says that the descriptor is broken. */
  ghost predicate Flowing(script: seq<Turn>) {
    Untroubled(script) && forall k | 0 <= k < |script| && script[k].Happens? :: FlowingBy(script[k].ev)
  }

  ghost predicate FlowingBy(ev: Event) {
    !ev.hangup && Data([]) !in ev.fromKernel
  }

  lemma FlowingIsUntroubled(script: seq<Turn>)
    ensures Flowing(script) ==> Untroubled(script)
  {
  }

  lemma FlowingTurn(turn: Turn, s: WriteSide)
    requires UntroubledBy(turn) && (turn.Happens? ==> FlowingBy(turn.ev))
    ensures SideAfter(turn, s).face.readable == s.face.readable
  {
    match turn
    case Happens(ev) =>
      var k := ReadsUse(ev.fromKernel, 0);
      UntroubledWrite(FlushedSide(InputSide(s, ev)), ev.toKernel);
      assert k < |ev.fromKernel| ==> ev.fromKernel[k] != Data([]) && ev.fromKernel[k] != ReadError(EBADF);
      hide WrittenSide, Ending, Delivered, ReadInterrupts, AllBytes, Stops, Sizes;
    case Instant(kernel) =>
      UntroubledWrite(FlushedSide(s), kernel);
      hide WrittenSide, Stops, Sizes;
    case _ =>
  }

  lemma {:induction false} StaysReadable(script: seq<Turn>, s: WriteSide)
    requires Flowing(script) && s.face.valid && s.face.writable && s.face.readable
    ensures var r := SideAfterAll(script, s); r.face.valid && r.face.writable && r.face.readable && r.fd == s.fd
  {
    StaysValid(script, s);
    if script != [] {
      var n := |script| - 1;
      assert forall k | 0 <= k < n :: script[..n][k] == script[k];
      StaysReadable(script[..n], s);
      FlowingTurn(script[n], SideAfterAll(script[..n], s));
      hide SideAfter;
    }
  }

  /** All that the kernel has to give in the events with input. */
  function AllArrived(script: seq<Turn>): seq<byte> {
    if script == [] then []
    else
      var n := |script| - 1;
      AllArrived(script[..n])
      + if script[n].Happens? && script[n].ev.input then Delivered(script[n].ev.fromKernel, 0) else []
  }

  /** While reading flows, everything that the kernel delivers is received. */
  lemma {:induction false} AllIsReceived(script: seq<Turn>, s: WriteSide)
    requires Flowing(script) && s.face.valid && s.face.writable && s.face.readable
    ensures AllReceived(script, s) == AllArrived(script)
  {
    if script != [] {
      var n := |script| - 1;
      assert forall k | 0 <= k < n :: script[..n][k] == script[k];
      AllIsReceived(script[..n], s);
      StaysReadable(script[..n], s);
      hide Delivered, Flowing, SideAfterAll;
    }
  }

  /** And every read operation that is meant for it is accepted. */
  ghost predicate AllReadsAccepted(script: seq<Turn>, oks: seq<bool>, fd: int, managed: bool) {
    |oks| == |script|
    && forall k | 0 <= k < |script| && script[k].Request? && script[k].ioId in {None, Some(fd)}
                  && (managed || JoinedIn(script[..k])) :: oks[k]
  }

  lemma AllAreAsked(script: seq<Turn>, oks: seq<bool>, s: WriteSide)
    requires Flowing(script) && s.face.valid && s.face.writable && s.face.readable && Answered(script, oks, s)
    ensures AllReadsAccepted(script, oks, s.fd, s.face.managed)
  {
    forall k | 0 <= k < |script| && script[k].Request? && script[k].ioId in {None, Some(s.fd)}
               && (s.face.managed || JoinedIn(script[..k]))
      ensures oks[k]
    {
      assert forall q | 0 <= q < k :: script[..k][q] == script[q];
      StaysJoined(script[..k], s);
      StaysReadable(script[..k], s);
    }
  }

  /** The kernel's answers to the last turn of a run that ends writing. */
  function LastAnswers(script: seq<Turn>): seq<WriteAnswer>
    requires EndsWriting(script)
  {
    var turn := script[|script| - 1];
    if turn.Instant? then turn.kernel else turn.ev.toKernel
  }

  /** No offset is off the first block. */
  predicate Placed(s: WriteSide) {
    (s.begin == NPOS <==> s.len == 0) && (s.begin == NPOS || s.begin < DEFAULT_SIZE)
  }

  lemma EnoughEmpties(s: WriteSide, kernel: seq<WriteAnswer>)
    requires Placed(s) && s.face.valid && s.face.writable && Enough(kernel, s.len)
    ensures var r := WrittenSide(s, kernel); r.len == 0 && r.accepted == s.accepted + s.len && r.face == s.face
  {
    EnoughTakesAll(kernel, s.begin, s.len);
    hide TakenBy, StopBy, Enough;
  }

  /** What a flush leaves to write, and that writing keeps things in place. */
  lemma TurnKeepsPlaced(turn: Turn, s: WriteSide)
    requires Placed(s)
    ensures var r := SideAfter(turn, s);
            && Placed(r)
            && r.len + Sizes(r.queue) <= s.len + Sizes(s.queue) + if turn.Submit? then |turn.op.data| else 0
  {
    match turn
    case Happens(ev) =>
      InputKeepsPlaced(s, ev);
      FlushKeepsPlaced(InputSide(s, ev));
      WriteKeepsPlaced(FlushedSide(InputSide(s, ev)), ev.toKernel);
      hide InputSide, FlushedSide, WrittenSide, Placed;
    case Instant(kernel) =>
      FlushKeepsPlaced(s);
      WriteKeepsPlaced(FlushedSide(s), kernel);
      hide FlushedSide, WrittenSide, Placed;
    case Submit(op, _) => SizesSnoc(s.queue, op);
    case _ =>
  }

  lemma InputKeepsPlaced(s: WriteSide, ev: Event)
    ensures var r := InputSide(s, ev);
            r.begin == s.begin && r.len == s.len && r.queue == s.queue && r.accepted == s.accepted
    ensures Placed(s) ==> Placed(InputSide(s, ev))
  {
    hide Ending;
  }

  lemma FlushKeepsPlaced(s: WriteSide)
    requires Placed(s)
    ensures var r := FlushedSide(s);
            Placed(r) && r.len == s.len + Sizes(s.queue) && r.queue == [] && r.face == s.face && Sizes(r.queue) == 0
  {
  }

  lemma WriteKeepsPlaced(s: WriteSide, kernel: seq<WriteAnswer>)
    requires Placed(s)
    ensures var r := WrittenSide(s, kernel);
            && Placed(r) && r.len <= s.len && r.queue == s.queue && (r.face.valid ==> s.face.valid)
            && (r.face.writable ==> s.face.writable)
  {
    TakenByMeans(kernel, s.begin, s.len);
    hide TakenBy, StopBy;
  }

  lemma OfferedLast(script: seq<Turn>)
    requires script != []
    ensures var n := |script| - 1;
            Offered(script) == Offered(script[..n]) + if script[n].Submit? then |script[n].op.data| else 0
    decreases |script|
  {
    var n := |script| - 1;
    if n > 0 {
      OfferedLast(script[1..]);
      assert script[1..][..n - 1] == script[..n][1..];
    }
  }

  lemma {:induction false} RunKeepsPlaced(script: seq<Turn>, s: WriteSide)
    requires Placed(s)
    ensures var r := SideAfterAll(script, s);
            Placed(r) && r.len + Sizes(r.queue) <= s.len + Sizes(s.queue) + Offered(script)
  {
    if script != [] {
      var n := |script| - 1;
      RunKeepsPlaced(script[..n], s);
      TurnKeepsPlaced(script[n], SideAfterAll(script[..n], s));
      OfferedLast(script);
      hide SideAfter, Placed, Sizes, Offered;
    }
  }

  /** A turn that writes: an event does when the descriptor is ready for output, or is not busy. */
  predicate WritesNow(turn: Turn, s: WriteSide) {
    turn.Instant? || (turn.Happens? && (turn.ev.output || !s.face.busy))
  }

  /** Such a turn, on an io that can then still be written to, leaves nothing when the answers are enough. */
  lemma WritingEmpties(turn: Turn, s: WriteSide, kernel: seq<WriteAnswer>)
    requires Placed(s) && WritesNow(turn, s) && kernel == (if turn.Instant? then turn.kernel else turn.ev.toKernel)
    requires Enough(kernel, s.len + Sizes(s.queue))
    requires SideAfter(turn, s).face.valid && SideAfter(turn, s).face.writable
    ensures var r := SideAfter(turn, s);
            r.len == 0 && r.queue == [] && r.accepted == s.accepted + s.len + Sizes(s.queue)
  {
    var before := if turn.Happens? then InputSide(s, turn.ev) else s;
    if turn.Happens? {
      InputKeepsPlaced(s, turn.ev);
      InputKeepsBusy(s, turn.ev);
    }
    FlushKeepsPlaced(before);
    WriteKeepsPlaced(FlushedSide(before), kernel);
    EnoughEmpties(FlushedSide(before), kernel);
    FlushAccepts(before);
    hide InputSide, FlushedSide, WrittenSide, Placed, Enough;
  }

  lemma InputKeepsBusy(s: WriteSide, ev: Event)
    ensures InputSide(s, ev).face.busy == s.face.busy
  {
    hide Ending;
  }

  /** An instant write needs no more than that the io could be written to before. */
  lemma InstantStaysOpen(s: WriteSide, kernel: seq<WriteAnswer>)
    requires Placed(s) && Enough(kernel, s.len + Sizes(s.queue)) && s.face.valid && s.face.writable
    ensures SideAfter(Instant(kernel), s).face == s.face
  {
    FlushKeepsPlaced(s);
    EnoughEmpties(FlushedSide(s), kernel);
    hide FlushedSide, WrittenSide, Placed, Enough;
  }

  /** After a hang-up nothing is read any more. */
  lemma HangupStays(s: WriteSide, ev: Event)
    requires ev.hangup
    ensures !SideAfter(Happens(ev), s).face.readable
  {
    hide TakenBy, StopBy, Ending, Sizes;
  }

  lemma FlushAccepts(s: WriteSide)
    ensures FlushedSide(s).accepted == s.accepted
  {
  }

  lemma EnoughIsEnough(kernel: seq<WriteAnswer>, more: nat, len: nat)
    requires Enough(kernel, more) && len <= more
    ensures Enough(kernel, len)
  {
  }

  /** A run that ends writing, on an io that can then still be written to, leaves nothing buffered and nothing queued if
      the last answers are enough for all that there was and all that was offered. */
  lemma EndsEmpty(script: seq<Turn>, s: WriteSide)
    requires Placed(s) && EndsWriting(script)
    requires Enough(LastAnswers(script), s.len + Sizes(s.queue) + Offered(script))
    requires SideAfterAll(script, s).face.valid && SideAfterAll(script, s).face.writable
    ensures SideAfterAll(script, s).len == 0 && SideAfterAll(script, s).queue == []
  {
    var n := |script| - 1;
    var r := SideAfterAll(script[..n], s);
    RunKeepsPlaced(script[..n], s);
    OfferedLast(script);
    LastWrites(script, r);
    LastSide(script, s);
    LastEmpties(script[n], r, LastAnswers(script), s.len + Sizes(s.queue) + Offered(script));
    hide SideAfterAll, SideAfter, Offered, Sizes, Placed, WritesNow, LastAnswers, EndsWriting, Enough;
  }

  lemma LastEmpties(turn: Turn, r: WriteSide, kernel: seq<WriteAnswer>, enough: nat)
    requires Placed(r) && WritesNow(turn, r) && kernel == (if turn.Instant? then turn.kernel else turn.ev.toKernel)
    requires Enough(kernel, enough) && r.len + Sizes(r.queue) <= enough
    requires SideAfter(turn, r).face.valid && SideAfter(turn, r).face.writable
    ensures SideAfter(turn, r).len == 0 && SideAfter(turn, r).queue == []
  {
    EnoughIsEnough(kernel, enough, r.len + Sizes(r.queue));
    WritingEmpties(turn, r, kernel);
    hide SideAfter, Sizes, Placed, WritesNow, Enough;
  }

  lemma LastSide(script: seq<Turn>, s: WriteSide)
    requires script != []
    ensures SideAfterAll(script, s) == SideAfter(script[|script| - 1], SideAfterAll(script[..|script| - 1], s))
  {
  }

  lemma LastWrites(script: seq<Turn>, r: WriteSide)
    requires EndsWriting(script)
    ensures script != [] && WritesNow(script[|script| - 1], r)
    ensures var turn := script[|script| - 1];
            LastAnswers(script) == if turn.Instant? then turn.kernel else turn.ev.toKernel
  {
  }

  /** What a run means for the flags at its end, for the registrations, and for the writing side. */
  lemma RunStaysOpen(script: seq<Turn>, received: seq<byte>, oks: seq<bool>, a: Snap, b: Snap)
    requires RunFits(script, received, oks, a, b) && Untroubled(script) && a.side.face.valid && a.side.face.writable
    ensures b.side.face.valid && b.side.face.writable
    ensures a.side.face.managed || JoinedIn(script) ==> b.side.face.managed
    ensures AllAccepted(script, oks, a.side.fd, a.side.face.managed)
    ensures a.side.face.readable && Flowing(script) ==>
              && b.side.face.readable && received == AllArrived(script)
              && AllReadsAccepted(script, oks, a.side.fd, a.side.face.managed)
  {
    StaysValid(script, a.side);
    if a.side.face.managed || JoinedIn(script) {
      StaysJoined(script, a.side);
    }
    AllAreTaken(script, oks, a.side);
    if a.side.face.readable && Flowing(script) {
      StaysReadable(script, a.side);
      AllIsReceived(script, a.side);
      AllAreAsked(script, oks, a.side);
    }
    hide Untroubled, Flowing, SideAfterAll, AllReceived, AllArrived, Answered, Answer, EndsReading, EndsWriting;
    hide NoneEmpty, Offered, Arriving, Prompt, AllSubmitted, AllRequested, Load, JoinedIn, AllAccepted;
    hide AllReadsAccepted;
  }

  lemma RunEndsEmpty(script: seq<Turn>, received: seq<byte>, oks: seq<bool>, a: Snap, b: Snap)
    requires RunFits(script, received, oks, a, b) && Placed(a.side)
    requires a.side.len == a.books.buffered && a.side.queue == a.books.queued
    requires EndsWriting(script) && Enough(LastAnswers(script), Load(a) + Offered(script))
    requires b.side.face.valid && b.side.face.writable
    ensures b.side.len == 0 && b.side.queue == []
  {
    hide Enough, LastAnswers, SideAfterAll, AllReceived, Answered, EndsReading, EndsWriting, NoneEmpty;
    hide Offered, Arriving, Prompt, AllSubmitted, AllRequested, Placed, Sizes;
    EndsEmpty(script, a.side);
  }

  lemma RunMeans(script: seq<Turn>, received: seq<byte>, oks: seq<bool>, a: Snap, b: Snap)
    requires RunFits(script, received, oks, a, b)
    ensures |oks| == |script| && (EndsReading(script) ==> b.tried)
    ensures EndsWriting(script) || (b.books.lost == 0 && Prompt(a.books) && NoneEmpty(script)) ==> Prompt(b.books)
    ensures Load(a) + Offered(script) < UINT_RANGE ==> b.books.lost == a.books.lost
  {
    hide SideAfterAll, AllReceived, Answered, EndsReading, EndsWriting, NoneEmpty, Load;
    hide Offered, Arriving, Prompt, AllSubmitted, AllRequested;
  }
}
