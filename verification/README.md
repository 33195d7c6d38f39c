# Verification of the buffer, queue, coroutine and event-loop core

This project models the parts of the network library whose correctness rests on long arguments: the block-chained
byte buffer, the byte accounting of an `io` object on top of it, the single-consumer queue, the hand-over between a
suspending coroutine and the worker that runs its task, the waiter list of a promise, the wake-up pipe of the event
loop, the reentrant spin lock, and the two-lock copy, assignment and swap of loggers. Everything is proved for all
inputs, all runs and any number of buffers, threads or calls.

## How it is modelled

* `Blocks`, `Pool`, `IoBuffer`: blocks are real arrays of `DEFAULT_SIZE` (0x200000) bytes, the deque of block pointers is
  a sequence of arrays that the methods reassign, and `begin`/`end` are the source's offsets with the sentinel
  `(size_t)-1` (`NPOS`). Each operation is a method with the source's loops and branches, proved against the plain
  byte sequence `Contents()`. The ghost field `img` mirrors the bytes of the blocks. `Books(rest)` says that the
  buffer's blocks, the pool, the freed blocks and the blocks `rest` of all other buffers are pairwise distinct and are
  together exactly the blocks ever allocated. Unsigned wrap-around is written out (`AddSize`, `SubSize`) where a
  test of the source depends on it. `None` stands for a null source pointer or an exception; bytes copied to a
  caller's memory are returned as a sequence.
* `BufferRuns`: scripts of operations on any number of buffers with one pool, and their specification on sequences. The
  copying `pop_back_n` may return fewer bytes than asked for, so a run reports how each operation turned out.
  `BufferLaws` says what the operations mean to each other; its laws start from any model, and so hold at any point of
  any run (`RunGoesOn`).
* `IoLaws`, `KernelLaws`, `IoTurns`, `AsyncIo`: the laws of reading and writing on values, what given kernel answers
  lead to, runs of turns with the flags and the writing side as they go on, and the `Io` class with its two buffers on
  one pool.
  Scripted kernel answers stand for `read(2)` and `write(2)`, and scripted outcomes for the `process` functions of read
  operations. Ghost histories record what was registered, flushed, completed, failed, taken by the kernel and given to
  read operations. `Sound(rest)` is the invariant of the whole object; `Kept(rest)` says that no block in `rest`, in
  particular none of the other buffer, has changed a byte.
* `Witnesses`: short runs of the modelled code that do not do what is meant.
* `MpscQueue`: a class with the source's fields, its counters reduced modulo 2^64, whose methods are the atomic steps
  of `push` and `try_pop`; it refines a transition system with unbounded counters over every interleaving.
* `AwaitHandshake`, `PromiseWaiters`, `WakeUp`, `SpinLock`, `LoggerLocks`: interleaved protocols, as transition systems
  whose steps are the single atomic accesses of the source (each load, compare-exchange, `try_lock`, list operation,
  pipe operation). In `AwaitHandshake` a second layer (`Whole`) adds the blocking steps of `await_resume`, which the
  coroutine runs once it is resumed. A script is any interleaving; `Run` is the state it leads to, if each step of it could happen when
  its turn came. History components (`depths`, `resumed`, `handled`, `order`, ...) record what happened and take no
  part in the steps. Accesses are sequentially consistent. `LoggerLocks` uses atomic reentrant locks;
  `SpinLock.RefinesAtomicLock` justifies that. `LoggerLaws` traces every handle back to where it was at first.

## What was found

* The four bulk transfers meet their specification on every path; the branches at io_buffer.cpp:300-305, 379-383 and
  565-568 and the throw in `check` cannot be reached.
* The copying `pop_back_n` always removes exactly what it returns, but (line 75 lacks `- begin`) it returns what was
  asked for only when the contents start at offset 0, or the size is 0 or exceeds the contents. After pushing 1, 2, 3
  and popping one byte in front, popping one byte at the back returns nothing.
* The clamping test of the copying `pop_front_n` and of `get_n` is right if and only if `begin + n + size` is neither 0
  nor beyond 2^64. When it is 0, everything is copied; beyond 2^64 nothing is clamped and the copy runs past the end.
* `direct_write` passes the start of the block instead of `begin` (io.cpp:209), so that the bytes sent are the
  contents, whatever they are, if and only if every write starts at a block boundary; the count is always right. With
  1, 2 in the buffer and a kernel that takes one byte at a time, 1 is sent twice. Its counter `write_sum` is an
  `unsigned int`, so that the credit law holds if and only if no call writes 4 GiB or more.
* With several foreign producers `mpsc_queue` is not one FIFO; it is one if and only if the foreign pushes complete in
  the order of their stamps. Wrapping counters do no harm while fewer than 2^64 items are outstanding.
* With `submit_task_end` no coroutine gets past its `co_await` before the value is set. It can, however, be resumed
  before the value is set, and then blocks a pool thread in `await_resume`, when and only when the uncontended `try_lock`
  in `add_waitor` has failed four times in a row, which `std::mutex` allows.

## Model

| member | source | states |
|---|---|---|
| Pool.MemContainer.constructor | src/iobuffer/buffer.h:22-25 | an empty pool that keeps at least MIN_CAPACITY blocks |
| Pool.MemContainer.Get | src/iobuffer/buffer.h:39-50 | takes the front block out of the pool, or allocates a fresh one when it is empty; no block is lost |
| Pool.MemContainer.Push | src/iobuffer/buffer.h:52-60 | keeps the block up to the limit and frees it beyond; pool and freed blocks gain exactly this block |
| Pool.MemContainer.Allocate | src/iobuffer/io_buffer.cpp:385-386 | the transfers' own allocation adds one fresh block to the ledger |
| IoBuffer.Buffer.constructor | src/iobuffer/io_buffer.cpp:8-12 | an empty buffer in the sentinel state |
| IoBuffer.Buffer.Check | src/iobuffer/io_buffer.h:137-154 | normalises an empty range to the sentinel, never throws, keeps the contents |
| IoBuffer.Buffer.Shrink | src/iobuffer/io_buffer.h:98-123 | from any in-range offsets restores the representation invariant, hands each surplus block to the pool, keeps the contents |
| IoBuffer.Buffer.Size | src/iobuffer/io_buffer.h:126-135 | the length of the contents |
| IoBuffer.Buffer.PushBackN | src/iobuffer/io_buffer.cpp:14-41 | appends the source across block boundaries, adding only pool or fresh blocks |
| IoBuffer.Buffer.PushFrontN | src/iobuffer/io_buffer.cpp:157-195 | prepends the source |
| IoBuffer.Buffer.DropBackN | src/iobuffer/io_buffer.cpp:43-62 | drops the last min(size, length) bytes |
| IoBuffer.Buffer.DropFrontN | src/iobuffer/io_buffer.cpp:104-121 | drops the first min(size, length) bytes |
| IoBuffer.Buffer.PopBackN | src/iobuffer/io_buffer.cpp:64-102 | what remains and what is returned make up the old contents; all is returned when more is asked for than there is, and otherwise it falls short by min(begin, size) |
| IoBuffer.PoppedBackIsIntended | src/iobuffer/io_buffer.cpp:75-76 | the number is the intended one if and only if begin is 0, the size is 0, or the size exceeds the contents |
| IoBuffer.Buffer.PopFrontN | src/iobuffer/io_buffer.cpp:123-154 | what is returned and what remains make up the old contents; the exact number returned, for all sizes that do not carry the offset past 2^64 |
| IoBuffer.Buffer.GetN | src/iobuffer/io_buffer.cpp:212-237 | copies a slice of the contents and changes nothing, for the same sizes |
| IoBuffer.ClampIsRight | src/iobuffer/io_buffer.cpp:133-135 | the clamping test holds exactly when the copy would pass the end, if and only if first offset plus size is neither 0 nor beyond 2^64; beyond it nothing is clamped |
| IoBuffer.CopiedFromIsIntended | src/iobuffer/io_buffer.cpp:226-228 | the number copied is min(size, rest) if and only if begin + n + size is positive or nothing is there |
| IoBuffer.Buffer.Get | src/iobuffer/io_buffer.cpp:198-209 | the n-th byte, or the exception exactly when n is out of bounds |
| IoBuffer.Buffer.Set | src/iobuffer/io_buffer.cpp:239-249 | replaces the n-th byte only; throws when n exceeds the length; at n equal to the length leaves the contents alone |
| IoBuffer.Buffer.OtherPopBackToFront | src/iobuffer/io_buffer.cpp:362-475 | moves the last min(n, length) bytes, in order, to the front of another buffer; block books of all buffers are kept and only fresh blocks join |
| IoBuffer.Buffer.OtherPopFrontToBack | src/iobuffer/io_buffer.cpp:550-664 | moves the first min(n, length) bytes, in order, to the back of another buffer; the same books |
| IoBuffer.Buffer.SelfPopBackToFront | src/iobuffer/io_buffer.cpp:279-359 | rotation right by n when 0 < n < length, otherwise no change |
| IoBuffer.Buffer.SelfPopFrontToBack | src/iobuffer/io_buffer.cpp:478-547 | rotation left by n when 0 < n < length, otherwise no change |
| IoBuffer.Buffer.AlignedBack | src/iobuffer/io_buffer.cpp:393-430 | the partial block and the relinked whole blocks move a suffix exactly as single bytes would |
| IoBuffer.Buffer.AlignedFront | src/iobuffer/io_buffer.cpp:578-618 | the same for a prefix |
| IoBuffer.Buffer.RelinkBack | src/iobuffer/io_buffer.cpp:406-429 | one relinking step moves exactly one block of bytes, in each of its three branches, exchanging or passing block pointers |
| IoBuffer.Buffer.RelinkFront | src/iobuffer/io_buffer.cpp:594-617 | the same at the other ends |
| IoBuffer.Buffer.MakeRoomFront | src/iobuffer/io_buffer.cpp:436-459 | room in front comes from a spare block of either buffer or a fresh one, without touching any contents |
| IoBuffer.Buffer.MakeRoomBack | src/iobuffer/io_buffer.cpp:626-646 | room behind comes from a spare block of either buffer or a fresh one |
| IoBuffer.Buffer.MoveBackLoop | src/iobuffer/io_buffer.cpp:433-470 | the byte loop with its cached block pointers moves exactly n bytes |
| IoBuffer.Buffer.MoveFrontLoop | src/iobuffer/io_buffer.cpp:621-659 | the same from front to back |
| IoBuffer.Buffer.AlignedSelfBack | src/iobuffer/io_buffer.cpp:285-324 | the block-permuting path rotates by what it takes off n |
| IoBuffer.Buffer.AlignedSelfFront | src/iobuffer/io_buffer.cpp:483-517 | the same for the rotation left |
| IoBuffer.Buffer.PopBackToOtherFront | src/iobuffer/io_buffer.cpp:260-267 | rotation when both handles share a buffer, move of a suffix otherwise |
| IoBuffer.Buffer.PopFrontToOtherBack | src/iobuffer/io_buffer.cpp:269-276 | rotation when both handles share a buffer, move of a prefix otherwise |
| IoBuffer.AlignmentTest | src/iobuffer/io_buffer.cpp:393 | the unsigned difference of offsets is a multiple of the block size exactly when the offsets agree modulo it |
| BufferRuns.Execute | src/iobuffer/io_buffer.cpp:14-664 | any script of pushes, drops, copying pops, reads, range-checked writes and transfers on any number of buffers leaves the contents, and returns the bytes, that the specification on sequences says, and keeps the block ledger; a copying pop from the back takes all when asked for more than there is, and otherwise falls short by less than a block |
| BufferRuns.StreamLaw | src/iobuffer/io_buffer.cpp:14-154 | in any run, bytes popped so far followed by the contents are the initial contents followed by all bytes pushed |
| BufferLaws.TapeLaw | src/iobuffer/io_buffer.cpp:14-195 | a buffer pushed to at both ends and popped in front is a tape: pushes in front go in at the head, pushes at the back at the end, and what has left it is the tape up to the head |
| BufferLaws.PushedFrontIsPopped | src/iobuffer/io_buffer.cpp:123-195 | what is pushed in front and popped there comes back, and all buffers are as before |
| BufferLaws.PushedBackIsPopped | src/iobuffer/io_buffer.cpp:14-102 | the same at the back |
| BufferLaws.PushedFrontIsDropped | src/iobuffer/io_buffer.cpp:104-195 | what is pushed in front and dropped there leaves no trace |
| BufferLaws.PushedBackIsDropped | src/iobuffer/io_buffer.cpp:14-62 | the same at the back |
| BufferLaws.PopsSplit | src/iobuffer/io_buffer.cpp:64-154 | a pop returns as many bytes as asked for, or all, and they and what is left make up the contents in order |
| BufferLaws.DropIsPop | src/iobuffer/io_buffer.cpp:43-121 | dropping is popping with the result thrown away |
| BufferLaws.TransferBackIsPopAndPush | src/iobuffer/io_buffer.cpp:260-267 | a transfer does what popping at the back and pushing what was returned in front does, also from a buffer to itself |
| BufferLaws.TransferFrontIsPopAndPush | src/iobuffer/io_buffer.cpp:269-276 | the same from front to back |
| BufferLaws.ReadIsDropAndPop | src/iobuffer/io_buffer.cpp:198-237 | reading at a position returns what dropping what is before and popping would return |
| BufferLaws.WrittenIsRead | src/iobuffer/io_buffer.cpp:239-249 | what is written in range is read back at its position, and only there |
| BufferLaws.UnnamedIsLeftAlone | src/iobuffer/io_buffer.cpp:14-664 | a buffer that an operation does not name is left alone |
| BufferRuns.TransfersUndo | src/iobuffer/io_buffer.cpp:260-276 | each transfer undoes the opposite one, between two buffers and as rotations |
| BufferRuns.TransfersConserve | src/iobuffer/io_buffer.cpp:260-276 | a run of transfers changes neither the multiset of all bytes nor their number |
| BufferRuns.RunConserves | src/iobuffer/io_buffer.cpp:14-195 | in any run of pushes, copying pops and transfers, the bytes returned and held are those held before and pushed |
| BufferRuns.EachBlockInOnePlace | src/iobuffer/io_buffer.h:98-123 | after any run no block is twice in a buffer, in two buffers, or in a buffer and the pool, and each block ever allocated is in one place or freed |
| AsyncIo.Io.constructor | src/io/io.cpp:9-31 | a fresh io owes nothing, has two empty buffers, the flags of its type, and is valid exactly with a descriptor that is non-blocking |
| AsyncIo.Io.Register | src/io/io.cpp:255-282 | a write operation joins the end of the list exactly when the io is valid, managed, writable and meant; the loop is woken unless the io is busy; the books stay balanced |
| AsyncIo.Io.Ask | src/io/io.cpp:255-269 | a read operation joins the end of the list exactly when the io is valid, managed, readable and meant |
| AsyncIo.Io.WriteFlush | src/io/io.cpp:314-328 | appends every registered operation's bytes and lists it as waiting, in order; no other block changes |
| AsyncIo.Io.ProcessWrite | src/io/io.cpp:330-345 | completes waiting operations in order until the credit no longer covers the first |
| AsyncIo.Io.CleanWrite | src/io/io.cpp:347-355 | fails exactly what was never flushed |
| AsyncIo.Io.DirectWrite | src/io/io.cpp:190-252 | the exact writes for given kernel answers (`WritesFill`, `WritesUse`), and the bytes they hand over, aligned or not; takes exactly the accepted number of bytes off the front, books them, sets every flag for each errno |
| AsyncIo.Io.HandOver | src/io/io.cpp:200-209 | one write takes all that the kernel takes unless its block or the contents end first, and hands over bytes from the block's start |
| KernelLaws.WritesFill | src/io/io.cpp:200-244 | the i-th write takes the amount of the i-th accepting answer, unless it ends at a block boundary or at the end of the contents |
| KernelLaws.WritesUse | src/io/io.cpp:200-244 | writing uses a first part of the answers, one write for each that accepts, survives interruptions up to the limit, and ends with nothing left, with no answers left, or at a refusal |
| KernelLaws.GenerousTakesAll | src/io/io.cpp:200-244 | a kernel that accepts a whole block on each of as many answers as the contents have blocks is given all |
| KernelLaws.ReadsUse | src/io/io.cpp:112-187 | reading uses a first part of the answers, delivers all their bytes, survives interruptions up to the limit, and ends with no answers left, at the end of file, or at an error |
| KernelLaws.ServesInTurn | src/io/io.cpp:285-307 | the i-th call serves the i-th operation with what its answer says of what the calls before have left, and the calls go on exactly as long as operations are done |
| IoLaws.ExactIffAligned | src/io/io.cpp:206-209 | whatever the blocks hold, the bytes handed over are the contents if and only if every write starts at a block boundary |
| IoLaws.Credit | src/io/io.cpp:190-252 | credit plus buffered bytes equal the sizes waiting, if and only if the 32-bit counter has forgotten nothing |
| IoLaws.WriteKeeps | src/io/io.cpp:198-251 | one direct_write keeps the books; it forgets nothing if and only if it writes less than 2^32 bytes |
| IoLaws.FlushKeeps | src/io/io.cpp:314-328 | flushing one operation keeps the books |
| IoLaws.CompleteKeeps | src/io/io.cpp:334-341 | completing one operation keeps the books |
| IoLaws.FailKeeps | src/io/io.cpp:347-355 | failing one operation keeps the books |
| IoLaws.DoneMeansAccepted | src/io/io.cpp:330-345 | an operation is done only after the kernel took all its bytes and those of all flushed before it; done order is flush order |
| IoLaws.DoneIffAccepted | src/io/io.cpp:330-345 | after process_write the converse holds too |
| IoLaws.NotBothDoneAndFailed | src/io/io.cpp:330-355 | no operation is told both Done and IOError |
| AsyncIo.Io.WriteTurn | src/io/io.cpp:67-70 | the kernel takes exactly the bytes that its answers allow, if the io is valid and writable; the credit then does not cover the first waiting operation; the read buffer is left alone |
| AsyncIo.Io.InstantWrite | src/io/event_processor.cpp:224-226 | flush, write and complete: an operation is then done if and only if the kernel has taken it and all before it; with enough answers everything is taken, the buffer is empty and all is done |
| IoLaws.AllDoneIffTaken | src/io/io.cpp:330-345 | when the credit does not cover the first waiting operation and nothing was forgotten, an operation is done if and only if the kernel has taken it and all before it |
| AsyncIo.Io.ProcessEvent | src/io/io.cpp:54-80 | reading, flushing, writing when the descriptor is ready or not busy, completing and cleaning up in one event: exactly what the kernel gave is delivered, and with enough answers everything is taken and done; nothing is read after a hang-up; both buffers and both sets of books are kept |
| AsyncIo.Io.Serve | src/io/io.cpp:54-355 | over any run of registrations, events, instant writes and cleanings on one io: every byte received is given in order to the read operations in the order of their requests, or still buffered; with less than 4 GiB offered, an operation is done if and only if the kernel has taken it and all before it, when none is empty or the run has just written; without trouble from the kernel every operation is accepted and all it delivers is received; a run that ends writing with enough answers leaves nothing to do |
| IoTurns.StaysJoined | src/io/io.cpp:112-255 | without trouble from the kernel a valid and writable io stays so, and managed from its first Joined on |
| IoTurns.AllIsReceived | src/io/io.cpp:54-58 | while no event hangs up, ends the file or breaks the descriptor, a run receives all that the kernel delivers in its input events |
| IoTurns.EndsEmpty | src/io/io.cpp:65-70 | a run whose last turn writes leaves nothing buffered and nothing queued when the last answers are enough for all that was offered |
| AsyncIo.Io.DirectRead | src/io/io.cpp:112-187 | appends exactly the bytes the kernel delivers before it stops, in order; sets every flag for end of file and each errno; changes no block of another buffer |
| IoLaws.DeliveredRest | src/io/io.cpp:120-177 | a read that is cut at the end of a block leaves the rest for the next read |
| AsyncIo.Io.ProcessRead | src/io/io.cpp:285-307 | for any outcomes of the process functions: the exact calls made and bytes given, in order, until one is not done; bytes given followed by bytes buffered do not change |
| Witnesses.PopBackReturnsNothing | src/iobuffer/io_buffer.cpp:64-102 | contents 2, 3 at offset 1, of which the copying pop of one byte at the back returns nothing |
| Witnesses.PopFrontReturnsAll | src/iobuffer/io_buffer.cpp:123-154 | the copying pop of no byte that returns all three |
| Witnesses.DirectWriteSendsTwice | src/io/io.cpp:190-252 | 1, 2 in the buffer and two writes of one byte: 1 is sent twice |
| MpscQueue.Queue.constructor | src/queue/mpsc_queue.h:25-28 | an empty queue, whose consumed_index wraps to 0 at the first pop |
| MpscQueue.Queue.Push | src/queue/mpsc_queue.h:30-48 | one event of the trace: the owner's whole push, or the stamp of a foreign one; the wrapped fields keep showing the state |
| MpscQueue.Queue.Enqueue | src/queue/mpsc_queue.h:35-36 | the second half of a foreign push |
| MpscQueue.Queue.TryPop | src/queue/mpsc_queue.h:50-83 | pops what the specification says, fails exactly when it says, throws without effect on a foreign thread, with counters modulo 2^64 |
| MpscQueue.FrontStamp | src/queue/mpsc_queue.h:58 | the comparison of wrapped counters holds exactly when the owner's front is due |
| MpscQueue.CountingLaw | src/queue/mpsc_queue.h:30-83 | in every run the stamps taken are the items popped, waiting and in flight; the owner's stamps increase and none is overdue |
| MpscQueue.PopFailsOnlyWhenEmpty | src/queue/mpsc_queue.h:50-83 | with no push in flight try_pop fails if and only if nothing waits |
| MpscQueue.LocalComesOutInTurn | src/queue/mpsc_queue.h:57-64 | the owner's item with stamp i is the (i+1)-th item popped |
| MpscQueue.PlaceLaw | src/queue/mpsc_queue.h:57-78 | foreign items come out in the order of their enqueueing; the owner's items at the position of their stamp |
| MpscQueue.CompletedPushComesFirst | src/queue/mpsc_queue.h:30-78 | a foreign push completed before a push of the owner is popped before it |
| MpscQueue.ThreadOrderLaw | src/queue/mpsc_queue.h:30-78 | for each thread: values popped, waiting and in flight are exactly the values it pushed, in its order |
| MpscQueue.FifoIffInTurn | src/queue/mpsc_queue.h:30-78 | once all enqueued items are out, the queue was one FIFO in stamp order if and only if foreign pushes completed in stamp order |
| MpscQueue.SingleProducerFifo | src/queue/mpsc_queue.h:30-78 | with one foreign producer it always is |
| MpscQueue.TwoProducersOvertake | src/queue/mpsc_queue.h:35-36 | a run with two producers in which it is not |
| AwaitHandshake.ContinuedAtMostOnce | src/coroutine_pool/coroutine_pool.h:254-387 | in every interleaving the coroutine is continued at most once, by itself or by one resume, never before the inner one exists, and a suspended one is not forgotten |
| AwaitHandshake.PastOnlyAfterValue | src/coroutine_pool/coroutine_pool.h:389-404 | in every run, whatever try_lock does, the coroutine is past the co_await only after the task has started, and at the end only after the value is set; await_resume blocks only after add_waitor has given up |
| AwaitHandshake.CanPass | src/coroutine_pool/coroutine_pool.h:343-404 | from every reachable state the coroutine can still get past the co_await |
| AwaitHandshake.StartNeedsNoValue | src/coroutine_pool/coroutine_pool.h:325-341 | with submit_task_start every run can go on past the co_await without a single step of the inner coroutine |
| AwaitHandshake.BusyWorkerResumes | src/coroutine_pool/coroutine_pool.h:352-357 | at the start the worker resumes the coroutine itself if the pool is busy, and leaves it to the pool otherwise |
| AwaitHandshake.AtMostFourTries | src/coroutine_pool/coroutine_pool.h:270-295 | in every run the awaiting thread tries the lock at most four times |
| AwaitHandshake.PollsThenBlocks | src/coroutine_pool/coroutine_pool.h:366-384 | an awaiter that has not suspended asks four times before it blocks in the future, and not a fifth time without the inner task |
| AwaitHandshake.ContinuedAfterValue | src/coroutine_pool/coroutine_pool.h:347-361 | at the end it is resumed only after the value, as long as add_waitor does not fail four times |
| AwaitHandshake.EarlyIff | src/coroutine_pool/coroutine_pool.h:358-361 | the next step can resume it before the value exactly when the pool holds it, which needs add_waitor to have given up |
| AwaitHandshake.FourthFailure | src/coroutine_pool/coroutine_pool.h:358-361 | every run that is at its fourth failure extends to one in which the coroutine is resumed before the value |
| AwaitHandshake.ReachFourthFailure | src/coroutine_pool/coroutine_pool.h:124-149 | every run in which the awaiter is still on its way to suspending, or the worker on its way to the callback, extends to one at its fourth failure |
| AwaitHandshake.GaveUpIff | src/coroutine_pool/coroutine_pool.h:124-149 | add_waitor gives up if and only if its try_lock has failed four times |
| AwaitHandshake.FourFailuresContinueEarly | src/coroutine_pool/coroutine_pool.h:358-361 | a run in which the coroutine is resumed before the inner one has run |
| AwaitHandshake.CanComplete | src/coroutine_pool/coroutine_pool.h:343-387 | from every reachable state the coroutine can still be resumed |
| AwaitHandshake.StepKeepsValid | src/coroutine_pool/coroutine_pool.h:262-296 | each step keeps that the mutex has one holder and exactly one continuation is done or to come |
| PromiseWaiters.ResumedExactlyOnce | src/coroutine_pool/coroutine_pool.h:151-164 | after destruction every waiter that was accepted has been resumed exactly once, in order, and no other |
| PromiseWaiters.DrainedBeforeUnlock | src/coroutine_pool/coroutine_pool.h:151-160 | whenever the owner lets go of the mutex, at return_value too, everyone added until then has been resumed |
| PromiseWaiters.OwnerGetsThrough | src/coroutine_pool/coroutine_pool.h:151-160 | the owner alone, once it has the mutex, resumes all and gives it back |
| PromiseWaiters.NeverTwiceNeverRefused | src/coroutine_pool/coroutine_pool.h:124-149 | at every moment nobody is resumed twice, no refused waiter is resumed, and a refusal means that the promise is finished or try_lock failed four times |
| PromiseWaiters.StepKeepsValid | src/coroutine_pool/coroutine_pool.h:124-164 | each step keeps that the list holds what was added and not yet resumed |
| WakeUp.NoLostWakeUp | src/io/event_processor.cpp:241-283 | when the loop is blocked on an empty pipe every waiting item belongs to a call that has not finished its notification |
| WakeUp.NoNeedlessByte | src/io/event_processor.cpp:330-336 | in every run the bytes in the pipe and about to be written are at most as many as the times that a call found the loop not working |
| WakeUp.BlockedBeforeNotify | src/io/event_processor.cpp:326-340 | that exception does occur |
| WakeUp.HandledInOrder | src/io/event_processor.cpp:356-380 | every item is handled at most once, none is lost, and each queue is handled in order |
| WakeUp.CatchUp | src/io/event_processor.cpp:244-290 | the worker alone always reaches the blocked state with an empty pipe |
| WakeUp.AllIsHandled | src/io/event_processor.cpp:148-164 | once all calls have returned, the worker alone then leaves both queues empty |
| WakeUp.StepKeepsValid | src/io/event_processor.cpp:342-354 | each step of loop or producer keeps every waiting item noticed, also when the pipe is full |
| SpinLock.MutualExclusion | src/spinlock/spin_lock.h:86-138 | at most one thread is between its compare-exchange and its release, and count is then its nesting depth |
| SpinLock.FreeMeansEmpty | src/spinlock/spin_lock.h:135-137 | a free lock has count 0 and nobody inside |
| SpinLock.UnlockThrows | src/spinlock/spin_lock.h:129-133 | unlock throws exactly when its thread holds nothing, and then changes nothing |
| SpinLock.TryLockRefused | src/spinlock/spin_lock.h:115-127 | try_lock is refused exactly when another thread is inside |
| SpinLock.GetsFreeLock | src/spinlock/spin_lock.h:86-113 | a thread that waits in lock gets a free lock by its own steps alone |
| SpinLock.CanAcquire | src/spinlock/spin_lock.h:86-138 | from every reachable state a thread that waits in lock can still get it |
| SpinLock.StepKeepsValid | src/spinlock/spin_lock.h:86-138 | each atomic access keeps the invariant, with count++ and --count as separate reads and writes |
| SpinLock.RefinesAtomicLock | src/spinlock/spin_lock.h:86-138 | every step is an atomic acquire, an atomic release, or invisible |
| LoggerLocks.NoDeadlock | src/sulog/logger.h:162-177 | while some thread is unfinished some thread can step |
| LoggerLocks.EveryRunEnds | src/sulog/logger.h:157-177 | every step is one unit of a finite amount of work, so that runs end and, with NoDeadlock, end finished |
| LoggerLocks.ChainClimbs | src/sulog/logger.h:166-171 | who waits, waits for a thread that wants a higher address, if it waits at all |
| LoggerLocks.Serializable | src/sulog/logger.h:157-247 | in every run the handles and the copies are those of the operations done one at a time, except inside a half-done swap |
| LoggerLocks.ProgramOrder | src/sulog/logger.h:157-247 | this serial order keeps the order of each thread |
| LoggerLocks.FinishedIsSerial | src/sulog/logger.h:157-247 | finished threads leave the result of a serial execution of all their operations |
| LoggerLaws.FinishedOrigins | src/sulog/logger.h:157-247 | when all threads are finished, every handle and every copy is the initial handle of the logger it is traced back to along the order of the operations |
| LoggerLaws.UntouchedKeeps | src/sulog/logger.h:157-247 | at every moment a logger that is never assigned to nor swapped has its initial handle |
| LoggerLaws.AllFromOne | src/sulog/logger.h:157-177 | when everything is assigned and copied from one logger, exactly the loggers assigned to, and every copy, one for each in the program, end with that logger's initial handle |
| LoggerLaws.SwapsExchange | src/sulog/logger.h:233-247 | two loggers that are only swapped with each other end exchanged if and only if the programs swap them an odd number of times |
| LoggerLocks.SwapsPermute | src/sulog/logger.h:233-247 | threads that only swap end with a permutation of the initial handles |
| LoggerLocks.StepKeepsOk | src/sulog/logger.h:166-175 | each step keeps that a lock is held exactly by the thread whose position says so, and as often |

## Left out

- PopFrontN: says nothing about sizes for which `begin + size` passes 2^64, where the code copies from outside its blocks (`ClampIsRight`); GetN likewise for `begin + n + size`.
- Set: says nothing about n equal to the length when no block is left there, nor about 0 and 1 on an empty buffer, where the code writes outside its blocks.
- PushBackN: and all other growing operations assume contents of at most `MAX_BYTES` (far below 2^64) in total, so that offsets do not overflow; memory is taken to be sufficient.
- Execute: the script's `pop_front_n` and `get_n` ask for at least one byte and at most `MAX_BYTES`; other sizes are covered by `PopFrontN` and `GetN` themselves. A script writes with `set` only after comparing the position with `size`. How many bytes a `pop_back_n` returned is stated by `PopBackN`, since it depends on the offset of the contents.
- DirectWrite: the credit `have_write` is unbounded here; only the 32-bit `write_sum` wraps. A `write` that returns 0 is one of the refusals, since the code looks at errno then too.
- Register: the wake-up is reported, not carried out; other threads that change the flags during the call are not modelled.
- ProcessRead: a process function takes bytes off the front of the buffer and is done or not; one that does other things to the buffer is not modelled.
- ProcessEvent: does not model the event mask that `get_event` computes, only whether there is one.
- EndsEmpty: answers are enough when each accepts a whole block and they are a block more than the bytes; for other answers `WritesFill` and `WritesUse` say how many bytes are taken.
- Serve: unless the run has just written, its second law is stated for runs without empty operations, since an empty one that has been flushed is done only at the next process_write.
- CanPass: shows that there is a way on for one awaiting coroutine; that other coroutines blocked in `await_resume` leave the pool a thread for each of its steps is assumed.
- WriteFlush: takes each write operation to append exactly its `size()` bytes, as task.h:35-41 asks of it.
- NoLostWakeUp: does not cover shutdown, tasks added by the worker itself (which the code never enqueues), or `local_task_list`, which stays empty.
- ContinuedAtMostOnce: one awaiter, no exceptions, a pool that runs each queued coroutine once; `is_busy` and spurious `try_lock` failures are arbitrary.
- ResumedExactlyOnce: what a resumed coroutine does while the list is being drained is not modelled.
- MutualExclusion: leaves out the back-off timing; the plain `spin_lock` is a special case and has no model of its own.
- Serializable: copies and assignments of handles only; the logging functions read `log` without a lock and are not modelled.
- Push: the owner's `fetch_add` and `emplace_back` are one event, because no other thread looks at the owner's list.
- The interleaved protocols are transition systems on values instead of objects with threads, which Dafny does not have; weak memory orders are not captured.
- Concurrent use of the block pool: `get` tests for emptiness and pops in separate steps; the pool is used sequentially here.
- System calls, epoll registration, sockets, connect, accept, descriptors, logging text and clocks.
- Termination of the event loop and of the thread pool, and liveness of busy writes.
- The status switch of `tcp`, and the unfinished files `locally_queue.h`, `concurrent_buffer.*`, `io_awaitable.h` and `result_awaitable`.
