/**
 * One subscriber's `ActorModelQueue` and its worker thread. The producer
 * side (`EnqueueEvent`), the worker's wake-ups and the scope's `done` flag
 * are atomic steps; a closure's outcome (return or exception) is an
 * oracle.
 */
module ActorQueue {
  import opened Topics

  /** An event of type `tag` with payload `x`. */
  datatype Event = Event(tag: TypeTag, x: int)

  /** `ActorModelQueue`; each closure in `fifo` is `OnEvent` of one event. */
  datatype Queue = Queue(done: bool, numQueued: nat, numProcessed: nat, fifo: seq<Event>)

  /** What the worker object is called with. */
  datatype WorkerCall = OnEvent(e: Event) | OnBatchDone | OnShutdown

  /**
   * The queue, whether the worker thread is still in its loop, every call
   * it made to the worker object, and every event ever enqueued.
   */
  datatype Worker = Worker(queue: Queue, running: bool, calls: seq<WorkerCall>, enqueued: seq<Event>)

  const EmptyQueue: Queue := Queue(false, 0, 0, [])
  const Fresh: Worker := Worker(EmptyQueue, true, [], [])

  /** `EnqueueEvent`: one closure at the back, `num_queued` up by one. */
  function Enqueue(w: Worker, e: Event): (r: Worker)
    ensures r.queue.fifo == w.queue.fifo + [e]
    ensures r.queue.numQueued == w.queue.numQueued + 1
    ensures r.queue.done == w.queue.done && r.queue.numProcessed == w.queue.numProcessed
    ensures r.running == w.running && r.calls == w.calls
  {
    Worker(w.queue.(fifo := w.queue.fifo + [e], numQueued := w.queue.numQueued + 1),
           w.running, w.calls, w.enqueued + [e])
  }

  /** The predicate the worker waits on. */
  predicate CanWake(q: Queue) {
    q.done || |q.fifo| > 0
  }

  /** How many events of `batch` return without throwing. */
  function CountOk(batch: seq<Event>, throws: Event -> bool): (n: nat)
    ensures n <= |batch|
  {
    if |batch| == 0 then 0 else (if throws(batch[0]) then 0 else 1) + CountOk(batch[1..], throws)
  }

  /** `OnEvent` for every event of `batch`, in order. */
  function EventCalls(batch: seq<Event>): (r: seq<WorkerCall>)
    ensures |r| == |batch|
    ensures forall i :: 0 <= i < |batch| ==> r[i] == OnEvent(batch[i])
  {
    if |batch| == 0 then [] else [OnEvent(batch[0])] + EventCalls(batch[1..])
  }

  /**
   * One pass of the worker loop. With `done` set it calls `OnShutdown` and
   * leaves the loop without touching `fifo`; otherwise it takes the whole
   * `fifo`, runs it in order, counts the closures that did not throw, and
   * calls `OnBatchDone`.
   */
  function Wake(w: Worker, throws: Event -> bool): (r: Worker)
    requires w.running && CanWake(w.queue)
    ensures w.queue.done ==> r == w.(running := false, calls := w.calls + [OnShutdown])
    ensures !w.queue.done ==>
              && r.running && r.queue.fifo == [] && !r.queue.done
              && r.calls == w.calls + EventCalls(w.queue.fifo) + [OnBatchDone]
              && r.queue.numProcessed == w.queue.numProcessed + CountOk(w.queue.fifo, throws)
              && r.queue.numQueued == w.queue.numQueued && r.enqueued == w.enqueued
  {
    if w.queue.done then w.(running := false, calls := w.calls + [OnShutdown])
    else
      var batch := w.queue.fifo;
      Worker(w.queue.(fifo := [], numProcessed := w.queue.numProcessed + CountOk(batch, throws)),
             true, w.calls + EventCalls(batch) + [OnBatchDone], w.enqueued)
  }

  /** The scope's destructor sets `done`. */
  function SetDone(w: Worker): (r: Worker)
    ensures r.queue.done && r.queue.fifo == w.queue.fifo && r.calls == w.calls
  {
    w.(queue := w.queue.(done := true))
  }

  /** `WaitUntilNumProcessedIsAtLeast(c)` returns once this holds. */
  predicate Released(q: Queue, c: nat) {
    q.done || q.numProcessed >= c
  }

  datatype QueueStep = Push(e: Event) | WakeUp | Stop

  /** A step of the producer, the worker or the destructor; a worker with nothing to do stays blocked. */
  function Step(w: Worker, s: QueueStep, throws: Event -> bool): Worker {
    match s
    case Push(e) => Enqueue(w, e)
    case WakeUp => if w.running && CanWake(w.queue) then Wake(w, throws) else w
    case Stop => SetDone(w)
  }

  function Run(w: Worker, steps: seq<QueueStep>, throws: Event -> bool): Worker
    decreases |steps|
  {
    if |steps| == 0 then w else Run(Step(w, steps[0], throws), steps[1..], throws)
  }

  /** The events the worker has been handed, in call order. */
  function Handled(calls: seq<WorkerCall>): (es: seq<Event>)
    ensures |es| <= |calls|
  {
    if |calls| == 0 then []
    else (if calls[0].OnEvent? then [calls[0].e] else []) + Handled(calls[1..])
  }

  function Shutdowns(calls: seq<WorkerCall>): nat {
    if |calls| == 0 then 0 else (if calls[0].OnShutdown? then 1 else 0) + Shutdowns(calls[1..])
  }

  lemma {:induction false} HandledAppend(a: seq<WorkerCall>, b: seq<WorkerCall>)
    ensures Handled(a + b) == Handled(a) + Handled(b)
    decreases |a|
  {
    if |a| == 0 {
      assert a + b == b;
    } else {
      assert (a + b)[0] == a[0] && (a + b)[1..] == a[1..] + b;
      HandledAppend(a[1..], b);
      var h := if a[0].OnEvent? then [a[0].e] else [];
      assert Handled(a + b) == h + Handled(a[1..] + b);
      assert h + (Handled(a[1..]) + Handled(b)) == (h + Handled(a[1..])) + Handled(b);
    }
  }

  lemma {:induction false} ShutdownsAppend(a: seq<WorkerCall>, b: seq<WorkerCall>)
    ensures Shutdowns(a + b) == Shutdowns(a) + Shutdowns(b)
    decreases |a|
  {
    if |a| == 0 {
      assert a + b == b;
    } else {
      assert (a + b)[0] == a[0] && (a + b)[1..] == a[1..] + b;
      ShutdownsAppend(a[1..], b);
    }
  }

  lemma {:induction false} HandledEventCalls(batch: seq<Event>)
    ensures Handled(EventCalls(batch)) == batch
    ensures Shutdowns(EventCalls(batch)) == 0
    decreases |batch|
  {
    if |batch| > 0 {
      assert EventCalls(batch)[1..] == EventCalls(batch[1..]);
      HandledEventCalls(batch[1..]);
    }
  }

  /**
   * The accounting every reachable worker keeps: the handled events followed
   * by the pending ones are exactly the enqueued ones, in order; at most the
   * handled ones count as processed; `OnShutdown` is called only when the
   * loop is left, which happens only after `done`.
   */
  predicate Accounting(w: Worker) {
    && Handled(w.calls) + w.queue.fifo == w.enqueued
    && w.queue.numQueued == |w.enqueued|
    && w.queue.numProcessed <= |Handled(w.calls)|
    && Shutdowns(w.calls) == (if w.running then 0 else 1)
    && (!w.running ==> w.queue.done && |w.calls| > 0 && w.calls[|w.calls| - 1] == OnShutdown)
  }

  lemma FreshAccounting()
    ensures Accounting(Fresh)
  {
  }

  lemma StepKeepsAccounting(w: Worker, s: QueueStep, throws: Event -> bool)
    requires Accounting(w)
    ensures Accounting(Step(w, s, throws))
    ensures Handled(w.calls) <= Handled(Step(w, s, throws).calls)
    ensures w.queue.done ==> Handled(Step(w, s, throws).calls) == Handled(w.calls)
  {
    var r := Step(w, s, throws);
    match s
    case Push(e) =>
      assert Handled(r.calls) + r.queue.fifo == (Handled(w.calls) + w.queue.fifo) + [e];
    case WakeUp =>
      if w.running && CanWake(w.queue) {
        if w.queue.done {
          HandledAppend(w.calls, [OnShutdown]);
          ShutdownsAppend(w.calls, [OnShutdown]);
        } else {
          var batch := w.queue.fifo;
          HandledAppend(w.calls, EventCalls(batch));
          HandledAppend(w.calls + EventCalls(batch), [OnBatchDone]);
          ShutdownsAppend(w.calls, EventCalls(batch));
          ShutdownsAppend(w.calls + EventCalls(batch), [OnBatchDone]);
          HandledEventCalls(batch);
          assert Handled(r.calls) == Handled(w.calls) + batch;
        }
      }
    case Stop =>
  }

  lemma {:induction false} RunKeepsAccounting(w: Worker, steps: seq<QueueStep>, throws: Event -> bool)
    requires Accounting(w)
    ensures Accounting(Run(w, steps, throws))
    ensures Handled(w.calls) <= Handled(Run(w, steps, throws).calls)
    ensures w.queue.done ==> Handled(Run(w, steps, throws).calls) == Handled(w.calls)
    decreases |steps|
  {
    if |steps| > 0 {
      var w1 := Step(w, steps[0], throws);
      StepKeepsAccounting(w, steps[0], throws);
      RunKeepsAccounting(w1, steps[1..], throws);
      assert w.queue.done ==> w1.queue.done;
    }
  }

  /**
   * From a fresh queue, whatever the interleaving: `num_processed` never
   * exceeds `num_queued`, events are handed over in enqueue order, and
   * `OnShutdown` is called at most once.
   */
  lemma QueueGuarantees(steps: seq<QueueStep>, throws: Event -> bool)
    ensures var w := Run(Fresh, steps, throws);
            && w.queue.numProcessed <= w.queue.numQueued
            && Handled(w.calls) <= w.enqueued
            && Shutdowns(w.calls) <= 1
  {
    RunKeepsAccounting(Fresh, steps, throws);
  }

  /** Once `done` is set no further event is handed to the worker: what is pending is discarded. */
  lemma DoneDiscardsPending(w: Worker, steps: seq<QueueStep>, throws: Event -> bool)
    requires Accounting(w) && w.queue.done
    ensures Handled(Run(w, steps, throws).calls) == Handled(w.calls)
  {
    RunKeepsAccounting(w, steps, throws);
  }

  /** A released `WaitUntilNumProcessedIsAtLeast` stays released. */
  lemma {:induction false} ReleasedIsStable(w: Worker, steps: seq<QueueStep>, throws: Event -> bool, c: nat)
    requires Released(w.queue, c)
    ensures Released(Run(w, steps, throws).queue, c)
    decreases |steps|
  {
    if |steps| > 0 {
      var w1 := Step(w, steps[0], throws);
      assert Released(w1.queue, c);
      ReleasedIsStable(w1, steps[1..], throws, c);
    }
  }
}
