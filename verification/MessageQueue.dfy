/**
 The task queue with retries and a dead-letter list, and the workers that drain it
 (scalability/message_queue.py).  Enqueuing, dequeuing, acknowledging, failing and cancelling
 interleave in any order; a step is what happens between two awaits.
 */
module MessageQueue {

  /** Where a task is: `Waiting` means that its worker waits for room to put it back. */
  datatype Place = Queued | Held(worker: nat) | Waiting(worker: nat) | Abandoned | Acked | Dead

  /** A task object; how often it was dequeued and where it is are recorded for the proof only. */
  datatype Task = Task(retries: nat, maxRetries: int, dequeues: nat, place: Place)

  /** Tasks are numbered in the order of their creation. */
  datatype State = State(
    tasks: seq<Task>, queue: seq<nat>, pending: set<nat>, dlq: seq<nat>,
    held: map<nat, nat>, waiting: map<nat, nat>, processed: nat, failed: nat)

  const EMPTY := State([], [], {}, [], map[], map[], 0, 0)

  datatype Step =
    | Enqueue(maxRetries: int)
    | Dequeue(worker: nat)
    | Succeed(worker: nat)
    | Fail(worker: nat)
    | PutBack(worker: nat)
    | Cancel(worker: nat)

  function AttemptLimit(t: Task): nat {
    if t.maxRetries > 1 then t.maxRetries else 1
  }

  predicate Full(maxsize: int, queue: seq<nat>) {
    maxsize > 0 && |queue| >= maxsize
  }

  /** A worker is idle when it neither runs a handler nor waits to put a task back. */
  predicate Idle(s: State, w: nat) {
    w !in s.held && w !in s.waiting
  }

  predicate Enabled(maxsize: int, s: State, step: Step) {
    match step
    case Enqueue(_) => !Full(maxsize, s.queue)
    case Dequeue(w) => s.queue != [] && s.queue[0] < |s.tasks| && Idle(s, w)
    case Succeed(w) => w in s.held && s.held[w] < |s.tasks|
    case Fail(w) => w in s.held && s.held[w] < |s.tasks|
    case PutBack(w) => w in s.waiting && s.waiting[w] < |s.tasks| && !Full(maxsize, s.queue)
    case Cancel(w) => (w in s.held && s.held[w] < |s.tasks|) || (w in s.waiting && s.waiting[w] < |s.tasks|)
  }

  function Move(s: State, id: nat, place: Place): seq<Task>
    requires id < |s.tasks|
  {
    s.tasks[id := s.tasks[id].(place := place)]
  }

  /** The task a worker is running, with one more retry used up. */
  function Retried(s: State, w: nat): Task
    requires w in s.held && s.held[w] < |s.tasks|
  {
    s.tasks[s.held[w]].(retries := s.tasks[s.held[w]].retries + 1)
  }

  function Bury(s: State, w: nat): State
    requires w in s.held && s.held[w] < |s.tasks|
  {
    var id := s.held[w];
    s.(tasks := s.tasks[id := Retried(s, w).(place := Dead)], pending := s.pending - {id}, dlq := s.dlq + [id],
       held := s.held - {w}, failed := s.failed + 1)
  }

  function Requeue(s: State, w: nat): State
    requires w in s.held && s.held[w] < |s.tasks|
  {
    var id := s.held[w];
    s.(tasks := s.tasks[id := Retried(s, w).(place := Queued)], queue := s.queue + [id],
       held := s.held - {w}, failed := s.failed + 1)
  }

  function Stall(s: State, w: nat): State
    requires w in s.held && s.held[w] < |s.tasks|
  {
    var id := s.held[w];
    s.(tasks := s.tasks[id := Retried(s, w).(place := Waiting(w))], waiting := s.waiting[w := id],
       held := s.held - {w}, failed := s.failed + 1)
  }

  /** The worker's handler failed: the task is dead, put back, or kept waiting for room. */
  function Failed(maxsize: int, s: State, w: nat): State
    requires w in s.held && s.held[w] < |s.tasks|
  {
    if Retried(s, w).retries >= Retried(s, w).maxRetries then Bury(s, w)
    else if Full(maxsize, s.queue) then Stall(s, w)
    else Requeue(s, w)
  }

  function Next(maxsize: int, s: State, step: Step): State
    requires Enabled(maxsize, s, step)
  {
    match step
    case Enqueue(maxRetries) =>
      var id := |s.tasks|;
      s.(tasks := s.tasks + [Task(0, maxRetries, 0, Queued)], queue := s.queue + [id], pending := s.pending + {id})
    case Dequeue(w) =>
      var id := s.queue[0];
      var t := s.tasks[id];
      s.(tasks := s.tasks[id := t.(dequeues := t.dequeues + 1, place := Held(w))],
         queue := s.queue[1..], held := s.held[w := id])
    case Succeed(w) =>
      s.(tasks := Move(s, s.held[w], Acked), pending := s.pending - {s.held[w]},
         held := s.held - {w}, processed := s.processed + 1)
    case Fail(w) => Failed(maxsize, s, w)
    case PutBack(w) =>
      s.(tasks := Move(s, s.waiting[w], Queued), queue := s.queue + [s.waiting[w]], waiting := s.waiting - {w})
    case Cancel(w) =>
      if w in s.held && s.held[w] < |s.tasks| then s.(tasks := Move(s, s.held[w], Abandoned), held := s.held - {w})
      else s.(tasks := Move(s, s.waiting[w], Abandoned), waiting := s.waiting - {w})
  }

  // ---------- The queue and the workers ----------

  class AsyncMessageQueue {
    const maxsize: int
    var tasks: seq<Task>
    var queue: seq<nat>
    var pending: set<nat>
    var dlq: seq<nat>

    constructor (maxsize: int)
      ensures this.maxsize == maxsize && tasks == [] && queue == [] && pending == {} && dlq == []
    {
      this.maxsize := maxsize;
      tasks, queue, pending, dlq := [], [], {}, [];
    }

    /** Runs once there is room: the put and the registration are not interrupted. */
    method Enqueue(maxRetries: int) returns (id: nat)
      requires !Full(maxsize, queue)
      modifies this
      ensures id == |old(tasks)| && tasks == old(tasks) + [Task(0, maxRetries, 0, Queued)]
      ensures queue == old(queue) + [id] && pending == old(pending) + {id} && dlq == old(dlq)
    {
      id := |tasks|;
      tasks := tasks + [Task(0, maxRetries, 0, Queued)];
      queue := queue + [id];
      pending := pending + {id};
    }

    method Dequeue(worker: nat) returns (id: nat)
      requires queue != [] && queue[0] < |tasks|
      modifies this
      ensures id == old(queue)[0] && queue == old(queue)[1..] && pending == old(pending) && dlq == old(dlq)
      ensures tasks == old(tasks)[id := old(tasks)[id].(dequeues := old(tasks)[id].dequeues + 1, place := Held(worker))]
    {
      id := queue[0];
      queue := queue[1..];
      tasks := tasks[id := tasks[id].(dequeues := tasks[id].dequeues + 1, place := Held(worker))];
    }

    method Ack(id: nat)
      requires id < |tasks|
      modifies this
      ensures tasks == old(tasks)[id := old(tasks)[id].(place := Acked)] && pending == old(pending) - {id}
      ensures queue == old(queue) && dlq == old(dlq)
    {
      pending := pending - {id};
      tasks := tasks[id := tasks[id].(place := Acked)];
    }

    /** The put of a failed task, once there is room for it. */
    method Put(id: nat)
      requires id < |tasks| && !Full(maxsize, queue)
      modifies this
      ensures tasks == old(tasks)[id := old(tasks)[id].(place := Queued)] && queue == old(queue) + [id]
      ensures pending == old(pending) && dlq == old(dlq)
    {
      queue := queue + [id];
      tasks := tasks[id := tasks[id].(place := Queued)];
    }

    /**
     Up to the put that may have to wait for room; `queued` tells whether that is done, `dead` whether it is
     needless.
     */
    method Nack(id: nat, worker: nat) returns (dead: bool, queued: bool)
      requires id < |tasks|
      modifies this
      ensures dead <==> old(tasks)[id].retries + 1 >= old(tasks)[id].maxRetries
      ensures queued <==> !dead && !Full(maxsize, old(queue))
      ensures tasks == old(tasks)[id := old(tasks)[id].(retries := old(tasks)[id].retries + 1,
                                                        place := if dead then Dead
                                                                 else if queued then Queued else Waiting(worker))]
      ensures pending == if dead then old(pending) - {id} else old(pending)
      ensures dlq == if dead then old(dlq) + [id] else old(dlq)
      ensures queue == if queued then old(queue) + [id] else old(queue)
    {
      var t := tasks[id].(retries := tasks[id].retries + 1);
      dead, queued := false, false;
      if t.retries >= t.maxRetries {
        pending := pending - {id};
        dlq := dlq + [id];
        dead := true;
        t := t.(place := Dead);
      } else if Full(maxsize, queue) {
        t := t.(place := Waiting(worker));
      } else {
        queue := queue + [id];
        queued := true;
        t := t.(place := Queued);
      }
      tasks := tasks[id := t];
    }
  }

  class WorkerPool {
    const queue: AsyncMessageQueue
    var held: map<nat, nat>
    var waiting: map<nat, nat>
    var processedCount: nat
    var failedCount: nat

    ghost function View(): State
      reads this, queue
    {
      State(queue.tasks, queue.queue, queue.pending, queue.dlq, held, waiting, processedCount, failedCount)
    }

    constructor (queue: AsyncMessageQueue)
      requires queue.tasks == [] && queue.queue == [] && queue.pending == {} && queue.dlq == []
      ensures this.queue == queue && View() == EMPTY
    {
      this.queue := queue;
      held, waiting, processedCount, failedCount := map[], map[], 0, 0;
    }

    method Take(w: nat)
      requires Enabled(queue.maxsize, View(), Dequeue(w))
      modifies this, queue
      ensures View() == Next(queue.maxsize, old(View()), Dequeue(w))
    {
      var id := queue.Dequeue(w);
      held := held[w := id];
    }

    method HandlerSucceeds(w: nat)
      requires Enabled(queue.maxsize, View(), Succeed(w))
      modifies this, queue
      ensures View() == Next(queue.maxsize, old(View()), Succeed(w))
    {
      queue.Ack(held[w]);
      processedCount := processedCount + 1;
      held := held - {w};
    }

    method HandlerFails(w: nat)
      requires Enabled(queue.maxsize, View(), Fail(w))
      modifies this, queue
      ensures View() == Next(queue.maxsize, old(View()), Fail(w))
    {
      failedCount := failedCount + 1;
      var id := held[w];
      var dead, queued := queue.Nack(id, w);
      held := held - {w};
      if !dead && !queued {
        waiting := waiting[w := id];
      }
    }

    method RoomForRetry(w: nat)
      requires Enabled(queue.maxsize, View(), PutBack(w))
      modifies this, queue
      ensures View() == Next(queue.maxsize, old(View()), PutBack(w))
    {
      queue.Put(waiting[w]);
      waiting := waiting - {w};
    }

    /** The worker is cancelled in its handler or while it waits for room; the task stays pending. */
    method CancelWorker(w: nat)
      requires Enabled(queue.maxsize, View(), Cancel(w))
      modifies this, queue`tasks
      ensures View() == Next(queue.maxsize, old(View()), Cancel(w))
    {
      if w in held && held[w] < |queue.tasks| {
        queue.tasks := queue.tasks[held[w] := queue.tasks[held[w]].(place := Abandoned)];
        held := held - {w};
      } else {
        queue.tasks := queue.tasks[waiting[w] := queue.tasks[waiting[w]].(place := Abandoned)];
        waiting := waiting - {w};
      }
    }
  }

  // ---------- Every interleaving ----------

  /** In the queue, with a handler, or with a worker that waits to put it back. */
  predicate InFlight(p: Place) {
    p.Queued? || p.Held? || p.Waiting?
  }

  /** What the dictionary of pending tasks holds: tasks in flight, and those that a cancelled worker dropped. */
  predicate IsPending(p: Place) {
    InFlight(p) || p.Abandoned?
  }

  ghost predicate NoRepeats(s: seq<nat>) {
    forall i, j :: 0 <= i < j < |s| ==> s[i] != s[j]
  }

  ghost predicate QueueAgrees(s: State) {
    && NoRepeats(s.queue)
    && forall id: nat :: id in s.queue <==> id < |s.tasks| && s.tasks[id].place.Queued?
  }

  ghost predicate PendingAgrees(s: State) {
    && |s.tasks| == |s.pending| + s.processed + |s.dlq|
    && forall id: nat :: id in s.pending <==> id < |s.tasks| && IsPending(s.tasks[id].place)
  }

  ghost predicate DlqAgrees(s: State) {
    && NoRepeats(s.dlq)
    && forall id: nat :: id in s.dlq <==> id < |s.tasks| && s.tasks[id].place.Dead?
  }

  ghost predicate HeldAgrees(s: State) {
    && (forall w: nat :: w in s.held ==> s.held[w] < |s.tasks| && s.tasks[s.held[w]].place == Held(w))
    && (forall id: nat :: id < |s.tasks| && s.tasks[id].place.Held? ==>
          s.tasks[id].place.worker in s.held && s.held[s.tasks[id].place.worker] == id)
  }

  ghost predicate WaitingAgrees(s: State) {
    && (forall w: nat :: w in s.waiting ==> s.waiting[w] < |s.tasks| && s.tasks[s.waiting[w]].place == Waiting(w))
    && (forall id: nat :: id < |s.tasks| && s.tasks[id].place.Waiting? ==>
          s.tasks[id].place.worker in s.waiting && s.waiting[s.tasks[id].place.worker] == id)
  }

  /** Each list, dictionary and worker holds exactly the tasks that are in its place. */
  ghost predicate PlacesAgree(s: State) {
    && QueueAgrees(s) && PendingAgrees(s) && DlqAgrees(s) && HeldAgrees(s) && WaitingAgrees(s)
    && forall w: nat :: w in s.held ==> w !in s.waiting
  }

  /** How the number of dequeues relates to the retries used up. */
  predicate AttemptsAgree(t: Task) {
    && t.dequeues <= AttemptLimit(t)
    && (t.place.Queued? || t.place.Waiting? ==> t.dequeues == t.retries < AttemptLimit(t))
    && (t.place.Held? ==> t.dequeues == t.retries + 1 <= AttemptLimit(t))
    && (t.place.Dead? ==> t.dequeues == t.retries == AttemptLimit(t))
  }

  ghost predicate Invariant(s: State) {
    && PlacesAgree(s)
    && forall id :: 0 <= id < |s.tasks| ==> AttemptsAgree(s.tasks[id])
  }

  /** Where one task changes, the record of every other task stays. */
  ghost predicate OnlyChanges(s: State, next: State, id: nat) {
    && id < |s.tasks| == |next.tasks|
    && forall k: nat :: k < |s.tasks| && k != id ==> next.tasks[k] == s.tasks[k]
  }

  lemma QueueLoses(s: State, next: State)
    requires QueueAgrees(s) && s.queue != [] && OnlyChanges(s, next, s.queue[0])
    requires next.queue == s.queue[1..] && !next.tasks[s.queue[0]].place.Queued?
    ensures QueueAgrees(next)
  {
    assert s.queue == [s.queue[0]] + next.queue;
    assert forall id: nat :: id in next.queue <==> id in s.queue && id != s.queue[0];
  }

  lemma QueueGains(s: State, next: State, id: nat)
    requires QueueAgrees(s) && OnlyChanges(s, next, id) && !s.tasks[id].place.Queued?
    requires next.queue == s.queue + [id] && next.tasks[id].place.Queued?
    ensures QueueAgrees(next)
  {
  }

  lemma QueueStays(s: State, next: State, id: nat)
    requires QueueAgrees(s) && OnlyChanges(s, next, id) && !s.tasks[id].place.Queued?
    requires next.queue == s.queue && !next.tasks[id].place.Queued?
    ensures QueueAgrees(next)
  {
  }

  lemma PendingStays(s: State, next: State, id: nat)
    requires PendingAgrees(s) && OnlyChanges(s, next, id) && IsPending(s.tasks[id].place)
             && IsPending(next.tasks[id].place)
    requires next.pending == s.pending && next.processed == s.processed && next.dlq == s.dlq
    ensures PendingAgrees(next)
  {
  }

  lemma DlqStays(s: State, next: State, id: nat)
    requires DlqAgrees(s) && OnlyChanges(s, next, id) && !s.tasks[id].place.Dead? && !next.tasks[id].place.Dead?
    requires next.dlq == s.dlq
    ensures DlqAgrees(next)
  {
  }

  lemma PendingLoses(s: State, next: State, id: nat)
    requires PendingAgrees(s) && OnlyChanges(s, next, id) && IsPending(s.tasks[id].place)
             && !IsPending(next.tasks[id].place)
    requires next.pending == s.pending - {id} && next.processed + |next.dlq| == s.processed + |s.dlq| + 1
    ensures PendingAgrees(next)
  {
    assert id in s.pending;
  }

  lemma HeldLoses(s: State, next: State, w: nat)
    requires HeldAgrees(s) && w in s.held && OnlyChanges(s, next, s.held[w])
    requires next.held == s.held - {w} && !next.tasks[s.held[w]].place.Held?
    ensures HeldAgrees(next)
  {
    var id := s.held[w];
    forall v: nat | v in next.held
      ensures next.held[v] < |next.tasks| && next.tasks[next.held[v]].place == Held(v)
    {
      assert s.tasks[s.held[v]].place == Held(v) && s.tasks[id].place == Held(w);
    }
  }

  lemma HeldGains(s: State, next: State, id: nat, w: nat)
    requires HeldAgrees(s) && OnlyChanges(s, next, id) && !s.tasks[id].place.Held? && w !in s.held
    requires next.held == s.held[w := id] && next.tasks[id].place == Held(w)
    ensures HeldAgrees(next)
  {
  }

  lemma HeldStays(s: State, next: State, id: nat)
    requires HeldAgrees(s) && OnlyChanges(s, next, id) && !s.tasks[id].place.Held? && !next.tasks[id].place.Held?
    requires next.held == s.held
    ensures HeldAgrees(next)
  {
  }

  lemma WaitingStays(s: State, next: State, id: nat)
    requires WaitingAgrees(s) && OnlyChanges(s, next, id) && !s.tasks[id].place.Waiting?
             && !next.tasks[id].place.Waiting?
    requires next.waiting == s.waiting
    ensures WaitingAgrees(next)
  {
  }

  lemma WaitingLoses(s: State, next: State, w: nat)
    requires WaitingAgrees(s) && w in s.waiting && OnlyChanges(s, next, s.waiting[w])
    requires next.waiting == s.waiting - {w} && !next.tasks[s.waiting[w]].place.Waiting?
    ensures WaitingAgrees(next)
  {
    var id := s.waiting[w];
    forall v: nat | v in next.waiting
      ensures next.waiting[v] < |next.tasks| && next.tasks[next.waiting[v]].place == Waiting(v)
    {
      assert s.tasks[s.waiting[v]].place == Waiting(v) && s.tasks[id].place == Waiting(w);
    }
  }

  lemma QueueGainsNew(s: State, next: State, t: Task)
    requires QueueAgrees(s) && next.tasks == s.tasks + [t] && next.queue == s.queue + [|s.tasks|] && t.place.Queued?
    ensures QueueAgrees(next)
  {
    assert |s.tasks| !in s.queue;
    assert forall i :: 0 <= i < |s.queue| ==> next.queue[i] in s.queue;
  }

  lemma PendingGainsNew(s: State, next: State, t: Task)
    requires PendingAgrees(s) && next.tasks == s.tasks + [t] && next.pending == s.pending + {|s.tasks|}
             && t.place.Queued?
    requires next.processed == s.processed && next.dlq == s.dlq
    ensures PendingAgrees(next)
  {
    assert |s.tasks| !in s.pending;
  }

  lemma OthersSeeNothing(s: State, next: State, t: Task)
    requires DlqAgrees(s) && HeldAgrees(s) && WaitingAgrees(s) && next.tasks == s.tasks + [t] && t.place.Queued?
    requires next.dlq == s.dlq && next.held == s.held && next.waiting == s.waiting
    ensures DlqAgrees(next) && HeldAgrees(next) && WaitingAgrees(next)
  {
  }

  lemma EnqueueKeeps(maxsize: int, s: State, maxRetries: int)
    requires Invariant(s) && Enabled(maxsize, s, Enqueue(maxRetries))
    ensures Invariant(Next(maxsize, s, Enqueue(maxRetries)))
  {
    var next, t := Next(maxsize, s, Enqueue(maxRetries)), Task(0, maxRetries, 0, Queued);
    QueueGainsNew(s, next, t);
    PendingGainsNew(s, next, t);
    OthersSeeNothing(s, next, t);
  }

  lemma DequeueKeeps(maxsize: int, s: State, w: nat)
    requires Invariant(s) && Enabled(maxsize, s, Dequeue(w))
    ensures Invariant(Next(maxsize, s, Dequeue(w)))
  {
    var id, next := s.queue[0], Next(maxsize, s, Dequeue(w));
    assert s.queue[0] in s.queue;
    QueueLoses(s, next);
    PendingStays(s, next, id);
    DlqStays(s, next, id);
    HeldGains(s, next, id, w);
    WaitingStays(s, next, id);
    assert AttemptsAgree(s.tasks[id]);
  }

  lemma SucceedKeeps(maxsize: int, s: State, w: nat)
    requires Invariant(s) && Enabled(maxsize, s, Succeed(w))
    ensures Invariant(Next(maxsize, s, Succeed(w)))
  {
    var id, next := s.held[w], Next(maxsize, s, Succeed(w));
    QueueStays(s, next, id);
    PendingLoses(s, next, id);
    DlqStays(s, next, id);
    HeldLoses(s, next, w);
    WaitingStays(s, next, id);
  }

  lemma BuryKeeps(s: State, w: nat)
    requires Invariant(s) && w in s.held && s.held[w] < |s.tasks|
             && Retried(s, w).retries >= s.tasks[s.held[w]].maxRetries
    ensures Invariant(Bury(s, w))
  {
    var id, next := s.held[w], Bury(s, w);
    QueueStays(s, next, id);
    PendingLoses(s, next, id);
    HeldLoses(s, next, w);
    WaitingStays(s, next, id);
    assert AttemptsAgree(s.tasks[id]);
    assert id !in s.dlq;
    assert DlqAgrees(next);
  }

  lemma RequeueKeeps(s: State, w: nat)
    requires Invariant(s) && w in s.held && s.held[w] < |s.tasks|
             && Retried(s, w).retries < s.tasks[s.held[w]].maxRetries
    ensures Invariant(Requeue(s, w))
  {
    var id, next := s.held[w], Requeue(s, w);
    QueueGains(s, next, id);
    PendingStays(s, next, id);
    DlqStays(s, next, id);
    HeldLoses(s, next, w);
    WaitingStays(s, next, id);
    assert AttemptsAgree(s.tasks[id]);
  }

  lemma StallKeeps(s: State, w: nat)
    requires Invariant(s) && w in s.held && s.held[w] < |s.tasks|
             && Retried(s, w).retries < s.tasks[s.held[w]].maxRetries
    requires w !in s.waiting
    ensures Invariant(Stall(s, w))
  {
    var id, next := s.held[w], Stall(s, w);
    QueueStays(s, next, id);
    PendingStays(s, next, id);
    DlqStays(s, next, id);
    HeldLoses(s, next, w);
    assert AttemptsAgree(s.tasks[id]);
    assert WaitingAgrees(next);
  }

  lemma PutBackKeeps(maxsize: int, s: State, w: nat)
    requires Invariant(s) && Enabled(maxsize, s, PutBack(w))
    ensures Invariant(Next(maxsize, s, PutBack(w)))
  {
    var id, next := s.waiting[w], Next(maxsize, s, PutBack(w));
    QueueGains(s, next, id);
    PendingStays(s, next, id);
    DlqStays(s, next, id);
    HeldStays(s, next, id);
    WaitingLoses(s, next, w);
  }

  lemma CancelKeeps(maxsize: int, s: State, w: nat)
    requires Invariant(s) && Enabled(maxsize, s, Cancel(w))
    ensures Invariant(Next(maxsize, s, Cancel(w)))
  {
    var next := Next(maxsize, s, Cancel(w));
    var held := w in s.held && s.held[w] < |s.tasks|;
    var id := if held then s.held[w] else s.waiting[w];
    QueueStays(s, next, id);
    PendingStays(s, next, id);
    DlqStays(s, next, id);
    if held {
      HeldLoses(s, next, w);
      WaitingStays(s, next, id);
    } else {
      HeldStays(s, next, id);
      WaitingLoses(s, next, w);
    }
  }

  lemma FailKeeps(maxsize: int, s: State, w: nat)
    requires Invariant(s) && Enabled(maxsize, s, Fail(w))
    ensures Invariant(Next(maxsize, s, Fail(w)))
  {
    if Retried(s, w).retries >= Retried(s, w).maxRetries {
      BuryKeeps(s, w);
    } else if Full(maxsize, s.queue) {
      StallKeeps(s, w);
    } else {
      RequeueKeeps(s, w);
    }
  }

  lemma StepKeeps(maxsize: int, s: State, step: Step)
    requires Invariant(s) && Enabled(maxsize, s, step)
    ensures Invariant(Next(maxsize, s, step))
  {
    match step {
      case Enqueue(m) => EnqueueKeeps(maxsize, s, m);
      case Dequeue(w) => DequeueKeeps(maxsize, s, w);
      case Succeed(w) => SucceedKeeps(maxsize, s, w);
      case Fail(w) => FailKeeps(maxsize, s, w);
      case PutBack(w) => PutBackKeeps(maxsize, s, w);
      case Cancel(w) => CancelKeeps(maxsize, s, w);
    }
  }

  /** A step that is not enabled does not happen. */
  function After(maxsize: int, s: State, step: Step): State {
    if Enabled(maxsize, s, step) then Next(maxsize, s, step) else s
  }

  lemma AfterKeeps(maxsize: int, s: State, step: Step)
    requires Invariant(s)
    ensures Invariant(After(maxsize, s, step))
  {
    if Enabled(maxsize, s, step) {
      StepKeeps(maxsize, s, step);
    }
  }

  function Run(maxsize: int, s: State, steps: seq<Step>): State
    decreases |steps|
  {
    if steps == [] then s else Run(maxsize, After(maxsize, s, steps[0]), steps[1..])
  }

  lemma {:induction false} RunKeeps(maxsize: int, s: State, steps: seq<Step>)
    requires Invariant(s)
    ensures Invariant(Run(maxsize, s, steps))
    decreases |steps|
  {
    if steps != [] {
      AfterKeeps(maxsize, s, steps[0]);
      RunKeeps(maxsize, After(maxsize, s, steps[0]), steps[1..]);
    }
  }

  /** The task that a worker has when it is cancelled. */
  function TaskOf(s: State, w: nat): nat
    requires w in s.held || w in s.waiting
  {
    if w in s.held then s.held[w] else s.waiting[w]
  }

  /** The step cancels the worker that has the task. */
  predicate Drops(maxsize: int, s: State, step: Step, id: nat) {
    Enabled(maxsize, s, step) && step.Cancel? && TaskOf(s, step.worker) == id
  }

  predicate DropsInRun(maxsize: int, s: State, steps: seq<Step>, id: nat)
    decreases |steps|
  {
    steps != [] && (Drops(maxsize, s, steps[0], id) || DropsInRun(maxsize, After(maxsize, s, steps[0]), steps[1..], id))
  }

  predicate IsAbandoned(s: State, id: nat) {
    id < |s.tasks| && s.tasks[id].place.Abandoned?
  }

  /** The task that a step other than an enqueue is about. */
  function Touched(maxsize: int, s: State, step: Step): nat
    requires Enabled(maxsize, s, step) && !step.Enqueue?
  {
    match step
    case Dequeue(_) => s.queue[0]
    case PutBack(w) => s.waiting[w]
    case Cancel(w) => if w in s.held && s.held[w] < |s.tasks| then s.held[w] else s.waiting[w]
    case Succeed(w) => s.held[w]
    case Fail(w) => s.held[w]
  }

  /** A step takes its task out of flight, or leaves it there, and touches no other. */
  lemma StepTouches(maxsize: int, s: State, step: Step)
    requires Invariant(s) && Enabled(maxsize, s, step) && !step.Enqueue?
    ensures var id, next := Touched(maxsize, s, step), Next(maxsize, s, step);
            && id < |s.tasks| == |next.tasks| && next.tasks == s.tasks[id := next.tasks[id]]
            && InFlight(s.tasks[id].place) && (next.tasks[id].place.Abandoned? <==> step.Cancel?)
  {
    if step.Dequeue? {
      assert s.queue[0] in s.queue;
    }
  }

  lemma AbandonedAfterStep(maxsize: int, s: State, step: Step, id: nat)
    requires Invariant(s)
    ensures IsAbandoned(After(maxsize, s, step), id) <==> IsAbandoned(s, id) || Drops(maxsize, s, step, id)
  {
    if Enabled(maxsize, s, step) && !step.Enqueue? {
      StepTouches(maxsize, s, step);
    }
  }

  /** A task is abandoned after a run exactly when it was before, or a worker that had it was cancelled. */
  lemma {:induction false} AbandonedIffDropped(maxsize: int, s: State, steps: seq<Step>, id: nat)
    requires Invariant(s)
    ensures IsAbandoned(Run(maxsize, s, steps), id) <==> IsAbandoned(s, id) || DropsInRun(maxsize, s, steps, id)
    decreases |steps|
  {
    if steps != [] {
      AfterKeeps(maxsize, s, steps[0]);
      AbandonedAfterStep(maxsize, s, steps[0], id);
      AbandonedIffDropped(maxsize, After(maxsize, s, steps[0]), steps[1..], id);
    }
  }

  /** A dropped task stays pending for ever: it is never handed out, acknowledged or buried. */
  lemma AbandonedForGood(maxsize: int, s: State, steps: seq<Step>, id: nat)
    requires Invariant(s) && IsAbandoned(s, id)
    ensures var t := Run(maxsize, s, steps);
            && id in t.pending && id !in t.queue && id !in t.dlq
            && (forall w :: w in t.held ==> t.held[w] != id) && (forall w :: w in t.waiting ==> t.waiting[w] != id)
  {
    AbandonedIffDropped(maxsize, s, steps, id);
    RunKeeps(maxsize, s, steps);
  }

  /** Every pending task is queued or in flight. */
  ghost predicate InHand(s: State) {
    forall id :: id in s.pending ==> id < |s.tasks| && InFlight(s.tasks[id].place)
  }

  /** Some worker that has a task is cancelled. */
  predicate Cancels(maxsize: int, s: State, steps: seq<Step>)
    decreases |steps|
  {
    steps != [] && ((Enabled(maxsize, s, steps[0]) && steps[0].Cancel?)
                    || Cancels(maxsize, After(maxsize, s, steps[0]), steps[1..]))
  }

  lemma {:induction false} DropIsCancel(maxsize: int, s: State, steps: seq<Step>, id: nat)
    requires DropsInRun(maxsize, s, steps, id)
    ensures Cancels(maxsize, s, steps)
    decreases |steps|
  {
    if !Drops(maxsize, s, steps[0], id) {
      DropIsCancel(maxsize, After(maxsize, s, steps[0]), steps[1..], id);
    }
  }

  lemma {:induction false} CancelIsDrop(maxsize: int, s: State, steps: seq<Step>) returns (id: nat)
    requires Cancels(maxsize, s, steps)
    ensures DropsInRun(maxsize, s, steps, id)
    decreases |steps|
  {
    if Enabled(maxsize, s, steps[0]) && steps[0].Cancel? {
      id := TaskOf(s, steps[0].worker);
    } else {
      id := CancelIsDrop(maxsize, After(maxsize, s, steps[0]), steps[1..]);
    }
  }

  lemma AbandonedIsPending(s: State, id: nat)
    requires Invariant(s)
    ensures id in s.pending <==> (id < |s.tasks| && InFlight(s.tasks[id].place)) || IsAbandoned(s, id)
  {
  }

  /** No pending task is lost track of exactly when no worker that has a task is cancelled. */
  lemma InHandIffNoCancel(maxsize: int, s: State, steps: seq<Step>)
    requires Invariant(s) && InHand(s)
    ensures InHand(Run(maxsize, s, steps)) <==> !Cancels(maxsize, s, steps)
  {
    var t := Run(maxsize, s, steps);
    RunKeeps(maxsize, s, steps);
    if Cancels(maxsize, s, steps) {
      var id := CancelIsDrop(maxsize, s, steps);
      AbandonedIffDropped(maxsize, s, steps, id);
      AbandonedIsPending(t, id);
    } else {
      forall id | id in t.pending
        ensures id < |t.tasks| && InFlight(t.tasks[id].place)
      {
        AbandonedIsPending(s, id);
        AbandonedIsPending(t, id);
        AbandonedIffDropped(maxsize, s, steps, id);
        if DropsInRun(maxsize, s, steps, id) {
          DropIsCancel(maxsize, s, steps, id);
        }
      }
    }
  }

  /** A task whose worker is stopped inside its handler is pending, but nobody has it. */
  lemma StoppedWorkerLosesTask(maxsize: int)
    ensures var s := Run(maxsize, EMPTY, [Enqueue(3), Dequeue(0), Cancel(0)]);
            && s.pending == {0} && s.queue == [] && s.dlq == []
            && s.held == map[] && s.waiting == map[] && s.processed == 0
  {
    var steps := [Enqueue(3), Dequeue(0), Cancel(0)];
    assert steps[1..] == [Dequeue(0), Cancel(0)];
    assert [Dequeue(0), Cancel(0)][1..] == [Cancel(0)] && [Cancel(0)][1..] == [];
    var s1 := Next(maxsize, EMPTY, Enqueue(3));
    var s2 := Next(maxsize, s1, Dequeue(0));
    var s3 := Next(maxsize, s2, Cancel(0));
    assert s1.queue == [0] && s2.queue == [] && s2.held == map[0 := 0] && s3.held == map[];
    assert Run(maxsize, s2, [Cancel(0)]) == Run(maxsize, s3, []);
    assert Run(maxsize, s1, [Dequeue(0), Cancel(0)]) == Run(maxsize, s2, [Cancel(0)]);
  }

  /**
   After every run each task is in exactly one of four: queued or in flight, acknowledged,
   dead-letter, or dropped by a cancelled worker.  The first and the last make up the pending
   dictionary, the three counts add up, and no task was dequeued more than max(1, max_retries) times.
   */
  lemma Conservation(maxsize: int, steps: seq<Step>, id: nat)
    requires id < |Run(maxsize, EMPTY, steps).tasks|
    ensures var s := Run(maxsize, EMPTY, steps);
            var dropped := DropsInRun(maxsize, EMPTY, steps, id);
            && (id in s.pending <==> InFlight(s.tasks[id].place) || dropped)
            && !(InFlight(s.tasks[id].place) && dropped)
            && (id in s.dlq <==> s.tasks[id].place.Dead?) && !(id in s.pending && id in s.dlq)
            && (id !in s.pending && id !in s.dlq <==> s.tasks[id].place.Acked?)
            && |s.tasks| == |s.pending| + s.processed + |s.dlq|
            && s.tasks[id].dequeues <= AttemptLimit(s.tasks[id])
            && (id in s.dlq ==> s.tasks[id].dequeues == AttemptLimit(s.tasks[id]))
  {
    RunKeeps(maxsize, EMPTY, steps);
    AbandonedIffDropped(maxsize, EMPTY, steps, id);
    assert AttemptsAgree(Run(maxsize, EMPTY, steps).tasks[id]);
  }

  // ---------- Termination ----------

  /** How often the task can still be dequeued. */
  function AttemptsLeft(t: Task): nat {
    if (t.place.Queued? || t.place.Held? || t.place.Waiting?) && t.dequeues <= AttemptLimit(t)
    then AttemptLimit(t) - t.dequeues else 0
  }

  function TotalLeft(tasks: seq<Task>): nat {
    if tasks == [] then 0 else AttemptsLeft(tasks[0]) + TotalLeft(tasks[1..])
  }

  lemma {:induction false} TotalAfterUpdate(tasks: seq<Task>, id: nat, t: Task)
    requires id < |tasks|
    ensures TotalLeft(tasks[id := t]) == TotalLeft(tasks) - AttemptsLeft(tasks[id]) + AttemptsLeft(t)
  {
    if id == 0 {
      assert tasks[id := t][1..] == tasks[1..];
    } else {
      assert tasks[id := t][1..] == tasks[1..][id - 1 := t];
      TotalAfterUpdate(tasks[1..], id - 1, t);
    }
  }

  lemma LeftAfterStep(maxsize: int, s: State, step: Step)
    requires Invariant(s) && Enabled(maxsize, s, step) && !step.Enqueue?
    ensures TotalLeft(Next(maxsize, s, step).tasks) <= TotalLeft(s.tasks) - if step.Dequeue? then 1 else 0
  {
    var id, next := Touched(maxsize, s, step), Next(maxsize, s, step);
    StepTouches(maxsize, s, step);
    TotalAfterUpdate(s.tasks, id, next.tasks[id]);
    assert AttemptsAgree(s.tasks[id]);
    if step.Dequeue? {
      assert s.queue[0] in s.queue;
    }
  }

  /** The dequeues that really happen in a run. */
  function Dequeues(maxsize: int, s: State, steps: seq<Step>): nat
    decreases |steps|
  {
    if steps == [] then 0
    else
      Dequeues(maxsize, After(maxsize, s, steps[0]), steps[1..])
      + if steps[0].Dequeue? && Enabled(maxsize, s, steps[0]) then 1 else 0
  }

  /** Without new tasks, the attempts left bound every further dequeue. */
  lemma {:induction false} DequeuesAreBounded(maxsize: int, s: State, steps: seq<Step>)
    requires Invariant(s) && forall i :: 0 <= i < |steps| ==> !steps[i].Enqueue?
    ensures Dequeues(maxsize, s, steps) <= TotalLeft(s.tasks)
    decreases |steps|
  {
    if steps != [] {
      AfterKeeps(maxsize, s, steps[0]);
      if Enabled(maxsize, s, steps[0]) {
        LeftAfterStep(maxsize, s, steps[0]);
      }
      DequeuesAreBounded(maxsize, After(maxsize, s, steps[0]), steps[1..]);
    }
  }

  // ---------- First come, first served ----------

  /** A task that nobody has had is queued, behind all such tasks that were enqueued before it. */
  ghost predicate InTurn(s: State) {
    && (forall id: nat :: id < |s.tasks| && s.tasks[id].dequeues == 0 ==> s.tasks[id].place.Queued?)
    && (forall j: nat, k: nat :: j < k < |s.queue| && Untouched(s, s.queue[j]) && Untouched(s, s.queue[k]) ==>
          s.queue[j] < s.queue[k])
    && (forall a: nat, b: nat :: a < b < |s.tasks| && s.tasks[b].dequeues > 0 ==> s.tasks[a].dequeues > 0)
  }

  predicate Untouched(s: State, id: nat) {
    id < |s.tasks| && s.tasks[id].dequeues == 0
  }

  /** Nothing that was not dequeued before is dequeued or moved in the queue. */
  lemma TurnStays(s: State, next: State, id: nat)
    requires InTurn(s) && OnlyChanges(s, next, id) && s.tasks[id].dequeues == next.tasks[id].dequeues > 0
    requires next.queue == s.queue || next.queue == s.queue + [id]
    ensures InTurn(next)
  {
    assert forall k: nat :: Untouched(next, k) ==> Untouched(s, k);
  }

  lemma EnqueueInTurn(maxsize: int, s: State, maxRetries: int)
    requires Invariant(s) && InTurn(s) && Enabled(maxsize, s, Enqueue(maxRetries))
    ensures InTurn(Next(maxsize, s, Enqueue(maxRetries)))
  {
    var next, id := Next(maxsize, s, Enqueue(maxRetries)), |s.tasks|;
    forall j: nat, k: nat | j < k < |next.queue| && Untouched(next, next.queue[j]) && Untouched(next, next.queue[k])
      ensures next.queue[j] < next.queue[k]
    {
      assert s.queue[j] in s.queue;
      if k < |s.queue| {
        assert s.queue[k] in s.queue;
        assert Untouched(s, s.queue[j]) && Untouched(s, s.queue[k]);
      }
    }
  }

  lemma OlderWereServed(s: State, a: nat)
    requires Invariant(s) && InTurn(s) && s.queue != [] && a < s.queue[0] < |s.tasks|
    ensures s.tasks[a].dequeues > 0
  {
    if s.tasks[a].dequeues == 0 && s.tasks[s.queue[0]].dequeues == 0 {
      assert a in s.queue;
      var k: nat :| k < |s.queue| && s.queue[k] == a;
      assert Untouched(s, s.queue[0]) && Untouched(s, s.queue[k]);
    }
  }

  lemma DequeueInTurn(maxsize: int, s: State, w: nat)
    requires Invariant(s) && InTurn(s) && Enabled(maxsize, s, Dequeue(w))
    ensures InTurn(Next(maxsize, s, Dequeue(w)))
  {
    var next, id := Next(maxsize, s, Dequeue(w)), s.queue[0];
    forall a: nat, b: nat | a < b < |next.tasks| && next.tasks[b].dequeues > 0
      ensures next.tasks[a].dequeues > 0
    {
      if b == id {
        OlderWereServed(s, a);
      }
    }
    assert forall k: nat :: Untouched(next, k) ==> Untouched(s, k);
  }

  lemma StepInTurn(maxsize: int, s: State, step: Step)
    requires Invariant(s) && InTurn(s) && Enabled(maxsize, s, step)
    ensures InTurn(Next(maxsize, s, step))
  {
    var next := Next(maxsize, s, step);
    match step {
      case Enqueue(m) => EnqueueInTurn(maxsize, s, m);
      case Dequeue(w) => DequeueInTurn(maxsize, s, w);
      case Succeed(w) => TurnStays(s, next, s.held[w]);
      case Fail(w) => TurnStays(s, next, s.held[w]);
      case PutBack(w) => TurnStays(s, next, s.waiting[w]);
      case Cancel(w) => TurnStays(s, next, TaskOf(s, w));
    }
  }

  lemma {:induction false} RunInTurn(maxsize: int, s: State, steps: seq<Step>)
    requires Invariant(s) && InTurn(s)
    ensures InTurn(Run(maxsize, s, steps))
    decreases |steps|
  {
    if steps != [] {
      AfterKeeps(maxsize, s, steps[0]);
      if Enabled(maxsize, s, steps[0]) {
        StepInTurn(maxsize, s, steps[0]);
      }
      RunInTurn(maxsize, After(maxsize, s, steps[0]), steps[1..]);
    }
  }

  /** However workers, failures and cancellations interleave, no task is first handed out before an older one. */
  lemma FirstComeFirstServed(maxsize: int, steps: seq<Step>, older: nat, newer: nat)
    requires older < newer < |Run(maxsize, EMPTY, steps).tasks|
    ensures var s := Run(maxsize, EMPTY, steps); s.tasks[newer].dequeues > 0 ==> s.tasks[older].dequeues > 0
  {
    RunInTurn(maxsize, EMPTY, steps);
  }

  // ---------- The bound of the queue ----------

  lemma StepWithinBound(maxsize: int, s: State, step: Step)
    requires maxsize > 0 && |s.queue| <= maxsize && Enabled(maxsize, s, step)
    ensures |Next(maxsize, s, step).queue| <= maxsize
  {
  }

  /** A bounded queue never holds more than its bound, and a new task is accepted exactly while it holds less. */
  lemma {:induction false} QueueIsBounded(maxsize: int, s: State, steps: seq<Step>, maxRetries: int)
    requires maxsize > 0 && |s.queue| <= maxsize
    ensures var t := Run(maxsize, s, steps);
            |t.queue| <= maxsize && (Enabled(maxsize, t, Enqueue(maxRetries)) <==> |t.queue| < maxsize)
    decreases |steps|
  {
    if steps != [] {
      if Enabled(maxsize, s, steps[0]) {
        StepWithinBound(maxsize, s, steps[0]);
      }
      QueueIsBounded(maxsize, After(maxsize, s, steps[0]), steps[1..], maxRetries);
    }
  }
}
