/**
 What a finished, cancelled or newly queued task does to the lane of its session: who gets the slot next, who is
 ended on the way and with which status. Stated without the scheduler's own functions.
 */
module TaskSlots {
  import opened Common
  import opened SessionQueue

  predicate CanRun(tasks: Tasks, id: TaskId, io: Faults) {
    !Dead(tasks, id) && !tasks[id].cancelling && id !in io.submit
  }

  /** Every task of `gone` that is cancelling ends as cancelled, every other one the executor refused as failed; nothing else changes. */
  ghost predicate Ended(tasks: Tasks, after: Tasks, gone: seq<TaskId>, io: Faults) {
    && after.Keys == tasks.Keys
    && forall id :: id in tasks ==>
         after[id] == if id !in gone || Dead(tasks, id) then tasks[id]
                      else if tasks[id].cancelling then tasks[id].(status := Cancelled)
                      else if id in io.submit then tasks[id].(status := Failed)
                      else tasks[id]
  }

  /** Persisting `queue[i]`, which is ended there, raises. */
  predicate Raises(tasks: Tasks, queue: seq<TaskId>, io: Faults, i: nat)
    requires i < |queue|
  {
    !Dead(tasks, queue[i]) && !CanRun(tasks, queue[i], io) && queue[i] in io.persist
  }

  /** The free slot goes to `queue[n]`, the first that can run; with none, or after a write that raises, the lane stays free. */
  ghost predicate Served(tasks: Tasks, queue: seq<TaskId>, io: Faults, after: Tasks, lane: Lane, n: nat) {
    && n <= |queue| && Ended(tasks, after, queue[..n], io)
    && (forall i :: 0 <= i < n ==> !CanRun(tasks, queue[i], io) && (i < n - 1 ==> !Raises(tasks, queue, io, i)))
    && lane == (if n > 0 && Raises(tasks, queue, io, n - 1) then Lane(None, queue[n..])
                else if n < |queue| then Lane(Some(queue[n]), queue[n + 1..])
                else Lane(None, []))
    && (lane.active.Some? ==> CanRun(tasks, lane.active.value, io))
  }

  /** One more head is passed over: dead already, or ended into `skipped`. */
  lemma ServedOneMore(tasks: Tasks, skipped: Tasks, queue: seq<TaskId>, io: Faults, after: Tasks, lane: Lane, n: nat)
    requires queue != [] && Distinct(queue) && !CanRun(tasks, queue[0], io) && !Raises(tasks, queue, io, 0)
    requires Ended(tasks, skipped, [queue[0]], io) && Served(skipped, queue[1..], io, after, lane, n)
    ensures Served(tasks, queue, io, after, lane, n + 1)
  {
    var rest := queue[1..];
    assert queue[..n + 1] == [queue[0]] + rest[..n];
    forall i | 0 <= i < |rest|
      ensures rest[i] == queue[i + 1] && rest[i] != queue[0]
    {
      assert queue[0] != queue[i + 1];
    }
    forall i | 0 <= i < |rest|
      ensures Dead(skipped, rest[i]) == Dead(tasks, rest[i]) && CanRun(skipped, rest[i], io) == CanRun(tasks, rest[i], io)
    {
    }
    forall i | 0 <= i < n + 1
      ensures !CanRun(tasks, queue[i], io) && (i < n ==> !Raises(tasks, queue, io, i))
    {
      if i > 0 {
        assert rest[i - 1] == queue[i];
        assert i < n ==> !Raises(skipped, rest, io, i - 1);
      }
    }
    assert queue[n + 1..] == rest[n..];
    assert n > 0 ==> Raises(skipped, rest, io, n - 1) == Raises(tasks, queue, io, n);
    assert n < |rest| ==> queue[n + 2..] == rest[n + 1..];
  }

  lemma {:induction false} SchedulingServes(tasks: Tasks, queue: seq<TaskId>, io: Faults) returns (n: nat)
    requires Distinct(queue)
    ensures var r := Scheduled(tasks, Lane(None, queue), io); Served(tasks, queue, io, r.tasks, r.lane, n)
    decreases |queue|
  {
    n := 0;
    if queue != [] && !CanRun(tasks, queue[0], io) {
      var id := queue[0];
      var skipped := SetStatus(tasks, id, if !Dead(tasks, id) && tasks[id].cancelling then Cancelled else Failed);
      if Raises(tasks, queue, io, 0) {
        n := 1;
        assert queue[..1] == [id];
      } else {
        n := SchedulingServes(skipped, queue[1..], io);
        var r := Scheduled(tasks, Lane(None, queue), io);
        assert r == Scheduled(skipped, Lane(None, queue[1..]), io);
        ServedOneMore(tasks, skipped, queue, io, r.tasks, r.lane, n);
        n := n + 1;
      }
    }
  }

  /** Only the tasks and this one lane are touched. */
  ghost predicate OtherLanesStay(m: Manager, r: Manager, k: Key) {
    forall q :: q != k ==> LaneOf(r, q) == LaneOf(m, q)
  }

  /**
   A task that releases the slot it has gives it to the first waiting task that can run, or leaves it free; a
   release by a task that does not have the slot changes nothing while another one has it.
   */
  lemma ReleasedExactly(m: Manager, id: TaskId, k: Key, io: Faults) returns (n: nat)
    requires Inv(m) && (id in m.tasks ==> m.tasks[id].key == k)
    ensures var r, lane := Step(m, Release(id, k, io)), LaneOf(m, k);
      && OtherLanesStay(m, r, k)
      && (lane.active.Some? && lane.active != Some(id) ==> LaneOf(r, k) == lane && r.tasks == m.tasks)
      && (lane.active.None? || lane.active == Some(id) ==> Served(m.tasks, lane.queue, io, r.tasks, LaneOf(r, k), n))
      && (lane.active == Some(id) || Dead(m.tasks, id) || id !in lane.queue ==> LaneOf(r, k).active != Some(id))
  {
    assert LaneAt(m, k);
    n := SchedulingServes(m.tasks, LaneOf(m, k).queue, io);
  }

  /** Without faults: the slot of a finished task goes to the first waiting task neither dead nor cancelling, or to nobody. */
  lemma SlotIsPassedOn(m: Manager, id: TaskId, k: Key)
    requires Inv(m) && (id in m.tasks ==> m.tasks[id].key == k) && LaneOf(m, k).active == Some(id)
    ensures var r, queue := Step(m, Release(id, k, Faults({}, {}))), LaneOf(m, k).queue;
      && ((forall x :: x in queue ==> Dead(m.tasks, x) || m.tasks[x].cancelling) ==> LaneOf(r, k) == Lane(None, []))
      && (forall i :: 0 <= i < |queue| && !Dead(m.tasks, queue[i]) && !m.tasks[queue[i]].cancelling
                      && (forall j :: 0 <= j < i ==> Dead(m.tasks, queue[j]) || m.tasks[queue[j]].cancelling)
                      ==> LaneOf(r, k) == Lane(Some(queue[i]), queue[i + 1..]))
  {
    var n := ReleasedExactly(m, id, k, Faults({}, {}));
  }

  // ---------------------------------------------------------------- cancelling

  /** A task that has not finished is cancelled and its token set; a finished one, and every other one, is left as it is. */
  predicate OnlyCancels(tasks: Tasks, after: Tasks, id: TaskId)
    requires id in tasks
  {
    after == tasks[id := if Terminal(tasks[id].status) then tasks[id] else tasks[id].(status := Cancelled, cancelling := true)]
  }

  /** The others still wait, in the same order. */
  ghost predicate LeftBy(queue: seq<TaskId>, rest: seq<TaskId>, id: TaskId) {
    && Distinct(rest) && (forall x :: x in rest <==> x in queue && x != id)
    && (forall a, b :: Ahead(queue, a, b) && a != id && b != id ==> Ahead(rest, a, b))
  }

  lemma CancelServes(m: Manager, c: Tasks, id: TaskId, k: Key, io: Faults) returns (n: nat)
    requires id in m.tasks && m.tasks[id].key == k && c == Cancelling(m.tasks, id) && LaneOf(m, k).active == Some(id) && m.tasks[id].batch
    requires Distinct(LaneOf(m, k).queue)
    ensures var r := CancelOne(m, id, io);
      OtherLanesStay(m, r, k) && Served(c, LaneOf(m, k).queue, io, r.tasks, LaneOf(r, k), n)
  {
    n := SchedulingServes(c, LaneOf(m, k).queue, io);
  }

  lemma CancelDequeues(m: Manager, c: Tasks, id: TaskId, k: Key, io: Faults) returns (n: nat)
    requires id in m.tasks && m.tasks[id].key == k && c == Cancelling(m.tasks, id) && LaneOf(m, k).active != Some(id)
    requires Distinct(Without(LaneOf(m, k).queue, id))
    ensures var r, lane := CancelOne(m, id, io), LaneOf(m, k);
      && OtherLanesStay(m, r, k)
      && (lane.active.Some? ==> r.tasks == c && LaneOf(r, k) == Lane(lane.active, Without(lane.queue, id)))
      && (lane.active.None? ==> Served(c, Without(lane.queue, id), io, r.tasks, LaneOf(r, k), n))
  {
    n := SchedulingServes(c, Without(LaneOf(m, k).queue, id), io);
  }

  /**
   A cancelled task keeps its slot when it is active and no batch. A batch passes its slot on. A task that does not
   have the slot leaves the queue, and a lane that is free is served.
   */
  lemma CancelledExactly(m: Manager, id: TaskId, io: Faults) returns (c: Tasks, queue: seq<TaskId>, n: nat)
    requires Inv(m) && id in m.tasks
    ensures var r, k := Step(m, Cancel(id, io)), m.tasks[id].key; var lane := LaneOf(m, k);
      && OnlyCancels(m.tasks, c, id) && OtherLanesStay(m, r, k)
      && (if lane.active == Some(id) then queue == lane.queue else LeftBy(lane.queue, queue, id))
      && (if lane.active.None? || (lane.active == Some(id) && m.tasks[id].batch)
          then Served(c, queue, io, r.tasks, LaneOf(r, k), n)
          else r.tasks == c && LaneOf(r, k) == Lane(lane.active, queue))
  {
    var k := m.tasks[id].key;
    assert LaneAt(m, k);
    c, queue, n := Cancelling(m.tasks, id), LaneOf(m, k).queue, 0;
    if LaneOf(m, k).active != Some(id) {
      WithoutKeepsOrder(queue, id);
      n := CancelDequeues(m, c, id, k, io);
      queue := Without(queue, id);
    } else if m.tasks[id].batch {
      n := CancelServes(m, c, id, k, io);
    }
  }

  /** After a cancel the task is on its lane exactly when it had the slot and is no batch. */
  lemma CancelledLeavesExactly(m: Manager, id: TaskId, io: Faults)
    requires Inv(m) && id in m.tasks
    ensures var r, k := Step(m, Cancel(id, io)), m.tasks[id].key;
      && (OnLane(LaneOf(r, k), id) <==> LaneOf(m, k).active == Some(id) && !m.tasks[id].batch)
      && id in r.tasks && Terminal(r.tasks[id].status)
  {
    var k := m.tasks[id].key;
    assert LaneAt(m, k);
    var c, queue, n := CancelledExactly(m, id, io);
    var lane := LaneOf(Step(m, Cancel(id, io)), k);
    assert id in c && Dead(c, id) && id !in queue;
    assert forall x :: OnLane(lane, x) ==> x in queue || lane.active == LaneOf(m, k).active;
  }

  // ---------------------------------------------------------------- coming and going

  /** A task met at start gets the slot of its key at once, ahead of the queue; one seen before is left alone. */
  lemma AdoptedExactly(m: Manager, id: TaskId, k: Key, batch: bool)
    ensures var r := Step(m, Adopt(id, k, batch));
      && (id in m.seen ==> r == m)
      && (id !in m.seen ==>
           && OtherLanesStay(m, r, k) && LaneOf(r, k) == Lane(Some(id), LaneOf(m, k).queue)
           && r.tasks == m.tasks[id := Task(k, Running, false, batch)])
  {
  }

  /** Exactly the finished tasks can be pruned, and they leave nothing but their place in line. */
  lemma PrunedExactly(m: Manager, id: TaskId)
    ensures var r := Step(m, Prune(id));
      && r.lanes == m.lanes && r.tasks == m.tasks - (m.tasks.Keys - r.tasks.Keys)
      && (forall x :: x in r.tasks <==>
           x in m.tasks && (x != id || m.tasks[x].status == Queued || m.tasks[x].status == Running))
  {
  }

  /** The manager closes with the first shutdown, for good. */
  lemma {:induction false} ClosingExactly(limit: nat, ops: seq<Op>, i: nat)
    requires i <= |ops|
    ensures At(limit, ops, i).closing <==> exists j :: 0 <= j < i && ops[j] == Shutdown
  {
    if i > 0 {
      ClosingExactly(limit, ops, i - 1);
      OnlyShutdownCloses(At(limit, ops, i - 1), ops[i - 1]);
    }
  }

  lemma OnlyShutdownCloses(m: Manager, op: Op)
    ensures Step(m, op).closing <==> m.closing || op == Shutdown
  {
  }

  // ---------------------------------------------------------------- queueing

  /** The tasks that hold a place in the queue of a key. */
  ghost function Waiting(m: Manager, k: Key): set<TaskId> {
    set x | x in LaneOf(m, k).queue && !Dead(m.tasks, x) && LaneOf(m, k).active != Some(x)
  }

  lemma {:induction false} DistinctCount(xs: seq<TaskId>)
    requires Distinct(xs)
    ensures |xs| == |Elements(xs)|
  {
    if xs != [] {
      DistinctCount(xs[1..]);
      assert Elements(xs) == {xs[0]} + Elements(xs[1..]);
    }
  }

  /** A task is taken exactly when the manager is open and it has a place already or fewer than `limit` others wait. */
  lemma AcceptsExactly(m: Manager, id: TaskId)
    requires Inv(m) && id in m.tasks
    ensures var k := m.tasks[id].key;
      Accepts(m, id) <==> !m.closing && (|Waiting(m, k)| < m.limit || id in Waiting(m, k) || LaneOf(m, k).active == Some(id))
  {
    var k := m.tasks[id].key;
    assert LaneAt(m, k);
    LiveQueueKeepsOrder(m.tasks, LaneOf(m, k));
    var live := LiveQueue(m.tasks, LaneOf(m, k));
    DistinctCount(live);
    assert Elements(live) == Waiting(m, k);
  }

  /** A refused task ends: as cancelled while the manager is closing, as failed when the queue is full. Nobody else notices. */
  lemma RefusedExactly(m: Manager, id: TaskId, front: bool, io: Faults)
    requires Inv(m) && id in m.tasks && !Accepts(m, id)
    ensures var r, k := Step(m, Enqueue(id, front, io)), m.tasks[id].key;
      && OtherLanesStay(m, r, k) && LaneOf(r, k).active == LaneOf(m, k).active && r.admitted == m.admitted
      && (m.closing ==> OnlyCancels(m.tasks, r.tasks, id))
      && (!m.closing ==> r.tasks == m.tasks[id := if Terminal(m.tasks[id].status) then m.tasks[id] else m.tasks[id].(status := Failed)])
      && (forall x :: x in Waiting(m, k) ==> x in LaneOf(r, k).queue)
      && (forall x :: x in LaneOf(r, k).queue ==> x in LaneOf(m, k).queue)
  {
    LiveQueueKeepsOrder(m.tasks, LaneOf(m, m.tasks[id].key));
  }

  /** Those who wait keep their order; a newcomer goes before all of them when `front`, behind all of them otherwise. */
  ghost predicate Joined(m: Manager, id: TaskId, front: bool, queue: seq<TaskId>)
    requires id in m.tasks
  {
    var k := m.tasks[id].key;
    && Distinct(queue)
    && (forall x :: x in queue <==> x in Waiting(m, k) || (x == id && LaneOf(m, k).active != Some(id)))
    && (forall a, b :: Ahead(LaneOf(m, k).queue, a, b) && a in Waiting(m, k) && b in Waiting(m, k) ==> Ahead(queue, a, b))
    && (id !in Waiting(m, k) && LaneOf(m, k).active != Some(id) ==> queue != [] && queue[if front then 0 else |queue| - 1] == id)
  }

  lemma JoiningKeepsOrder(live: seq<TaskId>, id: TaskId, front: bool)
    requires Distinct(live) && id !in live
    ensures var queue := if front then [id] + live else live + [id];
      && Distinct(queue) && (forall x :: x in queue <==> x in live || x == id)
      && (forall a, b :: Ahead(live, a, b) ==> Ahead(queue, a, b))
  {
    var queue, d := if front then [id] + live else live + [id], if front then 1 else 0;
    forall a, b | Ahead(live, a, b)
      ensures Ahead(queue, a, b)
    {
      var i, j :| 0 <= i < j < |live| && live[i] == a && live[j] == b;
      assert queue[i + d] == a && queue[j + d] == b;
    }
  }

  /** The queue an accepted task joins. */
  lemma QueueJoined(m: Manager, id: TaskId, front: bool)
    requires Inv(m) && id in m.tasks && Accepts(m, id)
    ensures var lane := LaneOf(Queuing(m, id, front), m.tasks[id].key);
      Joined(m, id, front, lane.queue) && lane.active == LaneOf(m, m.tasks[id].key).active
  {
    var k := m.tasks[id].key;
    assert LaneAt(m, k);
    LiveQueueKeepsOrder(m.tasks, LaneOf(m, k));
    var live := LiveQueue(m.tasks, LaneOf(m, k));
    if id !in live {
      JoiningKeepsOrder(live, id, front);
    }
  }

  /** Scheduling a key whose slot is taken does nothing; on a free lane the queue is served. */
  lemma ScheduleServes(m: Manager, k: Key, io: Faults) returns (n: nat)
    requires Distinct(LaneOf(m, k).queue)
    ensures var r, lane := ScheduleKey(m, k, io), LaneOf(m, k);
      && OtherLanesStay(m, r, k)
      && (lane.active.Some? ==> LaneOf(r, k) == lane && r.tasks == m.tasks)
      && (lane.active.None? ==> Served(m.tasks, lane.queue, io, r.tasks, LaneOf(r, k), n))
  {
    n := SchedulingServes(m.tasks, LaneOf(m, k).queue, io);
  }

  lemma AcceptedIsScheduled(m: Manager, id: TaskId, front: bool, io: Faults)
    requires id in m.tasks && Accepts(m, id)
    ensures Step(m, Enqueue(id, front, io)) == ScheduleKey(Queuing(m, id, front), m.tasks[id].key, io)
    ensures Queuing(m, id, front).tasks == m.tasks && OtherLanesStay(m, Queuing(m, id, front), m.tasks[id].key)
  {
  }

  /** An accepted task joins the queue; behind an active task that is all, on a free lane the queue it joined is served. */
  lemma AcceptedExactly(m: Manager, id: TaskId, front: bool, io: Faults) returns (queue: seq<TaskId>, n: nat)
    requires Inv(m) && id in m.tasks && Accepts(m, id)
    ensures var r, k := Step(m, Enqueue(id, front, io)), m.tasks[id].key;
      && OtherLanesStay(m, r, k) && Joined(m, id, front, queue)
      && (LaneOf(m, k).active.Some? ==> LaneOf(r, k) == Lane(LaneOf(m, k).active, queue) && r.tasks == m.tasks)
      && (LaneOf(m, k).active.None? ==> Served(m.tasks, queue, io, r.tasks, LaneOf(r, k), n))
  {
    var k := m.tasks[id].key;
    QueueJoined(m, id, front);
    queue := LaneOf(Queuing(m, id, front), k).queue;
    AcceptedIsScheduled(m, id, front, io);
    n := ScheduleServes(Queuing(m, id, front), k, io);
  }
}
