/**
 First come, first served: what the scheduler of minicc/task_manager.py makes of the order in which tasks wait.
 */
module TaskOrder {
  import opened Common
  import opened SessionQueue

  /** What one step does to two tasks waiting in order on one key, unless somebody jumps the queue. */
  ghost predicate OrderKept(m: Manager, r: Manager, k: Key, a: TaskId, b: TaskId) {
    && m.started <= r.started && |r.started| <= |m.started| + 1
    && (Ahead(LaneOf(r, k).queue, a, b) || Dead(r.tasks, a) || Dead(r.tasks, b) || a in r.started[|m.started|..])
    && (b in r.started[|m.started|..] ==> Dead(r.tasks, a))
  }

  lemma ScheduleKeepsOrder(m: Manager, k: Key, io: Faults, q: Key, a: TaskId, b: TaskId)
    requires LaneAt(m, q) && LaneAt(m, k) && Ahead(LaneOf(m, q).queue, a, b)
    ensures OrderKept(m, ScheduleKey(m, k, io), q, a, b)
  {
    var n := SchedulingTakesFromTheFront(m.tasks, LaneOf(m, k), io);
    var r, queue := ScheduleKey(m, k, io), LaneOf(m, q).queue;
    var i, j :| 0 <= i < j < |queue| && queue[i] == a && queue[j] == b;
    if q == k {
      if n <= i {
        assert LaneOf(r, k).queue[i - n] == a && LaneOf(r, k).queue[j - n] == b;
      } else if j < n {
        assert Dead(r.tasks, a);
      }
    } else {
      assert LaneOf(r, q) == LaneOf(m, q);
    }
  }

  predicate JumpsQueue(m: Manager, op: Op, k: Key) {
    op.Enqueue? && op.front && op.id in m.tasks && m.tasks[op.id].key == k
  }

  lemma DequeuingKeepsOrder(m: Manager, id: TaskId, k: Key, q: Key, a: TaskId, b: TaskId)
    requires Ahead(LaneOf(m, q).queue, a, b) && a != id && b != id
    ensures Ahead(LaneOf(Dequeuing(m, id, k), q).queue, a, b)
  {
    WithoutKeepsOrder(LaneOf(m, k).queue, id);
  }

  /** Queuing keeps the order of those that stay, unless it puts a task at the front of their queue. */
  lemma QueuingKeepsOrder(m: Manager, id: TaskId, front: bool, q: Key, a: TaskId, b: TaskId)
    requires LaneAt(m, q) && Ahead(LaneOf(m, q).queue, a, b) && id in m.tasks && !(front && m.tasks[id].key == q)
    ensures Dead(m.tasks, a) || Dead(m.tasks, b) || Ahead(LaneOf(Queuing(m, id, front), q).queue, a, b)
  {
    if m.tasks[id].key == q {
      LiveQueueKeepsOrder(m.tasks, LaneOf(m, q));
      var live := LiveQueue(m.tasks, LaneOf(m, q));
      if Ahead(live, a, b) {
        var i, j :| 0 <= i < j < |live| && live[i] == a && live[j] == b;
        assert (live + [id])[i] == a && (live + [id])[j] == b;
      }
    }
  }

  lemma EnqueueKeepsOrder(m: Manager, id: TaskId, front: bool, io: Faults, q: Key, a: TaskId, b: TaskId)
    requires Inv(m) && id in m.tasks && !m.closing && Ahead(LaneOf(m, q).queue, a, b)
    requires !(front && m.tasks[id].key == q)
    ensures OrderKept(m, Enqueued(m, id, front, io), q, a, b)
  {
    var k, n := m.tasks[id].key, Queuing(m, id, front);
    assert LaneAt(m, q) && LaneAt(m, k) && PlacedAt(m, id);
    QueuingKeepsOrder(m, id, front, q, a, b);
    QueuingKeepsLane(m, id, front, q);
    QueuingKeepsLane(m, id, front, k);
    assert n.started == m.started && n.tasks == m.tasks;
    var lane := LaneOf(m, k).(queue := LiveQueue(m.tasks, LaneOf(m, k)));
    if id !in lane.queue && lane.active != Some(id) && |lane.queue| >= m.limit {
      assert Enqueued(m, id, front, io) == n.(tasks := SetStatus(m.tasks, id, Failed));
    } else {
      assert Enqueued(m, id, front, io) == ScheduleKey(n, k, io);
      if Ahead(LaneOf(n, q).queue, a, b) {
        ScheduleKeepsOrder(n, k, io, q, a, b);
      } else {
        DeadStaysDeadBySchedule(n, k, io, a, b);
      }
    }
  }

  /** Scheduling revives nobody and starts nobody dead. */
  lemma DeadStaysDeadBySchedule(m: Manager, k: Key, io: Faults, a: TaskId, b: TaskId)
    requires Dead(m.tasks, a) || Dead(m.tasks, b)
    ensures var r := ScheduleKey(m, k, io);
      && m.started <= r.started && |r.started| <= |m.started| + 1
      && (Dead(m.tasks, a) ==> Dead(r.tasks, a))
      && (Dead(m.tasks, b) ==> Dead(r.tasks, b) && b !in r.started[|m.started|..])
  {
    var n := SchedulingTakesFromTheFront(m.tasks, LaneOf(m, k), io);
  }

  lemma ReleaseKeepsOrder(m: Manager, id: TaskId, k: Key, io: Faults, q: Key, a: TaskId, b: TaskId)
    requires LaneAt(m, q) && LaneAt(m, k) && Ahead(LaneOf(m, q).queue, a, b)
    ensures OrderKept(m, Released(m, id, k, io), q, a, b)
  {
    ReleasingKeepsLane(m, id, k, q);
    ReleasingKeepsLane(m, id, k, k);
    assert LaneOf(Releasing(m, id, k), q).queue == LaneOf(m, q).queue;
    ScheduleKeepsOrder(Releasing(m, id, k), k, io, q, a, b);
  }

  lemma CancelKeepsOrder(m: Manager, id: TaskId, io: Faults, q: Key, a: TaskId, b: TaskId)
    requires LaneAt(m, q) && id in m.tasks && LaneAt(m, m.tasks[id].key) && Ahead(LaneOf(m, q).queue, a, b)
    ensures OrderKept(m, CancelOne(m, id, io), q, a, b)
  {
    var n, k := m.(tasks := Cancelling(m.tasks, id)), m.tasks[id].key;
    assert LaneAt(n, q) && LaneAt(n, k);
    if LaneOf(m, k).active == Some(id) {
      if m.tasks[id].batch {
        ReleaseKeepsOrder(n, id, k, io, q, a, b);
      }
    } else {
      DequeueKeepsOrder(n, id, k, io, q, a, b);
    }
  }

  lemma DequeueKeepsOrder(n: Manager, id: TaskId, k: Key, io: Faults, q: Key, a: TaskId, b: TaskId)
    requires LaneAt(n, q) && LaneAt(n, k) && Dead(n.tasks, id) && Ahead(LaneOf(n, q).queue, a, b)
    ensures OrderKept(n, ScheduleKey(Dequeuing(n, id, k), k, io), q, a, b)
  {
    if a != id && b != id {
      DequeuingKeepsOrder(n, id, k, q, a, b);
    }
    WithoutKeepsOrder(LaneOf(n, k).queue, id);
    var d := Dequeuing(n, id, k);
    assert LaneAt(d, q) && LaneAt(d, k);
    if Ahead(LaneOf(d, q).queue, a, b) {
      ScheduleKeepsOrder(d, k, io, q, a, b);
    } else {
      DeadStaysDeadBySchedule(d, k, io, a, b);
    }
  }

  lemma StepKeepsOrder(m: Manager, op: Op, q: Key, a: TaskId, b: TaskId)
    requires Inv(m) && Ahead(LaneOf(m, q).queue, a, b) && !JumpsQueue(m, op, q)
    ensures OrderKept(m, Step(m, op), q, a, b)
  {
    assert LaneAt(m, q);
    assert OnLane(LaneOf(m, q), a) && OnLane(LaneOf(m, q), b);
    match op
    case Enqueue(id, front, io) => if id in m.tasks && !m.closing { EnqueueKeepsOrder(m, id, front, io, q, a, b); }
    case Release(id, k, io) =>
      if id !in m.tasks || m.tasks[id].key == k {
        assert LaneAt(m, k);
        ReleaseKeepsOrder(m, id, k, io, q, a, b);
      }
    case Cancel(id, io) =>
      if id in m.tasks {
        assert LaneAt(m, m.tasks[id].key);
        CancelKeepsOrder(m, id, io, q, a, b);
      }
    case _ =>
  }

  /** `x` is dead and forgotten by the scheduler from `m` to `r`. */
  ghost predicate StaysDead(m: Manager, r: Manager, x: TaskId) {
    Dead(r.tasks, x) && x in r.seen && m.started <= r.started && x !in r.started[|m.started|..]
  }

  lemma DeadWhileScheduling(m: Manager, n: Manager, k: Key, io: Faults, x: TaskId)
    requires Dead(n.tasks, x) && x in n.seen && n.started == m.started
    ensures StaysDead(m, ScheduleKey(n, k, io), x)
  {
    DeadStaysDeadBySchedule(n, k, io, x, x);
  }

  lemma DeadStaysDeadByCancel(m: Manager, id: TaskId, io: Faults, x: TaskId)
    requires id in m.tasks && Dead(m.tasks, x) && x in m.seen
    ensures StaysDead(m, CancelOne(m, id, io), x)
  {
    var n, k := m.(tasks := Cancelling(m.tasks, id)), m.tasks[id].key;
    DeadWhileScheduling(m, Releasing(n, id, k), k, io, x);
    DeadWhileScheduling(m, Dequeuing(n, id, k), k, io, x);
  }

  /** A finished or removed task is never revived and never started again, whatever happens. */
  lemma DeadStaysDead(m: Manager, op: Op, x: TaskId)
    requires Dead(m.tasks, x) && x in m.seen
    ensures StaysDead(m, Step(m, op), x)
  {
    match op
    case Enqueue(id, front, io) =>
      if id in m.tasks && !m.closing {
        DeadWhileScheduling(m, Queuing(m, id, front), m.tasks[id].key, io, x);
      }
    case Release(id, k, io) => DeadWhileScheduling(m, Releasing(m, id, k), k, io, x);
    case Cancel(id, io) => if id in m.tasks { DeadStaysDeadByCancel(m, id, io, x); }
    case _ =>
  }

  /** Between `i` and `j`: both still wait in order, or `a` has started, or one of them is finished. */
  ghost predicate InTurn(m: Manager, r: Manager, q: Key, a: TaskId, b: TaskId) {
    && m.started <= r.started && a in r.seen && b in r.seen
    && (Ahead(LaneOf(r, q).queue, a, b) || a in r.started[|m.started|..] || Dead(r.tasks, a) || Dead(r.tasks, b))
  }

  lemma HistoryGrows(m: Manager, op: Op)
    ensures m.started <= Step(m, op).started && m.seen <= Step(m, op).seen
  {
  }

  lemma TurnBegins(m: Manager, q: Key, a: TaskId, b: TaskId)
    requires Inv(m) && Ahead(LaneOf(m, q).queue, a, b)
    ensures InTurn(m, m, q, a, b)
  {
    assert LaneAt(m, q);
    assert OnLane(LaneOf(m, q), a) && OnLane(LaneOf(m, q), b);
  }

  lemma StepKeepsTurn(m: Manager, s: Manager, op: Op, r: Manager, q: Key, a: TaskId, b: TaskId)
    requires Inv(s) && InTurn(m, s, q, a, b) && !JumpsQueue(s, op, q) && r == Step(s, op)
    ensures InTurn(m, r, q, a, b)
  {
    HistoryGrows(s, op);
    if Dead(s.tasks, a) {
      DeadStaysDead(s, op, a);
    } else if Dead(s.tasks, b) {
      DeadStaysDead(s, op, b);
    } else if Ahead(LaneOf(s, q).queue, a, b) {
      StepKeepsOrder(s, op, q, a, b);
    }
  }

  ghost predicate KeepsOrderAt(limit: nat, ops: seq<Op>, n: nat, q: Key)
    requires n < |ops|
  {
    !JumpsQueue(At(limit, ops, n), ops[n], q)
  }

  lemma {:induction false} StayInTurn(limit: nat, ops: seq<Op>, i: nat, j: nat, q: Key, a: TaskId, b: TaskId)
    requires i <= j <= |ops| && Ahead(LaneOf(At(limit, ops, i), q).queue, a, b)
    requires forall n :: i <= n < j ==> KeepsOrderAt(limit, ops, n, q)
    ensures InTurn(At(limit, ops, i), At(limit, ops, j), q, a, b)
    decreases j
  {
    if i < j {
      StayInTurn(limit, ops, i, j - 1, q, a, b);
      Reachable(limit, ops, j - 1);
      assert KeepsOrderAt(limit, ops, j - 1, q);
      StepKeepsTurn(At(limit, ops, i), At(limit, ops, j - 1), ops[j - 1], At(limit, ops, j), q, a, b);
    } else {
      Reachable(limit, ops, i);
      TurnBegins(At(limit, ops, i), q, a, b);
    }
  }

  ghost predicate StartedBetween(m: Manager, r: Manager, x: TaskId) {
    |m.started| <= |r.started| && x in r.started[|m.started|..]
  }

  /**
   First come, first served: if `a` waits ahead of `b` and a later step starts `b`, then `a` was started in between
   or is finished by then, provided nobody was put at the front of that queue.
   */
  lemma FirstComeFirstServed(limit: nat, ops: seq<Op>, i: nat, j: nat, q: Key, a: TaskId, b: TaskId)
    requires i <= j < |ops| && Ahead(LaneOf(At(limit, ops, i), q).queue, a, b)
    requires forall n :: i <= n <= j ==> KeepsOrderAt(limit, ops, n, q)
    requires StartedBetween(At(limit, ops, j), At(limit, ops, j + 1), b)
    ensures |At(limit, ops, i).started| <= |At(limit, ops, j).started|
    ensures StartedBetween(At(limit, ops, i), At(limit, ops, j), a) || Dead(At(limit, ops, j + 1).tasks, a)
  {
    StayInTurn(limit, ops, i, j, q, a, b);
    Reachable(limit, ops, j);
    assert KeepsOrderAt(limit, ops, j, q);
    var s := At(limit, ops, j);
    if Dead(s.tasks, a) {
      DeadStaysDead(s, ops[j], a);
    } else if Dead(s.tasks, b) {
      DeadStaysDead(s, ops[j], b);
    } else if Ahead(LaneOf(s, q).queue, a, b) {
      StepKeepsOrder(s, ops[j], q, a, b);
    }
  }
}
