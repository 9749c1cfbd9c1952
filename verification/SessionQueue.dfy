/**
 The per-session scheduler of minicc/task_manager.py: one active task per session key, a bounded queue behind it.

 Every operation is one section under the manager lock. Task bodies run elsewhere: they only show up as status
 changes (`Advance`) and as the `Release` they end with. Handing a task to the executor and persisting it may
 fail; which ids fail is given with each operation.
 */
module SessionQueue {
  import opened Common

  type TaskId = string
  type Key = string

  datatype Status = Queued | Running | Completed | Failed | Cancelled | Interrupted

  /** `cancelling`: the cancellation token, the task's own or its parent's, is set. */
  datatype Task = Task(key: Key, status: Status, cancelling: bool, batch: bool)

  type Tasks = map<TaskId, Task>

  /** `_session_active[key]` and `_session_queues[key]`; a missing queue is an empty one. */
  datatype Lane = Lane(active: Option<TaskId>, queue: seq<TaskId>)

  /** The ids the executor refuses and the ids whose forced persistence raises. */
  datatype Faults = Faults(submit: set<TaskId>, persist: set<TaskId>)

  predicate Terminal(s: Status) {
    s.Completed? || s.Failed? || s.Cancelled? || s.Interrupted?
  }

  /** Unknown or finished: nothing is owed to this id any more. */
  predicate Dead(tasks: Tasks, id: TaskId) {
    id !in tasks || Terminal(tasks[id].status)
  }

  function SetStatus(tasks: Tasks, id: TaskId, s: Status): Tasks {
    if Dead(tasks, id) then tasks else tasks[id := tasks[id].(status := s)]
  }

  // ---------------------------------------------------------------- one lane

  datatype Outcome = Outcome(tasks: Tasks, lane: Lane, start: Option<TaskId>, raised: bool)

  /** `_schedule_session_locked`: give a free slot to the first queued task that can take it. */
  function Scheduled(tasks: Tasks, lane: Lane, io: Faults): Outcome
    decreases |lane.queue|
  {
    if lane.active.Some? || lane.queue == [] then Outcome(tasks, lane, None, false)
    else
      var id, rest := lane.queue[0], Lane(None, lane.queue[1..]);
      if Dead(tasks, id) then Scheduled(tasks, rest, io)
      else if tasks[id].cancelling || id in io.submit then
        var skipped := SetStatus(tasks, id, if tasks[id].cancelling then Cancelled else Failed);
        if id in io.persist then Outcome(skipped, rest, None, true) else Scheduled(skipped, rest, io)
      else Outcome(tasks, Lane(Some(id), rest.queue), Some(id), false)
  }

  function Filter(queue: seq<TaskId>, keep: TaskId -> bool): seq<TaskId> {
    if queue == [] then []
    else Filter(queue[..|queue| - 1], keep) + (if keep(queue[|queue| - 1]) then [queue[|queue| - 1]] else [])
  }

  /** The queue without the ids that are dead or already running. */
  function LiveQueue(tasks: Tasks, lane: Lane): seq<TaskId> {
    Filter(lane.queue, id => !Dead(tasks, id) && lane.active != Some(id))
  }

  function Without(queue: seq<TaskId>, gone: TaskId): seq<TaskId> {
    Filter(queue, id => id != gone)
  }

  ghost predicate LaneOk(lane: Lane, limit: nat) {
    && Distinct(lane.queue) && |lane.queue| <= limit
    && (lane.active.Some? ==> lane.active.value !in lane.queue)
  }

  /** `a` waits ahead of `b`. */
  ghost predicate Ahead(queue: seq<TaskId>, a: TaskId, b: TaskId) {
    exists i, j :: 0 <= i < j < |queue| && queue[i] == a && queue[j] == b
  }

  lemma {:induction false} FilterKeepsMembers(queue: seq<TaskId>, keep: TaskId -> bool)
    ensures |Filter(queue, keep)| <= |queue|
    ensures forall id :: id in Filter(queue, keep) <==> id in queue && keep(id)
  {
    if queue != [] {
      FilterKeepsMembers(queue[..|queue| - 1], keep);
      assert queue == queue[..|queue| - 1] + [queue[|queue| - 1]];
    }
  }

  lemma {:induction false} FilterKeepsDistinct(queue: seq<TaskId>, keep: TaskId -> bool)
    requires Distinct(queue)
    ensures Distinct(Filter(queue, keep))
  {
    if queue != [] {
      var front, last := queue[..|queue| - 1], queue[|queue| - 1];
      FilterKeepsDistinct(front, keep);
      FilterKeepsMembers(front, keep);
      assert last !in front;
    }
  }

  lemma {:induction false} FilterKeepsAhead(queue: seq<TaskId>, keep: TaskId -> bool, a: TaskId, b: TaskId)
    requires Ahead(queue, a, b) && keep(a) && keep(b)
    ensures Ahead(Filter(queue, keep), a, b)
  {
    var front, last := queue[..|queue| - 1], queue[|queue| - 1];
    var f, r := Filter(front, keep), Filter(queue, keep);
    var i, j :| 0 <= i < j < |queue| && queue[i] == a && queue[j] == b;
    if j < |front| {
      assert front[i] == a && front[j] == b;
      FilterKeepsAhead(front, keep, a, b);
      var x, y :| 0 <= x < y < |f| && f[x] == a && f[y] == b;
      assert r[x] == a && r[y] == b;
    } else {
      FilterKeepsMembers(front, keep);
      assert front[i] == a;
      var x :| 0 <= x < |f| && f[x] == a;
      assert r[x] == a && r[|f|] == b;
    }
  }

  lemma FilterKeepsOrder(queue: seq<TaskId>, keep: TaskId -> bool)
    ensures var r := Filter(queue, keep);
      && |r| <= |queue| && (Distinct(queue) ==> Distinct(r))
      && (forall id :: id in r <==> id in queue && keep(id))
      && (forall a, b :: Ahead(queue, a, b) && keep(a) && keep(b) ==> Ahead(r, a, b))
  {
    FilterKeepsMembers(queue, keep);
    if Distinct(queue) {
      FilterKeepsDistinct(queue, keep);
    }
    forall a, b | Ahead(queue, a, b) && keep(a) && keep(b)
      ensures Ahead(Filter(queue, keep), a, b)
    {
      FilterKeepsAhead(queue, keep, a, b);
    }
  }

  /** Scheduling takes ids from the front only: all it passes over are dead afterwards, and it stops at the first that can run. */
  ghost predicate TakesFromTheFront(tasks: Tasks, lane: Lane, r: Outcome, n: nat) {
    && n <= |lane.queue| && r.lane.queue == lane.queue[n..]
    && (r.start.None? ==> r.lane.active == lane.active)
    && (forall i :: 0 <= i < n ==> Dead(r.tasks, lane.queue[i]) || (r.start == Some(lane.queue[i]) && i == n - 1))
    && (r.start.Some? ==>
         && n > 0 && r.start.value == lane.queue[n - 1] && r.lane.active == r.start && !r.raised
         && lane.active.None? && !Dead(r.tasks, r.start.value) && !r.tasks[r.start.value].cancelling)
    && (lane.active.None? && r.start.None? && !r.raised ==> n == |lane.queue|)
    && (lane.active.Some? ==> n == 0 && r.tasks == tasks && !r.raised)
  }

  /** Only tasks at the front of the queue change, and only into a terminal status. */
  ghost predicate OnlyEnds(tasks: Tasks, after: Tasks, queue: seq<TaskId>) {
    && after.Keys == tasks.Keys
    && forall id :: id in tasks ==>
         || after[id] == tasks[id]
         || (id in queue && !Dead(tasks, id) && Dead(after, id) && after[id] == tasks[id].(status := after[id].status))
  }

  /** Passing over the head, alive or not, when it is dead afterwards. */
  lemma OneMoreTaken(tasks: Tasks, skipped: Tasks, lane: Lane, r: Outcome, m: nat)
    requires lane.active.None? && lane.queue != []
    requires TakesFromTheFront(skipped, Lane(None, lane.queue[1..]), r, m) && OnlyEnds(skipped, r.tasks, lane.queue[1..])
    requires Dead(skipped, lane.queue[0])
    ensures TakesFromTheFront(tasks, lane, r, m + 1)
  {
    var rest := lane.queue[1..];
    assert lane.queue[m + 1..] == rest[m..];
    forall i | 0 <= i < m + 1 ensures Dead(r.tasks, lane.queue[i]) || (r.start == Some(lane.queue[i]) && i == m) {
      if i > 0 {
        assert rest[i - 1] == lane.queue[i];
      }
    }
  }

  /** Passing over a head that is dead already. */
  lemma PassesOverTheDead(tasks: Tasks, lane: Lane, io: Faults, m: nat)
    requires lane.active.None? && lane.queue != [] && Dead(tasks, lane.queue[0])
    requires var rest := Lane(None, lane.queue[1..]); var r := Scheduled(tasks, rest, io);
      TakesFromTheFront(tasks, rest, r, m) && OnlyEnds(tasks, r.tasks, rest.queue)
    ensures var r := Scheduled(tasks, lane, io);
      TakesFromTheFront(tasks, lane, r, m + 1) && OnlyEnds(tasks, r.tasks, lane.queue)
  {
    OneMoreTaken(tasks, tasks, lane, Scheduled(tasks, Lane(None, lane.queue[1..]), io), m);
  }

  /** Ending a cancelled or refused head and going on behind it. */
  lemma EndsAndGoesOn(tasks: Tasks, skipped: Tasks, lane: Lane, r: Outcome, m: nat)
    requires lane.active.None? && lane.queue != [] && !Dead(tasks, lane.queue[0])
    requires skipped.Keys == tasks.Keys && Dead(skipped, lane.queue[0])
    requires forall id :: id in tasks && id != lane.queue[0] ==> skipped[id] == tasks[id]
    requires skipped[lane.queue[0]] == tasks[lane.queue[0]].(status := skipped[lane.queue[0]].status)
    requires TakesFromTheFront(skipped, Lane(None, lane.queue[1..]), r, m) && OnlyEnds(skipped, r.tasks, lane.queue[1..])
    ensures TakesFromTheFront(tasks, lane, r, m + 1) && OnlyEnds(tasks, r.tasks, lane.queue)
  {
    OneMoreTaken(tasks, skipped, lane, r, m);
  }

  lemma {:induction false} SchedulingTakesFromTheFront(tasks: Tasks, lane: Lane, io: Faults) returns (n: nat)
    ensures TakesFromTheFront(tasks, lane, Scheduled(tasks, lane, io), n)
    ensures OnlyEnds(tasks, Scheduled(tasks, lane, io).tasks, lane.queue)
    decreases |lane.queue|
  {
    n := 0;
    if lane.active.None? && lane.queue != [] {
      var id, rest := lane.queue[0], Lane(None, lane.queue[1..]);
      n := 1;
      if Dead(tasks, id) {
        var m := SchedulingTakesFromTheFront(tasks, rest, io);
        PassesOverTheDead(tasks, lane, io, m);
        n := m + 1;
      } else if (tasks[id].cancelling || id in io.submit) && id !in io.persist {
        var skipped := SetStatus(tasks, id, if tasks[id].cancelling then Cancelled else Failed);
        var m := SchedulingTakesFromTheFront(skipped, rest, io);
        EndsAndGoesOn(tasks, skipped, lane, Scheduled(skipped, rest, io), m);
        n := m + 1;
      }
    }
  }

  // ---------------------------------------------------------------- the manager

  /**
   `seen` (ids ever submitted), `admitted` (ids accepted into a queue or adopted, until they give up or lose their slot),
   `started` (the order of starts) and `stranded` (keys whose last scheduling raised and left tasks behind) are history.
   */
  datatype Manager = Manager(tasks: Tasks, lanes: map<Key, Lane>, closing: bool, limit: nat,
                             seen: set<TaskId>, admitted: set<TaskId>, started: seq<TaskId>, stranded: set<Key>)

  /** `Adopt` is what the start of a manager does with a task that a live worker is still running. */
  datatype Op =
    | Adopt(id: TaskId, key: Key, batch: bool)
    | Submit(id: TaskId, key: Key, batch: bool)
    | Enqueue(id: TaskId, front: bool, io: Faults)
    | Release(id: TaskId, key: Key, io: Faults)
    | Cancel(id: TaskId, io: Faults)
    | Advance(id: TaskId, status: Status)
    | RequestCancel(id: TaskId)
    | Prune(id: TaskId)
    | Shutdown

  function LaneOf(m: Manager, k: Key): Lane {
    if k in m.lanes then m.lanes[k] else Lane(None, [])
  }

  function SetLane(m: Manager, k: Key, lane: Lane): Manager {
    m.(lanes := m.lanes[k := lane])
  }

  function ScheduleKey(m: Manager, k: Key, io: Faults): Manager {
    var r := Scheduled(m.tasks, LaneOf(m, k), io);
    SetLane(m, k, r.lane).(
      tasks := r.tasks,
      started := if r.start.Some? then m.started + [r.start.value] else m.started,
      stranded := if r.raised && r.lane.queue != [] then m.stranded + {k} else m.stranded - {k})
  }

  /** `request_cancel`: a finished task keeps its status and its token. */
  function Cancelling(tasks: Tasks, id: TaskId): Tasks {
    if Dead(tasks, id) then tasks else tasks[id := tasks[id].(status := Cancelled, cancelling := true)]
  }

  /** `_queue_task_locked` */
  function Enqueued(m: Manager, id: TaskId, front: bool, io: Faults): Manager {
    if id !in m.tasks then m
    else if m.closing then m.(tasks := Cancelling(m.tasks, id))
    else
      var k := m.tasks[id].key;
      var lane := LaneOf(m, k).(queue := LiveQueue(m.tasks, LaneOf(m, k)));
      if id in lane.queue || lane.active == Some(id) then ScheduleKey(SetLane(m, k, lane), k, io)
      else if |lane.queue| >= m.limit then SetLane(m, k, lane).(tasks := SetStatus(m.tasks, id, Failed))
      else
        var queue := if front then [id] + lane.queue else lane.queue + [id];
        ScheduleKey(SetLane(m, k, lane.(queue := queue)).(admitted := m.admitted + {id}), k, io)
  }

  /** Whether `_queue_task_locked` takes the task: not while closing, not when the live queue is full. */
  predicate Accepts(m: Manager, id: TaskId)
    requires id in m.tasks
  {
    var lane := LaneOf(m, m.tasks[id].key);
    !m.closing && (|LiveQueue(m.tasks, lane)| < m.limit || id in LiveQueue(m.tasks, lane) || lane.active == Some(id))
  }

  /** `_release_session_slot` */
  function Released(m: Manager, id: TaskId, k: Key, io: Faults): Manager {
    var lane := LaneOf(m, k);
    ScheduleKey(if lane.active == Some(id) then SetLane(m, k, lane.(active := None)).(admitted := m.admitted - {id}) else SetLane(m, k, lane), k, io)
  }

  /** The part of `cancel` that concerns the task itself; its children are cancelled by operations of their own. */
  function CancelOne(m: Manager, id: TaskId, io: Faults): Manager {
    if id !in m.tasks then m
    else
      var n, k := m.(tasks := Cancelling(m.tasks, id)), m.tasks[id].key;
      if LaneOf(m, k).active == Some(id) then
        if m.tasks[id].batch then Released(n, id, k, io) else n
      else ScheduleKey(SetLane(n, k, LaneOf(m, k).(queue := Without(LaneOf(m, k).queue, id))), k, io)
  }

  /** The slot goes to the adopted task, whoever had it. */
  function Adopted(m: Manager, id: TaskId, k: Key, batch: bool): Manager {
    var lane := LaneOf(m, k);
    SetLane(m, k, lane.(active := Some(id))).(
      tasks := m.tasks[id := Task(k, Running, false, batch)], seen := m.seen + {id},
      admitted := (if lane.active.Some? then m.admitted - {lane.active.value} else m.admitted) + {id})
  }

  function Step(m: Manager, op: Op): Manager {
    match op
    case Adopt(id, k, batch) => if id in m.seen then m else Adopted(m, id, k, batch)
    case Submit(id, k, batch) =>
      if id in m.seen then m else m.(tasks := m.tasks[id := Task(k, Queued, false, batch)], seen := m.seen + {id})
    case Enqueue(id, front, io) => Enqueued(m, id, front, io)
    case Release(id, k, io) => if id in m.tasks && m.tasks[id].key != k then m else Released(m, id, k, io)
    case Cancel(id, io) => CancelOne(m, id, io)
    case Advance(id, s) => m.(tasks := SetStatus(m.tasks, id, s))
    case RequestCancel(id) => if id in m.tasks then m.(tasks := m.tasks[id := m.tasks[id].(cancelling := true)]) else m
    case Prune(id) => if id in m.tasks && Terminal(m.tasks[id].status) then m.(tasks := m.tasks - {id}) else m
    case Shutdown => m.(closing := true)
  }

  // ---------------------------------------------------------------- invariant

  ghost predicate OnLane(lane: Lane, id: TaskId) {
    lane.active == Some(id) || id in lane.queue
  }

  /** The lane is well formed and holds only ids submitted for this key, the unfinished ones admitted. */
  ghost predicate LaneAt(m: Manager, k: Key) {
    && LaneOk(LaneOf(m, k), m.limit)
    && forall id :: OnLane(LaneOf(m, k), id) ==>
         && id in m.seen && (id in m.tasks ==> m.tasks[id].key == k) && (!Dead(m.tasks, id) ==> id in m.admitted)
  }

  /** Tasks wait only behind an active one, unless a write failure cut the last scheduling short. */
  ghost predicate ServedAt(m: Manager, k: Key) {
    LaneOf(m, k).queue != [] && LaneOf(m, k).active.None? ==> k in m.stranded
  }

  /** An admitted task that is still owed something is active or queued on its own key. */
  ghost predicate PlacedAt(m: Manager, id: TaskId) {
    && (id in m.tasks || id in m.admitted ==> id in m.seen)
    && (id in m.admitted && !Dead(m.tasks, id) ==> OnLane(LaneOf(m, m.tasks[id].key), id))
  }

  ghost predicate Inv(m: Manager) {
    && (forall k :: LaneAt(m, k) && ServedAt(m, k))
    && (forall id :: PlacedAt(m, id))
  }

  /** Scheduling one key repairs its lane and disturbs nothing else. */
  lemma ScheduleKeepsLane(m: Manager, k: Key, io: Faults, q: Key)
    requires LaneAt(m, q) && (q != k ==> ServedAt(m, q))
    ensures LaneAt(ScheduleKey(m, k, io), q) && ServedAt(ScheduleKey(m, k, io), q)
  {
    var n := SchedulingTakesFromTheFront(m.tasks, LaneOf(m, k), io);
    var r := ScheduleKey(m, k, io);
    assert r.tasks.Keys == m.tasks.Keys;
    if q == k {
      assert forall id :: OnLane(LaneOf(r, q), id) ==> OnLane(LaneOf(m, q), id);
    }
  }

  lemma ScheduleKeepsPlace(m: Manager, k: Key, io: Faults, id: TaskId)
    requires PlacedAt(m, id)
    ensures PlacedAt(ScheduleKey(m, k, io), id)
  {
    var n := SchedulingTakesFromTheFront(m.tasks, LaneOf(m, k), io);
    var r := ScheduleKey(m, k, io);
    if id in m.admitted && !Dead(r.tasks, id) && m.tasks[id].key == k {
      var queue := LaneOf(m, k).queue;
      assert queue == queue[..n] + queue[n..];
    }
  }

  lemma LiveQueueKeepsOrder(tasks: Tasks, lane: Lane)
    ensures var r := LiveQueue(tasks, lane);
      && |r| <= |lane.queue| && (Distinct(lane.queue) ==> Distinct(r))
      && (forall id :: id in r <==> id in lane.queue && !Dead(tasks, id) && lane.active != Some(id))
      && (forall a, b :: Ahead(lane.queue, a, b) && a in r && b in r ==> Ahead(r, a, b))
  {
    FilterKeepsOrder(lane.queue, id => !Dead(tasks, id) && lane.active != Some(id));
  }

  lemma WithoutKeepsOrder(queue: seq<TaskId>, gone: TaskId)
    ensures var r := Without(queue, gone);
      && |r| <= |queue| && (Distinct(queue) ==> Distinct(r))
      && (forall id :: id in r <==> id in queue && id != gone)
      && (forall a, b :: Ahead(queue, a, b) && a != gone && b != gone ==> Ahead(r, a, b))
  {
    FilterKeepsOrder(queue, id => id != gone);
  }

  /** The manager just before the scheduling that ends an enqueue, a release or a cancel of a waiting task. */
  function Queuing(m: Manager, id: TaskId, front: bool): Manager
    requires id in m.tasks
  {
    var k := m.tasks[id].key;
    var lane := LaneOf(m, k).(queue := LiveQueue(m.tasks, LaneOf(m, k)));
    if id in lane.queue || lane.active == Some(id) || |lane.queue| >= m.limit then SetLane(m, k, lane)
    else SetLane(m, k, lane.(queue := if front then [id] + lane.queue else lane.queue + [id])).(admitted := m.admitted + {id})
  }

  function Releasing(m: Manager, id: TaskId, k: Key): Manager {
    var lane := LaneOf(m, k);
    if lane.active == Some(id) then SetLane(m, k, lane.(active := None)).(admitted := m.admitted - {id}) else SetLane(m, k, lane)
  }

  function Dequeuing(m: Manager, id: TaskId, k: Key): Manager {
    SetLane(m, k, LaneOf(m, k).(queue := Without(LaneOf(m, k).queue, id)))
  }

  lemma QueuingKeepsLane(m: Manager, id: TaskId, front: bool, q: Key)
    requires LaneAt(m, q) && id in m.tasks && id in m.seen
    ensures LaneAt(Queuing(m, id, front), q)
  {
    if q == m.tasks[id].key {
      LiveQueueKeepsOrder(m.tasks, LaneOf(m, q));
    }
  }

  lemma QueuingKeepsPlace(m: Manager, id: TaskId, front: bool, x: TaskId)
    requires PlacedAt(m, x) && id in m.tasks
    ensures PlacedAt(Queuing(m, id, front), x)
  {
    LiveQueueKeepsOrder(m.tasks, LaneOf(m, m.tasks[id].key));
  }

  lemma ReleasingKeepsLane(m: Manager, id: TaskId, k: Key, q: Key)
    requires LaneAt(m, q) && LaneAt(m, k)
    ensures LaneAt(Releasing(m, id, k), q)
  {
  }

  lemma ReleasingKeeps(m: Manager, id: TaskId, k: Key, q: Key, x: TaskId)
    requires LaneAt(m, q) && LaneAt(m, k) && PlacedAt(m, x)
    ensures LaneAt(Releasing(m, id, k), q) && PlacedAt(Releasing(m, id, k), x)
  {
    ReleasingKeepsLane(m, id, k, q);
  }

  lemma DequeuingKeeps(m: Manager, id: TaskId, k: Key, q: Key, x: TaskId)
    requires LaneAt(m, q) && PlacedAt(m, x) && Dead(m.tasks, id)
    ensures LaneAt(Dequeuing(m, id, k), q) && PlacedAt(Dequeuing(m, id, k), x)
  {
    WithoutKeepsOrder(LaneOf(m, k).queue, id);
  }

  /** A status change, a token or the removal of a finished record leaves lanes alone. */
  lemma TaskChangeKeeps(m: Manager, tasks: Tasks, q: Key, x: TaskId)
    requires LaneAt(m, q) && PlacedAt(m, x)
    requires forall id :: id in tasks ==> id in m.tasks && tasks[id].key == m.tasks[id].key
    requires forall id :: Dead(m.tasks, id) ==> Dead(tasks, id)
    ensures LaneAt(m.(tasks := tasks), q) && PlacedAt(m.(tasks := tasks), x)
    ensures ServedAt(m, q) ==> ServedAt(m.(tasks := tasks), q)
  {
  }

  lemma EnqueueKeeps(m: Manager, id: TaskId, front: bool, io: Faults, q: Key, x: TaskId)
    requires LaneAt(m, q) && ServedAt(m, q) && PlacedAt(m, x) && PlacedAt(m, id)
    requires id in m.tasks && !m.closing
    ensures LaneAt(Enqueued(m, id, front, io), q) && ServedAt(Enqueued(m, id, front, io), q) && PlacedAt(Enqueued(m, id, front, io), x)
  {
    var k, n := m.tasks[id].key, Queuing(m, id, front);
    QueuingKeepsLane(m, id, front, q);
    QueuingKeepsPlace(m, id, front, x);
    LiveQueueKeepsOrder(m.tasks, LaneOf(m, k));
    var live := LiveQueue(m.tasks, LaneOf(m, k));
    if id !in live && LaneOf(m, k).active != Some(id) && |live| >= m.limit {
      assert Enqueued(m, id, front, io) == n.(tasks := SetStatus(m.tasks, id, Failed));
      TaskChangeKeeps(n, SetStatus(m.tasks, id, Failed), q, x);
    } else {
      assert Enqueued(m, id, front, io) == ScheduleKey(n, k, io);
      ScheduleKeepsLane(n, k, io, q);
      ScheduleKeepsPlace(n, k, io, x);
    }
  }

  lemma ReleaseKeeps(m: Manager, id: TaskId, k: Key, io: Faults, q: Key, x: TaskId)
    requires LaneAt(m, q) && LaneAt(m, k) && (q != k ==> ServedAt(m, q)) && PlacedAt(m, x)
    ensures LaneAt(Released(m, id, k, io), q) && ServedAt(Released(m, id, k, io), q) && PlacedAt(Released(m, id, k, io), x)
  {
    ReleasingKeeps(m, id, k, q, x);
    ScheduleKeepsLane(Releasing(m, id, k), k, io, q);
    ScheduleKeepsPlace(Releasing(m, id, k), k, io, x);
  }

  lemma CancelKeeps(m: Manager, id: TaskId, io: Faults, q: Key, x: TaskId)
    requires LaneAt(m, q) && ServedAt(m, q) && PlacedAt(m, x) && id in m.tasks && LaneAt(m, m.tasks[id].key)
    ensures LaneAt(CancelOne(m, id, io), q) && ServedAt(CancelOne(m, id, io), q) && PlacedAt(CancelOne(m, id, io), x)
  {
    var n, k := m.(tasks := Cancelling(m.tasks, id)), m.tasks[id].key;
    TaskChangeKeeps(m, n.tasks, q, x);
    if LaneOf(m, k).active == Some(id) {
      if m.tasks[id].batch {
        TaskChangeKeeps(m, n.tasks, k, x);
        ReleaseKeeps(n, id, k, io, q, x);
      }
    } else {
      DequeuingKeeps(n, id, k, q, x);
      ScheduleKeepsLane(Dequeuing(n, id, k), k, io, q);
      ScheduleKeepsPlace(Dequeuing(n, id, k), k, io, x);
    }
  }

  lemma AdoptedKeeps(m: Manager, id: TaskId, k: Key, batch: bool, q: Key, x: TaskId)
    requires LaneAt(m, q) && LaneAt(m, k) && ServedAt(m, q) && PlacedAt(m, x) && PlacedAt(m, id) && id !in m.seen
    requires LaneOf(m, k).active.Some? ==> PlacedAt(m, LaneOf(m, k).active.value)
    ensures var r := Adopted(m, id, k, batch); LaneAt(r, q) && ServedAt(r, q) && PlacedAt(r, x)
  {
  }

  /** A task adopted for a key loses its slot exactly when another one is adopted for that key; it then is on no lane. */
  lemma AdoptedTwiceLosesTheSlot(m: Manager, id: TaskId, k: Key, batch: bool, x: TaskId, q: Key)
    requires Inv(m) && id !in m.seen && LaneOf(m, q).active == Some(x) && !Dead(m.tasks, x)
    ensures var r := Adopted(m, id, k, batch);
      && (LaneOf(r, q).active != Some(x) <==> q == k)
      && (q == k ==> !Dead(r.tasks, x) && x !in r.admitted && forall p :: !OnLane(LaneOf(r, p), x))
  {
    assert LaneAt(m, q) && LaneAt(m, k);
    assert OnLane(LaneOf(m, q), x);
    forall p ensures q == k ==> !OnLane(LaneOf(Adopted(m, id, k, batch), p), x) {
      assert LaneAt(m, p);
    }
  }

  lemma StepKeeps(m: Manager, op: Op, q: Key, x: TaskId)
    requires Inv(m)
    ensures LaneAt(Step(m, op), q) && ServedAt(Step(m, op), q) && PlacedAt(Step(m, op), x)
  {
    assert LaneAt(m, q) && ServedAt(m, q) && PlacedAt(m, x);
    match op
    case Adopt(id, k, batch) =>
      assert LaneAt(m, k) && PlacedAt(m, id);
      if LaneOf(m, k).active.Some? {
        assert PlacedAt(m, LaneOf(m, k).active.value);
      }
      if id !in m.seen {
        AdoptedKeeps(m, id, k, batch, q, x);
      }
    case Submit(id, k, batch) => assert PlacedAt(m, id);
    case Enqueue(id, front, io) =>
      assert PlacedAt(m, id);
      if id in m.tasks {
        if m.closing { TaskChangeKeeps(m, Cancelling(m.tasks, id), q, x); } else { EnqueueKeeps(m, id, front, io, q, x); }
      }
    case Release(id, k, io) => if id !in m.tasks || m.tasks[id].key == k { assert LaneAt(m, k); ReleaseKeeps(m, id, k, io, q, x); }
    case Cancel(id, io) => if id in m.tasks { assert LaneAt(m, m.tasks[id].key); CancelKeeps(m, id, io, q, x); }
    case Shutdown =>
    case _ => TaskChangeKeeps(m, Step(m, op).tasks, q, x);
  }

  // ---------------------------------------------------------------- every run

  function Begin(limit: nat): Manager {
    Manager(map[], map[], false, limit, {}, {}, [], {})
  }

  function At(limit: nat, ops: seq<Op>, i: nat): Manager
    requires i <= |ops|
  {
    if i == 0 then Begin(limit) else Step(At(limit, ops, i - 1), ops[i - 1])
  }

  lemma StepKeepsInv(m: Manager, op: Op, r: Manager)
    requires Inv(m) && r == Step(m, op)
    ensures Inv(r)
  {
    forall q: Key
      ensures LaneAt(r, q) && ServedAt(r, q)
    {
      StepKeeps(m, op, q, "");
    }
    forall x: TaskId
      ensures PlacedAt(r, x)
    {
      StepKeeps(m, op, "", x);
    }
  }

  lemma {:induction false} Reachable(limit: nat, ops: seq<Op>, i: nat)
    requires i <= |ops|
    ensures Inv(At(limit, ops, i))
  {
    if i > 0 {
      Reachable(limit, ops, i - 1);
      StepKeepsInv(At(limit, ops, i - 1), ops[i - 1], At(limit, ops, i));
    }
  }

  lemma StepKeepsLimit(m: Manager, op: Op)
    ensures Step(m, op).limit == m.limit
  {
  }

  lemma {:induction false} LimitIsFixed(limit: nat, ops: seq<Op>, i: nat)
    requires i <= |ops|
    ensures At(limit, ops, i).limit == limit
  {
    if i > 0 {
      LimitIsFixed(limit, ops, i - 1);
      StepKeepsLimit(At(limit, ops, i - 1), ops[i - 1]);
    }
  }

  /**
   After every step: an unfinished task is admitted and has not given up or lost its slot exactly when it is on its
   own key, active or queued but not both; it is on no other key; no queue repeats an id or exceeds the limit; and
   a queue waits behind an active task unless a write failure cut the last scheduling of its key short.
   */
  lemma SchedulerInvariant(limit: nat, ops: seq<Op>, i: nat, id: TaskId, k: Key)
    requires i <= |ops|
    ensures var m := At(limit, ops, i); var lane := LaneOf(m, k);
      && Distinct(lane.queue) && |lane.queue| <= limit
      && (lane.queue != [] && k !in m.stranded ==> lane.active.Some?)
      && (!Dead(m.tasks, id) ==>
           (k == m.tasks[id].key ==>
             (id in m.admitted <==> OnLane(lane, id)) && !(lane.active == Some(id) && id in lane.queue)) &&
           (k != m.tasks[id].key ==> !OnLane(lane, id)))
  {
    Reachable(limit, ops, i);
    LimitIsFixed(limit, ops, i);
    var m := At(limit, ops, i);
    assert LaneAt(m, k) && ServedAt(m, k) && PlacedAt(m, id);
  }

  predicate Skippable(tasks: Tasks, id: TaskId, io: Faults) {
    !Dead(tasks, id) && (tasks[id].cancelling || id in io.submit)
  }

  /** The scheduling of a free key raises at the `i`-th id: it passes over all before, and persisting this one fails. */
  ghost predicate RaisesAt(tasks: Tasks, queue: seq<TaskId>, io: Faults, i: nat) {
    && i < |queue| && Skippable(tasks, queue[i], io) && queue[i] in io.persist
    && forall j :: 0 <= j < i ==> Dead(tasks, queue[j]) || (Skippable(tasks, queue[j], io) && queue[j] !in io.persist)
  }

  lemma {:induction false} ScheduledRaises(tasks: Tasks, lane: Lane, io: Faults) returns (i: nat)
    requires lane.active.None?
    ensures var r := Scheduled(tasks, lane, io);
      && (r.raised ==> RaisesAt(tasks, lane.queue, io, i) && r.lane == Lane(None, lane.queue[i + 1..]))
      && (!r.raised ==> forall j :: !RaisesAt(tasks, lane.queue, io, j))
    decreases |lane.queue|
  {
    i := 0;
    if lane.queue != [] {
      var id, rest := lane.queue[0], Lane(None, lane.queue[1..]);
      var quiet := Dead(tasks, id) || (Skippable(tasks, id, io) && id !in io.persist);
      if quiet {
        var after := if Dead(tasks, id) then tasks else SetStatus(tasks, id, if tasks[id].cancelling then Cancelled else Failed);
        var n := ScheduledRaises(after, rest, io);
        i := n + 1;
        forall j: nat
          ensures RaisesAt(tasks, lane.queue, io, j) ==> j > 0 && RaisesAt(after, rest.queue, io, j - 1)
        {
        }
      }
    }
  }

  /** Scheduling a free key leaves it stranded exactly when persisting a skipped task raised with others still waiting. */
  lemma StrandedExactlyByAWriteFailure(m: Manager, k: Key, io: Faults)
    requires LaneOf(m, k).active.None?
    ensures var r := ScheduleKey(m, k, io);
      && (LaneOf(r, k).queue != [] && LaneOf(r, k).active.None? <==> k in r.stranded)
      && (k in r.stranded <==> exists i :: 0 <= i < |LaneOf(m, k).queue| - 1 && RaisesAt(m.tasks, LaneOf(m, k).queue, io, i))
  {
    var i := ScheduledRaises(m.tasks, LaneOf(m, k), io);
    var n := SchedulingTakesFromTheFront(m.tasks, LaneOf(m, k), io);
    var queue := LaneOf(m, k).queue;
    if Scheduled(m.tasks, LaneOf(m, k), io).raised {
      forall j: nat | RaisesAt(m.tasks, queue, io, j)
        ensures j == i
      {
      }
    }
  }

  // ---------------------------------------------------------------- the manager object

  /** `_session_active` and `_session_queues` are kept together, one lane a key. */
  class TaskManager {
    var tasks: Tasks
    var lanes: map<Key, Lane>
    var closing: bool
    const limit: nat
    ghost var seen: set<TaskId>
    ghost var admitted: set<TaskId>
    ghost var started: seq<TaskId>
    ghost var stranded: set<Key>

    ghost function Contents(): Manager
      reads this
    {
      Manager(tasks, lanes, closing, limit, seen, admitted, started, stranded)
    }

    constructor (limit: nat)
      ensures Contents() == Begin(limit)
    {
      tasks, lanes, closing, this.limit := map[], map[], false, limit;
      seen, admitted, started, stranded := {}, {}, [], {};
    }

    /** At start, before anything is submitted: a task that a live worker runs takes the slot of its key. */
    method AdoptRunning(id: TaskId, k: Key, batch: bool)
      requires id !in seen
      modifies this`tasks, this`lanes, this`seen, this`admitted
      ensures Contents() == Adopted(old(Contents()), id, k, batch)
    {
      var lane := if k in lanes then lanes[k] else Lane(None, []);
      tasks := tasks[id := Task(k, Running, false, batch)];
      lanes := lanes[k := lane.(active := Some(id))];
      admitted := (if lane.active.Some? then admitted - {lane.active.value} else admitted) + {id};
      seen := seen + {id};
    }

    /** `_schedule_session_locked`; `io` says which hand-overs and writes fail. */
    method ScheduleSession(k: Key, io: Faults)
      modifies this`tasks, this`lanes, this`started, this`stranded
      ensures Contents() == ScheduleKey(old(Contents()), k, io)
    {
      var lane := if k in lanes then lanes[k] else Lane(None, []);
      ghost var was, all := lane, tasks;
      var raised := false;
      while lane.active.None? && lane.queue != [] && !raised
        invariant !raised ==> Scheduled(all, was, io) == (if lane.active.Some? && was.active.None? then Outcome(tasks, lane, lane.active, false)
                                                          else Scheduled(tasks, lane, io))
        invariant raised ==> Scheduled(all, was, io) == Outcome(tasks, lane, None, true)
        invariant lanes == old(lanes) && started == old(started) && stranded == old(stranded)
        decreases |lane.queue|
      {
        var id := lane.queue[0];
        lane := lane.(queue := lane.queue[1..]);
        if id in tasks && !Terminal(tasks[id].status) {
          if tasks[id].cancelling || id in io.submit {
            tasks := tasks[id := tasks[id].(status := if tasks[id].cancelling then Cancelled else Failed)];
            raised := id in io.persist;
          } else {
            lane := lane.(active := Some(id));
          }
        }
      }
      lanes := lanes[k := lane];
      ghost var r := Scheduled(all, was, io);
      started := if r.start.Some? then started + [r.start.value] else started;
      stranded := if r.raised && r.lane.queue != [] then stranded + {k} else stranded - {k};
    }

    /** `_queue_task_locked`: false when the manager is closing or the queue is full. */
    method QueueTask(id: TaskId, front: bool, io: Faults) returns (accepted: bool)
      requires id in tasks
      modifies this`tasks, this`lanes, this`admitted, this`started, this`stranded
      ensures Contents() == Enqueued(old(Contents()), id, front, io)
      ensures accepted == Accepts(old(Contents()), id)
    {
      if closing {
        if !Terminal(tasks[id].status) {
          tasks := tasks[id := tasks[id].(status := Cancelled, cancelling := true)];
        }
        return false;
      }
      var k := tasks[id].key;
      var lane := if k in lanes then lanes[k] else Lane(None, []);
      var live := DropDead(lane);
      if id !in live && lane.active != Some(id) {
        if |live| >= limit {
          lanes := lanes[k := lane.(queue := live)];
          if !Terminal(tasks[id].status) {
            tasks := tasks[id := tasks[id].(status := Failed)];
          }
          return false;
        }
        live := if front then [id] + live else live + [id];
        admitted := admitted + {id};
      }
      lanes := lanes[k := lane.(queue := live)];
      ScheduleSession(k, io);
      accepted := true;
    }

    /** Stale entries must not consume capacity. */
    method DropDead(lane: Lane) returns (live: seq<TaskId>)
      ensures live == LiveQueue(tasks, lane)
    {
      live := [];
      var i := 0;
      while i < |lane.queue|
        invariant 0 <= i <= |lane.queue|
        invariant live == LiveQueue(tasks, lane.(queue := lane.queue[..i]))
      {
        assert lane.queue[..i + 1][..i] == lane.queue[..i];
        var id := lane.queue[i];
        if id in tasks && !Terminal(tasks[id].status) && lane.active != Some(id) {
          live := live + [id];
        }
        i := i + 1;
      }
      assert lane.queue[..i] == lane.queue;
    }

    /** `_release_session_slot` */
    method ReleaseSlot(id: TaskId, k: Key, io: Faults)
      modifies this`tasks, this`lanes, this`admitted, this`started, this`stranded
      ensures Contents() == Released(old(Contents()), id, k, io)
    {
      var lane := if k in lanes then lanes[k] else Lane(None, []);
      lanes := lanes[k := if lane.active == Some(id) then lane.(active := None) else lane];
      admitted := if lane.active == Some(id) then admitted - {id} else admitted;
      ScheduleSession(k, io);
    }

    /** `_remove_queued_task_locked` */
    method RemoveQueued(id: TaskId, k: Key)
      modifies this`lanes
      ensures Contents() == Dequeuing(old(Contents()), id, k)
    {
      var lane := if k in lanes then lanes[k] else Lane(None, []);
      var kept, i := [], 0;
      while i < |lane.queue|
        invariant 0 <= i <= |lane.queue|
        invariant kept == Without(lane.queue[..i], id)
      {
        assert lane.queue[..i + 1][..i] == lane.queue[..i];
        if lane.queue[i] != id {
          kept := kept + [lane.queue[i]];
        }
        i := i + 1;
      }
      assert lane.queue[..i] == lane.queue;
      lanes := lanes[k := lane.(queue := kept)];
    }

    /** `cancel`, without the calls it makes for the children. */
    method CancelTask(id: TaskId, io: Faults)
      requires id in tasks
      modifies this`tasks, this`lanes, this`admitted, this`started, this`stranded
      ensures Contents() == CancelOne(old(Contents()), id, io)
    {
      var k, batch := tasks[id].key, tasks[id].batch;
      if !Terminal(tasks[id].status) {
        tasks := tasks[id := tasks[id].(status := Cancelled, cancelling := true)];
      }
      if k in lanes && lanes[k].active == Some(id) {
        if batch {
          ReleaseSlot(id, k, io);
        }
      } else {
        RemoveQueued(id, k);
        ScheduleSession(k, io);
      }
    }
  }
}
