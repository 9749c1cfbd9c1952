/**
 A run of the scheduler of minicc/task_manager.py in which a failed write leaves a task waiting behind a free slot.
 */
module Stranding {
  import opened Common
  import opened SessionQueue

  lemma {:induction false} AtNext(limit: nat, ops: seq<Op>, i: nat)
    requires i < |ops|
    ensures At(limit, ops, i + 1) == Step(At(limit, ops, i), ops[i])
  {
  }

  /** Three tasks on one key: `b` is cancelled while it waits, and persisting it raises when `a` gives up the slot. */
  ghost predicate StrandingRun(ops: seq<Op>, k: Key, a: TaskId, b: TaskId, c: TaskId) {
    && a != b && a != c && b != c && |ops| == 8
    && ops[0] == Submit(a, k, false) && ops[1] == Submit(b, k, false) && ops[2] == Submit(c, k, false)
    && ops[3] == Enqueue(a, false, Faults({}, {})) && ops[4] == Enqueue(b, false, Faults({}, {}))
    && ops[5] == Enqueue(c, false, Faults({}, {}))
    && ops[6] == RequestCancel(b) && ops[7] == Release(a, k, Faults({}, {b}))
  }

  lemma ThreeSubmitted(limit: nat, ops: seq<Op>, k: Key, a: TaskId, b: TaskId, c: TaskId)
    requires StrandingRun(ops, k, a, b, c)
    ensures var m, waiting := At(limit, ops, 3), Task(k, Queued, false, false);
      m.lanes == map[] && m.tasks == map[a := waiting, b := waiting, c := waiting] && !m.closing && m.limit == limit
  {
    AtNext(limit, ops, 0);
    AtNext(limit, ops, 1);
    AtNext(limit, ops, 2);
  }

  lemma ThreeQueued(limit: nat, ops: seq<Op>, k: Key, a: TaskId, b: TaskId, c: TaskId)
    requires StrandingRun(ops, k, a, b, c) && limit >= 2
    ensures var m := At(limit, ops, 6);
      LaneOf(m, k) == Lane(Some(a), [b, c]) && m.tasks == At(limit, ops, 3).tasks
  {
    ThreeSubmitted(limit, ops, k, a, b, c);
    AtNext(limit, ops, 3);
    StartsAlone(At(limit, ops, 3), a, k);
    AtNext(limit, ops, 4);
    JoinsTheQueue(At(limit, ops, 4), b, k, Faults({}, {}));
    AtNext(limit, ops, 5);
    JoinsTheQueue(At(limit, ops, 5), c, k, Faults({}, {}));
    assert [] + [b] == [b] && [b] + [c] == [b, c];
  }

  /** A cancelled task at the head whose persistence raises leaves the next one behind a free slot. */
  lemma PassingOverRaises(m: Manager, k: Key, a: TaskId, b: TaskId, c: TaskId)
    requires LaneOf(m, k) == Lane(Some(a), [b, c]) && !Dead(m.tasks, b) && m.tasks[b].cancelling && !Dead(m.tasks, c) && b != c
    ensures var r := Released(m, a, k, Faults({}, {b}));
      LaneOf(r, k) == Lane(None, [c]) && k in r.stranded && !Dead(r.tasks, c)
  {
    assert [b, c][1..] == [c];
  }

  /** After this run `c` waits behind a free slot. */
  lemma StrandingHappens(limit: nat, ops: seq<Op>, k: Key, a: TaskId, b: TaskId, c: TaskId)
    requires StrandingRun(ops, k, a, b, c) && limit >= 2
    ensures var m := At(limit, ops, 8);
      LaneOf(m, k) == Lane(None, [c]) && !Dead(m.tasks, c) && k in m.stranded
  {
    ThreeSubmitted(limit, ops, k, a, b, c);
    ThreeQueued(limit, ops, k, a, b, c);
    AtNext(limit, ops, 6);
    AtNext(limit, ops, 7);
    PassingOverRaises(At(limit, ops, 7), k, a, b, c);
  }

  /** The first task of an idle key gets the slot at once. */
  lemma StartsAlone(m: Manager, id: TaskId, k: Key)
    requires id in m.tasks && m.tasks[id] == Task(k, Queued, false, false) && !m.closing && m.limit > 0
    requires LaneOf(m, k) == Lane(None, [])
    ensures var r := Enqueued(m, id, false, Faults({}, {}));
      LaneOf(r, k) == Lane(Some(id), []) && r.tasks == m.tasks && !r.closing && r.limit == m.limit
  {
    assert LiveQueue(m.tasks, LaneOf(m, k)) == [];
    assert [] + [id] == [id] && [id][1..] == [];
  }

  /** Behind an active task, a task joins the end of the queue. */
  lemma JoinsTheQueue(m: Manager, id: TaskId, k: Key, io: Faults)
    requires id in m.tasks && m.tasks[id].key == k && !Dead(m.tasks, id) && !m.closing
    requires LaneOf(m, k).active.Some? && LaneOf(m, k).active != Some(id) && id !in LaneOf(m, k).queue
    requires LiveQueue(m.tasks, LaneOf(m, k)) == LaneOf(m, k).queue && |LaneOf(m, k).queue| < m.limit
    ensures var r := Enqueued(m, id, false, io);
      && LaneOf(r, k) == LaneOf(m, k).(queue := LaneOf(m, k).queue + [id])
      && r.tasks == m.tasks && !r.closing && r.limit == m.limit
      && LiveQueue(r.tasks, LaneOf(r, k)) == LaneOf(r, k).queue
  {
    var queue := LaneOf(m, k).queue;
    assert (queue + [id])[..|queue|] == queue;
  }
}
