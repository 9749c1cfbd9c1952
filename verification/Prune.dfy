/**
 * Retention in minicc/task_store.py: which task rows a prune deletes, over any
 * child graph.  The listing it starts from is the table ordered by creation
 * time, newest first.
 */
module Prune {
  import opened Common

  type TaskId = string

  /** What a readable payload says; a payload that does not parse has none. */
  datatype Payload = Payload(terminal: bool, children: seq<TaskId>)

  datatype Task = Task(createdAt: real, payload: Option<Payload>)

  type Tasks = map<TaskId, Task>

  predicate Parsed(tasks: Tasks, id: TaskId) {
    id in tasks && tasks[id].payload.Some?
  }

  predicate Terminal(tasks: Tasks, id: TaskId) {
    Parsed(tasks, id) && tasks[id].payload.value.terminal
  }

  /** `id` is a readable child of the readable task `parent`. */
  predicate ChildOf(tasks: Tasks, parent: TaskId, id: TaskId) {
    Parsed(tasks, parent) && Parsed(tasks, id) && id in tasks[parent].payload.value.children
  }

  /** The table in query order. */
  ghost predicate Listing(tasks: Tasks, rows: seq<TaskId>) {
    && Distinct(rows)
    && (forall id :: id in rows <==> id in tasks)
    && forall i, j :: 0 <= i < j < |rows| ==> tasks[rows[i]].createdAt >= tasks[rows[j]].createdAt
  }

  function Terminals(tasks: Tasks, rows: seq<TaskId>): (r: seq<TaskId>)
    ensures forall id :: id in r <==> id in rows && Terminal(tasks, id)
    ensures |r| <= |rows|
  {
    if rows == [] then []
    else
      var last := rows[|rows| - 1];
      assert rows == rows[..|rows| - 1] + [last];
      Terminals(tasks, rows[..|rows| - 1]) + if Terminal(tasks, last) then [last] else []
  }

  predicate InAge(task: Task, cutoff: Option<real>) {
    cutoff.None? || task.createdAt >= cutoff.value
  }

  /** The newest terminal tasks within the age limit. */
  predicate Seed(tasks: Tasks, terminal: seq<TaskId>, keep: nat, cutoff: Option<real>, id: TaskId) {
    exists i :: 0 <= i < |terminal| && i < keep && terminal[i] == id && id in tasks && InAge(tasks[id], cutoff)
  }

  ghost predicate Closed(tasks: Tasks, s: set<TaskId>) {
    forall parent, id :: parent in s && ChildOf(tasks, parent, id) ==> id in s
  }

  /** The least child-closed set that contains every seed. */
  ghost predicate LeastClosed(tasks: Tasks, terminal: seq<TaskId>, keep: nat, cutoff: Option<real>, s: set<TaskId>) {
    && Closed(tasks, s)
    && (forall id :: Seed(tasks, terminal, keep, cutoff, id) ==> id in s)
    && forall t: set<TaskId> :: Closed(tasks, t) && (forall id :: Seed(tasks, terminal, keep, cutoff, id) ==> id in t) ==> s <= t
  }

  function Outside(ids: seq<TaskId>, s: set<TaskId>): (r: seq<TaskId>)
    ensures forall id :: id in r <==> id in ids && id !in s
    ensures |r| <= |ids|
  {
    if ids == [] then []
    else
      var last := ids[|ids| - 1];
      assert ids == ids[..|ids| - 1] + [last];
      Outside(ids[..|ids| - 1], s) + if last in s then [] else [last]
  }

  /** The limits a caller's argument is clamped to. */
  function Clamp(keepTerminal: int): nat {
    Max(0, Min(keepTerminal, 1000))
  }

  /** Between nothing and a thousand tasks are kept, and within that as many as asked for. */
  lemma ClampExactly(keepTerminal: int)
    ensures 0 <= Clamp(keepTerminal) <= 1000
    ensures 0 <= keepTerminal <= 1000 ==> Clamp(keepTerminal) == keepTerminal
    ensures keepTerminal < 0 ==> Clamp(keepTerminal) == 0
    ensures keepTerminal > 1000 ==> Clamp(keepTerminal) == 1000
  {
  }

  function Without<V>(table: map<TaskId, V>, ids: seq<TaskId>): map<TaskId, V> {
    map id | id in table && id !in ids :: table[id]
  }

  class TaskStore {
    var tasks: Tasks
    var search: map<TaskId, string>
    var leases: map<TaskId, string>

    constructor ()
      ensures tasks == map[] && search == map[] && leases == map[]
    {
      tasks, search, leases := map[], map[], map[];
    }

    /** `rows` is what the ordered query returns; `cutoff` is the oldest creation time still in age. */
    method Prune(rows: seq<TaskId>, keepTerminal: int, cutoff: Option<real>) returns (deleted: seq<TaskId>)
      requires Listing(tasks, rows)
      modifies this
      ensures Pruned(old(tasks), rows, Clamp(keepTerminal), cutoff, deleted)
      ensures tasks == Without(old(tasks), deleted)
      ensures search == Without(old(search), deleted)
      ensures leases == Without(old(leases), deleted)
    {
      var keep := Clamp(keepTerminal);
      var terminal := SelectTerminal(tasks, rows);
      var seeds := SelectSeeds(tasks, terminal, keep, cutoff);
      var retained := CloseOver(tasks, seeds);
      SeedsDecide(tasks, terminal, keep, cutoff, seeds, retained);
      deleted := [];
      for i := 0 to |terminal|
        invariant deleted == Outside(terminal[..i], retained)
        invariant tasks == old(tasks) && search == old(search) && leases == old(leases)
      {
        assert terminal[..i + 1][..i] == terminal[..i];
        if terminal[i] !in retained {
          deleted := deleted + [terminal[i]];
        }
      }
      assert terminal[..|terminal|] == terminal;
      tasks := Without(tasks, deleted);
      search := Without(search, deleted);
      leases := Without(leases, deleted);
    }
  }

  method SelectTerminal(tasks: Tasks, rows: seq<TaskId>) returns (terminal: seq<TaskId>)
    ensures terminal == Terminals(tasks, rows)
  {
    terminal := [];
    for i := 0 to |rows|
      invariant terminal == Terminals(tasks, rows[..i])
    {
      assert rows[..i + 1][..i] == rows[..i];
      if Terminal(tasks, rows[i]) {
        terminal := terminal + [rows[i]];
      }
    }
    assert rows[..|rows|] == rows;
  }

  method SelectSeeds(tasks: Tasks, terminal: seq<TaskId>, keep: nat, cutoff: Option<real>) returns (seeds: seq<TaskId>)
    ensures forall id :: id in seeds <==> Seed(tasks, terminal, keep, cutoff, id)
  {
    seeds := [];
    for i := 0 to |terminal|
      invariant forall id :: id in seeds <==>
                  exists j :: 0 <= j < i && j < keep && terminal[j] == id && id in tasks && InAge(tasks[id], cutoff)
    {
      var id := terminal[i];
      if i < keep && id in tasks && InAge(tasks[id], cutoff) {
        seeds := seeds + [id];
      }
    }
  }

  ghost predicate ClosedUpTo(tasks: Tasks, retained: set<TaskId>, pending: seq<TaskId>) {
    forall parent, id :: parent in retained && parent !in pending && ChildOf(tasks, parent, id) ==> id in retained
  }

  ghost predicate WithinEvery(tasks: Tasks, seeds: seq<TaskId>, retained: set<TaskId>) {
    forall t: set<TaskId> :: Closed(tasks, t) && (forall id :: id in seeds ==> id in t) ==> retained <= t
  }

  /** The worklist: it ends on any graph, cycles included, at the least closed set. */
  method CloseOver(tasks: Tasks, seeds: seq<TaskId>) returns (retained: set<TaskId>)
    requires forall id :: id in seeds ==> id in tasks
    ensures Closed(tasks, retained)
    ensures forall id :: id in seeds ==> id in retained
    ensures WithinEvery(tasks, seeds, retained)
  {
    retained := Elements(seeds);
    var pending := seeds;
    while pending != []
      invariant retained <= tasks.Keys
      invariant forall id :: id in pending ==> id in retained
      invariant forall id :: id in seeds ==> id in retained
      invariant ClosedUpTo(tasks, retained, pending)
      invariant WithinEvery(tasks, seeds, retained)
      decreases |tasks.Keys - retained|, |pending|
    {
      var parent := pending[|pending| - 1];
      ghost var before := retained;
      var rest := pending[..|pending| - 1];
      assert pending == rest + [parent];
      var more;
      retained, more := AddChildren(tasks, parent, retained, seeds);
      pending := rest + more;
      Shrinks(tasks.Keys, before, retained);
      assert more != [] ==> more[0] in more;
    }
  }

  lemma Shrinks(all: set<TaskId>, before: set<TaskId>, after: set<TaskId>)
    requires before <= after <= all
    ensures |all - after| <= |all - before|
    ensures before != after ==> |all - after| < |all - before|
  {
    assert all - before == (all - after) + (after - before);
    assert (all - after) !! (after - before);
    if before != after {
      assert after - before != {};
    }
  }

  method AddChildren(tasks: Tasks, parent: TaskId, retained: set<TaskId>, ghost seeds: seq<TaskId>)
    returns (grown: set<TaskId>, more: seq<TaskId>)
    requires parent in retained && retained <= tasks.Keys && WithinEvery(tasks, seeds, retained)
    ensures retained <= grown <= tasks.Keys && WithinEvery(tasks, seeds, grown)
    ensures forall id :: id in more <==> id in grown && id !in retained
    ensures more == [] ==> grown == retained
    ensures forall id :: ChildOf(tasks, parent, id) ==> id in grown
  {
    grown, more := retained, [];
    if !Parsed(tasks, parent) {
      return;
    }
    var children := tasks[parent].payload.value.children;
    for i := 0 to |children|
      invariant retained <= grown <= tasks.Keys && WithinEvery(tasks, seeds, grown)
      invariant forall id :: id in more <==> id in grown && id !in retained
      invariant forall j :: 0 <= j < i && Parsed(tasks, children[j]) ==> children[j] in grown
    {
      var child := children[i];
      if Parsed(tasks, child) && child !in grown {
        assert ChildOf(tasks, parent, child);
        grown := grown + {child};
        more := more + [child];
      }
    }
  }

  lemma SeedsDecide(tasks: Tasks, terminal: seq<TaskId>, keep: nat, cutoff: Option<real>, seeds: seq<TaskId>, s: set<TaskId>)
    requires forall id :: id in seeds <==> Seed(tasks, terminal, keep, cutoff, id)
    requires Closed(tasks, s) && (forall id :: id in seeds ==> id in s) && WithinEvery(tasks, seeds, s)
    ensures LeastClosed(tasks, terminal, keep, cutoff, s)
  {
  }

  /** Exactly the terminal tasks outside the least closed set are deleted, in listing order. */
  ghost predicate Pruned(tasks: Tasks, rows: seq<TaskId>, keep: nat, cutoff: Option<real>, deleted: seq<TaskId>) {
    var terminal := Terminals(tasks, rows);
    exists retained: set<TaskId> ::
      LeastClosed(tasks, terminal, keep, cutoff, retained) && deleted == Outside(terminal, retained)
  }

  // ---------- what survives ----------

  /** A chain of readable parents and children from one of the newest terminal tasks. */
  ghost predicate Chain(tasks: Tasks, terminal: seq<TaskId>, keep: nat, cutoff: Option<real>, path: seq<TaskId>) {
    && path != [] && Seed(tasks, terminal, keep, cutoff, path[0])
    && forall i :: 0 <= i < |path| - 1 ==> ChildOf(tasks, path[i], path[i + 1])
  }

  ghost predicate Descends(tasks: Tasks, terminal: seq<TaskId>, keep: nat, cutoff: Option<real>, id: TaskId) {
    exists path :: Chain(tasks, terminal, keep, cutoff, path) && path[|path| - 1] == id
  }

  lemma {:induction false} ChainsStayInside(tasks: Tasks, terminal: seq<TaskId>, keep: nat, cutoff: Option<real>,
                                            s: set<TaskId>, path: seq<TaskId>)
    requires LeastClosed(tasks, terminal, keep, cutoff, s) && Chain(tasks, terminal, keep, cutoff, path)
    ensures path[|path| - 1] in s
    decreases |path|
  {
    if |path| > 1 {
      var shorter := path[..|path| - 1];
      assert forall i :: 0 <= i < |shorter| - 1 ==> ChildOf(tasks, shorter[i], shorter[i + 1]) by {
        forall i | 0 <= i < |shorter| - 1 ensures ChildOf(tasks, shorter[i], shorter[i + 1]) {
          assert ChildOf(tasks, path[i], path[i + 1]);
        }
      }
      ChainsStayInside(tasks, terminal, keep, cutoff, s, shorter);
      assert ChildOf(tasks, path[|path| - 2], path[|path| - 1]);
    }
  }

  lemma DescendantsOfDescendants(tasks: Tasks, terminal: seq<TaskId>, keep: nat, cutoff: Option<real>, parent: TaskId, id: TaskId)
    requires Descends(tasks, terminal, keep, cutoff, parent) && ChildOf(tasks, parent, id)
    ensures Descends(tasks, terminal, keep, cutoff, id)
  {
    var path :| Chain(tasks, terminal, keep, cutoff, path) && path[|path| - 1] == parent;
    var longer := path + [id];
    forall i | 0 <= i < |longer| - 1 ensures ChildOf(tasks, longer[i], longer[i + 1]) {
      if i < |path| - 1 {
        assert ChildOf(tasks, path[i], path[i + 1]);
      }
    }
    assert Chain(tasks, terminal, keep, cutoff, longer);
  }

  /** The closure holds exactly what a chain reaches. */
  lemma RetainedExactlyByAChain(tasks: Tasks, terminal: seq<TaskId>, keep: nat, cutoff: Option<real>, s: set<TaskId>, id: TaskId)
    requires LeastClosed(tasks, terminal, keep, cutoff, s)
    ensures id in s <==> Descends(tasks, terminal, keep, cutoff, id)
  {
    if path :| Chain(tasks, terminal, keep, cutoff, path) && path[|path| - 1] == id {
      ChainsStayInside(tasks, terminal, keep, cutoff, s, path);
    }
    var reached := set x | x in s && Descends(tasks, terminal, keep, cutoff, x);
    forall parent, x | parent in reached && ChildOf(tasks, parent, x) ensures x in reached {
      DescendantsOfDescendants(tasks, terminal, keep, cutoff, parent, x);
    }
    forall x | Seed(tasks, terminal, keep, cutoff, x) ensures x in reached {
      assert Chain(tasks, terminal, keep, cutoff, [x]);
    }
    assert s <= reached;
  }

  /**
   * A task is deleted exactly when it is terminal and no chain of children
   * leads to it from one of the newest terminal tasks in age.  Unfinished and
   * unreadable tasks are therefore never deleted.
   */
  lemma DeletedExactly(tasks: Tasks, rows: seq<TaskId>, keep: nat, cutoff: Option<real>, deleted: seq<TaskId>, id: TaskId)
    requires Listing(tasks, rows) && Pruned(tasks, rows, keep, cutoff, deleted)
    ensures id in deleted <==>
            Terminal(tasks, id) && !Descends(tasks, Terminals(tasks, rows), keep, cutoff, id)
    ensures !Terminal(tasks, id) && id in tasks ==> id in Without(tasks, deleted)
  {
    var terminal := Terminals(tasks, rows);
    var retained :| LeastClosed(tasks, terminal, keep, cutoff, retained) && deleted == Outside(terminal, retained);
    RetainedExactlyByAChain(tasks, terminal, keep, cutoff, retained, id);
  }

  /** A chain grows link by link: it starts with a seed, or ends with a child of something it reaches. */
  lemma DescendsByOneLink(tasks: Tasks, terminal: seq<TaskId>, keep: nat, cutoff: Option<real>, id: TaskId)
    ensures Descends(tasks, terminal, keep, cutoff, id) <==>
            Seed(tasks, terminal, keep, cutoff, id)
            || exists p :: ChildOf(tasks, p, id) && Descends(tasks, terminal, keep, cutoff, p)
  {
    if Seed(tasks, terminal, keep, cutoff, id) {
      assert Chain(tasks, terminal, keep, cutoff, [id]);
    }
    if p :| ChildOf(tasks, p, id) && Descends(tasks, terminal, keep, cutoff, p) {
      DescendantsOfDescendants(tasks, terminal, keep, cutoff, p, id);
    }
    if path :| Chain(tasks, terminal, keep, cutoff, path) && path[|path| - 1] == id && |path| > 1 {
      var shorter := path[..|path| - 1];
      forall i | 0 <= i < |shorter| - 1 ensures ChildOf(tasks, shorter[i], shorter[i + 1]) {
        assert ChildOf(tasks, path[i], path[i + 1]);
      }
      assert Chain(tasks, terminal, keep, cutoff, shorter);
      assert ChildOf(tasks, path[|path| - 2], path[|path| - 1]);
    }
  }

  /**
   * What a kept batch does for its children.  Being kept is not enough: a
   * finished child survives exactly when it is itself among the newest or some
   * parent of it is reached from them, so always when the batch is so reached,
   * and only on other grounds when the batch is kept just for not having ended.
   */
  lemma ChildOfKeptBatch(tasks: Tasks, rows: seq<TaskId>, keep: nat, cutoff: Option<real>, deleted: seq<TaskId>,
                         batch: TaskId, id: TaskId)
    requires Listing(tasks, rows) && Pruned(tasks, rows, keep, cutoff, deleted)
    requires ChildOf(tasks, batch, id) && Terminal(tasks, id) && batch !in deleted
    ensures var terminal := Terminals(tasks, rows);
            && (id !in deleted <==>
                  Seed(tasks, terminal, keep, cutoff, id)
                  || exists p :: ChildOf(tasks, p, id) && Descends(tasks, terminal, keep, cutoff, p))
            && (Descends(tasks, terminal, keep, cutoff, batch) ==> id !in deleted)
            && (Terminal(tasks, batch) ==> id !in deleted)
  {
    DeletedExactly(tasks, rows, keep, cutoff, deleted, id);
    DeletedExactly(tasks, rows, keep, cutoff, deleted, batch);
    DescendsByOneLink(tasks, Terminals(tasks, rows), keep, cutoff, id);
  }

  /** A finished task, an older one that a running batch names as its child, and that batch. */
  ghost predicate RunningBatch(tasks: Tasks, rows: seq<TaskId>, newest: TaskId, child: TaskId, batch: TaskId) {
    && newest != child && newest != batch && child != batch
    && rows == [newest, child, batch]
    && tasks == map[newest := Task(3.0, Some(Payload(true, []))),
                    child := Task(2.0, Some(Payload(true, []))),
                    batch := Task(1.0, Some(Payload(false, [child])))]
  }

  lemma TwoOfThree(tasks: Tasks, a: TaskId, b: TaskId, c: TaskId)
    requires Terminal(tasks, a) && Terminal(tasks, b) && !Terminal(tasks, c)
    ensures Terminals(tasks, [a, b, c]) == [a, b]
  {
    var two := [a, b];
    SnocTerminals(tasks, [], a);
    assert [] + [a] == [a];
    SnocTerminals(tasks, [a], b);
    assert [a] + [b] == two;
    SnocTerminals(tasks, two, c);
    assert two + [c] == [a, b, c] && two + [] == two;
  }

  lemma ChildNotReached(tasks: Tasks, terminal: seq<TaskId>, child: TaskId, batch: TaskId)
    requires |terminal| > 0 && terminal[0] != child && terminal[0] != batch
    requires forall p :: ChildOf(tasks, p, child) ==> p == batch
    requires forall p :: !ChildOf(tasks, p, batch)
    ensures !Descends(tasks, terminal, 1, None, child)
  {
    DescendsByOneLink(tasks, terminal, 1, None, child);
    DescendsByOneLink(tasks, terminal, 1, None, batch);
  }

  /** With room for one finished task the running batch stays and its child goes. */
  lemma RunningBatchLosesItsChild(tasks: Tasks, rows: seq<TaskId>, newest: TaskId, child: TaskId, batch: TaskId,
                                  deleted: seq<TaskId>)
    requires RunningBatch(tasks, rows, newest, child, batch) && Pruned(tasks, rows, 1, None, deleted)
    ensures ChildOf(tasks, batch, child) && child in deleted && batch !in deleted
  {
    TwoOfThree(tasks, newest, child, batch);
    ChildNotReached(tasks, Terminals(tasks, rows), child, batch);
    assert Listing(tasks, rows);
    DeletedExactly(tasks, rows, 1, None, deleted, child);
    DeletedExactly(tasks, rows, 1, None, deleted, batch);
  }

  /** The terminal tasks in listing order: each stands behind exactly those listed before it. */
  lemma {:induction false} TerminalsAt(tasks: Tasks, rows: seq<TaskId>, i: nat)
    requires i < |rows| && Terminal(tasks, rows[i])
    ensures |Terminals(tasks, rows[..i])| < |Terminals(tasks, rows)|
    ensures Terminals(tasks, rows)[|Terminals(tasks, rows[..i])|] == rows[i]
    decreases |rows|
  {
    var init := rows[..|rows| - 1];
    if i < |init| {
      TerminalsAt(tasks, init, i);
      assert init[..i] == rows[..i];
    }
  }

  /**
   * The newest survive: a finished task with fewer than `keep` finished tasks
   * listed before it is never deleted, as long as it is no older than the cutoff.
   */
  lemma NewestSurvive(tasks: Tasks, rows: seq<TaskId>, keep: nat, cutoff: Option<real>, deleted: seq<TaskId>, i: nat)
    requires Listing(tasks, rows) && Pruned(tasks, rows, keep, cutoff, deleted)
    requires i < |rows| && Terminal(tasks, rows[i]) && |Terminals(tasks, rows[..i])| < keep
    requires cutoff == None || tasks[rows[i]].createdAt >= cutoff.value
    ensures rows[i] !in deleted
  {
    var terminal := Terminals(tasks, rows);
    TerminalsAt(tasks, rows, i);
    assert terminal[|Terminals(tasks, rows[..i])|] == rows[i];
    assert Seed(tasks, terminal, keep, cutoff, rows[i]);
    DescendsByOneLink(tasks, terminal, keep, cutoff, rows[i]);
    DeletedExactly(tasks, rows, keep, cutoff, deleted, rows[i]);
  }

  /** And a finished task without parents goes exactly when it is not among them. */
  lemma OrphansGoExactly(tasks: Tasks, rows: seq<TaskId>, keep: nat, cutoff: Option<real>, deleted: seq<TaskId>, i: nat)
    requires Listing(tasks, rows) && Pruned(tasks, rows, keep, cutoff, deleted)
    requires i < |rows| && Terminal(tasks, rows[i]) && forall p :: !ChildOf(tasks, p, rows[i])
    ensures rows[i] in deleted <==>
            keep <= |Terminals(tasks, rows[..i])| || (cutoff.Some? && tasks[rows[i]].createdAt < cutoff.value)
  {
    var terminal := Terminals(tasks, rows);
    TerminalsAt(tasks, rows, i);
    var at := |Terminals(tasks, rows[..i])|;
    assert terminal[at] == rows[i];
    TerminalsDistinct(tasks, rows);
    DescendsByOneLink(tasks, terminal, keep, cutoff, rows[i]);
    DeletedExactly(tasks, rows, keep, cutoff, deleted, rows[i]);
  }

  lemma {:induction false} TerminalsDistinct(tasks: Tasks, rows: seq<TaskId>)
    requires Distinct(rows)
    ensures Distinct(Terminals(tasks, rows))
  {
    if rows != [] {
      var init, last := rows[..|rows| - 1], rows[|rows| - 1];
      TerminalsDistinct(tasks, init);
      assert last !in init;
    }
  }

  // ---------- pruning twice ----------

  /** The listing after a prune: the same order, without the deleted rows. */
  function Left(rows: seq<TaskId>, deleted: seq<TaskId>): seq<TaskId> {
    Outside(rows, Elements(deleted))
  }

  lemma LeftIsAListing(tasks: Tasks, rows: seq<TaskId>, deleted: seq<TaskId>)
    requires Listing(tasks, rows)
    ensures Listing(Without(tasks, deleted), Left(rows, deleted))
  {
    LeftKeepsOrder(tasks, rows, Elements(deleted));
    var left := Left(rows, deleted);
    assert forall id :: id in left <==> id in Without(tasks, deleted);
  }

  lemma {:induction false} LeftKeepsOrder(tasks: Tasks, rows: seq<TaskId>, gone: set<TaskId>)
    requires Distinct(rows) && forall id :: id in rows ==> id in tasks
    requires forall i, j :: 0 <= i < j < |rows| ==> tasks[rows[i]].createdAt >= tasks[rows[j]].createdAt
    ensures Distinct(Outside(rows, gone))
    ensures forall i, j :: 0 <= i < j < |Outside(rows, gone)| ==>
                             tasks[Outside(rows, gone)[i]].createdAt >= tasks[Outside(rows, gone)[j]].createdAt
  {
    if rows != [] {
      var init, last := rows[..|rows| - 1], rows[|rows| - 1];
      assert forall id :: id in init ==> id in rows;
      LeftKeepsOrder(tasks, init, gone);
      forall id | id in init ensures id != last && tasks[id].createdAt >= tasks[last].createdAt {
        var k :| 0 <= k < |init| && init[k] == id;
        assert rows[k] == id;
      }
      var left := Outside(init, gone);
      assert forall i :: 0 <= i < |left| ==> left[i] in init;
    }
  }

  lemma SnocOutside(ids: seq<TaskId>, x: TaskId, gone: set<TaskId>)
    ensures Outside(ids + [x], gone) == Outside(ids, gone) + if x in gone then [] else [x]
  {
    assert (ids + [x])[..|ids|] == ids;
  }

  lemma SnocTerminals(tasks: Tasks, rows: seq<TaskId>, x: TaskId)
    ensures Terminals(tasks, rows + [x]) == Terminals(tasks, rows) + if Terminal(tasks, x) then [x] else []
  {
    assert (rows + [x])[..|rows|] == rows;
  }

  lemma TerminalsOfLeft(tasks: Tasks, rows: seq<TaskId>, deleted: seq<TaskId>)
    ensures Terminals(Without(tasks, deleted), Left(rows, deleted)) == Left(Terminals(tasks, rows), deleted)
  {
    FiltersCommute(tasks, Without(tasks, deleted), rows, Elements(deleted));
  }

  lemma {:induction false} FiltersCommute(tasks: Tasks, tasks': Tasks, rows: seq<TaskId>, gone: set<TaskId>)
    requires forall id :: Terminal(tasks', id) <==> Terminal(tasks, id) && id !in gone
    ensures Terminals(tasks', Outside(rows, gone)) == Outside(Terminals(tasks, rows), gone)
  {
    if rows != [] {
      var init, last := rows[..|rows| - 1], rows[|rows| - 1];
      FiltersCommute(tasks, tasks', init, gone);
      OneMoreRow(tasks, tasks', Outside(init, gone), Terminals(tasks, init), last, gone);
    }
  }

  lemma OneMoreRow(tasks: Tasks, tasks': Tasks, left: seq<TaskId>, terminal: seq<TaskId>, last: TaskId, gone: set<TaskId>)
    requires Terminal(tasks', last) <==> Terminal(tasks, last) && last !in gone
    requires Terminals(tasks', left) == Outside(terminal, gone)
    ensures Terminals(tasks', left + if last in gone then [] else [last])
         == Outside(terminal + if Terminal(tasks, last) then [last] else [], gone)
  {
    assert left + [] == left && terminal + [] == terminal;
    if last in gone {
      SnocOutside(terminal, last, gone);
      assert Outside(terminal, gone) + [] == Outside(terminal, gone);
    } else if Terminal(tasks, last) {
      SnocTerminals(tasks', left, last);
      SnocOutside(terminal, last, gone);
    } else {
      SnocTerminals(tasks', left, last);
      assert Terminals(tasks', left) + [] == Terminals(tasks', left);
    }
  }

  lemma {:induction false} MovesForward(ids: seq<TaskId>, gone: set<TaskId>, i: nat) returns (j: nat)
    requires i < |ids| && ids[i] !in gone
    ensures j <= i && j < |Outside(ids, gone)| && Outside(ids, gone)[j] == ids[i]
  {
    var init := ids[..|ids| - 1];
    if i < |init| {
      j := MovesForward(init, gone, i);
    } else {
      j := |Outside(init, gone)|;
    }
  }

  /** Pruning again at once, with the same limits, finds nothing to delete. */
  lemma PruningTwiceDeletesNothing(tasks: Tasks, rows: seq<TaskId>, keep: nat, cutoff: Option<real>,
                                   deleted: seq<TaskId>, again: seq<TaskId>)
    requires Listing(tasks, rows) && Pruned(tasks, rows, keep, cutoff, deleted)
    requires Pruned(Without(tasks, deleted), Left(rows, deleted), keep, cutoff, again)
    ensures again == []
  {
    var tasks', rows' := Without(tasks, deleted), Left(rows, deleted);
    LeftIsAListing(tasks, rows, deleted);
    if again != [] {
      var id := again[0];
      DeletedExactly(tasks', rows', keep, cutoff, again, id);
      assert Terminal(tasks, id);
      DeletedExactly(tasks, rows, keep, cutoff, deleted, id);
      StillDescends(tasks, rows, keep, cutoff, deleted, id);
      assert false;
    }
  }

  lemma StillDescends(tasks: Tasks, rows: seq<TaskId>, keep: nat, cutoff: Option<real>, deleted: seq<TaskId>, id: TaskId)
    requires Listing(tasks, rows) && Pruned(tasks, rows, keep, cutoff, deleted)
    requires Descends(tasks, Terminals(tasks, rows), keep, cutoff, id)
    ensures var tasks', rows' := Without(tasks, deleted), Left(rows, deleted);
            Descends(tasks', Terminals(tasks', rows'), keep, cutoff, id)
  {
    var tasks', terminal := Without(tasks, deleted), Terminals(tasks, rows);
    var path :| Chain(tasks, terminal, keep, cutoff, path) && path[|path| - 1] == id;
    forall i | 0 <= i < |path| ensures path[i] !in deleted {
      WalkIsKept(tasks, rows, keep, cutoff, deleted, path, i);
    }
    forall i | 0 <= i < |path| - 1 ensures ChildOf(tasks', path[i], path[i + 1]) {
      assert ChildOf(tasks, path[i], path[i + 1]);
    }
    var first := path[0];
    var k :| 0 <= k < |terminal| && k < keep && terminal[k] == first && first in tasks && InAge(tasks[first], cutoff);
    var j := MovesForward(terminal, Elements(deleted), k);
    TerminalsOfLeft(tasks, rows, deleted);
    assert Seed(tasks', Left(terminal, deleted), keep, cutoff, first);
    assert Chain(tasks', Left(terminal, deleted), keep, cutoff, path);
  }

  lemma WalkIsKept(tasks: Tasks, rows: seq<TaskId>, keep: nat, cutoff: Option<real>, deleted: seq<TaskId>,
                   path: seq<TaskId>, i: nat)
    requires Listing(tasks, rows) && Pruned(tasks, rows, keep, cutoff, deleted)
    requires Chain(tasks, Terminals(tasks, rows), keep, cutoff, path) && i < |path|
    ensures path[i] !in deleted
  {
    StepsDescend(tasks, Terminals(tasks, rows), keep, cutoff, path, i);
    DeletedExactly(tasks, rows, keep, cutoff, deleted, path[i]);
  }

  lemma {:induction false} StepsDescend(tasks: Tasks, terminal: seq<TaskId>, keep: nat, cutoff: Option<real>,
                                        path: seq<TaskId>, i: nat)
    requires Chain(tasks, terminal, keep, cutoff, path) && i < |path|
    ensures Descends(tasks, terminal, keep, cutoff, path[i])
  {
    DescendsByOneLink(tasks, terminal, keep, cutoff, path[i]);
    if i > 0 {
      StepsDescend(tasks, terminal, keep, cutoff, path, i - 1);
      assert ChildOf(tasks, path[i - 1], path[i - 1 + 1]);
    }
  }
}
