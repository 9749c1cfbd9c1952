/**
 Coalesced task persistence (minicc/task_persistence.py) together with the serial-numbered write it calls
 (`_write_task_snapshot` in minicc/task_manager.py).

 A task's content is represented by a version that grows with every change, wherever the change is made. One
 `flush` is several atomic steps, so any number of them (callers, the background drain, the final drain)
 interleave freely. Other processes write the same rows under no serial: the worker that runs a task, and the host
 that ran before. The lease decides when a worker may; here such a write can come at any moment, also in those
 around a hand-over in which the host has not yet, or no longer, marked the task as detached.
 */
module TaskPersistence {
  import opened Common

  type TaskId = string

  /** A stored row: a snapshot of this host under its serial, or what another process wrote. */
  datatype Row = ByHost(serial: nat, version: nat) | Foreign(version: nat)

  /**
   What is kept per task: its content version, the serial last handed out, the serial last committed, the
   stored row, and whether a worker process owns the writes. `asked` (the newest version whose persistence was
   accepted), `taken` (the version each serial was given to) and `yielded` (a flush since the last accepted
   request was left to the worker process) are history.
   */
  datatype Track = Track(version: nat, serial: nat, committed: nat, row: Option<Row>, detached: bool,
                         asked: nat, taken: seq<nat>, yielded: bool)

  const NEW_TASK := Track(1, 0, 0, None, false, 0, [], false)

  /** How far one `flush` has come: taken out of the dirty map by a drain, popped, serialized, or failed. */
  datatype Flight =
    | Drained(task: TaskId)
    | Popped(task: TaskId)
    | Snapped(task: TaskId, serial: nat, version: nat)
    | Failed(task: TaskId)

  datatype State = State(tracks: map<TaskId, Track>, pending: set<TaskId>, stopped: bool, flights: map<nat, Flight>)

  const START := State(map[], {}, false, map[])

  datatype Action =
    | Change(task: TaskId)
    | Enqueue(task: TaskId, retry: bool)
    | Drain(flight: nat, task: TaskId)       // one entry of the dirty map moves to a drain's own list
    | BeginDrained(flight: nat)              // the drain calls flush on it
    | StartFlush(flight: nat, task: TaskId)  // a caller calls flush
    | Snap(flight: nat)                      // the snapshot is built and numbered under the task lock
    | SnapFails(flight: nat)
    | Commit(flight: nat, ok: bool)          // the store write under the write lock; `ok` is false when it raises
    | Requeue(flight: nat)                   // the failed task goes back into the dirty map
    | Stop
    | Detach(task: TaskId)
    | Attach(task: TaskId)
    | ForeignWrite(task: TaskId)             // another process changes the task and writes its row

  function TrackOf(s: State, t: TaskId): Track {
    if t in s.tracks then s.tracks[t] else NEW_TASK
  }

  function RowVersion(s: State, t: TaskId): nat {
    if TrackOf(s, t).row.Some? then TrackOf(s, t).row.value.version else 0
  }

  /** The version of the snapshot this host committed last. */
  function HostVersion(k: Track): nat {
    if 0 < k.committed <= |k.taken| then k.taken[k.committed - 1] else 0
  }

  function SetTrack(s: State, t: TaskId, k: Track): State {
    s.(tracks := s.tracks[t := k])
  }

  /** Persisting the current content of a task has been asked for and accepted. */
  function Ask(s: State, t: TaskId): State {
    SetTrack(s, t, TrackOf(s, t).(asked := TrackOf(s, t).version, yielded := false))
  }

  /** The dirty map and the flights that take a task out of it and put it back. */
  function QueueStep(s: State, a: Action): State {
    match a
    case Enqueue(t, retry) => if retry || !s.stopped then Ask(s, t).(pending := s.pending + {t}) else s
    case Drain(f, t) =>
      if t in s.pending && f !in s.flights then s.(pending := s.pending - {t}, flights := s.flights[f := Drained(t)]) else s
    case BeginDrained(f) =>
      if f in s.flights && s.flights[f].Drained? then
        s.(pending := s.pending - {s.flights[f].task}, flights := s.flights[f := Popped(s.flights[f].task)])
      else s
    case StartFlush(f, t) =>
      if f !in s.flights then Ask(s, t).(pending := s.pending - {t}, flights := s.flights[f := Popped(t)]) else s
    case Requeue(f) =>
      if f in s.flights && s.flights[f].Failed? then
        s.(pending := s.pending + {s.flights[f].task}, flights := s.flights - {f})
      else s
    case _ => s
  }

  /** Build the snapshot and give it the next serial number; a detached task is left to its worker. */
  function SnapStep(s: State, f: nat): State {
    if f !in s.flights || !s.flights[f].Popped? then s
    else
      var t := s.flights[f].task;
      var k := TrackOf(s, t);
      if k.detached then SetTrack(s, t, k.(yielded := true)).(flights := s.flights - {f})
      else
        SetTrack(s, t, k.(serial := k.serial + 1, taken := k.taken + [k.version]))
        .(flights := s.flights[f := Snapped(t, k.serial + 1, k.version)])
  }

  /** Write the snapshot unless a newer one was committed first. */
  function CommitStep(s: State, f: nat, ok: bool): State {
    if f !in s.flights || !s.flights[f].Snapped? then s
    else
      var Snapped(t, n, v) := s.flights[f];
      var k := TrackOf(s, t);
      if k.detached then SetTrack(s, t, k.(yielded := true)).(flights := s.flights - {f})
      else if n <= k.committed then s.(flights := s.flights - {f})
      else if !ok then s.(flights := s.flights[f := Failed(t)])
      else SetTrack(s, t, k.(row := Some(ByHost(n, v)), committed := n)).(flights := s.flights - {f})
  }

  function ForeignlyWritten(k: Track): Track {
    k.(version := k.version + 1, row := Some(Foreign(k.version + 1)))
  }

  function Step(s: State, a: Action): State {
    match a
    case Change(t) => SetTrack(s, t, TrackOf(s, t).(version := TrackOf(s, t).version + 1))
    case Snap(f) => SnapStep(s, f)
    case SnapFails(f) =>
      if f in s.flights && s.flights[f].Popped? then s.(flights := s.flights[f := Failed(s.flights[f].task)]) else s
    case Commit(f, ok) => CommitStep(s, f, ok)
    case Stop => s.(stopped := true)
    case Detach(t) => SetTrack(s, t, TrackOf(s, t).(detached := true))
    case Attach(t) => SetTrack(s, t, TrackOf(s, t).(detached := false))
    case ForeignWrite(t) => SetTrack(s, t, ForeignlyWritten(TrackOf(s, t)))
    case _ => QueueStep(s, a)
  }

  /** The state after the first `i` steps of a run. */
  function At(s: State, actions: seq<Action>, i: nat): State
    requires i <= |actions|
  {
    if i == 0 then s else Step(At(s, actions, i - 1), actions[i - 1])
  }

  // ---------------------------------------------------------------- invariant

  ghost predicate RowOk(k: Track) {
    match k.row
    case None => k.committed == 0
    case Some(ByHost(n, v)) => n == k.committed > 0 && v == HostVersion(k)
    case Some(Foreign(v)) => HostVersion(k) < v <= k.version
  }

  /**
   Serial numbers are handed out in version order, and the stored row is the snapshot of the committed one, or what
   another process wrote after that snapshot was taken.
   */
  ghost predicate TrackOk(k: Track) {
    && k.committed <= |k.taken| == k.serial
    && (forall i, j :: 0 <= i <= j < |k.taken| ==> k.taken[i] <= k.taken[j])
    && (forall i :: 0 <= i < |k.taken| ==> 1 <= k.taken[i] <= k.version)
    && RowOk(k)
    && k.asked <= k.version && k.version >= 1
  }

  /** A serialized snapshot carries the version its serial was given to. */
  ghost predicate NumberOk(k: Track, x: Flight) {
    x.Snapped? ==> 1 <= x.serial <= |k.taken| && x.version == k.taken[x.serial - 1]
  }

  ghost predicate FlightOk(s: State, f: nat) {
    f in s.flights ==> NumberOk(TrackOf(s, s.flights[f].task), s.flights[f])
  }

  /** The flight will either store at least what was asked for, or put the task back. */
  ghost predicate Covers(s: State, f: nat, t: TaskId) {
    f in s.flights && s.flights[f].task == t && (s.flights[f].Snapped? ==> s.flights[f].version >= TrackOf(s, t).asked)
  }

  ghost predicate SettledAt(s: State, t: TaskId) {
    TrackOf(s, t).yielded || TrackOf(s, t).asked <= HostVersion(TrackOf(s, t)) || t in s.pending
  }

  /** What was asked for is stored, still dirty, or on its way, unless a flush of it was left to a worker. */
  ghost predicate KeptAt(s: State, t: TaskId) {
    SettledAt(s, t) || exists f :: Covers(s, f, t)
  }

  ghost predicate Inv(s: State) {
    && (forall t :: TrackOk(TrackOf(s, t)))
    && (forall f :: FlightOk(s, f))
    && (forall t :: KeptAt(s, t))
  }

  lemma TakeKeepsTrack(k: Track)
    requires TrackOk(k)
    ensures TrackOk(k.(serial := k.serial + 1, taken := k.taken + [k.version]))
  {
    assert k.committed > 0 ==> (k.taken + [k.version])[k.committed - 1] == k.taken[k.committed - 1];
  }

  lemma StoreKeepsTrack(k: Track, n: nat, v: nat)
    requires TrackOk(k) && NumberOk(k, Snapped("", n, v))
    ensures TrackOk(k.(row := Some(ByHost(n, v)), committed := n))
  {
  }

  /** What one step can make of the track of a task. */
  ghost predicate TrackMove(k: Track, r: Track) {
    || r == k || r == k.(version := k.version + 1) || r == k.(asked := k.version, yielded := false)
    || r == k.(detached := true) || r == k.(detached := false) || r == ForeignlyWritten(k)
  }

  lemma MoveKeepsTrack(k: Track, r: Track)
    requires TrackOk(k) && TrackMove(k, r)
    ensures TrackOk(r)
  {
    assert r.taken == k.taken && r.committed == k.committed && HostVersion(r) == HostVersion(k);
  }

  lemma TrackMoves(s: State, a: Action, t: TaskId)
    requires !a.Snap? && !a.Commit?
    ensures TrackMove(TrackOf(s, t), TrackOf(Step(s, a), t))
  {
  }

  lemma SnapKeepsTrack(s: State, f: nat, t: TaskId)
    requires TrackOk(TrackOf(s, t))
    ensures TrackOk(TrackOf(SnapStep(s, f), t))
  {
    TakeKeepsTrack(TrackOf(s, t));
  }

  lemma CommitKeepsTrack(s: State, f: nat, ok: bool, t: TaskId)
    requires TrackOk(TrackOf(s, t)) && FlightOk(s, f)
    ensures TrackOk(TrackOf(CommitStep(s, f, ok), t))
  {
    if f in s.flights && s.flights[f].Snapped? && s.flights[f].task == t {
      StoreKeepsTrack(TrackOf(s, t), s.flights[f].serial, s.flights[f].version);
    }
  }

  lemma StepKeepsTrack(s: State, a: Action, t: TaskId)
    requires TrackOk(TrackOf(s, t)) && (a.Commit? ==> FlightOk(s, a.flight))
    ensures TrackOk(TrackOf(Step(s, a), t))
  {
    if a.Snap? {
      SnapKeepsTrack(s, a.flight, t);
    } else if a.Commit? {
      CommitKeepsTrack(s, a.flight, a.ok, t);
    } else {
      TrackMoves(s, a, t);
      MoveKeepsTrack(TrackOf(s, t), TrackOf(Step(s, a), t));
    }
  }

  lemma SnapKeepsFlight(s: State, g: nat, f: nat)
    requires FlightOk(s, f) && (g in s.flights ==> TrackOk(TrackOf(s, s.flights[g].task)))
    ensures FlightOk(SnapStep(s, g), f)
  {
  }

  /** Only a snapshot numbers a flight or takes a version. */
  lemma OnlySnapNumbers(s: State, a: Action, f: nat, t: TaskId)
    requires !a.Snap?
    ensures TrackOf(Step(s, a), t).taken == TrackOf(s, t).taken
    ensures var r := Step(s, a); f in r.flights && r.flights[f].Snapped? ==> f in s.flights && s.flights[f] == r.flights[f]
  {
  }

  lemma StepKeepsFlight(s: State, a: Action, f: nat)
    requires FlightOk(s, f) && forall t :: TrackOk(TrackOf(s, t))
    ensures FlightOk(Step(s, a), f)
  {
    if a.Snap? {
      SnapKeepsFlight(s, a.flight, f);
      assert Step(s, a) == SnapStep(s, a.flight);
    } else if f in Step(s, a).flights {
      OnlySnapNumbers(s, a, f, Step(s, a).flights[f].task);
    }
  }

  /** A covering flight keeps covering, lands, or hands the task back to the dirty map. */
  lemma StepKeepsCover(s: State, a: Action, t: TaskId, f: nat)
    requires TrackOk(TrackOf(s, t)) && FlightOk(s, f) && Covers(s, f, t)
    ensures KeptAt(Step(s, a), t)
  {
    if a.Commit? {
      CommitKeepsCover(s, a.flight, a.ok, t, f);
    } else {
      var r := Step(s, a);
      if a.StartFlush? && a.task == t && r != s {
        assert Covers(r, a.flight, t);
      } else if f in r.flights && !SettledAt(r, t) {
        assert Covers(r, f, t);
      }
    }
  }

  lemma CommitKeepsCover(s: State, g: nat, ok: bool, t: TaskId, f: nat)
    requires TrackOk(TrackOf(s, t)) && FlightOk(s, f) && Covers(s, f, t)
    ensures KeptAt(CommitStep(s, g, ok), t)
  {
    var r := CommitStep(s, g, ok);
    if f in r.flights && !SettledAt(r, t) {
      assert Covers(r, f, t);
    }
  }

  /** What was stored stays stored, and what was dirty is taken up by the flight that takes it. */
  lemma StepKeepsSettled(s: State, a: Action, t: TaskId)
    requires TrackOk(TrackOf(s, t)) && (a.Commit? ==> FlightOk(s, a.flight)) && SettledAt(s, t)
    ensures KeptAt(Step(s, a), t)
  {
    var r := Step(s, a);
    if (a.Drain? || a.BeginDrained? || a.StartFlush?) && !SettledAt(r, t) {
      assert Covers(r, a.flight, t);
    }
  }

  lemma StepKeepsInv(s: State, a: Action)
    requires Inv(s)
    ensures Inv(Step(s, a))
  {
    if a.Commit? {
      assert FlightOk(s, a.flight);
    }
    forall t
      ensures TrackOk(TrackOf(Step(s, a), t)) && KeptAt(Step(s, a), t)
    {
      assert TrackOk(TrackOf(s, t)) && KeptAt(s, t);
      StepKeepsTrack(s, a, t);
      if SettledAt(s, t) {
        StepKeepsSettled(s, a, t);
      } else {
        var f :| Covers(s, f, t);
        StepKeepsCover(s, a, t, f);
      }
    }
    forall f
      ensures FlightOk(Step(s, a), f)
    {
      StepKeepsFlight(s, a, f);
    }
  }

  // ---------------------------------------------------------------- every interleaving

  lemma {:induction false} Reachable(actions: seq<Action>, i: nat)
    requires i <= |actions|
    ensures Inv(At(START, actions, i))
  {
    if i > 0 {
      Reachable(actions, i - 1);
      StepKeepsInv(At(START, actions, i - 1), actions[i - 1]);
    }
  }

  lemma ReachableTrack(actions: seq<Action>, i: nat, t: TaskId)
    requires i <= |actions|
    ensures TrackOk(TrackOf(At(START, actions, i), t))
  {
    Reachable(actions, i);
  }

  /** From one moment to a later one this host only commits under greater serials and never an older snapshot. */
  ghost predicate OnlyForward(k: Track, r: Track) {
    && k.committed <= r.committed && k.serial <= r.serial && k.taken <= r.taken && k.version <= r.version
    && HostVersion(k) <= HostVersion(r) && (k.row.Some? ==> r.row.Some?)
  }

  lemma StepOnlyForward(s: State, a: Action, t: TaskId)
    requires TrackOk(TrackOf(s, t)) && (a.Commit? ==> FlightOk(s, a.flight))
    ensures OnlyForward(TrackOf(s, t), TrackOf(Step(s, a), t))
  {
    if a.Commit? {
      CommitOnlyForward(s, a.flight, a.ok, t);
    } else if a.Snap? {
      SnapOnlyForward(s, a.flight, t);
    } else {
      TrackMoves(s, a, t);
      MoveOnlyForward(TrackOf(s, t), TrackOf(Step(s, a), t));
    }
  }

  lemma MoveOnlyForward(k: Track, r: Track)
    requires TrackMove(k, r)
    ensures OnlyForward(k, r)
  {
  }

  lemma SnapOnlyForward(s: State, f: nat, t: TaskId)
    requires TrackOk(TrackOf(s, t))
    ensures OnlyForward(TrackOf(s, t), TrackOf(SnapStep(s, f), t))
  {
  }

  lemma CommitOnlyForward(s: State, f: nat, ok: bool, t: TaskId)
    requires TrackOk(TrackOf(s, t)) && FlightOk(s, f)
    ensures OnlyForward(TrackOf(s, t), TrackOf(CommitStep(s, f, ok), t))
  {
  }

  lemma {:induction false} HostOnlyForward(actions: seq<Action>, i: nat, j: nat, t: TaskId)
    requires i <= j <= |actions|
    ensures OnlyForward(TrackOf(At(START, actions, i), t), TrackOf(At(START, actions, j), t))
    decreases j
  {
    if i < j {
      HostOnlyForward(actions, i, j - 1, t);
      var s := At(START, actions, j - 1);
      Reachable(actions, j - 1);
      assert TrackOk(TrackOf(s, t));
      if actions[j - 1].Commit? {
        assert FlightOk(s, actions[j - 1].flight);
      }
      StepOnlyForward(s, actions[j - 1], t);
    }
  }

  /**
   A stale running snapshot never replaces a newer one: over every run the host's commits only go forward, the row is
   never older than the last of them, and so a row that holds one of them is never followed by an older one.
   */
  lemma StaleNeverReplacesNewer(actions: seq<Action>, i: nat, j: nat, t: TaskId)
    requires i <= j <= |actions|
    ensures var s, r := At(START, actions, i), At(START, actions, j);
      && OnlyForward(TrackOf(s, t), TrackOf(r, t))
      && HostVersion(TrackOf(s, t)) <= HostVersion(TrackOf(r, t)) <= RowVersion(r, t)
      && (TrackOf(s, t).row.Some? && TrackOf(s, t).row.value.ByHost? ==> RowVersion(s, t) <= RowVersion(r, t))
  {
    HostOnlyForward(actions, i, j, t);
    ReachableTrack(actions, i, t);
    ReachableTrack(actions, j, t);
  }

  /** The step puts a snapshot of this host into the row of `t`. */
  predicate Lands(s: State, a: Action, t: TaskId) {
    && a.Commit? && a.ok && a.flight in s.flights && s.flights[a.flight].Snapped? && s.flights[a.flight].task == t
    && !TrackOf(s, t).detached && s.flights[a.flight].serial > TrackOf(s, t).committed
  }

  predicate Writes(s: State, a: Action, t: TaskId) {
    a == ForeignWrite(t) || Lands(s, a, t)
  }

  /** Only these two steps touch the row, and they say what it is afterwards. */
  lemma WritesTheRow(s: State, a: Action, t: TaskId)
    ensures var r := TrackOf(Step(s, a), t);
      && (!Writes(s, a, t) ==> r.row == TrackOf(s, t).row && r.committed == TrackOf(s, t).committed)
      && (a == ForeignWrite(t) ==> r.row == Some(Foreign(r.version)) && r.version == TrackOf(s, t).version + 1)
      && (Lands(s, a, t) ==>
           var x := s.flights[a.flight]; r.row == Some(ByHost(x.serial, x.version)) && r.committed == x.serial)
  {
    if !a.Snap? && !a.Commit? {
      TrackMoves(s, a, t);
    }
  }

  ghost predicate WritesAt(actions: seq<Action>, c: nat, t: TaskId)
    requires c < |actions|
  {
    Writes(At(START, actions, c), actions[c], t)
  }

  /** The stored row is what the last write left: a committed snapshot of this host, or another process's write. */
  ghost predicate LastWrittenAt(actions: seq<Action>, i: nat, t: TaskId, c: nat)
    requires i <= |actions|
  {
    && c < i && WritesAt(actions, c, t) && (forall d :: c < d < i ==> !WritesAt(actions, d, t))
    && TrackOf(At(START, actions, c + 1), t).row == TrackOf(At(START, actions, i), t).row
  }

  /** Finds the last write of a row, or tells that nobody wrote it. */
  lemma {:induction false} LastWriteStands(actions: seq<Action>, i: nat, t: TaskId) returns (c: nat)
    requires i <= |actions|
    ensures TrackOf(At(START, actions, i), t).row.None? ==> forall d :: 0 <= d < i ==> !WritesAt(actions, d, t)
    ensures TrackOf(At(START, actions, i), t).row.Some? ==> LastWrittenAt(actions, i, t, c)
  {
    c := 0;
    if i > 0 {
      c := LastWriteStands(actions, i - 1, t);
      OneMoreStep(actions, i, t);
      if WritesAt(actions, i - 1, t) {
        c := i - 1;
      } else if TrackOf(At(START, actions, i), t).row.Some? {
        LastWriteCarries(actions, i, t, c);
      }
    }
  }

  lemma OneMoreStep(actions: seq<Action>, i: nat, t: TaskId)
    requires 0 < i <= |actions|
    ensures WritesAt(actions, i - 1, t) ==>
              TrackOf(At(START, actions, i), t).row.Some? && LastWrittenAt(actions, i, t, i - 1)
    ensures !WritesAt(actions, i - 1, t) ==> TrackOf(At(START, actions, i), t).row == TrackOf(At(START, actions, i - 1), t).row
  {
    AtNext(actions, i - 1);
    WritesTheRow(At(START, actions, i - 1), actions[i - 1], t);
  }

  lemma LastWriteCarries(actions: seq<Action>, i: nat, t: TaskId, c: nat)
    requires 0 < i <= |actions| && LastWrittenAt(actions, i - 1, t, c) && !WritesAt(actions, i - 1, t)
    requires TrackOf(At(START, actions, i - 1), t).row == TrackOf(At(START, actions, i), t).row
    ensures LastWrittenAt(actions, i, t, c)
  {
  }

  lemma LastWriteIsUnique(actions: seq<Action>, i: nat, t: TaskId, c: nat, d: nat)
    requires i <= |actions| && LastWrittenAt(actions, i, t, c) && LastWrittenAt(actions, i, t, d)
    ensures c == d
  {
    assert WritesAt(actions, c, t) && WritesAt(actions, d, t);
  }

  /** The `k`-th step gave serial number `n` to a snapshot of version `v` of `t`, the version the task then had. */
  ghost predicate NumberedAt(actions: seq<Action>, k: nat, t: TaskId, n: nat, v: nat)
    requires k < |actions|
  {
    var before, after := TrackOf(At(START, actions, k), t), TrackOf(At(START, actions, k + 1), t);
    actions[k].Snap? && before.serial + 1 == n == after.serial && before.version == v
  }

  lemma SnapTakesTheNextNumber(s: State, a: Action, t: TaskId)
    ensures var k, r := TrackOf(s, t), TrackOf(Step(s, a), t);
      r.taken == k.taken || (a.Snap? && r.serial == k.serial + 1 && r.taken == k.taken + [k.version])
  {
    if !a.Snap? && !a.Commit? {
      TrackMoves(s, a, t);
    }
  }

  lemma {:induction false} SnapshotWasTaken(actions: seq<Action>, i: nat, t: TaskId, n: nat, v: nat)
    requires i <= |actions| && 1 <= n <= |TrackOf(At(START, actions, i), t).taken|
    requires v == TrackOf(At(START, actions, i), t).taken[n - 1]
    ensures exists k :: 0 <= k < i && NumberedAt(actions, k, t, n, v)
  {
    var s := At(START, actions, i - 1);
    SnapTakesTheNextNumber(s, actions[i - 1], t);
    Reachable(actions, i - 1);
    assert TrackOk(TrackOf(s, t));
    if n <= |TrackOf(s, t).taken| {
      SnapshotWasTaken(actions, i - 1, t, n, v);
    } else {
      assert NumberedAt(actions, i - 1, t, n, v);
    }
  }

  /**
   Whose row it is: nobody wrote it yet; or it is this host's and exactly the snapshot that was taken when the
   committed serial was handed out; or it is exactly the version of the last write of another process, which is newer
   than anything this host committed. In each case nothing has written it since.
   */
  ghost predicate RowExplained(actions: seq<Action>, i: nat, t: TaskId)
    requires i <= |actions|
  {
    var k := TrackOf(At(START, actions, i), t);
    match k.row
    case None => forall c :: 0 <= c < i ==> !WritesAt(actions, c, t)
    case Some(ByHost(n, v)) =>
      && n == k.committed && (exists j :: 0 <= j < i && NumberedAt(actions, j, t, n, v))
      && exists c: nat :: LastWrittenAt(actions, i, t, c) && actions[c].Commit?
    case Some(Foreign(v)) =>
      && HostVersion(k) < v
      && exists c: nat :: LastWrittenAt(actions, i, t, c) && ForeignlyWrittenAt(actions, c, t, v)
  }

  lemma StoredRowIsTheLastWrite(actions: seq<Action>, i: nat, t: TaskId)
    requires i <= |actions|
    ensures RowExplained(actions, i, t)
  {
    ReachableTrack(actions, i, t);
    var c := LastWriteStands(actions, i, t);
    var k := TrackOf(At(START, actions, i), t);
    if k.row.Some? {
      LastWriterOfTheRow(actions, i, t, c);
      if k.row.value.ByHost? {
        SnapshotWasTaken(actions, i, t, k.committed, k.row.value.version);
      }
    }
  }

  /** Which kind of step the last write was can be read off the row. */
  lemma LastWriterOfTheRow(actions: seq<Action>, i: nat, t: TaskId, c: nat)
    requires i <= |actions| && LastWrittenAt(actions, i, t, c)
    ensures var row := TrackOf(At(START, actions, i), t).row;
      && row.Some?
      && (row.value.ByHost? <==> actions[c].Commit?) && (row.value.Foreign? <==> actions[c] == ForeignWrite(t))
      && (row.value.Foreign? ==> ForeignlyWrittenAt(actions, c, t, row.value.version))
  {
    WritesTheRow(At(START, actions, c), actions[c], t);
    assert WritesAt(actions, c, t);
  }

  /** The `c`-th step is another process's write of version `v`. */
  ghost predicate ForeignlyWrittenAt(actions: seq<Action>, c: nat, t: TaskId, v: nat)
    requires c < |actions|
  {
    actions[c] == ForeignWrite(t) && TrackOf(At(START, actions, c + 1), t).version == v
  }

  // ---------------------------------------------------------------- commits over another process's row

  /**
   A step puts an older version into the row exactly when it lands a snapshot of this host over a newer row of
   another process; the serials say nothing about that.
   */
  lemma RowGoesBackExactly(s: State, a: Action, t: TaskId)
    requires TrackOk(TrackOf(s, t)) && (a.Commit? ==> FlightOk(s, a.flight))
    ensures RowVersion(Step(s, a), t) < RowVersion(s, t) <==>
              && Lands(s, a, t) && TrackOf(s, t).row.Some? && TrackOf(s, t).row.value.Foreign?
              && s.flights[a.flight].version < TrackOf(s, t).row.value.version
  {
    WritesTheRow(s, a, t);
  }

  /** A snapshot is older than another process's write exactly when its number was handed out before that write. */
  lemma OlderMeansNumberedBefore(actions: seq<Action>, k: nat, c: nat, t: TaskId, n: nat, v: nat, w: nat)
    requires k < |actions| && c < |actions|
    requires NumberedAt(actions, k, t, n, v) && ForeignlyWrittenAt(actions, c, t, w)
    ensures v < w <==> k < c
  {
    if k < c {
      HostOnlyForward(actions, k, c, t);
    } else {
      HostOnlyForward(actions, c + 1, k, t);
    }
    WritesTheRow(At(START, actions, c), actions[c], t);
  }

  /**
   So over every run: the commit of snapshot `n` replaces a newer row of another process exactly when the host owns
   the task by then, no later snapshot was committed, and the row is a write that came after `n` was handed out.
   */
  lemma StaleCommitExactly(actions: seq<Action>, i: nat, t: TaskId, n: nat, v: nat, k: nat)
    requires i < |actions| && actions[i].Commit? && actions[i].flight in At(START, actions, i).flights
    requires At(START, actions, i).flights[actions[i].flight] == Snapped(t, n, v)
    requires k < i && NumberedAt(actions, k, t, n, v)
    ensures var s := At(START, actions, i); var track := TrackOf(s, t);
      RowVersion(At(START, actions, i + 1), t) < RowVersion(s, t) <==>
        && actions[i].ok && !track.detached && n > track.committed
        && exists c: nat :: k < c && LastWrittenAt(actions, i, t, c) && actions[c] == ForeignWrite(t)
  {
    var s := At(START, actions, i);
    var row := TrackOf(s, t).row;
    Reachable(actions, i);
    assert TrackOk(TrackOf(s, t)) && FlightOk(s, actions[i].flight);
    RowGoesBackExactly(s, actions[i], t);
    var c := LastWriteStands(actions, i, t);
    if row.Some? {
      LastWriterOfTheRow(actions, i, t, c);
      forall d: nat | LastWrittenAt(actions, i, t, d) ensures d == c {
        LastWriteIsUnique(actions, i, t, c, d);
      }
      if row.value.Foreign? {
        OlderMeansNumberedBefore(actions, k, c, t, n, v, row.value.version);
      }
    }
  }

  /**
   A run that does it: a snapshot waits for the write lock while the task is handed to a worker, which writes, and
   taken back; then it lands over the worker's newer row.
   */
  lemma StaleCommitHappens(t: TaskId, actions: seq<Action>)
    requires actions == [Enqueue(t, false), StartFlush(0, t), Snap(0), Detach(t), ForeignWrite(t), Attach(t), Commit(0, true)]
    ensures RowVersion(At(START, actions, 6), t) == 2 && RowVersion(At(START, actions, 7), t) == 1
    ensures TrackOf(At(START, actions, 7), t).row == Some(ByHost(1, 1))
  {
    AfterThreeSteps(t, actions);
    HandedOverAndTakenBack(t, actions);
    AtNext(actions, 6);
  }

  lemma HandedOverAndTakenBack(t: TaskId, actions: seq<Action>)
    requires |actions| >= 6 && actions[3] == Detach(t) && actions[4] == ForeignWrite(t) && actions[5] == Attach(t)
    ensures var s, r := At(START, actions, 3), At(START, actions, 6); var v := TrackOf(s, t).version + 1;
      r.flights == s.flights && TrackOf(r, t) == TrackOf(s, t).(version := v, row := Some(Foreign(v)), detached := false)
  {
    AtNext(actions, 3);
    AtNext(actions, 4);
    AtNext(actions, 5);
  }

  lemma AfterThreeSteps(t: TaskId, actions: seq<Action>)
    requires |actions| >= 3 && actions[0] == Enqueue(t, false) && actions[1] == StartFlush(0, t) && actions[2] == Snap(0)
    ensures var s := At(START, actions, 3);
      s.flights == map[0 := Snapped(t, 1, 1)] && TrackOf(s, t) == NEW_TASK.(asked := 1, serial := 1, taken := [1])
  {
    AtNext(actions, 0);
    AtNext(actions, 1);
    AtNext(actions, 2);
  }

  lemma AtNext(actions: seq<Action>, i: nat)
    requires i < |actions|
    ensures At(START, actions, i + 1) == Step(At(START, actions, i), actions[i])
  {
  }

  /** Nothing asked for is lost: it is stored, dirty, or in a flight that will store it or put it back. */
  lemma AskedIsStoredOrOnItsWay(actions: seq<Action>, i: nat, t: TaskId)
    requires i <= |actions| && !TrackOf(At(START, actions, i), t).yielded
    ensures var s := At(START, actions, i);
      IsStored(s, t, TrackOf(s, t).asked) || t in s.pending || exists f :: Covers(s, f, t)
    ensures var s := At(START, actions, i);
      t !in s.pending && (forall f :: f in s.flights ==> s.flights[f].task != t) ==> IsStored(s, t, TrackOf(s, t).asked)
  {
    Reachable(actions, i);
    assert KeptAt(At(START, actions, i), t);
    ReachableTrack(actions, i, t);
  }

  /** This host committed version `v` or a newer one, and the row still is that commit or a later write of another process. */
  ghost predicate IsStored(s: State, t: TaskId, v: nat) {
    v <= HostVersion(TrackOf(s, t)) <= RowVersion(s, t)
  }

  /** The step asks for the current version of `t` to be stored, and the writer takes the request. */
  predicate Requests(s: State, a: Action, t: TaskId) {
    (a.Enqueue? && a.task == t && (a.retry || !s.stopped)) || (a.StartFlush? && a.task == t && a.flight !in s.flights)
  }

  /** Whether position `j` is the last before `i` that hands the task over or takes it back, and hands it over. */
  ghost predicate HandedOverAt(actions: seq<Action>, i: nat, t: TaskId, j: nat) {
    j < i <= |actions| && actions[j] == Detach(t) && forall x :: j < x < i ==> actions[x] != Detach(t) && actions[x] != Attach(t)
  }

  /** What the world does to a run: a task is another process's since the last hand-over, and a writer stops for good. */
  lemma {:induction false} OwnedExactly(actions: seq<Action>, i: nat, t: TaskId)
    requires i <= |actions|
    ensures TrackOf(At(START, actions, i), t).detached <==> exists j: nat :: HandedOverAt(actions, i, t, j)
    ensures At(START, actions, i).stopped <==> exists j :: 0 <= j < i && actions[j] == Stop
  {
    if i > 0 {
      var h: nat := i - 1;
      OwnedExactly(actions, h, t);
      StepOwns(At(START, actions, h), actions[h], t);
      if actions[h] == Detach(t) {
        assert HandedOverAt(actions, i, t, h);
      } else if actions[h] != Attach(t) {
        assert forall j: nat :: j < h ==> (HandedOverAt(actions, i, t, j) <==> HandedOverAt(actions, h, t, j));
      }
    }
  }

  lemma StepOwns(s: State, a: Action, t: TaskId)
    ensures TrackOf(Step(s, a), t).detached <==> a == Detach(t) || (TrackOf(s, t).detached && a != Attach(t))
    ensures Step(s, a).stopped <==> s.stopped || a == Stop
  {
  }

  /** The positions where the content of a task changes, here or in another process. */
  ghost function ChangesOf(actions: seq<Action>, i: nat, t: TaskId): set<int>
    requires i <= |actions|
  {
    set j | 0 <= j < i && (actions[j] == Change(t) || actions[j] == ForeignWrite(t))
  }

  /** A version is the number of changes so far; it starts at one. */
  lemma {:induction false} VersionCountsChanges(actions: seq<Action>, i: nat, t: TaskId)
    requires i <= |actions|
    ensures TrackOf(At(START, actions, i), t).version == 1 + |ChangesOf(actions, i, t)|
  {
    if i > 0 {
      var h: nat := i - 1;
      VersionCountsChanges(actions, h, t);
      StepCounts(At(START, actions, h), actions[h], t);
      assert ChangesOf(actions, i, t) ==
        if actions[h] == Change(t) || actions[h] == ForeignWrite(t) then ChangesOf(actions, h, t) + {h} else ChangesOf(actions, h, t);
    }
  }

  lemma StepCounts(s: State, a: Action, t: TaskId)
    ensures TrackOf(Step(s, a), t).version
         == TrackOf(s, t).version + if a == Change(t) || a == ForeignWrite(t) then 1 else 0
  {
  }

  /** A drained task is flushed like any other: its content is stored, or it waits again if the snapshot cannot be built. */
  lemma DrainLandsOrRequeues(s: State, t: TaskId, f: nat)
    requires t in s.pending && f !in s.flights && !TrackOf(s, t).detached && TrackOf(s, t).committed <= TrackOf(s, t).serial
    ensures var drained := Step(Step(s, Drain(f, t)), BeginDrained(f));
      var landed, failed := Step(Step(drained, Snap(f)), Commit(f, true)), Step(Step(drained, SnapFails(f)), Requeue(f));
      && t !in drained.pending
      && t !in landed.pending && f !in landed.flights
      && TrackOf(landed, t).row == Some(ByHost(TrackOf(s, t).serial + 1, TrackOf(s, t).version))
      && t in failed.pending && f !in failed.flights && failed.tracks == s.tracks
  {
    var drained := Step(Step(s, Drain(f, t)), BeginDrained(f));
    assert drained.flights[f] == Popped(t) && drained.tracks == s.tracks;
    var snapped := Step(drained, Snap(f));
    assert snapped.flights[f] == Snapped(t, TrackOf(s, t).serial + 1, TrackOf(s, t).version);
    assert Step(drained, SnapFails(f)).flights[f] == Failed(t);
  }

  /** A change is taken up unless the writer has stopped and it is no retry; then it leaves no trace at all. */
  lemma ChangeIsTakenUpExactly(s: State, t: TaskId, retry: bool)
    ensures var r := Step(s, Enqueue(t, retry));
      && (t in r.pending <==> t in s.pending || retry || !s.stopped)
      && (s.stopped && !retry ==> r == s)
  {
  }

  /** A flush is left to the worker only while the task is detached. */
  lemma YieldsOnlyWhileDetached(s: State, a: Action, t: TaskId)
    requires TrackOk(TrackOf(s, t)) && !TrackOf(s, t).yielded && !TrackOf(s, t).detached
    ensures !TrackOf(Step(s, a), t).yielded
    ensures a != Detach(t) ==> !TrackOf(Step(s, a), t).detached
    ensures TrackOf(s, t).asked <= TrackOf(Step(s, a), t).asked
  {
    if !a.Snap? && !a.Commit? {
      TrackMoves(s, a, t);
    }
  }

  lemma {:induction false} NotYieldedSince(actions: seq<Action>, i: nat, j: nat, t: TaskId)
    requires i < j <= |actions| && Requests(At(START, actions, i), actions[i], t) && !TrackOf(At(START, actions, i), t).detached
    requires forall n :: i < n < j ==> actions[n] != Detach(t)
    ensures !TrackOf(At(START, actions, j), t).yielded && !TrackOf(At(START, actions, j), t).detached
    ensures TrackOf(At(START, actions, i), t).version <= TrackOf(At(START, actions, j), t).asked
  {
    if i + 1 < j {
      NotYieldedSince(actions, i, j - 1, t);
      Reachable(actions, j - 1);
      assert TrackOk(TrackOf(At(START, actions, j - 1), t));
      YieldsOnlyWhileDetached(At(START, actions, j - 1), actions[j - 1], t);
    }
  }

  /**
   A request taken while the host owns the task is kept for as long as the task is not handed to a worker again,
   whatever happened to it before: its version, or a newer one, is stored, or the task is dirty or being flushed.
   */
  lemma HostRequestIsKept(actions: seq<Action>, i: nat, j: nat, t: TaskId)
    requires i < j <= |actions| && Requests(At(START, actions, i), actions[i], t) && !TrackOf(At(START, actions, i), t).detached
    requires forall n :: i < n < j ==> actions[n] != Detach(t)
    ensures var s := At(START, actions, j);
      IsStored(s, t, TrackOf(At(START, actions, i), t).version) || t in s.pending || exists f :: Covers(s, f, t)
  {
    NotYieldedSince(actions, i, j, t);
    AskedIsStoredOrOnItsWay(actions, j, t);
  }

  // ---------------------------------------------------------------- one flush with no other writer

  /** A whole `flush` while nobody else writes. */
  function Flushed(s: State, t: TaskId, ok: bool): State {
    Step(Step(Step(Step(s, StartFlush(0, t)), Snap(0)), Commit(0, ok)), Requeue(0))
  }

  /** The task's track after a flush: numbered unless it is detached, stored if the write lands. */
  function TrackFlushed(k: Track, ok: bool): Track {
    if k.detached then k.(asked := k.version, yielded := true)
    else
      var n := k.(asked := k.version, yielded := false, serial := k.serial + 1, taken := k.taken + [k.version]);
      if ok then n.(row := Some(ByHost(k.serial + 1, k.version)), committed := k.serial + 1) else n
  }

  lemma TrackFlushedOk(k: Track, ok: bool)
    requires TrackOk(k)
    ensures TrackOk(TrackFlushed(k, ok))
  {
    MoveKeepsTrack(k, k.(asked := k.version, yielded := false));
    TakeKeepsTrack(k.(asked := k.version, yielded := false));
  }

  lemma FlushLandsOrRequeues(s: State, t: TaskId, ok: bool)
    requires TrackOk(TrackOf(s, t)) && s.flights == map[]
    ensures var k := TrackOf(s, t);
      Flushed(s, t, ok) ==
        SetTrack(s, t, TrackFlushed(k, ok)).(pending := if !k.detached && !ok then s.pending + {t} else s.pending - {t})
  {
    var k, a := TrackOf(s, t), Step(s, StartFlush(0, t));
    assert a.flights == map[0 := Popped(t)] && TrackOf(a, t) == k.(asked := k.version, yielded := false);
    var b := Step(a, Snap(0));
    assert k.detached ==> b.flights == map[] && b == Flushed(s, t, ok);
    if !k.detached {
      assert b.flights == map[0 := Snapped(t, k.serial + 1, k.version)];
      var c := Step(b, Commit(0, ok));
      assert TrackOf(c, t) == TrackFlushed(k, ok);
      assert if ok then c.flights == map[] else c.flights == map[0 := Failed(t)];
      assert (s.pending - {t}) + {t} == s.pending + {t};
    }
  }

  /** What a drain makes of one track: the current version is stored if a write landed, else the row is untouched. */
  ghost predicate DrainedTrack(k: Track, r: Track, landed: bool) {
    && r.version == k.version && r.detached == k.detached && (landed ==> r.yielded == k.detached)
    && (if landed && !k.detached then r.row == Some(ByHost(r.committed, k.version)) else r.row == k.row)
  }

  lemma FlushDrains(k: Track, r: Track, ok: bool)
    requires DrainedTrack(k, r, false)
    ensures DrainedTrack(k, TrackFlushed(r, ok), k.detached || ok)
  {
  }

  lemma LastUpdateWins<K, V>(m: map<K, V>, k: K, a: V, b: V)
    ensures m[k := a][k := b] == m[k := b]
  {
  }

  /** After the tasks of `batch` have been drained. */
  ghost predicate DrainedAt(s: State, tracks: map<TaskId, Track>, batch: seq<TaskId>, lands: (TaskId, nat) -> bool, t: TaskId) {
    var r := if t in tracks then tracks[t] else NEW_TASK;
    if t in batch then DrainedTrack(TrackOf(s, t), r, !NeverLands(s, lands, t)) else r == TrackOf(s, t)
  }

  /** Both attempts of the final drain at one task fail. */
  predicate NeverLands(s: State, lands: (TaskId, nat) -> bool, t: TaskId) {
    !TrackOf(s, t).detached && !lands(t, 0) && !lands(t, 1)
  }

  /** The ids of a drain that never land, in order. */
  function Unlanded(batch: seq<TaskId>, s: State, lands: (TaskId, nat) -> bool): seq<TaskId> {
    if batch == [] then []
    else
      var t := batch[|batch| - 1];
      Unlanded(batch[..|batch| - 1], s, lands) + (if NeverLands(s, lands, t) then [t] else [])
  }

  lemma {:induction false} UnlandedExactly(batch: seq<TaskId>, s: State, lands: (TaskId, nat) -> bool, t: TaskId)
    ensures t in Unlanded(batch, s, lands) <==> t in batch && NeverLands(s, lands, t)
    ensures t in Unlanded(batch, s, lands) <==> t in batch && !TrackOf(s, t).detached && !lands(t, 0) && !lands(t, 1)
  {
    if batch != [] {
      assert batch == batch[..|batch| - 1] + [batch[|batch| - 1]];
      UnlandedExactly(batch[..|batch| - 1], s, lands, t);
    }
  }

  // ---------------------------------------------------------------- the writer object

  ghost predicate TracksOk(tracks: map<TaskId, Track>) {
    forall t :: t in tracks ==> TrackOk(tracks[t])
  }

  /** The ids of a dirty map, in dict order, without one of them. */
  ghost function Removed(ids: seq<TaskId>, t: TaskId): seq<TaskId> {
    if ids == [] then []
    else if ids[0] == t then ids[1..]
    else [ids[0]] + Removed(ids[1..], t)
  }

  lemma {:induction false} RemovedCuts(ids: seq<TaskId>, t: TaskId, i: nat)
    requires i <= |ids| && t !in ids[..i] && (i < |ids| ==> ids[i] == t)
    ensures Removed(ids, t) == if i < |ids| then ids[..i] + ids[i + 1..] else ids
  {
    if i > 0 {
      assert ids[0] in ids[..i] && ids[1..][..i - 1] == ids[..i][1..];
      RemovedCuts(ids[1..], t, i - 1);
    }
  }

  lemma RemovedAbsent(ids: seq<TaskId>, t: TaskId)
    requires t !in ids
    ensures Removed(ids, t) == ids
  {
    RemovedCuts(ids, t, |ids|);
  }

  lemma RemovedLast(ids: seq<TaskId>, t: TaskId)
    requires t !in ids
    ensures Removed(ids + [t], t) == ids
  {
    assert (ids + [t])[..|ids|] == ids;
    RemovedCuts(ids + [t], t, |ids|);
  }

  lemma {:induction false} RemovedElements(ids: seq<TaskId>, t: TaskId)
    requires Distinct(ids)
    ensures Distinct(Removed(ids, t)) && Elements(Removed(ids, t)) == Elements(ids) - {t}
    ensures t !in Removed(ids, t)
  {
    if ids != [] {
      var first, rest := ids[0], ids[1..];
      assert ids == [first] + rest && first !in rest;
      RemovedElements(rest, t);
      if first != t {
        DistinctPair(first, Removed(rest, t));
      }
    }
  }

  lemma DistinctPair(first: TaskId, rest: seq<TaskId>)
    requires Distinct(rest) && first !in Elements(rest)
    ensures Distinct([first] + rest) && Elements([first] + rest) == {first} + Elements(rest)
  {
  }

  lemma TracksOkPut(tracks: map<TaskId, Track>, t: TaskId, k: Track)
    requires TracksOk(tracks) && TrackOk(k)
    ensures TracksOk(tracks[t := k])
  {
  }

  /** A flush as the writer leaves it is the whole sequence of its steps. */
  lemma FlushIsItsSteps(s: State, ids: seq<TaskId>, t: TaskId, ok: bool, raised: bool, after: seq<TaskId>)
    requires TrackOk(TrackOf(s, t)) && s.flights == map[] && Distinct(ids) && s.pending == Elements(ids)
    requires raised == (!TrackOf(s, t).detached && !ok) && after == Removed(ids, t) + (if raised then [t] else [])
    ensures Distinct(after)
    ensures State(s.tracks[t := TrackFlushed(TrackOf(s, t), ok)], Elements(after), s.stopped, map[]) == Flushed(s, t, ok)
  {
    FlushLandsOrRequeues(s, t, ok);
    RemovedElements(ids, t);
    assert Elements(after) == if raised then s.pending + {t} else s.pending - {t};
  }

  /** `TaskSnapshotWriter` between two calls, with the tracks its write callback updates; `pending` is in dict order. */
  class TaskSnapshotWriter {
    var tracks: map<TaskId, Track>
    var pending: seq<TaskId>
    var stopped: bool
    var lastError: Option<TaskId>

    ghost function Contents(): State
      reads this
    {
      State(tracks, Elements(pending), stopped, map[])
    }

    ghost predicate Valid()
      reads this
    {
      Distinct(pending) && TracksOk(tracks)
    }

    constructor ()
      ensures Contents() == START && Valid()
    {
      tracks, pending, stopped, lastError := map[], [], false, None;
    }

    method Enqueue(t: TaskId, retry: bool)
      requires Valid()
      modifies this`tracks, this`pending
      ensures Contents() == Step(old(Contents()), Action.Enqueue(t, retry)) && Valid()
    {
      ghost var s := Contents();
      if retry || !stopped {
        var k := if t in tracks then tracks[t] else NEW_TASK;
        MoveKeepsTrack(k, k.(asked := k.version, yielded := false));
        tracks := tracks[t := k.(asked := k.version, yielded := false)];
        if t !in pending {
          pending := pending + [t];
        }
        assert Elements(pending) == s.pending + {t};
      }
    }

    /** Drop one id from the dirty map. */
    method Pop(t: TaskId)
      requires Distinct(pending)
      modifies this`pending
      ensures pending == Removed(old(pending), t)
    {
      var i := 0;
      while i < |pending| && pending[i] != t
        invariant 0 <= i <= |pending| && t !in pending[..i]
      {
        i := i + 1;
      }
      RemovedCuts(pending, t, i);
      if i < |pending| {
        pending := pending[..i] + pending[i + 1..];
      }
    }

    /** `_write_task_snapshot` followed by the fence and the store write; raises when the write does not land. */
    method Write(t: TaskId, ok: bool) returns (raised: bool)
      requires TrackOk(TrackOf(Contents(), t))
      modifies this`tracks
      ensures var k := TrackOf(old(Contents()), t);
        raised == (!k.detached && !ok) && tracks == old(tracks)[t := TrackFlushed(k, ok)]
    {
      var k := if t in tracks then tracks[t] else NEW_TASK;
      k := k.(asked := k.version, yielded := k.detached);
      raised := false;
      if !k.detached {
        k := k.(serial := k.serial + 1, taken := k.taken + [k.version]);
        if k.serial > k.committed {
          if ok {
            k := k.(row := Some(ByHost(k.serial, k.version)), committed := k.serial);
          } else {
            raised := true;
          }
        }
      }
      tracks := tracks[t := k];
    }

    /** `flush`: the id leaves the dirty map before the write and comes back when the write raises. */
    method Flush(t: TaskId, ok: bool) returns (raised: bool)
      requires Valid()
      modifies this`tracks, this`pending, this`lastError
      ensures Valid()
      ensures raised == (!TrackOf(old(Contents()), t).detached && !ok)
      ensures lastError == if raised then old(lastError) else None
      ensures tracks == old(tracks)[t := TrackFlushed(TrackOf(old(Contents()), t), ok)]
      ensures pending == Removed(old(pending), t) + (if raised then [t] else [])
      ensures Contents() == Flushed(old(Contents()), t, ok)
    {
      ghost var s, ids := Contents(), pending;
      TrackFlushedOk(TrackOf(s, t), ok);
      Pop(t);
      raised := Write(t, ok);
      if raised {
        pending := pending + [t];
      } else {
        lastError := None;
      }
      FlushIsItsSteps(s, ids, t, ok, raised, pending);
      TracksOkPut(s.tracks, t, TrackFlushed(TrackOf(s, t), ok));
    }

    /** The two attempts of the final drain at one task. */
    method FlushTwice(t: TaskId, lands: (TaskId, nat) -> bool) returns (landed: bool)
      requires Valid() && t !in pending
      modifies this`tracks, this`pending, this`lastError
      ensures Valid()
      ensures landed == !NeverLands(old(Contents()), lands, t)
      ensures pending == old(pending) + (if landed then [] else [t])
      ensures t in tracks && tracks == old(tracks)[t := tracks[t]]
      ensures DrainedTrack(TrackOf(old(Contents()), t), TrackOf(Contents(), t), landed)
    {
      ghost var k, all := TrackOf(Contents(), t), tracks;
      RemovedAbsent(pending, t);
      FlushDrains(k, k, lands(t, 0));
      var raised := Flush(t, lands(t, 0));
      assert DrainedTrack(k, tracks[t], !raised) && tracks == all[t := tracks[t]];
      if raised {
        ghost var first := tracks[t];
        RemovedLast(old(pending), t);
        FlushDrains(k, first, lands(t, 1));
        LastUpdateWins(all, t, first, TrackFlushed(first, lands(t, 1)));
        raised := Flush(t, lands(t, 1));
      }
      landed := !raised;
    }

    /** One round of the final drain, after the tasks of `done`. */
    method DrainNext(t: TaskId, lands: (TaskId, nat) -> bool, ghost s: State, ghost done: seq<TaskId>) returns (landed: bool)
      requires Valid() && t !in done && pending == Unlanded(done, s, lands) && DrainedSoFar(s, tracks, done, lands)
      modifies this`tracks, this`pending, this`lastError
      ensures Valid() && DrainedSoFar(s, tracks, done + [t], lands)
      ensures landed == !NeverLands(s, lands, t)
      ensures pending == Unlanded(done + [t], s, lands) == old(pending) + (if landed then [] else [t])
    {
      ghost var was := tracks;
      UnlandedOneMore(done, s, lands, t);
      assert DrainedAt(s, was, done, lands, t);
      landed := FlushTwice(t, lands);
      JustDrained(s, was, tracks, done, t, lands, landed);
      OneMoreDrained(s, was, tracks, done, t, lands);
    }

    /**
     `close`: stop, take everything still dirty, give each task two attempts and name what never landed.
     `lands` says which attempt at which task the store accepts; no other writer is running.
     */
    method Close(lands: (TaskId, nat) -> bool) returns (lost: seq<TaskId>)
      requires Valid()
      modifies this
      ensures Valid() && stopped
      ensures lost == Unlanded(old(pending), old(Contents()), lands) && pending == lost
      ensures lost != [] ==> lastError == Some(lost[0])
      ensures DrainedSoFar(old(Contents()), tracks, old(pending), lands)
    {
      ghost var s := Contents();
      stopped := true;
      var batch := pending;
      pending, lost := [], [];
      var i := 0;
      while i < |batch|
        invariant 0 <= i <= |batch| && stopped && Valid()
        invariant lost == pending == Unlanded(batch[..i], s, lands)
        invariant DrainedSoFar(s, tracks, batch[..i], lands)
      {
        var t := batch[i];
        assert batch[..i + 1] == batch[..i] + [t];
        var landed := DrainNext(t, lands, s, batch[..i]);
        if !landed {
          lost := lost + [t];
        }
        i := i + 1;
      }
      assert batch[..i] == batch;
      if lost != [] {
        lastError := Some(lost[0]);
      }
    }
  }

  /** While closing: the drained tasks have had their two attempts, the others are as they were. */
  ghost predicate DrainedSoFar(s: State, tracks: map<TaskId, Track>, done: seq<TaskId>, lands: (TaskId, nat) -> bool) {
    forall t :: DrainedAt(s, tracks, done, lands, t)
  }

  lemma UnlandedOneMore(done: seq<TaskId>, s: State, lands: (TaskId, nat) -> bool, t: TaskId)
    requires t !in done
    ensures Unlanded(done + [t], s, lands) == Unlanded(done, s, lands) + (if NeverLands(s, lands, t) then [t] else [])
    ensures t !in Unlanded(done, s, lands)
  {
    assert (done + [t])[..|done|] == done;
    UnlandedExactly(done, s, lands, t);
  }

  lemma JustDrained(s: State, was: map<TaskId, Track>, tracks: map<TaskId, Track>, done: seq<TaskId>, t: TaskId,
                    lands: (TaskId, nat) -> bool, landed: bool)
    requires t !in done && DrainedAt(s, was, done, lands, t) && landed == !NeverLands(s, lands, t)
    requires t in tracks && DrainedTrack(if t in was then was[t] else NEW_TASK, tracks[t], landed)
    ensures DrainedAt(s, tracks, done + [t], lands, t)
  {
  }

  lemma OneMoreDrained(s: State, was: map<TaskId, Track>, tracks: map<TaskId, Track>, done: seq<TaskId>, t: TaskId,
                       lands: (TaskId, nat) -> bool)
    requires DrainedSoFar(s, was, done, lands) && t in tracks && tracks == was[t := tracks[t]]
    requires DrainedAt(s, tracks, done + [t], lands, t)
    ensures DrainedSoFar(s, tracks, done + [t], lands)
  {
    forall u
      ensures DrainedAt(s, tracks, done + [t], lands, u)
    {
      assert DrainedAt(s, was, done, lands, u);
    }
  }

  /**
   Closing loses track of nothing: what had been asked for before is stored, named as lost and dirty again, or a
   flush of it was left to a worker; the drain itself leaves a task to its worker only if it is detached by then.
   */
  lemma CloseKeepsWhatWasAsked(s: State, tracks: map<TaskId, Track>, pending: seq<TaskId>, lands: (TaskId, nat) -> bool, t: TaskId)
    requires SettledAt(s, t) && TrackOk(TrackOf(s, t)) && s.pending == Elements(pending)
    requires DrainedAt(s, tracks, pending, lands, t)
    ensures var r := State(tracks, Elements(Unlanded(pending, s, lands)), true, map[]);
      && (TrackOf(r, t).yielded || TrackOf(s, t).asked <= RowVersion(r, t) || t in r.pending)
      && (TrackOf(r, t).yielded && t !in r.pending ==> if t in pending then TrackOf(s, t).detached else TrackOf(s, t).yielded)
  {
    UnlandedExactly(pending, s, lands, t);
  }
}
