/**
 The cross-process stream mirror: a worker keeps the last characters of an unbounded stream
 (`on_stream` in minicc/task_worker.py), a host replays whichever of its snapshots it happens to see
 (`WorkerSnapshotMirror.apply` in minicc/task_execution.py, `append_stream` in minicc/task_manager.py).
 */
module TaskExecution {
  import opened Common

  /** `stream_text` and `stream_length` of one stored snapshot. */
  datatype Snapshot = Snapshot(window: string, length: nat)

  /** What the worker stores after it has emitted `offset` characters of the stream `full`. */
  function Emitted(full: string, workerLimit: nat, offset: nat): Snapshot
    requires offset <= |full|
  {
    Snapshot(Suffix(full[..offset], workerLimit), offset)
  }

  lemma SuffixOfConcat(a: string, b: string, n: nat)
    ensures Suffix(Suffix(a, n) + b, n) == Suffix(a + b, n)
  {
    assert forall i :: 0 <= i < |Suffix(a + b, n)| ==> Suffix(Suffix(a, n) + b, n)[i] == Suffix(a + b, n)[i];
  }

  // ---------------------------------------------------------------- worker side

  class WorkerStream {
    const limit: nat
    var stream: string
    var length: nat
    ghost var full: string

    ghost predicate Valid()
      reads this
    {
      stream == Suffix(full, limit) && length == |full|
    }

    constructor (limit: nat)
      ensures Valid() && full == "" && this.limit == limit
    {
      this.limit, stream, length, full := limit, "", 0, "";
    }

    method OnStream(delta: string)
      requires Valid()
      modifies this
      ensures Valid() && full == old(full) + delta
    {
      SuffixOfConcat(full, delta, limit);
      var grown := stream + delta;
      stream := if |grown| <= limit then grown else grown[|grown| - limit..];
      length := length + |delta|;
      full := full + delta;
    }

    method TakeSnapshot() returns (s: Snapshot)
      requires Valid()
      ensures s == Emitted(full, limit, |full|)
    {
      assert full[..|full|] == full;
      s := Snapshot(stream, length);
    }
  }

  // ---------------------------------------------------------------- host side

  /** The streamed part of a task record; `frozen` once it is cancelled or terminal. */
  datatype Task = Task(text: string, length: nat, limit: nat, frozen: bool)

  datatype Mirror = Mirror(task: Task, lastOffset: nat)

  function AppendStream(t: Task, delta: string): Task {
    if delta == "" || t.frozen then t
    else t.(text := Suffix(t.text + delta, t.limit), length := t.length + |delta|)
  }

  function OffsetOf(s: Snapshot): nat {
    if s.length != 0 then s.length else |s.window|
  }

  /** A snapshot that gives no length counts as the whole stream up to there. */
  lemma SnapshotWithoutLength(m: Mirror, s: Snapshot)
    requires s.length == 0 && m.lastOffset < |s.window|
    ensures Applied(m, s) == Mirror(AppendStream(m.task, s.window[m.lastOffset..]), |s.window|)
  {
  }

  /** Where the retained window begins in the stream. */
  function WindowStart(s: Snapshot): nat {
    Max(0, OffsetOf(s) - |s.window|)
  }

  predicate Misses(m: Mirror, s: Snapshot) {
    m.lastOffset < WindowStart(s)
  }

  function Applied(m: Mirror, s: Snapshot): Mirror {
    if OffsetOf(s) <= m.lastOffset then m
    else if Misses(m, s) then
      Mirror(m.task.(text := Suffix(s.window, m.task.limit), length := OffsetOf(s)), OffsetOf(s))
    else
      Mirror(AppendStream(m.task, s.window[m.lastOffset - WindowStart(s)..]), OffsetOf(s))
  }

  predicate Within(offsets: seq<nat>, full: string) {
    forall i :: 0 <= i < |offsets| ==> offsets[i] <= |full|
  }

  /** Apply the snapshots taken at the given offsets, in the order they are seen. */
  function Replayed(m: Mirror, full: string, workerLimit: nat, offsets: seq<nat>): Mirror
    requires Within(offsets, full)
  {
    if offsets == [] then m
    else Applied(Replayed(m, full, workerLimit, offsets[..|offsets| - 1]), Emitted(full, workerLimit, offsets[|offsets| - 1]))
  }

  function Greatest(first: nat, offsets: seq<nat>): (r: nat)
    ensures first <= r && (forall o :: o in offsets ==> o <= r) && (r == first || r in offsets)
  {
    if offsets == [] then first
    else
      assert offsets == offsets[..|offsets| - 1] + [offsets[|offsets| - 1]];
      Max(Greatest(first, offsets[..|offsets| - 1]), offsets[|offsets| - 1])
  }

  /** The task shows a tail of the stream up to its length: within its own limit and no shorter than the two limits force. */
  ghost predicate Shows(t: Task, full: string, workerLimit: nat) {
    && t.length <= |full|
    && t.text == Suffix(full[..t.length], |t.text|)
    && Min(t.limit, Min(workerLimit, t.length)) <= |t.text| <= t.limit
  }

  ghost predicate InStep(m: Mirror, full: string, workerLimit: nat) {
    !m.task.frozen && m.task.length == m.lastOffset && Shows(m.task, full, workerLimit)
  }

  /** A delta cut out of a window that reaches back far enough is exactly the missing piece of the stream. */
  lemma DeltaIsTheMissingPiece(full: string, workerLimit: nat, last: nat, offset: nat)
    requires last < offset <= |full| && offset - workerLimit <= last
    ensures var s := Emitted(full, workerLimit, offset);
      WindowStart(s) <= last && last - WindowStart(s) <= |s.window| &&
      s.window[last - WindowStart(s)..] == full[last..offset]
  {
  }

  lemma AppliedKeepsStep(m: Mirror, full: string, workerLimit: nat, offset: nat)
    requires InStep(m, full, workerLimit) && offset <= |full|
    ensures InStep(Applied(m, Emitted(full, workerLimit, offset)), full, workerLimit)
    ensures Applied(m, Emitted(full, workerLimit, offset)).lastOffset == Max(m.lastOffset, offset)
    ensures Applied(m, Emitted(full, workerLimit, offset)).task.limit == m.task.limit
  {
    if m.lastOffset < offset {
      if offset - workerLimit <= m.lastOffset {
        AppendedKeepsStep(m, full, workerLimit, offset);
      } else {
        ReplacedKeepsStep(m, full, workerLimit, offset);
      }
    }
  }

  /** The window reaches back to what the host has. */
  lemma AppendedKeepsStep(m: Mirror, full: string, workerLimit: nat, offset: nat)
    requires InStep(m, full, workerLimit) && m.lastOffset < offset <= |full| && offset - workerLimit <= m.lastOffset
    ensures var r := Applied(m, Emitted(full, workerLimit, offset));
      InStep(r, full, workerLimit) && r.lastOffset == offset && r.task.limit == m.task.limit
  {
    DeltaIsTheMissingPiece(full, workerLimit, m.lastOffset, offset);
    TailGrows(full, m.lastOffset, offset, m.task.text, m.task.limit);
  }

  /** A whole window was missed. */
  lemma ReplacedKeepsStep(m: Mirror, full: string, workerLimit: nat, offset: nat)
    requires InStep(m, full, workerLimit) && m.lastOffset < offset - workerLimit && offset <= |full|
    ensures var r := Applied(m, Emitted(full, workerLimit, offset));
      InStep(r, full, workerLimit) && r.lastOffset == offset && r.task.limit == m.task.limit
  {
    TailOfTail(full[..offset], workerLimit, m.task.limit);
  }

  lemma TailGrows(full: string, last: nat, offset: nat, text: string, limit: nat)
    requires last <= offset <= |full| && |text| <= last && text == Suffix(full[..last], |text|)
    ensures var t := Suffix(text + full[last..offset], limit);
      t == Suffix(full[..offset], |t|)
  {
    assert text == full[last - |text|..last];
    assert text + full[last..offset] == full[last - |text|..offset];
    assert full[last - |text|..offset] == Suffix(full[..offset], |text| + offset - last);
    TailOfTail(full[..offset], |text| + offset - last, limit);
  }

  lemma TailOfTail(xs: string, n: nat, k: nat)
    ensures var t := Suffix(Suffix(xs, n), k);
      t == Suffix(xs, |t|)
  {
  }

  /**
   The mirror refines the stream: for every stream, every subset of its snapshots in every order, a task that is
   neither cancelled nor terminal has the greatest offset seen as its length and shows the stream up to there.
   */
  lemma {:induction false} MirrorRefinesStream(m: Mirror, full: string, workerLimit: nat, offsets: seq<nat>)
    requires InStep(m, full, workerLimit)
    requires Within(offsets, full)
    ensures var r := Replayed(m, full, workerLimit, offsets);
      && r.task.length == r.lastOffset == Greatest(m.lastOffset, offsets)
      && r.task.limit == m.task.limit && !r.task.frozen && Shows(r.task, full, workerLimit)
  {
    if offsets != [] {
      var before := offsets[..|offsets| - 1];
      assert offsets == before + [offsets[|offsets| - 1]];
      MirrorRefinesStream(m, full, workerLimit, before);
      AppliedKeepsStep(Replayed(m, full, workerLimit, before), full, workerLimit, offsets[|offsets| - 1]);
    }
  }

  /** No snapshot in the sequence is more than one retained window ahead of everything seen before it. */
  ghost predicate NothingMissed(first: nat, offsets: seq<nat>, workerLimit: nat) {
    forall i :: 0 <= i < |offsets| ==> offsets[i] <= Greatest(first, offsets[..i]) + workerLimit
  }

  /** As long as no window is missed, the mirror is indistinguishable from a host that consumed the stream directly. */
  lemma {:induction false} NothingMissedNothingLost(m: Mirror, full: string, workerLimit: nat, offsets: seq<nat>)
    requires InStep(m, full, workerLimit) && m.task.text == Suffix(full[..m.task.length], m.task.limit)
    requires Within(offsets, full)
    requires NothingMissed(m.lastOffset, offsets, workerLimit)
    ensures var t := Replayed(m, full, workerLimit, offsets).task;
      t.text == Suffix(full[..Greatest(m.lastOffset, offsets)], m.task.limit)
  {
    if offsets != [] {
      var before, o := offsets[..|offsets| - 1], offsets[|offsets| - 1];
      assert forall i :: 0 <= i < |before| ==> before[..i] == offsets[..i];
      NothingMissedNothingLost(m, full, workerLimit, before);
      MirrorRefinesStream(m, full, workerLimit, before);
      DirectAppend(Replayed(m, full, workerLimit, before), full, workerLimit, o);
    }
  }

  lemma DirectAppend(r: Mirror, full: string, workerLimit: nat, o: nat)
    requires InStep(r, full, workerLimit) && r.task.text == Suffix(full[..r.lastOffset], r.task.limit)
    requires o <= |full| && o <= r.lastOffset + workerLimit
    ensures Applied(r, Emitted(full, workerLimit, o)).task.text == Suffix(full[..Max(r.lastOffset, o)], r.task.limit)
  {
    if r.lastOffset < o {
      var seen, delta := full[..r.lastOffset], full[r.lastOffset..o];
      AppendsTheMissingPiece(r, full, workerLimit, o);
      SuffixOfConcat(seen, delta, r.task.limit);
      assert seen + delta == full[..o];
    }
  }

  lemma AppendsTheMissingPiece(r: Mirror, full: string, workerLimit: nat, o: nat)
    requires r.lastOffset < o <= |full| && o - workerLimit <= r.lastOffset && !r.task.frozen
    ensures Applied(r, Emitted(full, workerLimit, o)).task.text == Suffix(r.task.text + full[r.lastOffset..o], r.task.limit)
  {
    DeltaIsTheMissingPiece(full, workerLimit, r.lastOffset, o);
  }

  /**
   Snapshots pass through redaction in the store, which may replace a secret by a longer marker. A snapshot leaves
   the length of a live task equal to its own offset exactly when its window is not longer than that offset.
   */
  lemma LengthFollowsOffsetExactly(m: Mirror, s: Snapshot)
    requires !m.task.frozen && m.task.length == m.lastOffset < OffsetOf(s)
    ensures Applied(m, s).task.length == OffsetOf(s) <==> |s.window| <= OffsetOf(s)
  {
  }

  const REDACTED_LLM_API_KEY := "[REDACTED:llm_api_key]"

  /** For example an eleven-character key, the shortest one that is masked, stored as its marker. */
  lemma LengthDriftsAfterRedaction(limit: nat)
    requires limit >= 512
    ensures var r := Applied(Mirror(Task("", 0, limit, false), 0), Snapshot(REDACTED_LLM_API_KEY, 11));
      r.lastOffset == 11 && r.task.length == 22 && r.task.text == REDACTED_LLM_API_KEY
  {
    assert REDACTED_LLM_API_KEY[0..] == REDACTED_LLM_API_KEY && "" + REDACTED_LLM_API_KEY == REDACTED_LLM_API_KEY;
  }

  /** A cancelled or terminal task is changed by a snapshot exactly when a whole window was missed: a reset is not guarded. */
  lemma FrozenTaskChangesOnlyByReset(m: Mirror, s: Snapshot)
    requires m.task.frozen && m.task.length < OffsetOf(s)
    ensures Applied(m, s).task != m.task <==> OffsetOf(s) > m.lastOffset && Misses(m, s)
  {
  }

  /** A task cancelled after its first character, and a worker that went on for two windows: all it showed is replaced. */
  lemma FrozenTaskIsRewritten(full: string, workerLimit: nat, limit: nat)
    requires limit >= workerLimit >= 512 && |full| == 2 * workerLimit
    ensures var m := Mirror(Task(full[..1], 1, limit, true), 1);
      var r := Applied(m, Emitted(full, workerLimit, |full|));
      r.task.text == full[workerLimit..] && r.task.length == |full| && r.task != m.task
  {
    assert full[..|full|] == full;
  }

  class WorkerSnapshotMirror {
    var text: string
    var length: nat
    const limit: nat
    var frozen: bool
    var lastOffset: nat

    ghost function State(): Mirror
      reads this
    {
      Mirror(Task(text, length, limit, frozen), lastOffset)
    }

    /** A mirror resumes from the length its task already has. */
    constructor (task: Task)
      ensures State() == Mirror(task, task.length)
    {
      text, length, limit, frozen, lastOffset := task.text, task.length, task.limit, task.frozen, task.length;
    }

    method Append(delta: string)
      modifies this`text, this`length
      ensures State() == old(State()).(task := AppendStream(old(State()).task, delta))
    {
      if delta == "" || frozen {
        return;
      }
      length := length + |delta|;
      text := Suffix(text + delta, limit);
    }

    method Apply(s: Snapshot)
      modifies this`text, this`length, this`lastOffset
      ensures State() == Applied(old(State()), s)
    {
      var offset := if s.length != 0 then s.length else |s.window|;
      if offset > lastOffset {
        var start := if offset > |s.window| then offset - |s.window| else 0;
        if lastOffset < start {
          text := Suffix(s.window, limit);
          length := offset;
        } else {
          Append(s.window[lastOffset - start..]);
        }
        lastOffset := offset;
      }
    }
  }
}
