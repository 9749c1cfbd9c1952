/**
 * The bounded, deduplicated timeline of a task record in
 * minicc/task_manager.py.  The record indexes only the events it retains; the
 * reference it must agree with keeps every accepted event forever.
 */
module Timeline {
  import opened Common

  /** An id is given with the event, or derived from its content when an event without one is reloaded. */
  datatype EventId = Given(text: string) | Derived(content: Content)

  const NO_ID := Given("")

  /** What the fingerprint covers; the digest is taken to be collision-free. */
  datatype Content = Content(name: string, path: string, write: bool, detail: string)

  /** `NO_ID` stands for an event that arrived without an id. */
  datatype Event = Event(id: EventId, content: Content)

  /** File and command events are checkpoint evidence. */
  predicate IsEvidence(c: Content) {
    c.path != "" || c.write || c.name == "bash" || c.name == "git"
  }

  function Ids(events: seq<Event>): set<EventId> {
    set e | e in events :: e.id
  }

  function Contents(events: seq<Event>): set<Content> {
    set e | e in events :: e.content
  }

  predicate Clash(a: Event, b: Event) {
    a.id == b.id || a.content == b.content
  }

  /** No two of these events share an id or a content. */
  ghost predicate NoClash(events: seq<Event>) {
    forall i, j :: 0 <= i < j < |events| ==> !Clash(events[i], events[j])
  }

  datatype Record = Record(
    limit: nat,
    events: seq<Event>,
    ids: set<EventId>,
    keys: set<Content>,
    truncated: nat,
    revision: nat)

  ghost predicate Indexed(r: Record) {
    r.ids == Ids(r.events) && r.keys == Contents(r.events)
  }

  ghost predicate Sound(r: Record) {
    r.limit >= 32 && |r.events| <= r.limit && NoClash(r.events) && Indexed(r)
  }

  predicate Known(r: Record, e: Event) {
    e.id in r.ids || e.content in r.keys
  }

  function Appended(r: Record, e: Event): Record {
    if Known(r, e) then r
    else
      var all := r.events + [e];
      var ids, keys := r.ids + {e.id}, r.keys + {e.content};
      var revision := r.revision + if IsEvidence(e.content) then 1 else 0;
      if |all| <= r.limit then Record(r.limit, all, ids, keys, r.truncated, revision)
      else Record(r.limit, all[1..], ids - {all[0].id}, keys - {all[0].content}, r.truncated + 1, revision)
  }

  /** The result of a run repeats events it already reported; those seen are passed over. */
  function Merged(r: Record, seen: set<Content>, events: seq<Event>): Record
    decreases |events|
  {
    if events == [] then r
    else
      var e := events[0];
      if e.content in seen then Merged(r, seen, events[1..])
      else if Known(r, e) then Merged(r, seen, events[1..])
      else Merged(Appended(r, e), seen + {e.content}, events[1..])
  }

  // ---------- the record ----------

  class TaskRecord {
    const eventLimit: nat
    var events: seq<Event>
    var eventIds: set<EventId>
    var eventKeys: set<Content>
    var eventsTruncated: nat
    var checkpointRevision: nat
    var checkpointDirty: bool
    var cancelRequested: bool
    var terminal: bool

    function Value(): Record
      reads this
    {
      Record(eventLimit, events, eventIds, eventKeys, eventsTruncated, checkpointRevision)
    }

    /** Reload: events without an id get one derived from their content, then the window is cut. */
    constructor (stored: seq<Event>, limit: int, truncated: int)
      ensures Reloads(Value(), stored, limit, truncated)
      ensures checkpointDirty && !cancelRequested && !terminal
    {
      var normalized := Normalize(stored);
      var window := Suffix(normalized, Max(32, limit));
      eventLimit := Max(32, limit);
      events := window;
      eventsTruncated := Max(0, truncated) + (|normalized| - |window|);
      checkpointRevision, checkpointDirty, cancelRequested, terminal := 0, true, false, false;
      var ids, keys := BuildIndex(window);
      eventIds, eventKeys := ids, keys;
    }

    /** `drawn` is the random id drawn should the event come without one. */
    method AppendTimelineEvent(event: Event, drawn: EventId, allowTerminal: bool) returns (added: bool)
      modifies this
      ensures cancelRequested == old(cancelRequested) && terminal == old(terminal)
      ensures var e := WithId(event, drawn);
              if old(terminal) && !allowTerminal then Value() == old(Value()) && !added
              else Value() == Appended(old(Value()), e) && added == !Known(old(Value()), e)
      ensures checkpointDirty <==> old(checkpointDirty) || checkpointRevision > old(checkpointRevision)
    {
      if terminal && !allowTerminal {
        return false;
      }
      var candidate := WithId(event, drawn);
      if candidate.id in eventIds || candidate.content in eventKeys {
        return false;
      }
      if IsEvidence(candidate.content) {
        checkpointDirty := true;
        checkpointRevision := checkpointRevision + 1;
      }
      eventIds := eventIds + {candidate.id};
      eventKeys := eventKeys + {candidate.content};
      events := events + [candidate];
      if |events| > eventLimit {
        var removed := events[0];
        events := events[1..];
        eventIds := eventIds - {removed.id};
        eventKeys := eventKeys - {removed.content};
        eventsTruncated := eventsTruncated + 1;
      }
      added := true;
    }

    method AddEvent(event: Event, drawn: EventId) returns (added: bool)
      modifies this
      ensures cancelRequested == old(cancelRequested) && terminal == old(terminal)
      ensures Value() == Step(old(Value()), old(Status()), Add(WithId(event, drawn)))
    {
      if cancelRequested || terminal {
        return false;
      }
      added := AppendTimelineEvent(event, drawn, false);
    }

    /** The timeline half of a result: `drawn[i]` is the id drawn for event `i`. */
    method ApplyResult(results: seq<Event>, drawn: seq<EventId>) returns (applied: bool)
      requires |drawn| == |results|
      modifies this
      ensures cancelRequested == old(cancelRequested) && terminal == old(terminal)
      ensures Value() == Step(old(Value()), old(Status()), Result(WithIds(results, drawn)))
      ensures applied <==> !old(terminal)
    {
      if terminal {
        return false;
      }
      var seen := Contents(events);
      ghost var all := WithIds(results, drawn);
      ghost var start := Value();
      for i := 0 to |results|
        invariant cancelRequested == old(cancelRequested) && terminal == old(terminal)
        invariant Merged(start, Contents(start.events), all) == Merged(Value(), seen, all[i..])
      {
        assert all[i] == WithId(results[i], drawn[i]);
        assert all[i..][0] == all[i] && all[i..][1..] == all[i + 1..];
        if results[i].content !in seen {
          var appended := AppendTimelineEvent(results[i], drawn[i], true);
          if appended {
            seen := seen + {results[i].content};
          }
        }
      }
      applied := true;
    }

    /** A cancellation notes itself on the timeline before the state becomes terminal. */
    method RequestCancel(notice: Event, drawn: EventId) returns (done: bool)
      modifies this
      ensures Value() == Step(old(Value()), old(Status()), Cancel(WithId(notice, drawn)))
      ensures done <==> !old(terminal)
      ensures done ==> cancelRequested && terminal
    {
      if terminal {
        return false;
      }
      cancelRequested := true;
      var _ := AppendTimelineEvent(notice, drawn, true);
      terminal := true;
      done := true;
    }

    /** Somebody else sets the cancellation token of this record. */
    method TokenWasSet()
      modifies this
      ensures Value() == old(Value()) && cancelRequested && terminal == old(terminal)
    {
      cancelRequested := true;
    }

    method Finish()
      modifies this
      ensures Value() == old(Value()) && terminal && cancelRequested == old(cancelRequested)
    {
      terminal := true;
    }

    function Status(): Gate
      reads this
    {
      Gate(cancelRequested, terminal)
    }
  }

  method Normalize(stored: seq<Event>) returns (normalized: seq<Event>)
    ensures normalized == WithLegacyIds(stored)
  {
    normalized := [];
    for i := 0 to |stored|
      invariant normalized == WithLegacyIds(stored[..i])
    {
      assert stored[..i + 1][..i] == stored[..i];
      normalized := normalized + [WithLegacyId(stored[i])];
    }
    assert stored[..|stored|] == stored;
  }

  method BuildIndex(window: seq<Event>) returns (ids: set<EventId>, keys: set<Content>)
    ensures ids == Ids(window) && keys == Contents(window)
  {
    ids, keys := {}, {};
    for i := 0 to |window|
      invariant ids == Ids(window[..i]) && keys == Contents(window[..i])
    {
      assert window[..i + 1] == window[..i] + [window[i]];
      MembersOfAppend(window[..i], window[i]);
      ids := ids + {window[i].id};
      keys := keys + {window[i].content};
    }
    assert window[..|window|] == window;
  }

  function WithId(e: Event, drawn: EventId): Event {
    if e.id == NO_ID then e.(id := drawn) else e
  }

  function WithIds(events: seq<Event>, drawn: seq<EventId>): (r: seq<Event>)
    requires |drawn| == |events|
    ensures |r| == |events|
  {
    seq(|events|, i requires 0 <= i < |events| => WithId(events[i], drawn[i]))
  }

  /** The derived id is a digest of the content, taken to be collision-free. */
  function WithLegacyId(e: Event): Event {
    if e.id == NO_ID then e.(id := Derived(e.content)) else e
  }

  function WithLegacyIds(stored: seq<Event>): (r: seq<Event>)
    ensures |r| == |stored|
  {
    if stored == [] then []
    else WithLegacyIds(stored[..|stored| - 1]) + [WithLegacyId(stored[|stored| - 1])]
  }

  // ---------- every run ----------

  /** What the record's status lets through. */
  datatype Gate = Gate(cancelRequested: bool, terminal: bool)

  const OPEN := Gate(false, false)

  /** `TokenSet`: the cancellation token is set from elsewhere, such as by the parent of a subtask. */
  datatype Op = Add(event: Event) | Result(events: seq<Event>) | Cancel(notice: Event) | TokenSet | Finish

  function Step(r: Record, gate: Gate, op: Op): Record {
    match op
    case Add(event) => if gate.cancelRequested || gate.terminal then r else Appended(r, event)
    case Result(events) => if gate.terminal then r else Merged(r, Contents(r.events), events)
    case Cancel(notice) => if gate.terminal then r else Appended(r, notice)
    case TokenSet => r
    case Finish => r
  }

  predicate HasClash(events: seq<Event>, e: Event) {
    exists i :: 0 <= i < |events| && Clash(events[i], e)
  }

  /** The reference: an event is accepted unless it clashes with one of the last `limit` accepted. */
  function Accept(history: seq<Event>, limit: nat, e: Event): seq<Event> {
    if HasClash(Suffix(history, limit), e) then history else history + [e]
  }

  function Evidence(history: seq<Event>): (n: nat)
    ensures n <= |history|
  {
    if history == [] then 0
    else Evidence(history[..|history| - 1]) + if IsEvidence(history[|history| - 1].content) then 1 else 0
  }

  /** Accepted events at most `limit` apart never clash. */
  ghost predicate WindowsClear(history: seq<Event>, limit: nat) {
    forall i, j :: 0 <= i < j < |history| && j - i <= limit ==> !Clash(history[i], history[j])
  }

  /** The record is a faithful bounded view of the unbounded history. */
  ghost predicate Views(r: Record, history: seq<Event>, dropped: nat, revision: int) {
    && r.limit >= 32
    && r.events == Suffix(history, r.limit)
    && Indexed(r)
    && r.truncated + |r.events| == dropped + |history|
    && r.revision == revision + Evidence(history)
    && WindowsClear(history, r.limit)
  }

  lemma MembersOfAppend(events: seq<Event>, e: Event)
    ensures Ids(events + [e]) == Ids(events) + {e.id}
    ensures Contents(events + [e]) == Contents(events) + {e.content}
  {
    assert forall x :: x in events + [e] <==> x in events || x == e;
  }

  lemma MembersOfTail(events: seq<Event>)
    requires events != []
    ensures Ids(events) == Ids(events[1..]) + {events[0].id}
    ensures Contents(events) == Contents(events[1..]) + {events[0].content}
  {
    assert forall x :: x in events <==> x in events[1..] || x == events[0];
  }

  /**
   * Evicting the oldest event leaves the indexes exact if and only if no other
   * retained event shares its id or content; a record whose stored events hold
   * duplicates can lose track of an event it still shows.
   */
  lemma EvictionKeepsIndexExactly(r: Record, e: Event)
    requires Indexed(r) && !Known(r, e) && r.limit >= 1 && |r.events| == r.limit
    ensures Indexed(Appended(r, e)) <==>
            r.events[0].id !in Ids(r.events[1..]) && r.events[0].content !in Contents(r.events[1..])
  {
    var oldest, rest := r.events[0], r.events[1..];
    assert (r.events + [e])[1..] == rest + [e];
    MembersOfAppend(rest, e);
    MembersOfTail(r.events);
    var after := Appended(r, e);
    assert after.ids == Ids(rest) + {e.id} + {oldest.id} - {oldest.id};
    assert oldest.id != e.id && oldest.content != e.content;
    assert oldest.id !in after.ids && oldest.content !in after.keys;
  }

  lemma NoClashInWindow(history: seq<Event>, limit: nat)
    requires WindowsClear(history, limit)
    ensures NoClash(Suffix(history, limit))
  {
  }

  /** A faithful view is sound: bounded, free of duplicates, exactly indexed. */
  lemma ViewIsSound(r: Record, history: seq<Event>, dropped: nat, revision: int)
    requires Views(r, history, dropped, revision)
    ensures Sound(r)
  {
    NoClashInWindow(history, r.limit);
  }

  lemma KnownMeansClash(r: Record, e: Event)
    requires Indexed(r)
    ensures Known(r, e) <==> HasClash(r.events, e)
  {
  }

  /** One append agrees with the reference. */
  lemma AppendRefinesHistory(r: Record, history: seq<Event>, dropped: nat, revision: int, e: Event)
    requires Views(r, history, dropped, revision)
    ensures Views(Appended(r, e), Accept(history, r.limit, e), dropped, revision)
  {
    KnownMeansClash(r, e);
    if !Known(r, e) {
      AppendedView(r, history, e);
      LongerWindowsClear(history, r.limit, e);
      AppendedCounts(r, history, e);
    }
  }

  lemma AppendedCounts(r: Record, history: seq<Event>, e: Event)
    requires !Known(r, e) && |r.events| <= r.limit
    ensures Appended(r, e).truncated + |Appended(r, e).events| == r.truncated + |r.events| + 1
    ensures Appended(r, e).revision - r.revision == Evidence(history + [e]) - Evidence(history)
    ensures Appended(r, e).limit == r.limit
  {
    var longer := history + [e];
    assert longer[..|longer| - 1] == history;
  }

  lemma LongerWindowsClear(history: seq<Event>, limit: nat, e: Event)
    requires WindowsClear(history, limit)
    requires !HasClash(Suffix(history, limit), e)
    ensures WindowsClear(history + [e], limit)
  {
    var longer, window := history + [e], Suffix(history, limit);
    forall i, j | 0 <= i < j < |longer| && j - i <= limit ensures !Clash(longer[i], longer[j]) {
      if j == |history| {
        assert window[i - (|history| - |window|)] == longer[i];
      }
    }
  }

  lemma AppendedView(r: Record, history: seq<Event>, e: Event)
    requires r.limit >= 32 && r.events == Suffix(history, r.limit) && Indexed(r) && !Known(r, e)
    requires WindowsClear(history, r.limit)
    ensures Appended(r, e).events == Suffix(history + [e], r.limit)
    ensures Indexed(Appended(r, e))
  {
    NoClashInWindow(history, r.limit);
    AppendedIndex(r, e);
    NextWindow(history, r.limit, e);
  }

  lemma NextWindow(history: seq<Event>, limit: nat, e: Event)
    requires limit >= 1
    ensures var window := Suffix(history, limit);
            Suffix(history + [e], limit) == if |window| < limit then window + [e] else (window + [e])[1..]
  {
  }

  lemma AppendedIndex(r: Record, e: Event)
    requires r.limit >= 1 && |r.events| <= r.limit && NoClash(r.events) && Indexed(r) && !Known(r, e)
    ensures Indexed(Appended(r, e))
  {
    if |r.events| < r.limit {
      MembersOfAppend(r.events, e);
    } else {
      var oldest, rest := r.events[0], r.events[1..];
      forall x | x in rest ensures !Clash(oldest, x) {
        var k :| 0 <= k < |rest| && rest[k] == x;
        assert !Clash(r.events[0], r.events[k + 1]);
      }
      EvictionKeepsIndexExactly(r, e);
    }
  }

  /** The reference for a result: contents seen since the merge began are passed over too. */
  function AcceptMerged(history: seq<Event>, limit: nat, seen: set<Content>, events: seq<Event>): seq<Event>
    decreases |events|
  {
    if events == [] then history
    else if events[0].content in seen then AcceptMerged(history, limit, seen, events[1..])
    else
      var next := Accept(history, limit, events[0]);
      AcceptMerged(next, limit, if next == history then seen else seen + {events[0].content}, events[1..])
  }

  lemma {:induction false} MergeRefinesHistory(r: Record, history: seq<Event>, dropped: nat, revision: int,
                                               seen: set<Content>, events: seq<Event>)
    requires Views(r, history, dropped, revision)
    ensures Views(Merged(r, seen, events), AcceptMerged(history, r.limit, seen, events), dropped, revision)
    ensures Merged(r, seen, events).limit == r.limit
    decreases |events|
  {
    if events != [] {
      var e := events[0];
      if e.content in seen {
        MergeRefinesHistory(r, history, dropped, revision, seen, events[1..]);
      } else {
        KnownMeansClash(r, e);
        AppendRefinesHistory(r, history, dropped, revision, e);
        var next := Accept(history, r.limit, e);
        assert Known(r, e) <==> next == history;
        if Known(r, e) {
          MergeRefinesHistory(r, history, dropped, revision, seen, events[1..]);
        } else {
          MergeRefinesHistory(Appended(r, e), next, dropped, revision, seen + {e.content}, events[1..]);
        }
      }
    }
  }

  /** The gate after an operation: a cancellation closes it for good. */
  function Closed(gate: Gate, op: Op): Gate {
    if op.Cancel? && !gate.terminal then Gate(true, true)
    else if op.TokenSet? then gate.(cancelRequested := true)
    else if op.Finish? then gate.(terminal := true)
    else gate
  }

  datatype State = State(record: Record, gate: Gate)

  function Next(s: State, op: Op): State {
    State(Step(s.record, s.gate, op), Closed(s.gate, op))
  }

  function Run(init: State, ops: seq<Op>): State {
    if ops == [] then init
    else
      Next(Run(init, ops[..|ops| - 1]), ops[|ops| - 1])
  }

  // ---------- what gets in ----------

  /**
   * An event, or the notice of a cancellation, that shares neither id nor
   * content with a retained event is the last one afterwards, under the id it
   * came with or the one drawn; it counts as evidence if it names a path, writes
   * or runs a command. All others, and all after the end, leave no trace.
   */
  lemma NewsIsTakenExactly(s: State, event: Event, drawn: EventId, op: Op)
    requires Sound(s.record) && (op == Add(WithId(event, drawn)) || op == Cancel(WithId(event, drawn)))
    ensures var e, r, was := Event(if event.id == Given("") then drawn else event.id, event.content), Next(s, op).record, s.record;
      var wanted := !s.gate.terminal && (op.Cancel? || !s.gate.cancelRequested);
      var full := |was.events| == was.limit;
      if wanted && forall x :: x in was.events ==> x.id != e.id && x.content != e.content then
        && r.limit == was.limit
        && r.events == (if full then was.events[1..] else was.events) + [e]
        && r.truncated == was.truncated + (if full then 1 else 0)
        && r.revision == was.revision
            + (if e.content.path != "" || e.content.write || e.content.name in {"bash", "git"} then 1 else 0)
      else r == was
  {
    var e := WithId(event, drawn);
    assert Known(s.record, e) <==> exists x :: x in s.record.events && (x.id == e.id || x.content == e.content);
    assert |s.record.events| == s.record.limit ==> (s.record.events + [e])[1..] == s.record.events[1..] + [e];
  }

  predicate Ends(op: Op) {
    op.Cancel? || op.Finish?
  }

  /** The record ends with a cancellation or a finish. */
  lemma {:induction false} EndedExactly(init: State, ops: seq<Op>)
    ensures Run(init, ops).gate.terminal <==> init.gate.terminal || exists j :: 0 <= j < |ops| && Ends(ops[j])
  {
    if ops != [] {
      EndedExactly(init, ops[..|ops| - 1]);
    }
  }

  /** What asks the record to end: its token, or a cancellation that finds it not ended. */
  ghost predicate Asks(init: State, ops: seq<Op>, j: nat)
    requires j < |ops|
  {
    ops[j].TokenSet? || (ops[j].Cancel? && !init.gate.terminal && forall i :: 0 <= i < j ==> !Ends(ops[i]))
  }

  lemma {:induction false} AskedExactly(init: State, ops: seq<Op>)
    ensures Run(init, ops).gate.cancelRequested <==> init.gate.cancelRequested || exists j: nat :: j < |ops| && Asks(init, ops, j)
  {
    if ops != [] {
      var shorter := ops[..|ops| - 1];
      AskedExactly(init, shorter);
      EndedExactly(init, shorter);
      assert forall j: nat :: j < |shorter| ==> (Asks(init, ops, j) <==> Asks(init, shorter, j));
      assert Asks(init, ops, |shorter|) <==> ops[|shorter|].TokenSet? || (ops[|shorter|].Cancel? && !Run(init, shorter).gate.terminal);
    }
  }

  /** The positions in `events` that a merge took, in order. */
  ghost predicate TakenFrom(history: seq<Event>, after: seq<Event>, events: seq<Event>, taken: seq<nat>) {
    && |after| == |history| + |taken| && after[..|history|] == history
    && (forall k :: 0 <= k < |taken| ==> taken[k] < |events| && after[|history| + k] == events[taken[k]])
    && (forall k, l :: 0 <= k < l < |taken| ==> taken[k] < taken[l])
  }

  /** Taking or leaving the first event, and then `more` of the others. */
  lemma TakenOneMore(history: seq<Event>, next: seq<Event>, after: seq<Event>, events: seq<Event>, more: seq<nat>) returns (taken: seq<nat>)
    requires events != [] && TakenFrom(next, after, events[1..], more) && (next == history || next == history + [events[0]])
    ensures TakenFrom(history, after, events, taken)
  {
    var d := |next| - |history|;
    taken := (if d == 0 then [] else [0]) + seq(|more|, k requires 0 <= k < |more| => more[k] + 1);
    assert after[..|history|] == after[..|next|][..|history|];
    forall k | 0 <= k < |taken|
      ensures taken[k] < |events| && after[|history| + k] == events[taken[k]]
    {
      if k >= d {
        assert taken[k] == more[k - d] + 1;
        assert after[|next| + (k - d)] == events[1..][more[k - d]];
      } else {
        assert after[|history|] == after[..|next|][|history|];
      }
    }
    forall k, l | 0 <= k < l < |taken|
      ensures taken[k] < taken[l]
    {
      assert taken[l] == more[l - d] + 1;
      assert k >= d ==> taken[k] == more[k - d] + 1;
    }
  }

  /** What clashes with a history clashes with all that follow it. */
  lemma ClashStays(history: seq<Event>, after: seq<Event>, e: Event)
    requires HasClash(history, e) && |history| <= |after| && after[..|history|] == history
    ensures HasClash(after, e)
  {
    var i :| 0 <= i < |history| && Clash(history[i], e);
    assert after[i] == after[..|history|][i];
  }

  /** An event the reference passes over clashes with what it has. */
  lemma LeftOutMeansClash(history: seq<Event>, limit: nat, seen: set<Content>, e: Event)
    requires seen <= Contents(history)
    ensures e.content in seen || Accept(history, limit, e) == history ==> HasClash(history, e)
  {
    if e.content in seen {
      var x :| x in history && x.content == e.content;
      var i :| 0 <= i < |history| && history[i] == x;
      assert Clash(history[i], e);
    } else if HasClash(Suffix(history, limit), e) {
      var window := Suffix(history, limit);
      var i :| 0 <= i < |window| && Clash(window[i], e);
      assert history[|history| - |window| + i] == window[i];
    }
  }

  /** What a merge adds to the history are events of the result, in their order, and it leaves out only what clashes with the history. */
  lemma {:induction false} MergeLeavesNothingOut(history: seq<Event>, limit: nat, seen: set<Content>, events: seq<Event>)
    returns (taken: seq<nat>)
    requires seen <= Contents(history)
    ensures var after := AcceptMerged(history, limit, seen, events);
      TakenFrom(history, after, events, taken) && forall i :: 0 <= i < |events| ==> HasClash(after, events[i])
    decreases |events|
  {
    taken := [];
    if events != [] {
      var e, rest := events[0], events[1..];
      LeftOutMeansClash(history, limit, seen, e);
      var next := if e.content in seen then history else Accept(history, limit, e);
      MembersOfAppend(history, e);
      var more := MergeLeavesNothingOut(next, limit, if next == history then seen else seen + {e.content}, rest);
      var after := AcceptMerged(history, limit, seen, events);
      assert next != history ==> Clash(next[|history|], e);
      ClashStays(next, after, e);
      assert forall i :: 0 <= i < |rest| ==> rest[i] == events[i + 1];
      taken := TakenOneMore(history, next, after, events, more);
    }
  }

  function Remember(history: seq<Event>, limit: nat, gate: Gate, op: Op): seq<Event> {
    match op
    case Add(event) => if gate.cancelRequested || gate.terminal then history else Accept(history, limit, event)
    case Result(events) =>
      if gate.terminal then history else AcceptMerged(history, limit, Contents(Suffix(history, limit)), events)
    case Cancel(notice) => if gate.terminal then history else Accept(history, limit, notice)
    case TokenSet => history
    case Finish => history
  }

  /** Everything a run accepts, judged by the unbounded reference alone. */
  function History(earlier: seq<Event>, limit: nat, init: State, ops: seq<Op>): seq<Event> {
    if ops == [] then earlier
    else
      var shorter := ops[..|ops| - 1];
      Remember(History(earlier, limit, init, shorter), limit, Run(init, shorter).gate, ops[|ops| - 1])
  }

  /**
   * Every run of appends, result merges, cancellation and finishing keeps the
   * record equal to the last `limit` events of the reference history, with
   * exact indexes, an exact count of what was dropped and an exact revision.
   */
  lemma {:induction false} EveryRunViewsItsHistory(init: State, earlier: seq<Event>, dropped: nat, revision: int, ops: seq<Op>)
    requires Views(init.record, earlier, dropped, revision)
    ensures Views(Run(init, ops).record, History(earlier, init.record.limit, init, ops), dropped, revision)
    ensures Run(init, ops).record.limit == init.record.limit
    ensures Sound(Run(init, ops).record)
    decreases |ops|
  {
    if ops == [] {
      ViewIsSound(init.record, earlier, dropped, revision);
    } else {
      var limit := init.record.limit;
      var shorter, op := ops[..|ops| - 1], ops[|ops| - 1];
      EveryRunViewsItsHistory(init, earlier, dropped, revision, shorter);
      StepRefinesHistory(Run(init, shorter), History(earlier, limit, init, shorter), dropped, revision, op);
      ViewIsSound(Run(init, ops).record, History(earlier, limit, init, ops), dropped, revision);
    }
  }

  lemma StepRefinesHistory(s: State, history: seq<Event>, dropped: nat, revision: int, op: Op)
    requires Views(s.record, history, dropped, revision)
    ensures Views(Step(s.record, s.gate, op), Remember(history, s.record.limit, s.gate, op), dropped, revision)
    ensures Step(s.record, s.gate, op).limit == s.record.limit
  {
    match op {
      case Add(event) => AppendRefinesHistory(s.record, history, dropped, revision, event);
      case Result(events) => ResultRefinesHistory(s.record, history, dropped, revision, events);
      case Cancel(notice) => AppendRefinesHistory(s.record, history, dropped, revision, notice);
      case TokenSet =>
      case Finish =>
    }
  }

  lemma ResultRefinesHistory(r: Record, history: seq<Event>, dropped: nat, revision: int, events: seq<Event>)
    requires Views(r, history, dropped, revision)
    ensures var seen := Contents(Suffix(history, r.limit));
            && Merged(r, Contents(r.events), events) == Merged(r, seen, events)
            && Views(Merged(r, seen, events), AcceptMerged(history, r.limit, seen, events), dropped, revision)
            && Merged(r, seen, events).limit == r.limit
  {
    MergeRefinesHistory(r, history, dropped, revision, Contents(r.events), events);
  }

  /** What a reload makes of a stored list; `TaskRecord`'s constructor ends in such a record. */
  ghost predicate Reloads(r: Record, stored: seq<Event>, limit: int, truncated: int) {
    && r.limit == Max(32, limit) && r.events == Suffix(WithLegacyIds(stored), r.limit) && Indexed(r)
    && r.truncated == Max(0, truncated) + |stored| - |r.events| && r.revision == 0
  }

  lemma {:induction false} LegacyIdsAt(stored: seq<Event>, i: nat)
    requires i < |stored|
    ensures WithLegacyIds(stored)[i] == WithLegacyId(stored[i])
         == Event(if stored[i].id == Given("") then Derived(stored[i].content) else stored[i].id, stored[i].content)
    decreases |stored|
  {
    if i < |stored| - 1 {
      LegacyIdsAt(stored[..|stored| - 1], i);
    }
  }

  /** Two stored events that a reload cannot tell apart: the same content, or the same id before or after derivation. */
  predicate Duplicates(a: Event, b: Event) {
    a.content == b.content || WithLegacyId(a).id == WithLegacyId(b).id
  }

  /** The part of a stored list that a reload retains holds no duplicates. */
  ghost predicate WindowClear(stored: seq<Event>, window: nat) {
    forall i, j :: 0 <= i < j < |stored| && |stored| - window <= i ==> !Duplicates(stored[i], stored[j])
  }

  /**
   * A reload yields a sound record, a view of its own window from which every
   * later run goes on, exactly when no two of the stored events it retains are
   * duplicates; those it cuts off do not matter.
   */
  lemma ReloadIsSoundExactly(r: Record, stored: seq<Event>, limit: int, truncated: int)
    requires Reloads(r, stored, limit, truncated)
    ensures Sound(r) <==> WindowClear(stored, r.limit)
    ensures Sound(r) <==> Views(r, r.events, r.truncated, 0 - Evidence(r.events))
  {
    WindowOfReload(r, stored, limit, truncated);
    ShortListsClear(r.events, r.limit);
    assert Suffix(r.events, r.limit) == r.events;
  }

  lemma WindowOfReload(r: Record, stored: seq<Event>, limit: int, truncated: int)
    requires Reloads(r, stored, limit, truncated)
    ensures NoClash(r.events) <==> WindowClear(stored, r.limit)
  {
    var cut := |stored| - |r.events|;
    forall i | 0 <= i < |r.events| ensures r.events[i] == WithLegacyId(stored[cut + i]) {
      LegacyIdsAt(stored, cut + i);
    }
    if NoClash(r.events) {
      forall i, j | 0 <= i < j < |stored| && |stored| - r.limit <= i ensures !Duplicates(stored[i], stored[j]) {
        assert !Clash(r.events[i - cut], r.events[j - cut]);
      }
    }
    if WindowClear(stored, r.limit) {
      forall i, j | 0 <= i < j < |r.events| ensures !Clash(r.events[i], r.events[j]) {
        assert !Duplicates(stored[cut + i], stored[cut + j]);
      }
    }
  }

  // ---------- what duplicates lead to ----------

  /** Longer than any id or detail text among these events. */
  function Longer(events: seq<Event>): (n: nat)
    ensures n > 0
    ensures forall e :: e in events ==> (e.id.Given? ==> |e.id.text| < n) && |e.content.detail| < n
  {
    if events == [] then 1
    else
      var rest, last := Longer(events[..|events| - 1]), events[|events| - 1];
      assert events == events[..|events| - 1] + [last];
      rest + |last.content.detail| + if last.id.Given? then |last.id.text| else 0
  }

  /** An event that no record showing these events knows. */
  function Unseen(events: seq<Event>): Event {
    var text := seq(Longer(events), i => 'x');
    Event(Given(text), Content("", "", false, text))
  }

  lemma UnseenIsUnknown(r: Record)
    requires Indexed(r)
    ensures !Known(r, Unseen(r.events)) && Unseen(r.events).id != NO_ID
    ensures forall x :: x in r.events ==> !Clash(x, Unseen(r.events))
  {
  }

  /** The oldest retained event that clashes with a later one. */
  ghost predicate FirstClash(r: Record, i: nat, j: nat) {
    i < j < |r.events| && Clash(r.events[i], r.events[j])
    && forall a, b :: 0 <= a < i && a < b < |r.events| ==> !Clash(r.events[a], r.events[b])
  }

  lemma FirstClashExists(r: Record) returns (i: nat, j: nat)
    requires !NoClash(r.events)
    ensures FirstClash(r, i, j)
  {
    i := 0;
    while i < |r.events| && !exists b :: i < b < |r.events| && Clash(r.events[i], r.events[b])
      invariant i <= |r.events| && forall a, b :: 0 <= a < i && a < b < |r.events| ==> !Clash(r.events[a], r.events[b])
      decreases |r.events| - i
    {
      i := i + 1;
    }
    j :| i < j < |r.events| && Clash(r.events[i], r.events[j]);
  }

  /** Appending an unseen event to such a record: the clash moves one nearer to the front, or its first half is evicted. */
  lemma ClashMovesUp(r: Record, i: nat, j: nat)
    requires Indexed(r) && r.limit >= 1 && |r.events| <= r.limit && FirstClash(r, i, j)
    ensures var after := Appended(r, Unseen(r.events));
            && after.limit == r.limit && |after.events| <= r.limit
            && (|r.events| < r.limit ==> Indexed(after) && FirstClash(after, i, j) && |after.events| == |r.events| + 1)
            && (|r.events| == r.limit && i > 0 ==> Indexed(after) && FirstClash(after, i - 1, j - 1) && |after.events| == r.limit)
            && (|r.events| == r.limit && i == 0 ==> !Indexed(after))
  {
    var e, all := Unseen(r.events), r.events + [Unseen(r.events)];
    UnseenIsUnknown(r);
    if |r.events| < r.limit {
      MembersOfAppend(r.events, e);
      StillFirst(r, Appended(r, e), i, j, 0);
    } else {
      EvictionKeepsIndexExactly(r, e);
      OldestIsAlone(r, i, j);
      if i > 0 {
        StillFirst(r, Appended(r, e), i, j, 1);
      }
    }
  }

  lemma OldestIsAlone(r: Record, i: nat, j: nat)
    requires FirstClash(r, i, j)
    ensures i == 0 <==> r.events[0].id in Ids(r.events[1..]) || r.events[0].content in Contents(r.events[1..])
  {
    if i == 0 {
      assert r.events[1..][j - 1] == r.events[j];
      assert r.events[j] in r.events[1..];
    } else {
      forall x | x in r.events[1..] ensures !Clash(r.events[0], x) {
        var b :| 0 <= b < |r.events| - 1 && r.events[1..][b] == x;
        assert !Clash(r.events[0], r.events[b + 1]);
      }
    }
  }

  /** `after` shows the events of `r` from position `shift` on, and one unseen event behind them. */
  lemma StillFirst(r: Record, after: Record, i: nat, j: nat, shift: nat)
    requires FirstClash(r, i, j) && shift <= i && Indexed(r)
    requires after.events == (r.events + [Unseen(r.events)])[shift..]
    ensures FirstClash(after, i - shift, j - shift)
  {
    UnseenIsUnknown(r);
    forall a, b | 0 <= a < i - shift && a < b < |after.events| ensures !Clash(after.events[a], after.events[b]) {
      assert after.events[a] == r.events[a + shift];
      if b + shift < |r.events| {
        assert after.events[b] == r.events[b + shift];
        assert !Clash(r.events[a + shift], r.events[b + shift]);
      }
    }
  }

  lemma RunOneMore(init: State, ops: seq<Op>, op: Op)
    ensures Run(init, ops + [op]) == Next(Run(init, ops), op)
  {
    assert (ops + [op])[..|ops|] == ops;
  }

  lemma {:induction false} RunPrepends(init: State, op: Op, ops: seq<Op>)
    ensures Run(init, [op] + ops) == Run(Next(init, op), ops)
    decreases |ops|
  {
    if ops == [] {
      RunOneMore(init, [], op);
      assert [op] + ops == [] + [op];
    } else {
      var shorter, last := ops[..|ops| - 1], ops[|ops| - 1];
      RunPrepends(init, op, shorter);
      RunOneMore(init, [op] + shorter, last);
      assert [op] + ops == [op] + shorter + [last];
    }
  }

  /** Enough unseen events push the first half of a clash out of the window, and the index with it. */
  lemma {:induction false} ClashBreaksTheIndex(r: Record, i: nat, j: nat) returns (ops: seq<Op>)
    requires Indexed(r) && r.limit >= 1 && |r.events| <= r.limit && FirstClash(r, i, j)
    ensures |ops| == r.limit - |r.events| + i + 1 && forall k :: 0 <= k < |ops| ==> ops[k].Add?
    ensures !Indexed(Run(State(r, OPEN), ops).record)
    decreases r.limit - |r.events| + i
  {
    var op := Add(Unseen(r.events));
    var after := Appended(r, Unseen(r.events));
    ClashMovesUp(r, i, j);
    var more: seq<Op> := [];
    if |r.events| < r.limit {
      more := ClashBreaksTheIndex(after, i, j);
    } else if i > 0 {
      more := ClashBreaksTheIndex(after, i - 1, j - 1);
    }
    RunPrepends(State(r, OPEN), op, more);
    ops := [op] + more;
  }

  /**
   * What the duplicates of a stored list mean for the runs after its reload:
   * while the record is open, every run keeps the indexes exact if and only if
   * no two of the stored events it retains are duplicates.
   */
  lemma RunsStayIndexedExactly(r: Record, stored: seq<Event>, limit: int, truncated: int)
    requires Reloads(r, stored, limit, truncated)
    ensures (forall ops :: Indexed(Run(State(r, OPEN), ops).record)) <==> WindowClear(stored, r.limit)
  {
    ReloadIsSoundExactly(r, stored, limit, truncated);
    if WindowClear(stored, r.limit) {
      forall ops ensures Indexed(Run(State(r, OPEN), ops).record) {
        EveryRunViewsItsHistory(State(r, OPEN), r.events, r.truncated, 0 - Evidence(r.events), ops);
      }
    } else {
      WindowOfReload(r, stored, limit, truncated);
      var i, j := FirstClashExists(r);
      var ops := ClashBreaksTheIndex(r, i, j);
      assert !Indexed(Run(State(r, OPEN), ops).record);
    }
  }

  /** A full record that shows its oldest event a second time forgets it with the next new event, and takes it again. */
  lemma ShownButForgotten(r: Record, j: nat, e: Event)
    requires Indexed(r) && r.limit >= 32 && |r.events| == r.limit && !Known(r, e)
    requires 0 < j < |r.events| && r.events[j] == r.events[0]
    ensures var again := r.events[j];
            var after := Appended(r, e);
            && again in after.events && !Known(after, again)
            && !Indexed(after)
            && |Appended(after, again).events| == r.limit
            && Appended(after, again).events[r.limit - 1] == again
  {
    var again, after := r.events[j], Appended(r, e);
    assert after.events[j - 1] == again;
    KnownMeansClash(r, again);
    assert Clash(r.events[0], again);
    assert r.events[0].id in r.ids;
  }

  /** Thirty-two stored events, the first of them once more at the end. */
  ghost predicate StoredTwice(stored: seq<Event>, first: Event, e: Event) {
    && |stored| == 32 && stored[0] == stored[31] == first && first.id != NO_ID && e.id != NO_ID
    && forall i :: 0 <= i < |stored| ==> !Duplicates(stored[i], e)
  }

  /** Such a list reloads into a record that one append makes take a still shown event again. */
  lemma ReloadedDuplicateComesBack(stored: seq<Event>, first: Event, e: Event, r: Record)
    requires StoredTwice(stored, first, e) && Reloads(r, stored, 32, 0)
    ensures !Sound(r) && !Known(r, e)
    ensures first in Appended(r, e).events && !Known(Appended(r, e), first)
  {
    forall i | 0 <= i < |stored| ensures r.events[i] == WithLegacyId(stored[i]) {
      LegacyIdsAt(stored, i);
    }
    assert Clash(r.events[0], r.events[31]);
    KnownMeansClash(r, e);
    forall i | 0 <= i < |r.events| ensures !Clash(r.events[i], e) {
      assert !Duplicates(stored[i], e);
    }
    ShownButForgotten(r, 31, e);
  }

  lemma ShortListsClear(events: seq<Event>, limit: nat)
    requires |events| <= limit
    ensures NoClash(events) <==> WindowsClear(events, limit)
  {
    if WindowsClear(events, limit) {
      forall i, j | 0 <= i < j < |events| ensures !Clash(events[i], events[j]) {
        assert j - i <= limit;
      }
    }
  }

  /** Replaying anything still retained, singly or in a result, leaves the record as it is. */
  lemma {:induction false} ReplayChangesNothing(r: Record, seen: set<Content>, events: seq<Event>)
    requires Indexed(r)
    requires forall i :: 0 <= i < |events| ==> HasClash(r.events, events[i])
    ensures Merged(r, seen, events) == r
    ensures forall i :: 0 <= i < |events| ==> Appended(r, events[i]) == r
    decreases |events|
  {
    forall i | 0 <= i < |events| ensures Known(r, events[i]) {
      assert HasClash(r.events, events[i]);
      KnownMeansClash(r, events[i]);
    }
    if events != [] {
      forall i | 0 <= i < |events[1..]| ensures HasClash(r.events, events[1..][i]) {
        assert HasClash(r.events, events[i + 1]);
      }
      ReplayChangesNothing(r, seen, events[1..]);
    }
  }
}
