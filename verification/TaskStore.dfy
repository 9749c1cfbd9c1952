/**
 The lease-fenced task table (minicc/task_store.py): any number of owners claim, renew and release
 the execution lease of a task and write its row under that lease.

 Each operation is one transaction. `now` is the time its caller sampled, which may be stale and in
 no particular order; only the lemmas that speak of expiry say which times they compare.
 */
module TaskStore {
  import opened Common

  type TaskId = string
  type Owner = string
  type Payload = string

  datatype Lease = Lease(owner: Owner, pid: int, heartbeat: real, expires: real)
  datatype Tables = Tables(leases: map<TaskId, Lease>, rows: map<TaskId, Payload>)

  datatype Op =
    | Claim(task: TaskId, owner: Owner, pid: int, ttl: real, now: real)
    | Heartbeat(task: TaskId, owner: Owner, pid: int, ttl: real, now: real)
    | Release(task: TaskId, owner: Owner)
    | Upsert(task: TaskId, payload: Payload, fence: Option<Owner>, now: real)
    | Forget(task: TaskId)  // prune drops the row together with its lease

  predicate Holds(s: Tables, t: TaskId, o: Owner) {
    t in s.leases && s.leases[t].owner == o
  }

  predicate LeaseLive(s: Tables, t: TaskId, now: real) {
    t in s.leases && s.leases[t].expires > now
  }

  /** Whether the operation reports success. */
  predicate Succeeds(s: Tables, op: Op) {
    match op
    case Claim(t, o, _, _, now) => t !in s.leases || s.leases[t].expires <= now || s.leases[t].owner == o
    case Heartbeat(t, o, _, _, now) => Holds(s, t, o) && s.leases[t].expires > now
    case Release(_, _) => true
    case Upsert(t, _, fence, now) => t != "" && (fence.Some? ==> Holds(s, t, fence.value) && s.leases[t].expires > now)
    case Forget(_) => true
  }

  function Apply(s: Tables, op: Op): Tables {
    if !Succeeds(s, op) then s else
    match op
    case Claim(t, o, pid, ttl, now) => s.(leases := s.leases[t := Lease(o, pid, now, now + ttl)])
    case Heartbeat(t, o, pid, ttl, now) => s.(leases := s.leases[t := Lease(o, pid, now, now + ttl)])
    case Release(t, o) => if Holds(s, t, o) then s.(leases := s.leases - {t}) else s
    case Upsert(t, payload, _, _) => s.(rows := s.rows[t := payload])
    case Forget(t) => Tables(s.leases - {t}, s.rows - {t})
  }

  /** The tables after the first `i` operations of a run. */
  function At(s: Tables, ops: seq<Op>, i: nat): Tables
    requires i <= |ops|
  {
    if i == 0 then s else Apply(At(s, ops, i - 1), ops[i - 1])
  }

  predicate ClaimedAt(s: Tables, ops: seq<Op>, i: nat, t: TaskId, o: Owner)
    requires i < |ops|
  {
    ops[i].Claim? && ops[i].task == t && ops[i].owner == o && Succeeds(At(s, ops, i), ops[i])
  }

  /** The `i`-th operation is a write of `t`, fenced by `o`, that was accepted. */
  predicate WroteAt(s: Tables, ops: seq<Op>, i: nat, t: TaskId, o: Owner)
    requires i < |ops|
  {
    ops[i].Upsert? && ops[i].task == t && ops[i].fence == Some(o) && Succeeds(At(s, ops, i), ops[i])
  }

  // ---------------------------------------------------------------- one operation

  /** The lease of `t` is held by `o` and runs out at `end`, neither earlier nor later. */
  ghost predicate HeldUntil(s: Tables, t: TaskId, o: Owner, end: real) {
    Holds(s, t, o) && forall x :: LeaseLive(s, t, x) <==> x < end
  }

  /** All leases but that of `t`, and all rows, are as before. */
  ghost predicate OnlyLeaseOf(s: Tables, r: Tables, t: TaskId) {
    && r.rows == s.rows
    && (forall u :: u != t ==> (u in r.leases <==> u in s.leases))
    && (forall u :: u != t && u in s.leases ==> r.leases[u] == s.leases[u])
  }

  /** A claim wins exactly where nobody else holds a live lease; then the caller holds it for the whole ttl. */
  lemma ClaimExactly(s: Tables, t: TaskId, o: Owner, pid: int, ttl: real, now: real)
    ensures var r := Apply(s, Claim(t, o, pid, ttl, now)); var won := !LeaseLive(s, t, now) || Holds(s, t, o);
      && (Succeeds(s, Claim(t, o, pid, ttl, now)) <==> won)
      && (won ==> HeldUntil(r, t, o, now + ttl) && r.leases[t].pid == pid && r.leases[t].heartbeat == now && OnlyLeaseOf(s, r, t))
      && (!won ==> r == s)
  {
  }

  /** A heartbeat renews exactly the caller's own live lease. */
  lemma HeartbeatExactly(s: Tables, t: TaskId, o: Owner, pid: int, ttl: real, now: real)
    ensures var r := Apply(s, Heartbeat(t, o, pid, ttl, now)); var renewed := Holds(s, t, o) && LeaseLive(s, t, now);
      && (Succeeds(s, Heartbeat(t, o, pid, ttl, now)) <==> renewed)
      && (renewed ==> HeldUntil(r, t, o, now + ttl) && r.leases[t].pid == pid && r.leases[t].heartbeat == now && OnlyLeaseOf(s, r, t))
      && (!renewed ==> r == s)
  {
  }

  /** A write is taken without a fence from anybody, with one only from the holder of the live lease. */
  lemma UpsertExactly(s: Tables, t: TaskId, payload: Payload, fence: Option<Owner>, now: real)
    ensures var r := Apply(s, Upsert(t, payload, fence, now));
      var taken := t != "" && (fence == None || (Holds(s, t, fence.value) && LeaseLive(s, t, now)));
      && (Succeeds(s, Upsert(t, payload, fence, now)) <==> taken)
      && (taken ==> r.leases == s.leases && r.rows == s.rows[t := payload])
      && (!taken ==> r == s)
  {
  }

  /** Forgetting a task takes its row and its lease, and those of no other task. */
  lemma ForgetExactly(s: Tables, t: TaskId)
    ensures var r := Apply(s, Forget(t));
      && t !in r.rows && t !in r.leases && OnlyLeaseOf(s.(rows := r.rows), r, t)
      && (forall u :: u != t ==> (u in r.rows <==> u in s.rows))
      && (forall u :: u != t && u in s.rows ==> r.rows[u] == s.rows[u])
  {
  }

  // ---------------------------------------------------------------- single writer

  /** A lease passes to an owner only through a claim that found no lease or an expired one. */
  lemma {:induction false} ComesThroughAClaim(s: Tables, ops: seq<Op>, from: nat, upto: nat, t: TaskId, o: Owner)
    requires from <= upto <= |ops|
    requires !Holds(At(s, ops, from), t, o) && Holds(At(s, ops, upto), t, o)
    ensures exists c :: from <= c < upto && ClaimedAt(s, ops, c, t, o) && !LeaseLive(At(s, ops, c), t, ops[c].now)
    decreases upto
  {
    if Holds(At(s, ops, upto - 1), t, o) {
      ComesThroughAClaim(s, ops, from, upto - 1, t, o);
    } else {
      assert ClaimedAt(s, ops, upto - 1, t, o);
    }
  }

  /**
   Single-writer epochs: two accepted writes of one owner enclose an accepted write of another only if both
   claimed the lease in between. No assumption is made on any clock.
   */
  lemma SingleWriterEpochs(s: Tables, ops: seq<Op>, i: nat, j: nat, k: nat, t: TaskId, a: Owner, b: Owner)
    requires i < j < k < |ops| && a != b
    requires WroteAt(s, ops, i, t, a) && WroteAt(s, ops, j, t, b) && WroteAt(s, ops, k, t, a)
    ensures exists c :: i < c < j && ClaimedAt(s, ops, c, t, b) && !LeaseLive(At(s, ops, c), t, ops[c].now)
    ensures exists c :: j < c < k && ClaimedAt(s, ops, c, t, a) && !LeaseLive(At(s, ops, c), t, ops[c].now)
  {
    ComesThroughAClaim(s, ops, i, j, t, b);
    ComesThroughAClaim(s, ops, j, k, t, a);
    var c :| i <= c < j && ClaimedAt(s, ops, c, t, b) && !LeaseLive(At(s, ops, c), t, ops[c].now);
    var d :| j <= d < k && ClaimedAt(s, ops, d, t, a) && !LeaseLive(At(s, ops, d), t, ops[d].now);
    assert c != i && d != j;
  }

  /** Once another owner has claimed, an evicted owner cannot write, renew or release anything until it claims again. */
  lemma {:induction false} EvictedOwnerIsFenced(s: Tables, ops: seq<Op>, c: nat, k: nat, t: TaskId, a: Owner, b: Owner)
    requires c < k < |ops| && a != b && ClaimedAt(s, ops, c, t, b)
    requires forall d :: c < d < k ==> !ClaimedAt(s, ops, d, t, a)
    requires ops[k] == Release(t, a) || (ops[k].Heartbeat? && ops[k].task == t && ops[k].owner == a) ||
             (ops[k].Upsert? && ops[k].task == t && ops[k].fence == Some(a))
    ensures At(s, ops, k + 1) == At(s, ops, k)
  {
    assert Holds(At(s, ops, c + 1), t, b);
    if Holds(At(s, ops, k), t, a) {
      ComesThroughAClaim(s, ops, c + 1, k, t, a);
      assert false;
    }
  }

  /** A release touches the caller's own lease and nothing else. */
  lemma ReleaseIsOwnerScoped(s: Tables, t: TaskId, o: Owner)
    ensures var r := Apply(s, Release(t, o));
      && !Holds(r, t, o) && r.rows == s.rows
      && (forall u :: u in r.leases <==> u in s.leases && (u != t || s.leases[u].owner != o))
      && (forall u :: u in r.leases ==> r.leases[u] == s.leases[u])
  {
  }

  /** The row of a task is the payload of its last accepted write. */
  lemma {:induction false} RowIsTheLastAcceptedWrite(s: Tables, ops: seq<Op>, i: nat, n: nat)
    requires i < n <= |ops| && ops[i].Upsert? && Succeeds(At(s, ops, i), ops[i])
    requires forall j :: i < j < n && (ops[j].Upsert? || ops[j].Forget?) && ops[j].task == ops[i].task ==> !Succeeds(At(s, ops, j), ops[j])
    ensures ops[i].task in At(s, ops, n).rows && At(s, ops, n).rows[ops[i].task] == ops[i].payload
    decreases n
  {
    if i < n - 1 {
      RowIsTheLastAcceptedWrite(s, ops, i, n - 1);
    }
  }

  // ---------------------------------------------------------------- expiry

  /** The `i`-th operation renews the lease of `t` by a heartbeat that was sampled before that lease expired. */
  predicate RenewedAt(s: Tables, ops: seq<Op>, i: nat, t: TaskId)
    requires i < |ops|
  {
    && ops[i].Heartbeat? && ops[i].task == t && Succeeds(At(s, ops, i), ops[i])
    && Holds(At(s, ops, i), t, ops[i].owner) && ops[i].now < At(s, ops, i).leases[t].expires
  }

  /**
   A lease that is dead at some time comes back to life for that time only through a successful claim, or through
   a heartbeat of its own owner that was sampled before it expired and landed late; nothing else revives it.
   */
  lemma {:induction false} DeadUntilClaimed(s: Tables, ops: seq<Op>, from: nat, upto: nat, t: TaskId, dead: real)
    requires from <= upto <= |ops|
    requires !LeaseLive(At(s, ops, from), t, dead) && LeaseLive(At(s, ops, upto), t, dead)
    ensures exists c :: from <= c < upto && !LeaseLive(At(s, ops, c), t, dead) &&
              ((ops[c].Claim? && ClaimedAt(s, ops, c, t, ops[c].owner)) || (RenewedAt(s, ops, c, t) && ops[c].now < dead))
    decreases upto
  {
    if LeaseLive(At(s, ops, upto - 1), t, dead) {
      DeadUntilClaimed(s, ops, from, upto - 1, t, dead);
    } else {
      var op := ops[upto - 1];
      assert op.Claim? ==> ClaimedAt(s, ops, upto - 1, t, op.owner);
      assert op.Heartbeat? ==> RenewedAt(s, ops, upto - 1, t);
    }
  }

  /** `has_live_worker`: the lease row decides; only a record without one falls back to its own heartbeat. */
  predicate HasLiveWorker(s: Tables, t: TaskId, versioned: bool, heartbeat: real, now: real) {
    if t in s.leases then s.leases[t].expires > now else versioned && now - heartbeat < 45.0
  }

  /** With a lease row its liveness is the answer, whatever the record says of itself. */
  lemma LeaseRowDecides(s: Tables, t: TaskId, versioned: bool, heartbeat: real, now: real)
    ensures t in s.leases ==> (HasLiveWorker(s, t, versioned, heartbeat, now) <==> LeaseLive(s, t, now))
    ensures t !in s.leases ==> (HasLiveWorker(s, t, versioned, heartbeat, now) <==> versioned && now < heartbeat + 45.0)
  {
  }

  predicate DropsLease(s: Tables, op: Op, t: TaskId) {
    t in s.leases && t !in Apply(s, op).leases
  }

  lemma {:induction false} LeaseRowIsDropped(s: Tables, ops: seq<Op>, from: nat, upto: nat, t: TaskId)
    requires from <= upto <= |ops| && t in At(s, ops, from).leases && t !in At(s, ops, upto).leases
    ensures exists c :: from <= c < upto && DropsLease(At(s, ops, c), ops[c], t)
    decreases upto
  {
    if t in At(s, ops, upto - 1).leases {
      assert DropsLease(At(s, ops, upto - 1), ops[upto - 1], t);
    } else {
      LeaseRowIsDropped(s, ops, from, upto - 1, t);
    }
  }

  /**
   A worker found dead by its lease is found alive at the same time again only after a claim, a renewal sampled
   before the expiry, or the removal of the lease row, which lets the record's own heartbeat decide.
   */
  lemma DeadWorkerStaysDead(s: Tables, ops: seq<Op>, from: nat, upto: nat, t: TaskId, versioned: bool, heartbeat: real, dead: real)
    requires from <= upto <= |ops| && t in At(s, ops, from).leases
    requires !HasLiveWorker(At(s, ops, from), t, versioned, heartbeat, dead)
    requires HasLiveWorker(At(s, ops, upto), t, versioned, heartbeat, dead)
    ensures exists c :: from <= c < upto &&
              ((ops[c].Claim? && ClaimedAt(s, ops, c, t, ops[c].owner)) || (RenewedAt(s, ops, c, t) && ops[c].now < dead) ||
               DropsLease(At(s, ops, c), ops[c], t))
  {
    if t in At(s, ops, upto).leases {
      DeadUntilClaimed(s, ops, from, upto, t, dead);
    } else {
      LeaseRowIsDropped(s, ops, from, upto, t);
    }
  }

  /** The time until which the renewals of `o` among the first `i` operations keep its lease, given `first` to start with. */
  function Deadline(ops: seq<Op>, i: nat, t: TaskId, o: Owner, first: real): real
    requires i <= |ops|
  {
    if i == 0 then first
    else if (ops[i - 1].Claim? || ops[i - 1].Heartbeat?) && ops[i - 1].task == t && ops[i - 1].owner == o then
      ops[i - 1].now + ops[i - 1].ttl
    else Deadline(ops, i - 1, t, o, first)
  }

  /** Every rival claim, and every renewal of `o` itself, samples a time before the deadline then in force. */
  ghost predicate RenewsInTime(ops: seq<Op>, t: TaskId, o: Owner, first: real) {
    forall i :: 0 <= i < |ops| && ops[i].task == t ==>
      match ops[i]
      case Claim(_, p, _, _, now) => p != o ==> now < Deadline(ops, i, t, o, first)
      case Heartbeat(_, p, _, _, now) => p == o ==> now < Deadline(ops, i, t, o, first)
      case Release(_, p) => p != o
      case Upsert(_, _, _, _) => true
      case Forget(_) => false
  }

  /** An owner that renews in time is never displaced: every heartbeat lands, and its writes pass until its deadline. */
  lemma {:induction false} RenewingOwnerKeepsTheLease(s: Tables, ops: seq<Op>, i: nat, t: TaskId, o: Owner)
    requires Holds(s, t, o) && RenewsInTime(ops, t, o, s.leases[t].expires) && i <= |ops|
    ensures Holds(At(s, ops, i), t, o)
    ensures At(s, ops, i).leases[t].expires == Deadline(ops, i, t, o, s.leases[t].expires)
    ensures i < |ops| && ops[i].Heartbeat? && ops[i].task == t && ops[i].owner == o ==> Succeeds(At(s, ops, i), ops[i])
    ensures i < |ops| && ops[i].Upsert? && ops[i].task == t && ops[i].fence == Some(o) && t != "" ==>
              (Succeeds(At(s, ops, i), ops[i]) <==> ops[i].now < Deadline(ops, i, t, o, s.leases[t].expires))
  {
    if i > 0 {
      RenewingOwnerKeepsTheLease(s, ops, i - 1, t, o);
      assert ops[i - 1].task == t ==> !ops[i - 1].Forget?;
    }
  }

  // ---------------------------------------------------------------- the store object

  class Store {
    var leases: map<TaskId, Lease>
    var rows: map<TaskId, Payload>

    ghost function Contents(): Tables
      reads this
    {
      Tables(leases, rows)
    }

    constructor ()
      ensures Contents() == Tables(map[], map[])
    {
      leases, rows := map[], map[];
    }

    method ClaimLease(t: TaskId, o: Owner, pid: int, ttl: real, now: real) returns (ok: bool)
      modifies this`leases
      ensures ok == Succeeds(old(Contents()), Claim(t, o, pid, ttl, now))
      ensures Contents() == Apply(old(Contents()), Claim(t, o, pid, ttl, now))
    {
      ok := true;
      if t in leases {
        var held := leases[t];
        ok := held.expires <= now || held.owner == o;
      }
      if ok {
        leases := leases[t := Lease(o, pid, now, now + ttl)];
      }
    }

    method HeartbeatLease(t: TaskId, o: Owner, pid: int, ttl: real, now: real) returns (ok: bool)
      modifies this`leases
      ensures ok == Succeeds(old(Contents()), Heartbeat(t, o, pid, ttl, now))
      ensures Contents() == Apply(old(Contents()), Heartbeat(t, o, pid, ttl, now))
    {
      ok := t in leases && leases[t].owner == o && leases[t].expires > now;
      if ok {
        leases := leases[t := leases[t].(heartbeat := now, expires := now + ttl, pid := pid)];
      }
    }

    method ReleaseLease(t: TaskId, o: Owner)
      modifies this`leases
      ensures Contents() == Apply(old(Contents()), Release(t, o))
    {
      if t in leases && leases[t].owner == o {
        leases := leases - {t};
      }
    }

    /** The fence and the write are one transaction. */
    method Upsert(t: TaskId, payload: Payload, fence: Option<Owner>, now: real) returns (ok: bool)
      modifies this`rows
      ensures ok == Succeeds(old(Contents()), Op.Upsert(t, payload, fence, now))
      ensures Contents() == Apply(old(Contents()), Op.Upsert(t, payload, fence, now))
    {
      if t == "" {
        return false;
      }
      if fence.Some? {
        if t !in leases || leases[t].owner != fence.value || leases[t].expires <= now {
          return false;
        }
      }
      rows := rows[t := payload];
      ok := true;
    }
  }
}
