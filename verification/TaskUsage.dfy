/**
 * Token bookkeeping of a task record in minicc/task_manager.py.  Reports,
 * replacing totals, results and subtask folds may reach one record in any
 * order; the children's spend must surface in the parent's number exactly once.
 */
module TaskUsage {
  import opened Common

  type Counters = map<string, int>

  /** A reported counter is a number or something the host cannot count. */
  datatype Value = Num(n: int) | Unusable

  type Usage = map<string, Value>

  const TOKEN_KEYS: seq<string> := [
    "prompt_tokens", "completion_tokens", "total_tokens", "reasoning_tokens",
    "prompt_cache_hit_tokens", "prompt_cache_miss_tokens", "prompt_cache_write_tokens"
  ]

  function At(counters: Counters, key: string): int {
    if key in counters then counters[key] else 0
  }

  predicate Reports(usage: Usage, key: string) {
    key in usage && usage[key].Num?
  }

  /** The counters after walking `keys` in order. */
  function AddedOver(target: Counters, usage: Usage, keys: seq<string>): Counters {
    if keys == [] then target
    else
      var before := AddedOver(target, usage, keys[..|keys| - 1]);
      var key := keys[|keys| - 1];
      if Reports(usage, key) then before[key := At(before, key) + usage[key].n] else before
  }

  function Added(target: Counters, usage: Usage): Counters {
    AddedOver(target, usage, TOKEN_KEYS)
  }

  lemma {:induction false} AddedOverAt(target: Counters, usage: Usage, keys: seq<string>, key: string)
    requires Distinct(keys)
    ensures key in AddedOver(target, usage, keys) <==> key in target || (key in keys && Reports(usage, key))
    ensures At(AddedOver(target, usage, keys), key)
         == At(target, key) + if key in keys && Reports(usage, key) then usage[key].n else 0
  {
    if keys != [] {
      AddedOverAt(target, usage, keys[..|keys| - 1], key);
      assert keys == keys[..|keys| - 1] + [keys[|keys| - 1]];
    }
  }

  /** Each reported token counter is added once; every other counter stays. */
  lemma AddedAt(target: Counters, usage: Usage, key: string)
    ensures key in Added(target, usage) <==> key in target || (key in TOKEN_KEYS && Reports(usage, key))
    ensures At(Added(target, usage), key)
         == At(target, key) + if key in TOKEN_KEYS && key in usage && usage[key].Num? then usage[key].n else 0
  {
    AddedOverAt(target, usage, TOKEN_KEYS, key);
  }

  /** Every numeric counter of a report, whatever its key. */
  function Numbers(usage: Usage): Counters {
    map key | key in usage && usage[key].Num? :: usage[key].n
  }

  /** A number that replaces another has exactly the counters reported as numbers, with what was reported. */
  lemma NumbersExactly(usage: Usage, key: string)
    ensures key in Numbers(usage) <==> key in usage && usage[key].Num?
    ensures At(Numbers(usage), key) == if key in usage && usage[key].Num? then usage[key].n else 0
    ensures Positive(usage) <==> exists k :: k in Numbers(usage) && Numbers(usage)[k] > 0
  {
    if k :| k in Numbers(usage) && Numbers(usage)[k] > 0 {
      assert k in usage && usage[k].Num?;
    }
    if k :| k in usage && usage[k].Num? && usage[k].n > 0 {
      assert k in Numbers(usage);
    }
  }

  function AsUsage(counters: Counters): Usage {
    map key | key in counters :: Num(counters[key])
  }

  predicate Positive(usage: Usage) {
    exists key :: key in usage && usage[key].Num? && usage[key].n > 0
  }

  method AddUsageTotals(target: Counters, usage: Usage) returns (sum: Counters)
    ensures sum == Added(target, usage)
  {
    sum := target;
    var keys := TOKEN_KEYS;
    for i := 0 to |keys|
      invariant sum == AddedOver(target, usage, keys[..i])
    {
      var key := keys[i];
      assert keys[..i + 1][..i] == keys[..i];
      if Reports(usage, key) {
        sum := sum[key := At(sum, key) + usage[key].n];
      }
    }
    assert keys[..|keys|] == keys;
  }

  // ---------- the children's total ----------

  /** The counters of the children found, a vanished child being skipped. */
  function TotalOf(children: seq<Option<Counters>>): Counters {
    if children == [] then map[]
    else
      var before := TotalOf(children[..|children| - 1]);
      match children[|children| - 1]
      case None => before
      case Some(counters) => Added(before, AsUsage(counters))
  }

  function SpendOf(child: Option<Counters>, key: string): int {
    if child.Some? && key in TOKEN_KEYS then At(child.value, key) else 0
  }

  function ChildrenSum(children: seq<Option<Counters>>, key: string): int {
    if children == [] then 0
    else ChildrenSum(children[..|children| - 1], key) + SpendOf(children[|children| - 1], key)
  }

  /** The total is the sum over the children, and is empty only if none of them reports anything. */
  lemma {:induction false} TotalOfIsTheSum(children: seq<Option<Counters>>, key: string)
    ensures At(TotalOf(children), key) == ChildrenSum(children, key)
    ensures key in TotalOf(children) <==>
            key in TOKEN_KEYS && exists i :: 0 <= i < |children| && children[i].Some? && key in children[i].value
  {
    if children != [] {
      var init := children[..|children| - 1];
      var last := children[|children| - 1];
      TotalOfIsTheSum(init, key);
      if last.Some? {
        AddedAt(TotalOf(init), AsUsage(last.value), key);
      }
      assert forall i :: 0 <= i < |init| ==> children[i] == init[i];
    }
  }

  // ---------- one record ----------

  datatype Record = Record(tokens: Counters, rolledUp: bool, cancelRequested: bool, terminal: bool)

  /**
   * `Fold(total)` is the committing half of a roll-up: the children's counters
   * were read earlier, without the record's lock.
   */
  datatype Op =
    | Report(usage: Usage)
    | ReportTotal(usage: Usage)
    | Result(usage: Usage, declaresFold: bool)
    | Fold(total: Counters)
    | RequestCancel
    | Finish

  predicate Stopped(r: Record) {
    r.cancelRequested || r.terminal
  }

  function Step(r: Record, op: Op): Record {
    match op
    case Report(usage) => if Stopped(r) then r else r.(tokens := Added(r.tokens, usage))
    case ReportTotal(usage) => if Stopped(r) then r else r.(tokens := Numbers(usage), rolledUp := false)
    case Result(usage, declares) =>
      if r.terminal || !Positive(usage) then r else r.(tokens := Numbers(usage), rolledUp := declares)
    case Fold(total) =>
      if total == map[] || r.rolledUp then r
      else r.(tokens := Added(r.tokens, AsUsage(total)), rolledUp := true)
    case RequestCancel => r.(cancelRequested := true)
    case Finish => r.(terminal := true)
  }

  class TaskRecord {
    var tokensUsed: Counters
    var childrenRolledUp: bool
    var cancelRequested: bool
    var terminal: bool

    function Value(): Record
      reads this
    {
      Record(tokensUsed, childrenRolledUp, cancelRequested, terminal)
    }

    constructor (tokens: Counters, rolledUp: bool)
      ensures Value() == Record(tokens, rolledUp, false, false)
    {
      tokensUsed, childrenRolledUp, cancelRequested, terminal := tokens, rolledUp, false, false;
    }

    method UpdateUsage(usage: Usage, cumulative: bool)
      modifies this
      ensures Value() == Step(old(Value()), if cumulative then ReportTotal(usage) else Report(usage))
    {
      if cancelRequested || terminal {
        return;
      }
      if cumulative {
        tokensUsed := Numbers(usage);
        childrenRolledUp := false;
      } else {
        tokensUsed := AddUsageTotals(tokensUsed, usage);
      }
    }

    method ApplyResult(usage: Usage, declaresFold: bool) returns (applied: bool)
      modifies this
      ensures Value() == Step(old(Value()), Result(usage, declaresFold))
      ensures applied <==> !old(terminal)
    {
      if terminal {
        return false;
      }
      if Positive(usage) {
        tokensUsed := Numbers(usage);
        childrenRolledUp := declaresFold;
      }
      applied := true;
    }

    /** The second half of a roll-up, after the children were read; asks again under the lock. */
    method CommitFold(total: Counters)
      modifies this
      ensures Value() == Step(old(Value()), Fold(total))
    {
      if total == map[] {
        return;
      }
      if childrenRolledUp {
        return;
      }
      tokensUsed := AddUsageTotals(tokensUsed, AsUsage(total));
      childrenRolledUp := true;
    }

    /** A whole roll-up with nothing in between: at most one fold of the sum over all children. */
    method RollUp(childIds: seq<string>, children: seq<Option<Counters>>)
      requires |childIds| == |children|
      modifies this
      ensures Value() == Step(old(Value()), Fold(TotalOf(children)))
    {
      if childIds == [] || childrenRolledUp {
        return;
      }
      var usage: Counters := map[];
      for i := 0 to |children|
        invariant usage == TotalOf(children[..i])
        invariant Value() == old(Value())
      {
        assert children[..i + 1][..i] == children[..i];
        match children[i] {
          case None =>
          case Some(counters) => usage := AddUsageTotals(usage, AsUsage(counters));
        }
      }
      assert children[..|children|] == children;
      CommitFold(usage);
    }

    method Cancel()
      modifies this
      ensures Value() == Step(old(Value()), Op.RequestCancel)
    {
      cancelRequested := true;
    }

    method FinishTask()
      modifies this
      ensures Value() == Step(old(Value()), Op.Finish)
    {
      terminal := true;
    }
  }

  // ---------- every run: what the number means ----------

  function Run(init: Record, ops: seq<Op>): Record {
    if ops == [] then init else Step(Run(init, ops[..|ops| - 1]), ops[|ops| - 1])
  }

  /** The task ended before position `i`. */
  ghost predicate FinishedBefore(init: Record, ops: seq<Op>, i: nat)
    requires i <= |ops|
  {
    init.terminal || exists j :: 0 <= j < i && ops[j] == Op.Finish
  }

  /** The task ended or was asked to before position `i`. */
  ghost predicate StoppedBefore(init: Record, ops: seq<Op>, i: nat)
    requires i <= |ops|
  {
    FinishedBefore(init, ops, i) || init.cancelRequested || exists j :: 0 <= j < i && ops[j] == Op.RequestCancel
  }

  /** No operation but these two closes the record, and none opens it again. */
  lemma {:induction false} StoppedExactly(init: Record, ops: seq<Op>, i: nat)
    requires i <= |ops|
    ensures Run(init, ops[..i]).terminal <==> FinishedBefore(init, ops, i)
    ensures Stopped(Run(init, ops[..i])) <==> StoppedBefore(init, ops, i)
  {
    if i > 0 {
      StoppedExactly(init, ops, i - 1);
      assert ops[..i][..i - 1] == ops[..i - 1];
      assert Run(init, ops[..i]) == Step(Run(init, ops[..i - 1]), ops[i - 1]);
    }
  }

  /** Some reported counter is greater than zero. */
  ghost predicate ReportsSpend(usage: Usage) {
    exists key :: key in usage && usage[key].Num? && usage[key].n > 0
  }

  /** The operation at `i` replaces the number outright: a total for a task still wanted, or a result with any spend for one not ended. */
  ghost predicate ReplacesAt(init: Record, ops: seq<Op>, i: nat)
    requires i < |ops|
  {
    match ops[i]
    case ReportTotal(_) => !StoppedBefore(init, ops, i)
    case Result(usage, _) => !FinishedBefore(init, ops, i) && ReportsSpend(usage)
    case _ => false
  }

  /** Nothing replaced the number since position `e`, which is the start or right after a replacement. */
  ghost predicate EpochStart(init: Record, ops: seq<Op>, e: nat) {
    e <= |ops|
    && (e > 0 ==> ReplacesAt(init, ops, e - 1))
    && forall i :: e <= i < |ops| ==> !ReplacesAt(init, ops, i)
  }

  /** The position right after the last replacement of a run, the start if there is none. */
  ghost function Epoch(init: Record, ops: seq<Op>): (e: nat)
    ensures e <= |ops|
  {
    if ops == [] then 0
    else if ReplacesAt(init, ops, |ops| - 1) then |ops|
    else Epoch(init, ops[..|ops| - 1])
  }

  lemma {:induction false} EpochStartsTheEpoch(init: Record, ops: seq<Op>)
    ensures EpochStart(init, ops, Epoch(init, ops))
  {
    if ops != [] && !ReplacesAt(init, ops, |ops| - 1) {
      var shorter := ops[..|ops| - 1];
      EpochStartsTheEpoch(init, shorter);
      var e := Epoch(init, shorter);
      PrefixReplaces(init, ops, |shorter|);
      assert e > 0 ==> ReplacesAt(init, shorter, e - 1);
    }
  }

  /** What replaces the number at a position depends on what came before it only. */
  lemma PrefixReplaces(init: Record, ops: seq<Op>, n: nat)
    requires n <= |ops|
    ensures forall i :: 0 <= i < n ==> (ReplacesAt(init, ops[..n], i) <==> ReplacesAt(init, ops, i))
  {
    forall i | 0 <= i < n
      ensures ReplacesAt(init, ops[..n], i) <==> ReplacesAt(init, ops, i)
    {
      assert FinishedBefore(init, ops[..n], i) <==> FinishedBefore(init, ops, i);
      assert StoppedBefore(init, ops[..n], i) <==> StoppedBefore(init, ops, i);
    }
  }

  /** Does the number an epoch starts with already own its subtree? */
  function DeclaredAt(init: Record, ops: seq<Op>, e: nat): bool
    requires e <= |ops|
  {
    if e == 0 then init.rolledUp else ops[e - 1].Result? && ops[e - 1].declaresFold
  }

  function BaseAt(init: Record, ops: seq<Op>, e: nat, key: string): int
    requires e <= |ops|
  {
    if e == 0 then At(init.tokens, key)
    else match ops[e - 1]
      case ReportTotal(usage) => if key in usage && usage[key].Num? then usage[key].n else 0
      case Result(usage, _) => if key in usage && usage[key].Num? then usage[key].n else 0
      case _ => 0
  }

  /** The increments in `ops[e..]` that came before the task was stopped. */
  ghost function Increments(init: Record, ops: seq<Op>, e: nat, key: string): int
    requires e <= |ops|
    decreases |ops|
  {
    if e == |ops| then 0
    else
      var last := ops[|ops| - 1];
      Increments(init, ops[..|ops| - 1], e, key)
      + if last.Report? && !StoppedBefore(init, ops, |ops| - 1) && key in TOKEN_KEYS && key in last.usage && last.usage[key].Num?
        then last.usage[key].n else 0
  }

  predicate Folds(op: Op) {
    op.Fold? && op.total != map[]
  }

  /** The first fold of anything since `e`. */
  ghost predicate FirstFold(ops: seq<Op>, e: nat, f: nat) {
    e <= f < |ops| && Folds(ops[f]) && forall i :: e <= i < f ==> !Folds(ops[i])
  }

  ghost predicate NoFold(ops: seq<Op>, e: nat) {
    forall i :: e <= i < |ops| ==> !Folds(ops[i])
  }

  /** What the number must be: own spend of this epoch, and one fold at most. */
  ghost predicate Balanced(init: Record, ops: seq<Op>, e: nat, key: string)
    requires e <= |ops|
  {
    var r := Run(init, ops);
    var own := BaseAt(init, ops, e, key) + Increments(init, ops, e, key);
    if DeclaredAt(init, ops, e) then
      r.rolledUp && At(r.tokens, key) == own
    else
      && (NoFold(ops, e) ==> !r.rolledUp && At(r.tokens, key) == own)
      && forall f: nat :: FirstFold(ops, e, f) ==>
                       r.rolledUp && At(r.tokens, key) == own + if key in TOKEN_KEYS then At(ops[f].total, key) else 0
  }

  lemma EpochShrinks(init: Record, ops: seq<Op>, e: nat)
    requires EpochStart(init, ops, e) && e < |ops|
    ensures EpochStart(init, ops[..|ops| - 1], e)
    ensures !ReplacesAt(init, ops, |ops| - 1)
  {
    PrefixReplaces(init, ops, |ops| - 1);
  }

  /**
   * Exactly once, over every run: since the last replacement the number is the
   * base plus the accepted increments, plus the total of the first fold unless
   * the base declares that it owns its subtree already.  Later folds, however
   * often the task is finalised, add nothing.
   */
  lemma BooksBalance(init: Record, ops: seq<Op>, key: string)
    ensures EpochStart(init, ops, Epoch(init, ops))
    ensures Balanced(init, ops, Epoch(init, ops), key)
  {
    EpochStartsTheEpoch(init, ops);
    EpochBalances(init, ops, Epoch(init, ops), key);
  }

  lemma {:induction false} EpochBalances(init: Record, ops: seq<Op>, e: nat, key: string)
    requires EpochStart(init, ops, e)
    ensures Balanced(init, ops, e, key)
    decreases |ops|
  {
    if e == |ops| {
      if e > 0 {
        assert ReplacesAt(init, ops, e - 1);
        StoppedExactly(init, ops, e - 1);
        assert ops[..e] == ops;
      }
    } else {
      EpochShrinks(init, ops, e);
      EpochBalances(init, ops[..|ops| - 1], e, key);
      BalanceStep(init, ops, e, key);
    }
  }

  /** What the last operation of an epoch adds to the number. */
  lemma LastOpAdds(init: Record, ops: seq<Op>, e: nat, key: string)
    requires e < |ops| && !ReplacesAt(init, ops, |ops| - 1)
    ensures var before, after, last := Run(init, ops[..|ops| - 1]), Run(init, ops), ops[|ops| - 1];
      && after.rolledUp == (before.rolledUp || Folds(last))
      && At(after.tokens, key) - At(before.tokens, key)
         == Increments(init, ops, e, key) - Increments(init, ops[..|ops| - 1], e, key)
            + if Folds(last) && !before.rolledUp && key in TOKEN_KEYS then At(last.total, key) else 0
  {
    var before := Run(init, ops[..|ops| - 1]);
    StoppedExactly(init, ops, |ops| - 1);
    match ops[|ops| - 1] {
      case Report(usage) => AddedAt(before.tokens, usage, key);
      case Fold(total) => AddedAt(before.tokens, AsUsage(total), key);
      case _ =>
    }
  }

  lemma BalanceStep(init: Record, ops: seq<Op>, e: nat, key: string)
    requires e < |ops| && EpochStart(init, ops, e)
    requires Balanced(init, ops[..|ops| - 1], e, key)
    ensures Balanced(init, ops, e, key)
  {
    var shorter := ops[..|ops| - 1];
    EpochShrinks(init, ops, e);
    assert DeclaredAt(init, shorter, e) == DeclaredAt(init, ops, e);
    assert BaseAt(init, shorter, e, key) == BaseAt(init, ops, e, key);
    LastOpAdds(init, ops, e, key);
    if !DeclaredAt(init, ops, e) {
      FoldsShrink(ops, e);
      forall f: nat | FirstFold(ops, e, f)
        ensures Run(init, ops).rolledUp
        ensures At(Run(init, ops).tokens, key)
             == BaseAt(init, ops, e, key) + Increments(init, ops, e, key)
              + if key in TOKEN_KEYS then At(ops[f].total, key) else 0
      {
        if f == |shorter| {
          assert NoFold(shorter, e);
        } else {
          assert FirstFold(shorter, e, f);
        }
      }
    }
  }

  lemma FoldsShrink(ops: seq<Op>, e: nat)
    requires e < |ops|
    ensures NoFold(ops, e) ==> NoFold(ops[..|ops| - 1], e)
    ensures forall f: nat :: FirstFold(ops[..|ops| - 1], e, f) ==> FirstFold(ops, e, f)
  {
  }

  /** Finalising again and again after a fold leaves the record exactly as it is. */
  lemma {:induction false} FinalisingAgainChangesNothing(init: Record, ops: seq<Op>, again: seq<Op>)
    requires Run(init, ops).rolledUp
    requires forall i :: 0 <= i < |again| ==> again[i].Fold?
    ensures Run(init, ops + again) == Run(init, ops)
    decreases |again|
  {
    if again == [] {
      assert ops + again == ops;
    } else {
      var shorter := again[..|again| - 1];
      FinalisingAgainChangesNothing(init, ops, shorter);
      assert (ops + again)[..|ops + again| - 1] == ops + shorter;
    }
  }
}
