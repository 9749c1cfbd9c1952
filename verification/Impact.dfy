/**
 Change impact (minicc/impact.py): breadth-first search from the changed files along reversed import edges,
 the import chains read back through the parent pointers, and the rows kept by the display limit.
 */
module Impact {
  import opened Common

  type Path = string

  /** `reverse`: for each file, the files that import it. */
  type Graph = map<Path, set<Path>>

  function Importers(g: Graph, p: Path): set<Path> {
    if p in g then g[p] else {}
  }

  /** A chain of files starting at a changed one, each imported by the next. */
  ghost predicate IsChain(g: Graph, changed: seq<Path>, chain: seq<Path>) {
    chain != [] && chain[0] in changed && forall i :: 0 <= i < |chain| - 1 ==> chain[i + 1] in Importers(g, chain[i])
  }

  /** Each file of a chain is imported by the next one, as the graph lists it. */
  lemma ChainExactly(g: Graph, changed: seq<Path>, chain: seq<Path>)
    ensures IsChain(g, changed, chain) <==>
      chain != [] && chain[0] in changed && forall i :: 0 <= i < |chain| - 1 ==> chain[i] in g && chain[i + 1] in g[chain[i]]
  {
    if IsChain(g, changed, chain) {
      forall i | 0 <= i < |chain| - 1
        ensures chain[i] in g && chain[i + 1] in g[chain[i]]
      {
        assert chain[i + 1] in Importers(g, chain[i]);
      }
    }
  }

  ghost predicate LeadsTo(g: Graph, changed: seq<Path>, chain: seq<Path>, p: Path) {
    IsChain(g, changed, chain) && chain[|chain| - 1] == p
  }

  type Parents = map<Path, Option<Path>>
  type Distances = map<Path, nat>

  /** Roots are the changed files; every other file hangs one step below its parent. */
  ghost predicate TreeAt(g: Graph, changed: seq<Path>, parents: Parents, distances: Distances, p: Path) {
    p in parents && p in distances &&
    match parents[p]
    case None => p in changed && distances[p] == 0
    case Some(q) => q in parents && q in distances && p in Importers(g, q) && distances[p] == distances[q] + 1
  }

  ghost predicate Tree(g: Graph, changed: seq<Path>, parents: Parents, distances: Distances) {
    && parents.Keys == distances.Keys
    && (forall p :: p in changed ==> p in parents && parents[p] == None)
    && (forall p :: p in parents ==> TreeAt(g, changed, parents, distances, p))
  }

  /** Every importer of `q` was found, at most one step further out. */
  ghost predicate Expanded(g: Graph, distances: Distances, q: Path) {
    q in distances ==> forall p :: p in Importers(g, q) ==> p in distances && distances[p] <= distances[q] + 1
  }

  ghost predicate Explored(g: Graph, changed: seq<Path>, parents: Parents, distances: Distances) {
    Tree(g, changed, parents, distances) && forall q :: q in parents ==> Expanded(g, distances, q)
  }

  /** The queue of a breadth-first search: distances never fall along it and span at most one step beyond its head. */
  ghost predicate QueueOk(distances: Distances, queue: seq<Path>, low: nat) {
    && (forall i :: 0 <= i < |queue| ==> queue[i] in distances && low <= distances[queue[i]])
    && (forall i, j :: 0 <= i < j < |queue| ==> distances[queue[i]] <= distances[queue[j]])
    && (forall p :: p in distances ==> distances[p] <= low + 1)
  }

  ghost function Universe(g: Graph, changed: seq<Path>): set<Path> {
    (set p | p in changed) + (set q, p | q in g && p in g[q] :: p)
  }

  /** One importer of the file being expanded. */
  lemma DiscoverKeepsTree(g: Graph, changed: seq<Path>, parents: Parents, distances: Distances, q: Path, p: Path)
    requires Tree(g, changed, parents, distances) && q in parents && p in Importers(g, q) && p !in parents
    ensures Tree(g, changed, parents[p := Some(q)], distances[p := distances[q] + 1])
  {
    var parents', distances' := parents[p := Some(q)], distances[p := distances[q] + 1];
    forall x | x in parents'
      ensures TreeAt(g, changed, parents', distances', x)
    {
      if x != p {
        assert TreeAt(g, changed, parents, distances, x);
      }
    }
  }

  lemma DiscoverKeepsQueue(distances: Distances, queue: seq<Path>, p: Path, low: nat)
    requires QueueOk(distances, queue, low) && p !in distances
    ensures QueueOk(distances[p := low + 1], queue + [p], low)
  {
  }

  /** What expanding `q` adds: its importers, queued; nothing found before changes. */
  ghost predicate Discovered(g: Graph, before: Distances, after: Distances, q: Path, queue: seq<Path>) {
    && (forall p :: p in before ==> p in after && after[p] == before[p])
    && (forall p :: p in after ==> p in before || (p in queue && p in Importers(g, q)))
    && Expanded(g, after, q)
  }

  /** Expand one file: every importer not seen before gets it as parent and joins the queue. */
  method Expand(g: Graph, ghost changed: seq<Path>, parents: Parents, distances: Distances, queue: seq<Path>, q: Path)
    returns (parents': Parents, distances': Distances, queue': seq<Path>)
    requires Tree(g, changed, parents, distances) && q in parents && QueueOk(distances, queue, distances[q])
    ensures Tree(g, changed, parents', distances') && QueueOk(distances', queue', distances[q])
    ensures Discovered(g, distances, distances', q, queue')
    ensures queue <= queue'
    ensures distances'.Keys == distances.Keys ==> queue' == queue
  {
    parents', distances', queue' := parents, distances, queue;
    var rest := if q in g then g[q] else {};
    while rest != {}
      invariant Tree(g, changed, parents', distances') && QueueOk(distances', queue', distances[q])
      invariant rest <= Importers(g, q)
      invariant forall p :: p in distances ==> p in distances' && distances'[p] == distances[p]
      invariant forall p :: p in distances' ==> p in distances || (p in queue' && p in Importers(g, q))
      invariant forall p :: p in Importers(g, q) - rest ==> p in distances'
      invariant queue <= queue' && (distances'.Keys == distances.Keys ==> queue' == queue)
      decreases rest
    {
      var p :| p in rest;
      rest := rest - {p};
      if p !in parents' {
        DiscoverKeepsTree(g, changed, parents', distances', q, p);
        DiscoverKeepsQueue(distances', queue', p, distances[q]);
        parents', distances', queue' := parents'[p := Some(q)], distances'[p := distances'[q] + 1], queue' + [p];
      }
    }
  }

  lemma ExpandedStays(g: Graph, before: Distances, after: Distances, q: Path)
    requires Expanded(g, before, q) && q in before
    requires forall p :: p in before ==> p in after && after[p] == before[p]
    ensures Expanded(g, after, q)
  {
  }

  /** Everything found is still queued or already expanded. */
  ghost predicate Frontier(g: Graph, distances: Distances, queue: seq<Path>) {
    forall p :: p in distances ==> p in queue || Expanded(g, distances, p)
  }

  lemma ExpandKeepsFrontier(g: Graph, before: Distances, after: Distances, q: Path, rest: seq<Path>, queue: seq<Path>)
    requires Frontier(g, before, [q] + rest) && rest <= queue && Discovered(g, before, after, q, queue)
    ensures Frontier(g, after, queue)
  {
    forall p | p in after
      ensures p in queue || Expanded(g, after, p)
    {
      if p in before && p != q && p !in rest {
        assert p !in [q] + rest;
        ExpandedStays(g, before, after, p);
      }
    }
  }

  lemma StartingPoint(g: Graph, changed: seq<Path>, parents: Parents, distances: Distances)
    requires parents == map p | p in changed :: None
    requires distances == map p | p in changed :: 0
    ensures Tree(g, changed, parents, distances) && QueueOk(distances, changed, 0)
    ensures Frontier(g, distances, changed) && parents.Keys <= Universe(g, changed)
  {
  }

  lemma NextInQueue(distances: Distances, queue: seq<Path>, low: nat)
    requires QueueOk(distances, queue, low) && queue != []
    ensures QueueOk(distances, queue[1..], distances[queue[0]])
  {
  }

  /** A round either finds new files or only shortens the queue. */
  lemma SmallerUniverse(g: Graph, changed: seq<Path>, before: Distances, after: Distances, q: Path, queue: seq<Path>)
    requires before.Keys <= Universe(g, changed) && Discovered(g, before, after, q, queue)
    ensures after.Keys <= Universe(g, changed)
    ensures after.Keys == before.Keys || Universe(g, changed) - after.Keys < Universe(g, changed) - before.Keys
  {
    if after.Keys != before.Keys {
      var p :| p in after && p !in before;
      assert p in Universe(g, changed) - before.Keys;
    }
  }

  /** Between two rounds of the search: `low` is the distance reached so far. */
  ghost predicate Searching(g: Graph, changed: seq<Path>, parents: Parents, distances: Distances, queue: seq<Path>, low: nat) {
    && Tree(g, changed, parents, distances) && QueueOk(distances, queue, low)
    && Frontier(g, distances, queue) && distances.Keys <= Universe(g, changed)
  }

  lemma ReadyToExpand(g: Graph, changed: seq<Path>, parents: Parents, distances: Distances, queue: seq<Path>, low: nat)
    requires Searching(g, changed, parents, distances, queue, low) && queue != []
    ensures queue[0] in parents && QueueOk(distances, queue[1..], distances[queue[0]])
  {
    NextInQueue(distances, queue, low);
  }

  lemma RoundKeepsSearching(g: Graph, changed: seq<Path>, before: Distances, q: Path, rest: seq<Path>,
                            parents: Parents, distances: Distances, queue: seq<Path>)
    requires Frontier(g, before, [q] + rest) && before.Keys <= Universe(g, changed) && q in before
    requires Tree(g, changed, parents, distances) && QueueOk(distances, queue, before[q])
    requires rest <= queue && Discovered(g, before, distances, q, queue)
    ensures Searching(g, changed, parents, distances, queue, before[q])
    ensures distances.Keys == before.Keys || Universe(g, changed) - distances.Keys < Universe(g, changed) - before.Keys
  {
    ExpandKeepsFrontier(g, before, distances, q, rest, queue);
    SmallerUniverse(g, changed, before, distances, q, queue);
  }

  /** The search of `analyze_change_impact`. */
  method Search(g: Graph, changed: seq<Path>) returns (parents: Parents, distances: Distances)
    ensures Explored(g, changed, parents, distances)
  {
    parents := map p | p in changed :: None;
    distances := map p | p in changed :: 0;
    var queue := changed;
    StartingPoint(g, changed, parents, distances);
    ghost var low, universe := 0, Universe(g, changed);
    while queue != []
      invariant Searching(g, changed, parents, distances, queue, low)
      decreases universe - distances.Keys, |queue|
    {
      var q, rest := queue[0], queue[1..];
      ghost var before := distances;
      assert queue == [q] + rest;
      ReadyToExpand(g, changed, parents, distances, queue, low);
      low := distances[q];
      parents, distances, queue := Expand(g, changed, parents, distances, rest, q);
      RoundKeepsSearching(g, changed, before, q, rest, parents, distances, queue);
    }
  }

  /** Import edges all the way from `cursor` to `p`. */
  ghost predicate Walk(g: Graph, chain: seq<Path>, cursor: Path, p: Path) {
    && |chain| >= 1 && chain[0] == cursor && chain[|chain| - 1] == p
    && forall i :: 0 <= i < |chain| - 1 ==> chain[i + 1] in Importers(g, chain[i])
  }

  lemma LongerWalk(g: Graph, chain: seq<Path>, cursor: Path, p: Path, q: Path)
    requires Walk(g, chain, cursor, p) && cursor in Importers(g, q)
    ensures Walk(g, [q] + chain, q, p)
  {
    var longer := [q] + chain;
    forall i | 0 <= i < |longer| - 1 ensures longer[i + 1] in Importers(g, longer[i]) {
      if i > 0 {
        assert chain[i - 1 + 1] in Importers(g, chain[i - 1]);
      }
    }
  }

  /** The pointer walk of `row`: it terminates because every step comes one nearer to a changed file. */
  method ImportChain(g: Graph, changed: seq<Path>, parents: Parents, distances: Distances, p: Path) returns (chain: seq<Path>)
    requires Explored(g, changed, parents, distances) && p in parents
    ensures LeadsTo(g, changed, chain, p) && |chain| == distances[p] + 1
  {
    chain := [p];
    var cursor := p;
    while parents[cursor].Some?
      invariant cursor in parents && Walk(g, chain, cursor, p)
      invariant |chain| + distances[cursor] == distances[p] + 1
      decreases distances[cursor]
    {
      assert TreeAt(g, changed, parents, distances, cursor);
      LongerWalk(g, chain, cursor, p, parents[cursor].value);
      cursor := parents[cursor].value;
      chain := [cursor] + chain;
    }
    assert TreeAt(g, changed, parents, distances, cursor);
    assert IsChain(g, changed, chain);
  }

  lemma LongerChain(g: Graph, changed: seq<Path>, chain: seq<Path>, p: Path)
    requires IsChain(g, changed, chain) && p in Importers(g, chain[|chain| - 1])
    ensures LeadsTo(g, changed, chain + [p], p)
  {
  }

  /** The same chain as a value, for the lemmas. */
  lemma {:induction false} TreeChain(g: Graph, changed: seq<Path>, parents: Parents, distances: Distances, p: Path) returns (chain: seq<Path>)
    requires Tree(g, changed, parents, distances) && p in parents
    ensures LeadsTo(g, changed, chain, p) && |chain| == distances[p] + 1
    decreases distances[p]
  {
    assert TreeAt(g, changed, parents, distances, p);
    match parents[p]
    case None => chain := [p];
    case Some(q) =>
      var front := TreeChain(g, changed, parents, distances, q);
      LongerChain(g, changed, front, p);
      chain := front + [p];
  }

  lemma {:induction false} NoShorterChain(g: Graph, changed: seq<Path>, parents: Parents, distances: Distances, chain: seq<Path>)
    requires Explored(g, changed, parents, distances) && IsChain(g, changed, chain)
    ensures var p := chain[|chain| - 1];
      p in parents && p in distances && distances[p] + 1 <= |chain|
  {
    if |chain| == 1 {
      assert TreeAt(g, changed, parents, distances, chain[0]);
    } else {
      var front := chain[..|chain| - 1];
      NoShorterChain(g, changed, parents, distances, front);
      assert Expanded(g, distances, front[|front| - 1]);
      assert chain[|front|] in Importers(g, chain[|front| - 1]);
    }
  }

  /** A file is found exactly when an import chain from a changed file leads to it. */
  lemma FindsExactlyTheReachable(g: Graph, changed: seq<Path>, parents: Parents, distances: Distances, p: Path)
    requires Explored(g, changed, parents, distances)
    ensures p in parents <==> exists chain :: LeadsTo(g, changed, chain, p)
  {
    if p in parents {
      var chain := TreeChain(g, changed, parents, distances, p);
    }
    forall chain | LeadsTo(g, changed, chain, p)
      ensures p in parents
    {
      NoShorterChain(g, changed, parents, distances, chain);
    }
  }

  /** Its distance is the number of imports on the shortest such chain. */
  lemma DistancesAreShortest(g: Graph, changed: seq<Path>, parents: Parents, distances: Distances, p: Path)
    requires Explored(g, changed, parents, distances) && p in parents
    ensures exists chain :: LeadsTo(g, changed, chain, p) && |chain| == distances[p] + 1
    ensures forall chain :: LeadsTo(g, changed, chain, p) ==> distances[p] + 1 <= |chain|
  {
    var chain := TreeChain(g, changed, parents, distances, p);
    forall chain | LeadsTo(g, changed, chain, p)
      ensures distances[p] + 1 <= |chain|
    {
      NoShorterChain(g, changed, parents, distances, chain);
    }
  }

  // ---------------------------------------------------------------- the displayed rows

  /** Python's order on text: the first difference decides, a prefix comes first. */
  predicate TextLe(a: string, b: string) {
    a == [] || (b != [] && (a[0] < b[0] || (a[0] == b[0] && TextLe(a[1..], b[1..]))))
  }

  /** The texts agree up to `k`, where the first has the smaller character. */
  ghost predicate SmallerAt(a: string, b: string, k: nat) {
    k < |a| && k < |b| && a[..k] == b[..k] && a[k] < b[k]
  }

  lemma {:induction false} TextLeExactly(a: string, b: string)
    ensures TextLe(a, b) <==> a <= b || exists k: nat :: SmallerAt(a, b, k)
  {
    if a != [] && b != [] {
      if a[0] != b[0] {
        assert a[0] < b[0] ==> SmallerAt(a, b, 0);
        forall k: nat | 0 < k < |a| && k < |b|
          ensures !SmallerAt(a, b, k)
        {
          assert a[..k][0] == a[0] && b[..k][0] == b[0];
        }
      } else {
        TextLeExactly(a[1..], b[1..]);
        SmallerBehind(a, b);
      }
    }
  }

  lemma SmallerBehind(a: string, b: string)
    requires a != [] && b != [] && a[0] == b[0]
    ensures a <= b <==> a[1..] <= b[1..]
    ensures (exists k: nat :: SmallerAt(a, b, k)) <==> exists k: nat :: SmallerAt(a[1..], b[1..], k)
  {
    var x, y := a[1..], b[1..];
    assert a == [a[0]] + x && b == [b[0]] + y;
    if exists k: nat :: SmallerAt(x, y, k) {
      var k: nat :| SmallerAt(x, y, k);
      assert a[..k + 1] == [a[0]] + x[..k] && b[..k + 1] == [b[0]] + y[..k];
      assert SmallerAt(a, b, k + 1);
    }
    if exists k: nat :: SmallerAt(a, b, k) {
      var k: nat :| SmallerAt(a, b, k);
      assert x[..k - 1] == a[..k][1..] && y[..k - 1] == b[..k][1..];
      assert SmallerAt(x, y, k - 1);
    }
  }

  lemma {:induction false} TextLeIsTotal(a: string, b: string)
    ensures TextLe(a, b) || TextLe(b, a)
  {
    if a != [] && b != [] && a[0] == b[0] {
      TextLeIsTotal(a[1..], b[1..]);
    }
  }

  lemma {:induction false} TextLeIsTransitive(a: string, b: string, c: string)
    requires TextLe(a, b) && TextLe(b, c)
    ensures TextLe(a, c)
  {
    if a != [] && a[0] == b[0] && b[0] == c[0] {
      TextLeIsTransitive(a[1..], b[1..], c[1..]);
    }
  }

  /** The sort key `(distance, path)`. */
  predicate RowLe(distances: Distances, a: Path, b: Path)
    requires a in distances && b in distances
  {
    distances[a] < distances[b] || (distances[a] == distances[b] && TextLe(a, b))
  }

  ghost predicate Ranked(distances: Distances, rows: seq<Path>) {
    && (forall i :: 0 <= i < |rows| ==> rows[i] in distances)
    && (forall i, j :: 0 <= i < j < |rows| ==> RowLe(distances, rows[i], rows[j]))
  }

  lemma RowLeIsTransitive(distances: Distances, a: Path, b: Path, c: Path)
    requires a in distances && b in distances && c in distances && RowLe(distances, a, b) && RowLe(distances, b, c)
    ensures RowLe(distances, a, c)
  {
    if distances[a] == distances[b] == distances[c] {
      TextLeIsTransitive(a, b, c);
    }
  }

  /** Put one path at its place among ranked rows. */
  method InsertRow(distances: Distances, rows: seq<Path>, p: Path) returns (r: seq<Path>)
    requires Ranked(distances, rows) && p in distances && Distinct(rows) && p !in rows
    ensures Ranked(distances, r) && Distinct(r) && Elements(r) == Elements(rows) + {p} && |r| == |rows| + 1
  {
    var i := 0;
    while i < |rows| && RowLe(distances, rows[i], p)
      invariant 0 <= i <= |rows|
      invariant forall j :: 0 <= j < i ==> RowLe(distances, rows[j], p)
    {
      i := i + 1;
    }
    r := rows[..i] + [p] + rows[i..];
    if i < |rows| {
      TextLeIsTotal(rows[i], p);
    }
    InsertedIsRanked(distances, rows, p, i);
    InsertedOnce(rows, p, i);
  }

  lemma InsertedIsRanked(distances: Distances, rows: seq<Path>, p: Path, i: nat)
    requires Ranked(distances, rows) && p in distances && i <= |rows|
    requires forall j :: 0 <= j < i ==> RowLe(distances, rows[j], p)
    requires i < |rows| ==> RowLe(distances, p, rows[i])
    ensures Ranked(distances, rows[..i] + [p] + rows[i..])
  {
    forall j | i < j < |rows|
      ensures RowLe(distances, p, rows[j])
    {
      RowLeIsTransitive(distances, p, rows[i], rows[j]);
    }
  }

  lemma InsertedOnce(rows: seq<Path>, p: Path, i: nat)
    requires i <= |rows| && Distinct(rows) && p !in rows
    ensures var r := rows[..i] + [p] + rows[i..];
      Distinct(r) && Elements(r) == Elements(rows) + {p} && |r| == |rows| + 1
  {
    assert rows == rows[..i] + rows[i..];
  }

  /** `sorted(paths, key=...)`: the same paths, each once, nearest first and then by name. */
  method Rank(distances: Distances, paths: set<Path>) returns (rows: seq<Path>)
    requires paths <= distances.Keys
    ensures Ranked(distances, rows) && Distinct(rows) && Elements(rows) == paths && |rows| == |paths|
  {
    rows := [];
    var rest := paths;
    while rest != {}
      invariant rest <= paths && Elements(rows) == paths - rest && |rows| == |paths| - |rest|
      invariant Ranked(distances, rows) && Distinct(rows)
      decreases rest
    {
      var p :| p in rest;
      assert p !in Elements(rows);
      rows := InsertRow(distances, rows, p);
      rest := rest - {p};
    }
  }

  /** The display limit never drops a row that is nearer than one it keeps. */
  lemma LimitKeepsTheNearest(distances: Distances, rows: seq<Path>, limit: nat, kept: Path, dropped: Path)
    requires Ranked(distances, rows) && limit <= |rows|
    requires kept in rows[..limit] && dropped in rows[limit..]
    ensures kept in distances && dropped in distances && distances[kept] <= distances[dropped]
  {
    var i :| 0 <= i < limit && rows[i] == kept;
    var j :| limit <= j < |rows| && rows[j] == dropped;
    assert RowLe(distances, rows[i], rows[j]);
  }

  datatype Displayed = Displayed(chain: seq<Path>, truncated: bool)

  /** What a row shows of its chain: at most 32 files, both ends of a longer one. */
  function Display(chain: seq<Path>): (d: Displayed)
    ensures |d.chain| == Min(|chain|, 32) && (d.truncated <==> |chain| > 32) && (!d.truncated ==> d.chain == chain)
    ensures d.truncated ==> forall k :: 0 <= k < 16 ==> d.chain[k] == chain[k]
    ensures d.truncated ==> forall k :: 16 <= k < 32 ==> d.chain[k] == chain[|chain| - 32 + k]
    ensures chain != [] ==> d.chain != [] && d.chain[0] == chain[0] && d.chain[|d.chain| - 1] == chain[|chain| - 1]
  {
    if |chain| <= 32 then Displayed(chain, false) else Displayed(chain[..16] + chain[|chain| - 16..], true)
  }

  datatype Row = Row(path: Path, distance: nat, chain: seq<Path>)

  /** The row of a file names a shortest import chain that leads to it. */
  ghost predicate Faithful(g: Graph, changed: seq<Path>, row: Row) {
    && LeadsTo(g, changed, row.chain, row.path) && |row.chain| == row.distance + 1
    && forall chain :: LeadsTo(g, changed, chain, row.path) ==> row.distance + 1 <= |chain|
  }

  /** A path a chain leads to is shown, or it was cut off behind rows that are all at least as near. */
  ghost predicate ShownOrFarther(rows: seq<Row>, truncated: bool, p: Path, chain: seq<Path>) {
    || (exists i :: 0 <= i < |rows| && rows[i].path == p)
    || (truncated && forall i :: 0 <= i < |rows| ==> rows[i].distance + 1 <= |chain|)
  }

  /** One row for each of the given paths. */
  method Rows(g: Graph, changed: seq<Path>, parents: Parents, distances: Distances, shown: seq<Path>) returns (rows: seq<Row>)
    requires Explored(g, changed, parents, distances) && forall i :: 0 <= i < |shown| ==> shown[i] in parents
    ensures |rows| == |shown|
    ensures forall i :: 0 <= i < |rows| ==> RowFor(g, changed, distances, shown[i], rows[i])
  {
    rows := [];
    while |rows| < |shown|
      invariant |rows| <= |shown|
      invariant forall i :: 0 <= i < |rows| ==> RowFor(g, changed, distances, shown[i], rows[i])
    {
      var row := OneRow(g, changed, parents, distances, shown[|rows|]);
      rows := rows + [row];
    }
  }

  ghost predicate RowFor(g: Graph, changed: seq<Path>, distances: Distances, p: Path, row: Row) {
    row.path == p && p in distances && row.distance == distances[p] && Faithful(g, changed, row)
  }

  method OneRow(g: Graph, changed: seq<Path>, parents: Parents, distances: Distances, p: Path) returns (row: Row)
    requires Explored(g, changed, parents, distances) && p in parents
    ensures RowFor(g, changed, distances, p, row)
  {
    var chain := ImportChain(g, changed, parents, distances, p);
    DistancesAreShortest(g, changed, parents, distances, p);
    row := Row(p, distances[p], chain);
  }

  /** The rows of the first files of a ranking. */
  ghost predicate RowsFor(g: Graph, changed: seq<Path>, distances: Distances, ranked: seq<Path>, rows: seq<Row>) {
    |rows| <= |ranked| && forall i :: 0 <= i < |rows| ==> RowFor(g, changed, distances, ranked[i], rows[i])
  }

  lemma CutKeepsTheNearest(g: Graph, changed: seq<Path>, parents: Parents, distances: Distances, ranked: seq<Path>, rows: seq<Row>,
                           p: Path, chain: seq<Path>)
    requires Explored(g, changed, parents, distances) && Ranked(distances, ranked)
    requires RowsFor(g, changed, distances, ranked, rows)
    requires LeadsTo(g, changed, chain, p) && (p in parents ==> p in ranked)
    ensures ShownOrFarther(rows, |rows| < |ranked|, p, chain)
  {
    NoShorterChain(g, changed, parents, distances, chain);
    var n :| 0 <= n < |ranked| && ranked[n] == p;
    if n < |rows| {
      assert RowFor(g, changed, distances, ranked[n], rows[n]);
    } else {
      forall i | 0 <= i < |rows|
        ensures rows[i].distance + 1 <= |chain|
      {
        assert RowFor(g, changed, distances, ranked[i], rows[i]);
        assert RowLe(distances, ranked[i], ranked[n]);
      }
    }
  }

  lemma RowsInOrder(g: Graph, changed: seq<Path>, distances: Distances, ranked: seq<Path>, rows: seq<Row>, i: nat, j: nat)
    requires Ranked(distances, ranked) && Distinct(ranked) && RowsFor(g, changed, distances, ranked, rows)
    requires i < j < |rows|
    ensures rows[i].path != rows[j].path && rows[i].distance <= rows[j].distance
  {
    assert RowLe(distances, ranked[i], ranked[j]);
  }

  /** `recommended_tests`: of the tests a change can reach, at most `limit`, and none that is dropped is nearer than one shown. */
  method RecommendedTests(g: Graph, changed: seq<Path>, tests: set<Path>, limit: nat) returns (rows: seq<Row>, truncated: bool)
    ensures |rows| <= limit && forall i :: 0 <= i < |rows| ==> rows[i].path in tests && Faithful(g, changed, rows[i])
    ensures forall i, j :: 0 <= i < j < |rows| ==> rows[i].path != rows[j].path && rows[i].distance <= rows[j].distance
    ensures forall p, chain :: p in tests && LeadsTo(g, changed, chain, p) ==> ShownOrFarther(rows, truncated, p, chain)
  {
    var parents, distances := Search(g, changed);
    var reached := set p | p in parents && p in tests;
    var ranked := Rank(distances, reached);
    assert forall p :: p in ranked <==> p in Elements(ranked);
    truncated := |ranked| > limit;
    var shown := if truncated then ranked[..limit] else ranked;
    rows := Rows(g, changed, parents, distances, shown);
    assert RowsFor(g, changed, distances, ranked, rows);
    forall i | 0 <= i < |rows| ensures rows[i].path in tests && Faithful(g, changed, rows[i]) {
      assert RowFor(g, changed, distances, ranked[i], rows[i]) && ranked[i] in ranked;
    }
    forall i, j | 0 <= i < j < |rows| ensures rows[i].path != rows[j].path && rows[i].distance <= rows[j].distance {
      RowsInOrder(g, changed, distances, ranked, rows, i, j);
    }
    forall p, chain | p in tests && LeadsTo(g, changed, chain, p) ensures ShownOrFarther(rows, truncated, p, chain) {
      CutKeepsTheNearest(g, changed, parents, distances, ranked, rows, p, chain);
    }
  }
}
