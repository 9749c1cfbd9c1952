/**
 * Task fixtures: the loader's pairwise check in minicc/bench_tasks.py against
 * what writing the files does in minicc/behavior_bench.py.
 */
module Fixture {
  import opened Common

  /** What the host decides: when two names are one, and which characters are letters or blank. */
  datatype Host = Host(same: string -> string, letter: char -> bool, blank: char -> bool)

  /** Where a file lands: its folder names and its own name, as the host identifies them. */
  type Place = seq<string>

  // ---------- spelling ----------

  function Slashes(s: string): (r: string)
    ensures |r| == |s|
  {
    seq(|s|, i requires 0 <= i < |s| => if s[i] == '\\' then '/' else s[i])
  }

  /** Only backslashes change, and each into a slash; doing it again changes nothing. */
  lemma SlashesExactly(s: string)
    ensures forall i :: 0 <= i < |s| ==> Slashes(s)[i] == if s[i] == '\\' then '/' else s[i]
    ensures '\\' !in Slashes(s) && Slashes(Slashes(s)) == Slashes(s)
  {
  }

  function Split(s: string): (parts: seq<string>)
    ensures |parts| >= 1
  {
    if s == "" then [""]
    else
      var before := Split(s[..|s| - 1]);
      var last := s[|s| - 1];
      if last == '/' then before + [""] else before[..|before| - 1] + [before[|before| - 1] + [last]]
  }

  /** The parts with a slash between each two. */
  function Joined(parts: seq<string>): string {
    if parts == [] then "" else if |parts| == 1 then parts[0]
    else Joined(parts[..|parts| - 1]) + "/" + parts[|parts| - 1]
  }

  /** The parts of a path are the text between its slashes: joined they give it back, and none holds a slash. */
  lemma SplitExactly(s: string)
    ensures Joined(Split(s)) == s
    ensures forall i :: 0 <= i < |Split(s)| ==> '/' !in Split(s)[i]
  {
    JoinUndoesSplit(s);
    NoSlashInParts(s);
  }

  lemma {:induction false} JoinUndoesSplit(s: string)
    ensures Joined(Split(s)) == s
  {
    if s != "" {
      var front, last := s[..|s| - 1], s[|s| - 1];
      JoinUndoesSplit(front);
      assert s == front + [last];
      if last == '/' {
        JoinedSlash(Split(front));
      } else {
        JoinedLast(Split(front), last);
      }
    }
  }

  lemma {:induction false} NoSlashInParts(s: string)
    ensures forall i :: 0 <= i < |Split(s)| ==> '/' !in Split(s)[i]
  {
    if s != "" {
      NoSlashInParts(s[..|s| - 1]);
    }
  }

  lemma JoinedSlash(parts: seq<string>)
    requires parts != []
    ensures Joined(parts + [""]) == Joined(parts) + "/"
  {
    assert (parts + [""])[..|parts|] == parts;
    assert Joined(parts) + "/" + "" == Joined(parts) + "/";
  }

  lemma JoinedLast(parts: seq<string>, c: char)
    requires parts != []
    ensures var n := |parts| - 1; Joined(parts[..n] + [parts[n] + [c]]) == Joined(parts) + [c]
  {
    var n := |parts| - 1;
    var longer := parts[..n] + [parts[n] + [c]];
    assert longer[..n] == parts[..n];
    if n > 0 {
      assert Joined(parts[..n]) + "/" + (parts[n] + [c]) == Joined(parts[..n]) + "/" + parts[n] + [c];
    } else {
      assert longer == [parts[0] + [c]];
    }
  }

  /** The names of a path: empty parts and "." say nothing. */
  function Names(parts: seq<string>): (r: seq<string>)
    ensures |r| <= |parts|
    ensures forall i :: 0 <= i < |r| ==> r[i] != "" && r[i] != "." && r[i] in parts
  {
    if parts == [] then []
    else
      var last := parts[|parts| - 1];
      Names(parts[..|parts| - 1]) + if last == "" || last == "." then [] else [last]
  }

  lemma NamesOneMore(parts: seq<string>, i: nat)
    requires i < |parts|
    ensures Names(parts[..i + 1]) == Names(parts[..i]) + if parts[i] == "" || parts[i] == "." then [] else [parts[i]]
  {
    assert parts[..i + 1][..i] == parts[..i];
  }

  /** Each part that says something is a name, behind the names of the parts before it. */
  lemma {:induction false} NameAt(parts: seq<string>, i: nat, n: nat)
    requires i < n <= |parts| && parts[i] != "" && parts[i] != "."
    ensures var at, names := |Names(parts[..i])|, Names(parts[..n]); at < |names| && names[at] == parts[i]
    decreases n
  {
    NamesOneMore(parts, n - 1);
    if i < n - 1 {
      NameAt(parts, i, n - 1);
    }
  }

  /** The parts that say something, up to the `n`-th. */
  ghost function Telling(parts: seq<string>, n: nat): set<int>
    requires n <= |parts|
  {
    set i | 0 <= i < n && parts[i] != "" && parts[i] != "."
  }

  lemma OneMoreTelling(parts: seq<string>, n: nat)
    requires n < |parts|
    ensures Telling(parts, n + 1) == if parts[n] == "" || parts[n] == "." then Telling(parts, n) else Telling(parts, n) + {n}
  {
  }

  lemma {:induction false} NamesAreCounted(parts: seq<string>, n: nat)
    requires n <= |parts|
    ensures |Names(parts[..n])| == |Telling(parts, n)|
  {
    if n > 0 {
      NamesAreCounted(parts, n - 1);
      NamesOneMore(parts, n - 1);
      OneMoreTelling(parts, n - 1);
    }
  }

  /** Walking a path from the workspace root, ".." going up; None once it leaves the root. */
  function Resolve(names: seq<string>): Option<seq<string>> {
    if names == [] then Some([])
    else
      match Resolve(names[..|names| - 1])
      case None => None
      case Some(at) =>
        var last := names[|names| - 1];
        if last != ".." then Some(at + [last])
        else if at == [] then None
        else Some(at[..|at| - 1])
  }

  lemma {:induction false} NothingToClimb(names: seq<string>)
    requires ".." !in names
    ensures Resolve(names) == Some(names)
  {
    if names != [] {
      assert names == names[..|names| - 1] + [names[|names| - 1]];
      NothingToClimb(names[..|names| - 1]);
    }
  }

  lemma {:induction false} LeavingIsForGood(names: seq<string>, i: nat)
    requires i <= |names| && Resolve(names[..i]).None?
    ensures Resolve(names).None?
    decreases |names|
  {
    if i == |names| {
      assert names[..i] == names;
    } else {
      assert names[..|names| - 1][..i] == names[..i];
      LeavingIsForGood(names[..|names| - 1], i);
    }
  }

  /** The steps up among the first `n`. */
  ghost function Ups(names: seq<string>, n: nat): set<int>
    requires n <= |names|
  {
    set i | 0 <= i < n && names[i] == ".."
  }

  lemma OneMoreUp(names: seq<string>, n: nat)
    requires n < |names|
    ensures Ups(names, n + 1) == if names[n] == ".." then Ups(names, n) + {n} else Ups(names, n)
  {
  }

  /** A path stays inside exactly when no part of it from the start goes up more often than down. */
  lemma {:induction false} StaysInsideExactly(names: seq<string>, n: nat)
    requires n <= |names|
    ensures Resolve(names[..n]).Some? <==> forall i :: 0 <= i <= n ==> 2 * |Ups(names, i)| <= i
    ensures Resolve(names[..n]).Some? ==> |Resolve(names[..n]).value| == n - 2 * |Ups(names, n)|
  {
    if n > 0 {
      StaysInsideExactly(names, n - 1);
      assert names[..n][..n - 1] == names[..n - 1];
      OneMoreUp(names, n - 1);
    }
  }

  /** Going down into a folder and up again is no step at all, wherever on the way. */
  lemma {:induction false} DownAndUpIsNothing(before: seq<string>, name: string, behind: seq<string>)
    requires name != ".." && Resolve(before).Some?
    ensures Resolve(before + [name, ".."] + behind) == Resolve(before + behind)
    decreases |behind|
  {
    if behind == [] {
      var down := before + [name];
      assert down[..|before|] == before;
      assert before + [name, ".."] == down + [".."];
      assert (down + [".."])[..|down|] == down;
      assert Resolve(before).value + [name] != [];
      assert before + [name, ".."] + behind == before + [name, ".."] && before + behind == before;
    } else {
      var front, last := behind[..|behind| - 1], behind[|behind| - 1];
      DownAndUpIsNothing(before, name, front);
      ResolveOneMore(before + [name, ".."] + front, last);
      ResolveOneMore(before + front, last);
      assert before + [name, ".."] + behind == before + [name, ".."] + front + [last];
      assert before + behind == before + front + [last];
    }
  }

  lemma ResolveOneMore(names: seq<string>, last: string)
    ensures Resolve(names + [last]) ==
      match Resolve(names)
      case None => None
      case Some(at) => if last != ".." then Some(at + [last]) else if at == [] then None else Some(at[..|at| - 1])
  {
    assert (names + [last])[..|names|] == names;
  }

  predicate Absolute(text: string) {
    text != "" && (text[0] == '/' || (|text| > 1 && text[1] == ':'))
  }

  /** A relative path none of whose beginnings goes up more often than down. */
  ghost predicate Inside(text: string, names: seq<string>) {
    && text != "" && text[0] != '/' && !(|text| > 1 && text[1] == ':')
    && forall i :: 0 <= i <= |names| ==> 2 * |Ups(names, i)| <= i
  }

  lemma InsideExactly(text: string, names: seq<string>)
    ensures Inside(text, names) <==> text != "" && !Absolute(text) && Resolve(names).Some?
  {
    StaysInsideExactly(names, |names|);
    assert names[..|names|] == names;
  }

  /** The lexical rule for contract paths: a depth counter in place of a real walk. */
  method ContractPathStaysInside(text: string) returns (inside: bool)
    ensures inside <==> Inside(text, Names(Split(text)))
  {
    InsideExactly(text, Names(Split(text)));
    if text == "" || Absolute(text) {
      return false;
    }
    var parts := Names(Split(text));
    var depth := 0;
    for i := 0 to |parts|
      invariant Resolve(parts[..i]).Some? && depth == |Resolve(parts[..i]).value|
    {
      assert parts[..i + 1][..i] == parts[..i];
      if parts[i] == ".." {
        depth := depth - 1;
        if depth < 0 {
          LeavingIsForGood(parts, i + 1);
          return false;
        }
      } else {
        depth := depth + 1;
      }
    }
    assert parts[..|parts|] == parts;
    inside := true;
  }

  // ---------- the loader's check ----------

  /** Keys and values come from a task file: either may be something else than text. */
  datatype Item = Item(key: Option<string>, text: Option<string>)

  datatype Refusal =
    | KeyNotText | Escapes | NamesDirectory | NotText | NothingLeft
    | SamePlace(i: nat, j: nat) | BlocksParent(i: nat, j: nat)

  predicate Climbs(host: Host, rel: string) {
    (rel != "" && rel[0] == '/') || (|rel| >= 2 && host.letter(rel[0]) && rel[1] == ':') || ".." in Split(rel)
  }

  predicate Blank(host: Host, rel: string) {
    forall i :: 0 <= i < |rel| ==> host.blank(rel[i])
  }

  function ItemRefusal(host: Host, item: Item): Option<Refusal> {
    if item.key.None? then Some(KeyNotText)
    else
      var rel := Slashes(item.key.value);
      if Climbs(host, rel) then Some(Escapes)
      else if Blank(host, rel) || rel == "." || (rel != "" && rel[|rel| - 1] == '/') then Some(NamesDirectory)
      else if item.text.None? then Some(NotText)
      else if Names(Split(rel)) == [] then Some(NothingLeft)
      else None
  }

  predicate SomethingIsNamed(parts: seq<string>) {
    exists i :: 0 <= i < |parts| && parts[i] != "" && parts[i] != "."
  }

  lemma SomethingIsNamedExactly(parts: seq<string>)
    ensures Names(parts) != [] <==> SomethingIsNamed(parts)
  {
    assert parts[..|parts|] == parts;
    if SomethingIsNamed(parts) {
      var i :| 0 <= i < |parts| && parts[i] != "" && parts[i] != ".";
      NameAt(parts, i, |parts|);
    }
    if Names(parts) != [] {
      assert Names(parts)[0] in parts;
    }
  }

  lemma DotSaysNothing()
    ensures Names(Split(".")) == []
  {
    var s := ".";
    assert s[..|s| - 1] == "" && Split("") == [""];
    assert "" + ['.'] == s;
    assert Split(s) == [s];
    assert Names([s][..0]) == [];
  }

  /** A path of this text and these parts is neither absolute, climbing nor blank, ends in no slash and names something. */
  ghost predicate FineKey(host: Host, rel: string, parts: seq<string>) {
    && rel != "" && rel[0] != '/' && rel[|rel| - 1] != '/' && !(|rel| >= 2 && host.letter(rel[0]) && rel[1] == ':')
    && (exists k :: 0 <= k < |rel| && !host.blank(rel[k]))
    && (forall i :: 0 <= i < |parts| ==> parts[i] != "..")
    && SomethingIsNamed(parts)
  }

  lemma FineKeyExactly(host: Host, rel: string)
    ensures FineKey(host, rel, Split(rel)) <==>
      !Climbs(host, rel) && !Blank(host, rel) && rel != "." && rel[|rel| - 1] != '/' && Names(Split(rel)) != []
  {
    var parts := Split(rel);
    SomethingIsNamedExactly(parts);
    if rel == "." {
      DotSaysNothing();
    }
  }

  /** The loader takes exactly the fine keys that are text with text behind them. */
  lemma FineExactly(host: Host, item: Item)
    ensures ItemRefusal(host, item).None? <==>
      item.key.Some? && item.text.Some? && var rel := Slashes(item.key.value); FineKey(host, rel, Split(rel))
  {
    if item.key.Some? {
      FineKeyExactly(host, Slashes(item.key.value));
    }
  }

  function Folded(host: Host, names: seq<string>): (r: Place)
    ensures |r| == |names|
  {
    seq(|names|, i requires 0 <= i < |names| => host.same(names[i]))
  }

  function PlaceOf(host: Host, key: string): Place {
    Folded(host, Names(Split(Slashes(key))))
  }

  /** Two keys share a place exactly when their names are the same to the host, one by one. */
  lemma SamePlaceExactly(host: Host, a: string, b: string)
    ensures var x, y := Names(Split(Slashes(a))), Names(Split(Slashes(b)));
      PlaceOf(host, a) == PlaceOf(host, b) <==> |x| == |y| && forall i :: 0 <= i < |x| ==> host.same(x[i]) == host.same(y[i])
  {
    var x, y := Names(Split(Slashes(a))), Names(Split(Slashes(b)));
    if PlaceOf(host, a) == PlaceOf(host, b) {
      forall i | 0 <= i < |x|
        ensures host.same(x[i]) == host.same(y[i])
      {
        assert PlaceOf(host, a)[i] == PlaceOf(host, b)[i];
      }
    }
  }

  datatype Entry = Entry(place: Place, text: string)

  function EntryOf(host: Host, item: Item): Entry
    requires item.key.Some? && item.text.Some?
  {
    Entry(PlaceOf(host, item.key.value), item.text.value)
  }

  ghost predicate EachFine(host: Host, items: seq<Item>) {
    forall i :: 0 <= i < |items| ==> ItemRefusal(host, items[i]).None?
  }

  ghost function Entries(host: Host, items: seq<Item>): (r: seq<Entry>)
    requires EachFine(host, items)
    ensures |r| == |items|
    ensures forall i :: 0 <= i < |items| ==> items[i].key.Some? && items[i].text.Some? && r[i] == EntryOf(host, items[i])
  {
    if items == [] then []
    else
      var last := |items| - 1;
      assert ItemRefusal(host, items[last]).None?;
      Entries(host, items[..last]) + [EntryOf(host, items[last])]
  }

  /** One place is the other, or lies on the way to it. */
  predicate Overlap(a: Place, b: Place) {
    a <= b || b <= a
  }

  ghost predicate Apart(entries: seq<Entry>) {
    forall i, j :: 0 <= i < j < |entries| ==> !Overlap(entries[i].place, entries[j].place)
  }

  /** The refusal names a real collision. */
  ghost predicate Collides(entries: seq<Entry>, why: Refusal) {
    match why
    case SamePlace(i, j) => i < j < |entries| && entries[i].place == entries[j].place
    case BlocksParent(i, j) => i < |entries| && j < |entries| && entries[i].place < entries[j].place
    case _ => false
  }

  method RequireEachFine(host: Host, items: seq<Item>) returns (refusal: Option<Refusal>)
    ensures refusal.None? <==> EachFine(host, items)
    ensures refusal.Some? ==> exists i :: 0 <= i < |items| && refusal == ItemRefusal(host, items[i])
  {
    for i := 0 to |items|
      invariant forall j :: 0 <= j < i ==> ItemRefusal(host, items[j]).None?
    {
      var objection := ItemRefusal(host, items[i]);
      if objection.Some? {
        return objection;
      }
    }
    refusal := None;
  }

  method RequireApart(places: seq<Place>) returns (refusal: Option<Refusal>)
    ensures Judges(places, refusal)
  {
    for i := 0 to |places|
      invariant forall a, b :: 0 <= a < i && a < b < |places| ==> !Overlap(places[a], places[b])
    {
      var here := places[i];
      for j := i + 1 to |places|
        invariant forall b :: i < b < j ==> !Overlap(here, places[b])
      {
        var there := places[j];
        if here == there {
          return Some(SamePlace(i, j));
        }
        if here <= there {
          return Some(BlocksParent(i, j));
        }
        if there <= here {
          return Some(BlocksParent(j, i));
        }
      }
    }
    refusal := None;
  }

  /** The loader's door: every key fine by itself, and no two in each other's way. */
  method RequireWritableFixture(host: Host, items: seq<Item>) returns (refusal: Option<Refusal>)
    ensures refusal.None? <==> EachFine(host, items) && Apart(Entries(host, items))
    ensures refusal.Some? && EachFine(host, items) ==> Collides(Entries(host, items), refusal.value)
  {
    refusal := RequireEachFine(host, items);
    if refusal.Some? {
      return;
    }
    var places := CollectPlaces(host, items);
    refusal := RequireApart(places);
    PlacesDecide(Entries(host, items), places, refusal);
  }

  /** The verdict of the pairwise loop, in terms of the places alone. */
  ghost predicate Judges(places: seq<Place>, refusal: Option<Refusal>) {
    && (refusal.None? <==> forall i, j :: 0 <= i < j < |places| ==> !Overlap(places[i], places[j]))
    && (refusal.Some? ==>
          match refusal.value
          case SamePlace(i, j) => i < j < |places| && places[i] == places[j]
          case BlocksParent(i, j) => i < |places| && j < |places| && places[i] < places[j]
          case _ => false)
  }

  lemma PlacesDecide(entries: seq<Entry>, places: seq<Place>, refusal: Option<Refusal>)
    requires |places| == |entries| && forall i :: 0 <= i < |entries| ==> places[i] == entries[i].place
    requires Judges(places, refusal)
    ensures refusal.None? <==> Apart(entries)
    ensures refusal.Some? ==> Collides(entries, refusal.value)
  {
  }

  method CollectPlaces(host: Host, items: seq<Item>) returns (places: seq<Place>)
    requires EachFine(host, items)
    ensures |places| == |items|
    ensures forall i :: 0 <= i < |items| ==> places[i] == Entries(host, items)[i].place
  {
    ghost var entries := Entries(host, items);
    places := [];
    for i := 0 to |items|
      invariant |places| == i
      invariant forall j :: 0 <= j < i ==> places[j] == entries[j].place
    {
      assert entries[i] == EntryOf(host, items[i]);
      var place := PlaceOf(host, items[i].key.value);
      places := places + [place];
    }
  }

  // ---------- writing the files ----------

  datatype Node = Directory | File(content: string)

  /** A workspace below its root, which is a directory. */
  type Tree = map<Place, Node>

  predicate ParentOf(q: Place, place: Place) {
    [] < q < place
  }

  function Parents(place: Place): (r: set<Place>)
    ensures forall q :: q in r <==> ParentOf(q, place)
  {
    assert forall q :: ParentOf(q, place) ==> q == place[..|q|];
    set k | 0 < k < |place| :: place[..k]
  }

  predicate Blocked(tree: Tree, place: Place) {
    place == [] || (place in tree && tree[place].Directory?) || exists q :: q in Parents(place) && q in tree && tree[q].File?
  }

  /** Make the missing folders, then write; a file on the way or a folder in the place stops it. */
  function Write(tree: Tree, e: Entry): Option<Tree> {
    if Blocked(tree, e.place) then None
    else Some((map q | q in tree.Keys + Parents(e.place) :: if q in tree then tree[q] else Directory)[e.place := File(e.text)])
  }

  function WriteAll(entries: seq<Entry>): Option<Tree> {
    if entries == [] then Some(map[])
    else
      match WriteAll(entries[..|entries| - 1])
      case None => None
      case Some(tree) => Write(tree, entries[|entries| - 1])
  }

  /** Writes a fixture into an empty workspace; a key that leaves the workspace stops it. */
  method PrepareFixture(host: Host, keys: seq<string>, texts: seq<string>) returns (tree: Option<Tree>)
    requires |keys| == |texts|
    ensures (forall i :: 0 <= i < |keys| ==> !Climbs(host, Slashes(keys[i])))
            ==> tree == WriteAll(seq(|keys|, i requires 0 <= i < |keys| => Entry(PlaceOf(host, keys[i]), texts[i])))
  {
    ghost var entries := seq(|keys|, i requires 0 <= i < |keys| => Entry(PlaceOf(host, keys[i]), texts[i]));
    tree := Some(map[]);
    for i := 0 to |keys|
      invariant (forall j :: 0 <= j < i ==> !Climbs(host, Slashes(keys[j]))) ==> tree == WriteAll(entries[..i])
    {
      assert entries[..i + 1][..i] == entries[..i];
      var names := Names(Split(Slashes(keys[i])));
      if !Climbs(host, Slashes(keys[i])) {
        NothingToClimb(names);
      }
      var target := Resolve(names);
      if tree.Some? {
        if target.None? || (keys[i] != "" && Slashes(keys[i])[0] == '/') {
          tree := None;
        } else {
          tree := Write(tree.value, Entry(Folded(host, target.value), texts[i]));
        }
      }
    }
    assert entries[..|keys|] == entries;
  }

  // ---------- the door is exact ----------

  ghost predicate SomeEntryAt(entries: seq<Entry>, q: Place) {
    exists i :: 0 <= i < |entries| && entries[i].place == q
  }

  ghost predicate SomeEntryBelow(entries: seq<Entry>, q: Place) {
    exists i :: 0 <= i < |entries| && ParentOf(q, entries[i].place)
  }

  predicate IsFile(tree: Tree, q: Place) {
    q in tree && tree[q].File?
  }

  predicate IsFolder(tree: Tree, q: Place) {
    q in tree && tree[q].Directory?
  }

  /** The tree holds the entries' places as files, the folders above them, and nothing else. */
  ghost predicate ShapedBy(entries: seq<Entry>, tree: Tree, q: Place) {
    (IsFile(tree, q) <==> SomeEntryAt(entries, q)) && (IsFolder(tree, q) <==> SomeEntryBelow(entries, q))
  }

  lemma WriteAt(tree: Tree, e: Entry, after: Tree, q: Place)
    requires Write(tree, e) == Some(after)
    ensures IsFile(after, q) <==> IsFile(tree, q) || q == e.place
    ensures IsFolder(after, q) <==> IsFolder(tree, q) || ParentOf(q, e.place)
    ensures q in tree && q != e.place ==> q in after && after[q] == tree[q]
    ensures after[e.place] == File(e.text) && !IsFolder(tree, e.place)
  {
  }

  lemma EntriesGrow(entries: seq<Entry>, q: Place)
    requires entries != []
    ensures var init, last := entries[..|entries| - 1], entries[|entries| - 1];
            && (SomeEntryAt(entries, q) <==> SomeEntryAt(init, q) || last.place == q)
            && (SomeEntryBelow(entries, q) <==> SomeEntryBelow(init, q) || ParentOf(q, last.place))
  {
  }

  lemma {:induction false} WritingShapesTheTree(entries: seq<Entry>, tree: Tree, q: Place)
    requires WriteAll(entries) == Some(tree)
    ensures ShapedBy(entries, tree, q)
  {
    if entries != [] {
      var init, last := entries[..|entries| - 1], entries[|entries| - 1];
      var before := WriteAll(init).value;
      WritingShapesTheTree(init, before, q);
      WriteAt(before, last, tree, q);
      EntriesGrow(entries, q);
    }
  }

  ghost predicate ReadBack(tree: Tree, e: Entry) {
    e.place in tree && tree[e.place] == File(e.text)
  }

  /** What the author means: every key is a file of its own and reads back its own text. */
  ghost predicate Faithful(entries: seq<Entry>, tree: Tree) {
    && (forall i :: 0 <= i < |entries| ==> ReadBack(tree, entries[i]))
    && |FilesOf(tree)| == |entries|
  }

  ghost function FilesOf(tree: Tree): set<Place> {
    set q | q in tree && tree[q].File?
  }

  ghost predicate WorksOut(entries: seq<Entry>) {
    WriteAll(entries).Some? && Faithful(entries, WriteAll(entries).value)
  }

  // ---------- which fixtures work out ----------

  /** Places that are apart are written one after the other, and each keeps its own text. */
  lemma {:induction false} ApartCanBeWritten(entries: seq<Entry>)
    requires Apart(entries) && forall i :: 0 <= i < |entries| ==> entries[i].place != []
    ensures WriteAll(entries).Some?
    ensures forall i :: 0 <= i < |entries| ==> ReadBack(WriteAll(entries).value, entries[i])
  {
    if entries != [] {
      var init := entries[..|entries| - 1];
      assert forall i :: 0 <= i < |init| ==> init[i] == entries[i];
      ApartCanBeWritten(init);
      NothingInTheWay(entries, WriteAll(init).value);
      assert forall i :: 0 <= i < |init| ==> ReadBack(WriteAll(init).value, init[i]);
      OneMoreReadsBack(entries, WriteAll(init).value, WriteAll(entries).value);
    }
  }

  lemma OneMoreReadsBack(entries: seq<Entry>, before: Tree, after: Tree)
    requires entries != [] && Apart(entries)
    requires Write(before, entries[|entries| - 1]) == Some(after)
    requires forall i :: 0 <= i < |entries| - 1 ==> ReadBack(before, entries[i])
    ensures forall i :: 0 <= i < |entries| ==> ReadBack(after, entries[i])
  {
    var init, last := entries[..|entries| - 1], entries[|entries| - 1];
    forall i | 0 <= i < |entries| ensures ReadBack(after, entries[i]) {
      WriteAt(before, last, after, entries[i].place);
      if i < |init| {
        assert ReadBack(before, entries[i]) && !Overlap(entries[i].place, last.place);
      }
    }
  }

  lemma NothingInTheWay(entries: seq<Entry>, before: Tree)
    requires entries != [] && Apart(entries) && entries[|entries| - 1].place != []
    requires WriteAll(entries[..|entries| - 1]) == Some(before)
    ensures !Blocked(before, entries[|entries| - 1].place)
    ensures entries[|entries| - 1].place !in before
  {
    var init, last := entries[..|entries| - 1], entries[|entries| - 1];
    WritingShapesTheTree(init, before, last.place);
    forall q | q in Parents(last.place) ensures !IsFile(before, q) {
      WritingShapesTheTree(init, before, q);
    }
  }

  lemma {:induction false} FilesAreThePlaces(entries: seq<Entry>, tree: Tree)
    requires WriteAll(entries) == Some(tree)
    ensures FilesOf(tree) == set e | e in entries :: e.place
  {
    forall q ensures q in FilesOf(tree) <==> q in set e | e in entries :: e.place {
      WritingShapesTheTree(entries, tree, q);
    }
  }

  lemma {:induction false} PlacesCounted(entries: seq<Entry>)
    ensures var places := set e | e in entries :: e.place;
            |places| <= |entries|
            && (|places| == |entries| <==> forall i, j :: 0 <= i < j < |entries| ==> entries[i].place != entries[j].place)
  {
    if entries != [] {
      var init, last := entries[..|entries| - 1], entries[|entries| - 1];
      PlacesCounted(init);
      assert entries == init + [last];
      assert (set e | e in entries :: e.place) == (set e | e in init :: e.place) + {last.place};
    }
  }

  /** Writing in any one order is faithful exactly when the places are pairwise apart. */
  lemma WorksOutExactly(entries: seq<Entry>)
    requires forall i :: 0 <= i < |entries| ==> entries[i].place != []
    ensures WorksOut(entries) <==> Apart(entries)
  {
    if Apart(entries) {
      ApartCanBeWritten(entries);
      FilesAreThePlaces(entries, WriteAll(entries).value);
      PlacesCounted(entries);
    }
    if WorksOut(entries) {
      var tree := WriteAll(entries).value;
      FilesAreThePlaces(entries, tree);
      PlacesCounted(entries);
      forall i, j | 0 <= i < j < |entries| ensures !Overlap(entries[i].place, entries[j].place) {
        NoFileOnTheWay(entries, tree, i, j);
        NoFileOnTheWay(entries, tree, j, i);
      }
    }
  }

  lemma NoFileOnTheWay(entries: seq<Entry>, tree: Tree, i: nat, j: nat)
    requires WriteAll(entries) == Some(tree) && i < |entries| && j < |entries|
    ensures !ParentOf(entries[i].place, entries[j].place)
  {
    WritingShapesTheTree(entries, tree, entries[i].place);
  }

  /** `other` lists the same entries in some order. */
  ghost predicate Reorders(entries: seq<Entry>, other: seq<Entry>) {
    |entries| == |other| && forall e :: e in entries <==> e in other
  }

  lemma ReorderingStaysApart(entries: seq<Entry>, other: seq<Entry>)
    requires Reorders(entries, other) && Apart(entries)
    ensures Apart(other)
  {
    PlacesCounted(entries);
    PlacesCounted(other);
    assert (set e | e in entries :: e.place) == (set e | e in other :: e.place);
    assert forall i, j :: 0 <= i < j < |entries| ==> entries[i].place != entries[j].place by {
      forall i, j | 0 <= i < j < |entries| ensures entries[i].place != entries[j].place {
        assert !Overlap(entries[i].place, entries[j].place);
      }
    }
    forall i, j | 0 <= i < j < |other| ensures !Overlap(other[i].place, other[j].place) {
      assert other[i].place != other[j].place;
      TwoOfThemApart(entries, other[i], other[j]);
    }
  }

  lemma TwoOfThemApart(entries: seq<Entry>, a: Entry, b: Entry)
    requires Apart(entries) && a in entries && b in entries && a.place != b.place
    ensures !Overlap(a.place, b.place)
  {
    var i :| 0 <= i < |entries| && entries[i] == a;
    var j :| 0 <= j < |entries| && entries[j] == b;
    if i < j {
      assert !Overlap(entries[i].place, entries[j].place);
    } else {
      assert !Overlap(entries[j].place, entries[i].place);
    }
  }

  lemma SameNode(entries: seq<Entry>, other: seq<Entry>, q: Place)
    requires Reorders(entries, other) && Apart(entries) && Apart(other)
    requires forall e :: e in entries ==> e.place != []
    requires WriteAll(entries).Some? && WriteAll(other).Some?
    ensures q in WriteAll(entries).value <==> q in WriteAll(other).value
    ensures q in WriteAll(entries).value ==> WriteAll(entries).value[q] == WriteAll(other).value[q]
  {
    var tree, tree' := WriteAll(entries).value, WriteAll(other).value;
    WritingShapesTheTree(entries, tree, q);
    WritingShapesTheTree(other, tree', q);
    assert SomeEntryAt(entries, q) <==> SomeEntryAt(other, q) by { SameEntries(entries, other, q); }
    assert SomeEntryBelow(entries, q) <==> SomeEntryBelow(other, q) by { SameEntries(entries, other, q); }
    if SomeEntryAt(entries, q) {
      var i :| 0 <= i < |entries| && entries[i].place == q;
      ReadsBack(entries, entries[i]);
      ReadsBack(other, entries[i]);
    }
  }

  lemma ReadsBack(entries: seq<Entry>, e: Entry)
    requires Apart(entries) && e in entries && forall x :: x in entries ==> x.place != []
    ensures WriteAll(entries).Some? && ReadBack(WriteAll(entries).value, e)
  {
    ApartCanBeWritten(entries);
    var i :| 0 <= i < |entries| && entries[i] == e;
    assert ReadBack(WriteAll(entries).value, entries[i]);
  }

  lemma SameEntries(entries: seq<Entry>, other: seq<Entry>, q: Place)
    requires Reorders(entries, other)
    ensures SomeEntryAt(entries, q) <==> SomeEntryAt(other, q)
    ensures SomeEntryBelow(entries, q) <==> SomeEntryBelow(other, q)
  {
    ByMembership(entries, q);
    ByMembership(other, q);
  }

  lemma ByMembership(entries: seq<Entry>, q: Place)
    ensures SomeEntryAt(entries, q) <==> exists e :: e in entries && e.place == q
    ensures SomeEntryBelow(entries, q) <==> exists e :: e in entries && ParentOf(q, e.place)
  {
  }

  /**
   * The exact meaning of the door: accepted fixtures work out in every order
   * and always to the same tree; a refused pair makes every order fail.
   */
  lemma AcceptedExactlyWhenEveryOrderWorks(entries: seq<Entry>, other: seq<Entry>)
    requires Reorders(entries, other)
    requires forall e :: e in entries ==> e.place != []
    ensures WorksOut(other) <==> Apart(entries)
    ensures Apart(entries) ==> WriteAll(other) == WriteAll(entries)
  {
    assert Reorders(other, entries);
    if Apart(entries) {
      ReorderingStaysApart(entries, other);
    }
    if Apart(other) {
      ReorderingStaysApart(other, entries);
    }
    WorksOutExactly(other);
    if Apart(entries) {
      SameTree(entries, other);
    }
  }

  lemma SameTree(entries: seq<Entry>, other: seq<Entry>)
    requires Reorders(entries, other) && Apart(entries) && Apart(other)
    requires forall e :: e in entries ==> e.place != []
    ensures WriteAll(other) == WriteAll(entries)
  {
    ApartCanBeWritten(entries);
    ApartCanBeWritten(other);
    forall q ensures (q in WriteAll(entries).value <==> q in WriteAll(other).value)
              && (q in WriteAll(entries).value ==> WriteAll(entries).value[q] == WriteAll(other).value[q]) {
      SameNode(entries, other, q);
    }
    assert WriteAll(entries).value == WriteAll(other).value;
  }

  /** How a refused pair hurts: one place keeps one text only, a file on the way blocks the write. */
  lemma RefusedPairLosesAFile(a: Entry, b: Entry)
    requires a.place != [] && b.place != [] && Overlap(a.place, b.place)
    ensures a.place == b.place ==>
              WriteAll([a, b]).Some? && |FilesOf(WriteAll([a, b]).value)| == 1
              && WriteAll([a, b]).value[a.place] == File(b.text)
    ensures a.place != b.place ==> WriteAll([a, b]).None? && WriteAll([b, a]).None?
  {
    FirstWrite(a);
    FirstWrite(b);
    assert [a, b][..1] == [a] && [b, a][..1] == [b];
    var tree, tree' := WriteAll([a]).value, WriteAll([b]).value;
    if a.place == b.place {
      assert Parents(a.place) == Parents(b.place);
      assert FilesOf(WriteAll([a, b]).value) == {a.place};
    } else if a.place <= b.place {
      assert a.place in Parents(b.place);
      assert IsFile(tree, a.place) && IsFolder(tree', a.place);
    } else {
      assert b.place in Parents(a.place);
      assert IsFile(tree', b.place) && IsFolder(tree, b.place);
    }
  }

  lemma FirstWrite(e: Entry)
    requires e.place != []
    ensures WriteAll([e]).Some?
    ensures forall q :: (IsFile(WriteAll([e]).value, q) <==> q == e.place) && (IsFolder(WriteAll([e]).value, q) <==> ParentOf(q, e.place))
  {
    assert [e][..0] == [];
    assert WriteAll([e][..0]) == Some(map[]);
    forall q ensures (IsFile(WriteAll([e]).value, q) <==> q == e.place)
                  && (IsFolder(WriteAll([e]).value, q) <==> ParentOf(q, e.place)) {
      WriteAt(map[], e, WriteAll([e]).value, q);
    }
  }

  /** From the task file to the disk: keys that are fine one by one name files inside the workspace. */
  lemma FineKeysNameFiles(host: Host, items: seq<Item>)
    requires EachFine(host, items)
    ensures forall e :: e in Entries(host, items) ==> e.place != []
    ensures forall i :: 0 <= i < |items| ==> items[i].key.Some? && !Climbs(host, Slashes(items[i].key.value))
  {
    var entries := Entries(host, items);
    forall i | 0 <= i < |items|
      ensures items[i].key.Some? && !Climbs(host, Slashes(items[i].key.value)) && entries[i].place != []
    {
      assert ItemRefusal(host, items[i]).None?;
    }
  }
}
