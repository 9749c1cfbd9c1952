/**
 * History search in minicc/task_store.py: a case-insensitive match is found in
 * the folded text, where one character may stand for several, and shown in the
 * original text.
 */
module SearchWindow {
  import opened Common

  /** Case folding of single characters; an image may have any length. */
  type Folding = char -> string

  function Folded(fold: Folding, s: string): string {
    if s == "" then "" else Folded(fold, s[..|s| - 1]) + fold(s[|s| - 1])
  }

  /** Where the image of character `i` begins in the folded text. */
  function Offset(fold: Folding, s: string, i: nat): nat
    requires i <= |s|
  {
    |Folded(fold, s[..i])|
  }

  predicate MatchAt(text: string, needle: string, i: nat) {
    i + |needle| <= |text| && text[i..i + |needle|] == needle
  }

  ghost predicate FirstMatch(text: string, needle: string, i: nat) {
    MatchAt(text, needle, i) && forall j: nat :: j < i ==> !MatchAt(text, needle, j)
  }

  /** The leftmost match at or after `i`. */
  function FindFrom(text: string, needle: string, i: nat): (r: Option<nat>)
    ensures r.Some? ==> i <= r.value && MatchAt(text, needle, r.value)
    ensures r.Some? ==> forall j :: i <= j < r.value ==> !MatchAt(text, needle, j)
    ensures r.None? ==> forall j :: i <= j ==> !MatchAt(text, needle, j)
    decreases |text| - i
  {
    if i + |needle| > |text| then None
    else if MatchAt(text, needle, i) then Some(i)
    else FindFrom(text, needle, i + 1)
  }

  /** Matches counted left to right, each starting behind the previous one. */
  function CountFrom(text: string, needle: string, i: nat): nat
    requires needle != ""
    decreases |text| - i
  {
    match FindFrom(text, needle, i)
    case None => 0
    case Some(p) => 1 + CountFrom(text, needle, p + |needle|)
  }

  /** Matches that do not overlap, from `i` on. */
  ghost predicate Disjoint(text: string, needle: string, i: nat, places: seq<nat>) {
    && (forall k :: 0 <= k < |places| ==> i <= places[k] && MatchAt(text, needle, places[k]))
    && forall k :: 0 <= k < |places| - 1 ==> places[k] + |needle| <= places[k + 1]
  }

  /** Counting left to right is the most one can count without overlaps. */
  lemma {:induction false} CountIsTheMost(text: string, needle: string, i: nat, places: seq<nat>)
    requires needle != "" && Disjoint(text, needle, i, places)
    ensures |places| <= CountFrom(text, needle, i)
    decreases |text| - i
  {
    if places != [] {
      assert MatchAt(text, needle, places[0]);
      var p := FindFrom(text, needle, i).value;
      assert p <= places[0];
      var rest := places[1..];
      RestIsDisjoint(text, needle, i, places, p + |needle|);
      CountIsTheMost(text, needle, p + |needle|, rest);
    }
  }

  lemma {:induction false} RestIsDisjoint(text: string, needle: string, i: nat, places: seq<nat>, j: nat)
    requires Disjoint(text, needle, i, places) && places != [] && j <= places[0] + |needle|
    ensures Disjoint(text, needle, j, places[1..])
  {
    var rest := places[1..];
    forall k | 0 <= k < |rest| ensures j <= rest[k] && MatchAt(text, needle, rest[k]) {
      Spread(text, needle, i, places, k + 1);
      assert rest[k] == places[k + 1];
    }
    forall k | 0 <= k < |rest| - 1 ensures rest[k] + |needle| <= rest[k + 1] {
      assert rest[k] == places[k + 1] && rest[k + 1] == places[k + 2];
    }
  }

  lemma {:induction false} Spread(text: string, needle: string, i: nat, places: seq<nat>, k: nat)
    requires Disjoint(text, needle, i, places) && 1 <= k < |places|
    ensures places[0] + |needle| <= places[k]
    decreases k
  {
    if k > 1 {
      Spread(text, needle, i, places, k - 1);
      assert places[k - 1] + |needle| <= places[k - 1 + 1];
    }
  }

  /** And that many can be counted: the places the count goes through. */
  lemma {:induction false} CountIsAttained(text: string, needle: string, i: nat) returns (places: seq<nat>)
    requires needle != ""
    ensures Disjoint(text, needle, i, places) && |places| == CountFrom(text, needle, i)
    decreases |text| - i
  {
    match FindFrom(text, needle, i)
    case None => places := [];
    case Some(p) =>
      var rest := CountIsAttained(text, needle, p + |needle|);
      places := [p] + rest;
      OneMorePlace(text, needle, i, p, rest);
  }

  lemma OneMorePlace(text: string, needle: string, i: nat, p: nat, rest: seq<nat>)
    requires i <= p && MatchAt(text, needle, p) && Disjoint(text, needle, p + |needle|, rest)
    ensures Disjoint(text, needle, i, [p] + rest)
  {
    var places := [p] + rest;
    forall k | 0 <= k < |places| - 1
      ensures places[k] + |needle| <= places[k + 1]
    {
      if k > 0 {
        assert places[k] == rest[k - 1] && places[k + 1] == rest[k - 1 + 1];
      }
    }
  }

  // ---------- offsets ----------

  lemma OffsetStep(fold: Folding, s: string, i: nat)
    requires i < |s|
    ensures Offset(fold, s, i + 1) == Offset(fold, s, i) + |fold(s[i])|
  {
    assert s[..i + 1][..i] == s[..i];
  }

  lemma {:induction false} OffsetsGrow(fold: Folding, s: string, i: nat, j: nat)
    requires i <= j <= |s|
    ensures Offset(fold, s, i) <= Offset(fold, s, j)
    decreases j
  {
    if i < j {
      OffsetsGrow(fold, s, i, j - 1);
      OffsetStep(fold, s, j - 1);
    }
  }

  lemma {:induction false} FoldedInParts(fold: Folding, a: string, b: string)
    ensures Folded(fold, a + b) == Folded(fold, a) + Folded(fold, b)
    decreases |b|
  {
    if b == "" {
      assert a + b == a;
    } else {
      var init, c := b[..|b| - 1], b[|b| - 1];
      FoldedInParts(fold, a, init);
      assert (a + b)[..|a + b| - 1] == a + init;
      assert Folded(fold, a) + (Folded(fold, init) + fold(c)) == Folded(fold, a) + Folded(fold, init) + fold(c);
    }
  }

  lemma FoldedChar(fold: Folding, c: char)
    ensures Folded(fold, [c]) == fold(c)
  {
    assert [c][..0] == "";
    assert Folded(fold, "") + fold(c) == fold(c);
  }

  lemma MiddlePart(head: string, middle: string, tail: string)
    ensures (head + middle + tail)[|head|..|head| + |middle|] == middle
  {
  }

  lemma FoldedInThree(fold: Folding, a: string, b: string, c: string)
    ensures Folded(fold, a + b + c) == Folded(fold, a) + Folded(fold, b) + Folded(fold, c)
  {
    FoldedInParts(fold, a + b, c);
    FoldedInParts(fold, a, b);
  }

  lemma MiddleOfThree(fold: Folding, a: string, b: string, c: string)
    ensures |Folded(fold, a)| <= |Folded(fold, a + b)| <= |Folded(fold, a + b + c)|
    ensures Folded(fold, b) == Folded(fold, a + b + c)[|Folded(fold, a)|..|Folded(fold, a + b)|]
  {
    var head, middle, tail := Folded(fold, a), Folded(fold, b), Folded(fold, c);
    FoldedInThree(fold, a, b, c);
    FoldedInParts(fold, a, b);
    MiddlePart(head, middle, tail);
  }

  /** The folded window is the stretch of the folded text between the two offsets. */
  lemma FoldedWindow(fold: Folding, s: string, i: nat, j: nat)
    requires i <= j <= |s|
    ensures Offset(fold, s, i) <= Offset(fold, s, j) <= |Folded(fold, s)|
    ensures Folded(fold, s[i..j]) == Folded(fold, s)[Offset(fold, s, i)..Offset(fold, s, j)]
  {
    var a, b, c := s[..i], s[i..j], s[j..];
    assert a + b == s[..j];
    assert a + b + c == s;
    MiddleOfThree(fold, a, b, c);
  }

  // ---------- the search ----------

  const CONTEXT: nat := 80
  const MOST_MATCHES: nat := 999

  datatype Found = Found(start: nat, end: nat, originalStart: nat, originalEnd: nat, matches: nat)

  /** Characters `a..b` cover the folded stretch `first..last`. */
  predicate Covers(fold: Folding, s: string, first: nat, last: nat, a: nat, b: nat) {
    a <= b <= |s| && Offset(fold, s, a) <= first && last <= Offset(fold, s, b)
  }

  /** The window starts with the character whose image holds `first` and ends with the one that completes `last`. */
  ghost predicate Window(fold: Folding, s: string, first: nat, last: nat, a: nat, b: nat) {
    && a < b <= |s|
    && Offset(fold, s, a) <= first < Offset(fold, s, a + 1)
    && Offset(fold, s, b - 1) < last <= Offset(fold, s, b)
  }

  method SearchText(fold: Folding, haystack: string, needle: string) returns (r: Option<Found>)
    requires Folded(fold, needle) != ""
    ensures r.None? <==> forall i: nat :: !MatchAt(Folded(fold, haystack), Folded(fold, needle), i)
    ensures r.Some? ==> exists first: nat ::
                          && FirstMatch(Folded(fold, haystack), Folded(fold, needle), first)
                          && Window(fold, haystack, first, first + |Folded(fold, needle)|, r.value.originalStart, r.value.originalEnd)
    ensures r.Some? ==> r.value.matches == Min(CountFrom(Folded(fold, haystack), Folded(fold, needle), 0), MOST_MATCHES)
    ensures r.Some? ==> r.value.start == Max(0, r.value.originalStart - CONTEXT)
    ensures r.Some? ==> r.value.end == Min(|haystack|, r.value.originalEnd + CONTEXT)
  {
    var text, sought := Folded(fold, haystack), Folded(fold, needle);
    var found := FindFrom(text, sought, 0);
    if found.None? {
      return None;
    }
    var first := found.value;
    var matches := Min(CountFrom(text, sought, 0), MOST_MATCHES);
    var from, upto := LocateWindow(fold, haystack, first, first + |sought|);
    r := Some(Found(Max(0, from - CONTEXT), Min(|haystack|, upto + CONTEXT), from, upto, matches));
    assert FirstMatch(text, sought, first);
  }

  /** One pass over the original text with a running folded offset. */
  method LocateWindow(fold: Folding, haystack: string, first: nat, last: nat) returns (from: nat, upto: nat)
    requires first < last <= |Folded(fold, haystack)|
    ensures Window(fold, haystack, first, last, from, upto)
  {
    assert haystack[..|haystack|] == haystack;
    var offset := 0;
    from, upto := 0, |haystack|;
    var index := 0;
    while index < |haystack|
      invariant index <= |haystack|
      invariant offset == Offset(fold, haystack, index) < last
      invariant first < offset ==> from < index && Offset(fold, haystack, from) <= first < Offset(fold, haystack, from + 1)
    {
      OffsetStep(fold, haystack, index);
      var next := offset + |fold(haystack[index])|;
      if offset <= first < next {
        from := index;
      }
      if next >= last {
        upto := index + 1;
        return;
      }
      offset := next;
      index := index + 1;
    }
  }

  /** The snippet, before redaction. */
  function Snippet(haystack: string, found: Found): string
    requires found.start <= found.end <= |haystack|
  {
    (if found.start > 0 then "…" else "") + haystack[found.start..found.end] + (if found.end < |haystack| then "…" else "")
  }

  /**
   * The window is the smallest stretch of original characters that covers the
   * match: every covering stretch contains it, and without its first or last
   * character it no longer covers.
   */
  lemma WindowIsTheSmallest(fold: Folding, haystack: string, first: nat, last: nat, a: nat, b: nat)
    requires first < last && Window(fold, haystack, first, last, a, b)
    ensures Covers(fold, haystack, first, last, a, b)
    ensures forall x: nat, y: nat {:trigger Covers(fold, haystack, first, last, x, y)} ::
              Covers(fold, haystack, first, last, x, y) ==> x <= a && b <= y
    ensures !Covers(fold, haystack, first, last, a + 1, b) && !Covers(fold, haystack, first, last, a, b - 1)
  {
    forall x: nat, y: nat | Covers(fold, haystack, first, last, x, y) ensures x <= a && b <= y {
      if x > a {
        OffsetsGrow(fold, haystack, a + 1, x);
      }
      if y < b {
        OffsetsGrow(fold, haystack, y, b - 1);
      }
    }
  }

  /** What is shown really folds to text that holds the match. */
  lemma WindowHoldsTheMatch(fold: Folding, haystack: string, sought: string, first: nat, a: nat, b: nat)
    requires sought != "" && MatchAt(Folded(fold, haystack), sought, first)
    requires Window(fold, haystack, first, first + |sought|, a, b)
    ensures MatchAt(Folded(fold, haystack[a..b]), sought, first - Offset(fold, haystack, a))
  {
    FoldedWindow(fold, haystack, a, b);
    SliceOfSlice(Folded(fold, haystack), Offset(fold, haystack, a), Offset(fold, haystack, b), first, first + |sought|);
  }

  lemma SliceOfSlice(text: string, a: nat, b: nat, i: nat, j: nat)
    requires a <= i <= j <= b <= |text|
    ensures text[a..b][i - a..j - a] == text[i..j]
  {
    var inner := text[a..b][i - a..j - a];
    assert |inner| == j - i;
    forall k | 0 <= k < j - i ensures inner[k] == text[i..j][k] {
      assert inner[k] == text[a..b][i - a + k] == text[i + k];
    }
  }

  /** The window lies inside the snippet, with at most the fixed context around it. */
  lemma WindowLiesInTheSnippet(fold: Folding, haystack: string, first: nat, last: nat, found: Found)
    requires Window(fold, haystack, first, last, found.originalStart, found.originalEnd)
    requires found.start == Max(0, found.originalStart - CONTEXT)
    requires found.end == Min(|haystack|, found.originalEnd + CONTEXT)
    ensures found.start <= found.originalStart < found.originalEnd <= found.end <= |haystack|
    ensures exists k: nat ::
              MatchAt(Snippet(haystack, found), haystack[found.originalStart..found.originalEnd], k) && k <= CONTEXT + 1
    ensures |Snippet(haystack, found)| <= (found.originalEnd - found.originalStart) + 2 * (CONTEXT + 1)
  {
    var body := haystack[found.start..found.end];
    var before := if found.start > 0 then "…" else "";
    var after := if found.end < |haystack| then "…" else "";
    var window := haystack[found.originalStart..found.originalEnd];
    SliceOfSlice(haystack, found.start, found.end, found.originalStart, found.originalEnd);
    MiddlePart(before, body, after);
    var k := |before| + (found.originalStart - found.start);
    SliceOfSlice(before + body + after, |before|, |before| + |body|, k, k + |window|);
    assert MatchAt(Snippet(haystack, found), window, k);
  }
}
