/** Selecting the one trustworthy block of line numbers from an OCR reading.

    A run is a maximal chain of readings in which neighbours differ by at most
    two.  Runs are compared by how many readings they hold, then by their span.
    The specification speaks of the set of readings only, so input order and
    repeated readings cannot matter. */
module LineRun {
  import opened Wrappers

  datatype Run = Run(count: nat, first: int, last: int)

  ghost predicate FollowedWithinTwo(s: set<int>, v: int) {
    v + 1 in s || v + 2 in s
  }

  ghost predicate PrecededWithinTwo(s: set<int>, v: int) {
    v - 1 in s || v - 2 in s
  }

  ghost predicate Chain(s: set<int>, a: int, b: int) {
    && a in s && b in s && a <= b
    && (forall v {:trigger FollowedWithinTwo(s, v)} | v in s && a <= v < b :: FollowedWithinTwo(s, v))
    && (forall v {:trigger PrecededWithinTwo(s, v)} | v in s && a < v <= b :: PrecededWithinTwo(s, v))
  }

  ghost predicate MaximalRun(s: set<int>, a: int, b: int) {
    && Chain(s, a, b)
    && !PrecededWithinTwo(s, a)
    && !FollowedWithinTwo(s, b)
  }

  ghost function Members(s: set<int>, a: int, b: int): set<int> {
    set v | v in s && a <= v <= b
  }

  predicate ScoreLess(count: nat, span: int, count': nat, span': int) {
    count < count' || (count == count' && span < span')
  }

  ghost predicate Weaker(s: set<int>, c: int, d: int, a: int, b: int) {
    ScoreLess(|Members(s, c, d)|, d - c, |Members(s, a, b)|, b - a)
  }

  /** (a, b) is a maximal run and every other maximal run is strictly weaker. */
  ghost predicate Selected(s: set<int>, a: int, b: int) {
    && MaximalRun(s, a, b)
    && forall c, d {:trigger Weaker(s, c, d, a, b)} | MaximalRun(s, c, d) && (c, d) != (a, b) :: Weaker(s, c, d, a, b)
  }

  /** The selected run has more readings than any other, or as many over a longer span. */
  lemma SelectedExactly(s: set<int>, a: int, b: int)
    ensures Selected(s, a, b) <==>
            && MaximalRun(s, a, b)
            && forall c, d :: MaximalRun(s, c, d) && (c, d) != (a, b) ==>
                 || |Members(s, c, d)| < |Members(s, a, b)|
                 || (|Members(s, c, d)| == |Members(s, a, b)| && d - c < b - a)
  {
    assert forall c, d :: Weaker(s, c, d, a, b) <==>
             || |Members(s, c, d)| < |Members(s, a, b)|
             || (|Members(s, c, d)| == |Members(s, a, b)| && d - c < b - a);
  }

  lemma RunsSharingAReadingCoincide(s: set<int>, a: int, b: int, c: int, d: int)
    requires MaximalRun(s, a, b) && MaximalRun(s, c, d) && a <= c <= b
    ensures (a, b) == (c, d)
  {
    assert a < c ==> PrecededWithinTwo(s, c);
    assert b < d ==> FollowedWithinTwo(s, b);
    assert d < b ==> FollowedWithinTwo(s, d);
  }

  method SortedDistinct(lines: seq<int>) returns (xs: seq<int>)
    ensures forall i, j :: 0 <= i < j < |xs| ==> xs[i] < xs[j]
    ensures forall v :: v in xs <==> v in lines
  {
    xs := [];
    for k := 0 to |lines|
      invariant forall i, j :: 0 <= i < j < |xs| ==> xs[i] < xs[j]
      invariant forall v :: v in xs <==> v in lines[..k]
    {
      var v := lines[k];
      var at := 0;
      while at < |xs| && xs[at] < v
        invariant at <= |xs|
        invariant forall i :: 0 <= i < at ==> xs[i] < v
      {
        at := at + 1;
      }
      assert lines[..k + 1] == lines[..k] + [v];
      if at == |xs| || xs[at] != v {
        var grown := xs[..at] + [v] + xs[at..];
        assert forall w :: w in grown <==> w in xs || w == v by {
          assert xs == xs[..at] + xs[at..];
        }
        xs := grown;
      }
    }
    assert lines[..|lines|] == lines;
  }

  ghost predicate IsRun(s: set<int>, r: Run) {
    MaximalRun(s, r.first, r.last) && r.count == |Members(s, r.first, r.last)|
  }

  ghost predicate Covered(runs: seq<Run>, v: int) {
    exists i :: 0 <= i < |runs| && runs[i].first <= v <= runs[i].last
  }

  ghost predicate AllCovered(s: set<int>, runs: seq<Run>, limit: int) {
    forall v {:trigger Covered(runs, v)} | v in s && v < limit :: Covered(runs, v)
  }

  /** What the scan knows after the readings `s`: the closed runs in ascending
      order, and the open run that may still grow. */
  ghost predicate Scanned(s: set<int>, runs: seq<Run>, open: Run) {
    && IsRun(s, open)
    && (forall v | v in s :: v <= open.last)
    && (forall i | 0 <= i < |runs| :: IsRun(s, runs[i]) && runs[i].last + 2 < open.first)
    && (forall i, j | 0 <= i < j < |runs| :: runs[i].last < runs[j].first)
    && AllCovered(s, runs, open.first)
  }

  lemma RunKept(s: set<int>, v: int, r: Run)
    requires IsRun(s, r) && v > r.last + 2
    ensures IsRun(s + {v}, r)
  {
    var t := s + {v};
    forall w | w in t && r.first <= w < r.last ensures FollowedWithinTwo(t, w) {
      assert FollowedWithinTwo(s, w);
    }
    forall w | w in t && r.first < w <= r.last ensures PrecededWithinTwo(t, w) {
      assert PrecededWithinTwo(s, w);
    }
    SameMembers(s, v, r);
  }

  lemma SameMembers(s: set<int>, v: int, r: Run)
    requires v > r.last
    ensures Members(s + {v}, r.first, r.last) == Members(s, r.first, r.last)
  {
  }

  lemma RunGrows(s: set<int>, v: int, r: Run)
    requires IsRun(s, r) && r.last < v <= r.last + 2
    requires forall w | w in s :: w <= r.last
    ensures IsRun(s + {v}, Run(r.count + 1, r.first, v))
  {
    var t := s + {v};
    forall w | w in t && r.first <= w < v ensures FollowedWithinTwo(t, w) {
      GrownFollows(s, v, r, w);
    }
    forall w | w in t && r.first < w <= v ensures PrecededWithinTwo(t, w) {
      GrownPrecedes(s, v, r, w);
    }
    assert MaximalRun(t, r.first, v);
    GrownMembers(s, v, r);
  }

  lemma GrownFollows(s: set<int>, v: int, r: Run, w: int)
    requires IsRun(s, r) && r.last < v <= r.last + 2 && (forall w' | w' in s :: w' <= r.last)
    requires w in s && r.first <= w < v
    ensures FollowedWithinTwo(s + {v}, w)
  {
    if w < r.last {
      assert FollowedWithinTwo(s, w);
    }
  }

  lemma GrownPrecedes(s: set<int>, v: int, r: Run, w: int)
    requires IsRun(s, r) && r.last < v <= r.last + 2 && (forall w' | w' in s :: w' <= r.last)
    requires w in s + {v} && r.first < w <= v
    ensures PrecededWithinTwo(s + {v}, w)
  {
    if w < v {
      assert PrecededWithinTwo(s, w);
    } else {
      assert r.last == v - 1 || r.last == v - 2;
    }
  }

  lemma GrownMembers(s: set<int>, v: int, r: Run)
    requires r.first <= r.last < v && forall w | w in s :: w <= r.last
    ensures |Members(s + {v}, r.first, v)| == |Members(s, r.first, r.last)| + 1
  {
    assert Members(s + {v}, r.first, v) == Members(s, r.first, r.last) + {v};
  }

  lemma FreshRun(s: set<int>, v: int)
    requires forall w | w in s :: w < v - 2
    ensures IsRun(s + {v}, Run(1, v, v))
  {
    assert Members(s + {v}, v, v) == {v};
  }

  lemma ScanExtends(s: set<int>, runs: seq<Run>, open: Run, v: int)
    requires Scanned(s, runs, open) && open.last < v <= open.last + 2
    ensures Scanned(s + {v}, runs, Run(open.count + 1, open.first, v))
  {
    RunGrows(s, v, open);
    forall i | 0 <= i < |runs| ensures IsRun(s + {v}, runs[i]) {
      RunKept(s, v, runs[i]);
    }
  }

  lemma ScanCloses(s: set<int>, runs: seq<Run>, open: Run, v: int)
    requires Scanned(s, runs, open) && v > open.last + 2
    ensures Scanned(s + {v}, runs + [open], Run(1, v, v))
  {
    var all := runs + [open];
    FreshRun(s, v);
    forall i | 0 <= i < |all| ensures IsRun(s + {v}, all[i]) {
      RunKept(s, v, all[i]);
    }
    ScanCoversAll(s, runs, open, v);
  }

  lemma ScanCoversAll(s: set<int>, runs: seq<Run>, open: Run, v: int)
    requires Scanned(s, runs, open) && v > open.last
    ensures AllCovered(s + {v}, runs + [open], v)
  {
    forall w | w in s + {v} && w < v ensures Covered(runs + [open], w) {
      ScanCovers(s, runs, open, w);
    }
  }

  lemma ScanCovers(s: set<int>, runs: seq<Run>, open: Run, w: int)
    requires Scanned(s, runs, open) && w in s
    ensures Covered(runs + [open], w)
  {
    var all := runs + [open];
    if w < open.first {
      assert Covered(runs, w);
      var i :| 0 <= i < |runs| && runs[i].first <= w <= runs[i].last;
      assert all[i] == runs[i];
    } else {
      assert all[|runs|] == open;
    }
  }

  ghost predicate Listed(runs: seq<Run>, a: int, b: int) {
    exists i :: 0 <= i < |runs| && (runs[i].first, runs[i].last) == (a, b)
  }

  /** The list holds exactly the maximal runs of `s`, each once, with its count. */
  ghost predicate AllRuns(s: set<int>, runs: seq<Run>) {
    && (forall i | 0 <= i < |runs| :: IsRun(s, runs[i]))
    && (forall i, j | 0 <= i < j < |runs| :: runs[i].last < runs[j].first)
    && (forall a, b {:trigger Listed(runs, a, b)} | MaximalRun(s, a, b) :: Listed(runs, a, b))
  }

  lemma ScanFinds(s: set<int>, runs: seq<Run>, open: Run)
    requires Scanned(s, runs, open)
    ensures AllRuns(s, runs + [open])
  {
    var all := runs + [open];
    forall a, b | MaximalRun(s, a, b) ensures Listed(all, a, b) {
      ScanCovers(s, runs, open, a);
      var i :| 0 <= i < |all| && all[i].first <= a <= all[i].last;
      RunsSharingAReadingCoincide(s, all[i].first, all[i].last, a, b);
    }
  }

  method MaximalRuns(xs: seq<int>, ghost s: set<int>) returns (runs: seq<Run>)
    requires xs != [] && s == (set v | v in xs)
    requires forall i, j :: 0 <= i < j < |xs| ==> xs[i] < xs[j]
    ensures runs != [] && AllRuns(s, runs)
  {
    runs := [];
    var start, previous, count := xs[0], xs[0], 1;
    ghost var seen := {xs[0]};
    FreshRun({}, start);
    assert {} + {start} == seen;
    for k := 1 to |xs|
      invariant seen == set v | v in xs[..k]
      invariant previous == xs[k - 1]
      invariant Scanned(seen, runs, Run(count, start, previous))
    {
      var value := xs[k];
      assert xs[..k + 1] == xs[..k] + [value];
      if value <= previous + 2 {
        ScanExtends(seen, runs, Run(count, start, previous), value);
        previous := value;
        count := count + 1;
      } else {
        ScanCloses(seen, runs, Run(count, start, previous), value);
        runs := runs + [Run(count, start, previous)];
        start, previous, count := value, value, 1;
      }
      seen := seen + {value};
    }
    assert xs[..|xs|] == xs;
    ScanFinds(s, runs, Run(count, start, previous));
    runs := runs + [Run(count, start, previous)];
  }

  predicate Below(r: Run, r': Run) {
    ScoreLess(r.count, r.last - r.first, r'.count, r'.last - r'.first)
  }

  predicate SameScore(r: Run, r': Run) {
    r.count == r'.count && r.last - r.first == r'.last - r'.first
  }

  ghost predicate BeatsAllOthers(runs: seq<Run>, i: nat)
    requires i < |runs|
  {
    forall j :: 0 <= j < |runs| && j != i ==> Below(runs[j], runs[i])
  }

  /** A run no other beats, the first of them. */
  method Best(runs: seq<Run>) returns (best: Run, ghost bestAt: nat)
    requires runs != []
    ensures bestAt < |runs| && best == runs[bestAt]
    ensures forall j :: 0 <= j < |runs| ==> !Below(best, runs[j])
  {
    best, bestAt := runs[0], 0;
    for k := 1 to |runs|
      invariant bestAt < k && best == runs[bestAt]
      invariant forall j :: 0 <= j < k ==> !Below(best, runs[j])
    {
      if Below(best, runs[k]) {
        best, bestAt := runs[k], k;
      }
    }
  }

  /** The strongest run when exactly one attains the best score, else nothing. */
  method UniqueStrongest(runs: seq<Run>) returns (r: Option<Run>)
    requires runs != []
    ensures r.Some? ==> exists i :: 0 <= i < |runs| && runs[i] == r.value && BeatsAllOthers(runs, i)
    ensures r.None? ==> forall i :: 0 <= i < |runs| ==> !BeatsAllOthers(runs, i)
  {
    var best;
    ghost var bestAt;
    best, bestAt := Best(runs);
    var strongest;
    ghost var at;
    strongest, at := Ties(runs, best);
    assert bestAt in at;
    if |strongest| == 1 {
      assert at == [bestAt];
      r := Some(strongest[0]);
    } else {
      r := None;
      forall i | 0 <= i < |runs|
        ensures !BeatsAllOthers(runs, i)
      {
        var j := if at[0] != i then at[0] else at[1];
        assert j != i && !Below(runs[j], runs[i]);
      }
    }
  }

  /** The runs that score like this one, in order. */
  method Ties(runs: seq<Run>, best: Run) returns (strongest: seq<Run>, ghost at: seq<nat>)
    ensures |at| == |strongest|
    ensures forall i :: 0 <= i < |at| ==> at[i] < |runs| && runs[at[i]] == strongest[i] && SameScore(strongest[i], best)
    ensures forall i, j :: 0 <= i < j < |at| ==> at[i] < at[j]
    ensures forall j :: 0 <= j < |runs| && SameScore(runs[j], best) ==> j in at
    ensures forall r :: r in strongest <==> r in runs && SameScore(r, best)
  {
    strongest, at := [], [];
    for k := 0 to |runs|
      invariant |at| == |strongest|
      invariant forall i :: 0 <= i < |at| ==> at[i] < k && runs[at[i]] == strongest[i]
      invariant forall i :: 0 <= i < |at| ==> SameScore(runs[at[i]], best)
      invariant forall i, j :: 0 <= i < j < |at| ==> at[i] < at[j]
      invariant forall j :: 0 <= j < k && SameScore(runs[j], best) ==> j in at
    {
      if SameScore(runs[k], best) {
        strongest := strongest + [runs[k]];
        at := at + [k];
      }
    }
  }

  function Readings(lines: Option<seq<int>>): set<int> {
    if lines.None? then {} else set v | v in lines.value
  }

  lemma WinnerIsSelected(s: set<int>, runs: seq<Run>, i: nat)
    requires AllRuns(s, runs) && i < |runs| && BeatsAllOthers(runs, i)
    ensures Selected(s, runs[i].first, runs[i].last)
  {
    forall c, d | MaximalRun(s, c, d) && (c, d) != (runs[i].first, runs[i].last)
      ensures Weaker(s, c, d, runs[i].first, runs[i].last)
    {
      assert Listed(runs, c, d);
      var j :| 0 <= j < |runs| && (runs[j].first, runs[j].last) == (c, d);
      assert IsRun(s, runs[i]) && IsRun(s, runs[j]) && Below(runs[j], runs[i]);
    }
  }

  lemma NoWinnerNoSelection(s: set<int>, runs: seq<Run>, a: int, b: int)
    requires AllRuns(s, runs) && forall i :: 0 <= i < |runs| ==> !BeatsAllOthers(runs, i)
    ensures !Selected(s, a, b)
  {
    if MaximalRun(s, a, b) {
      assert Listed(runs, a, b);
      var i :| 0 <= i < |runs| && (runs[i].first, runs[i].last) == (a, b);
      assert !BeatsAllOthers(runs, i);
      var j :| 0 <= j < |runs| && j != i && !Below(runs[j], runs[i]);
      assert IsRun(s, runs[i]) && IsRun(s, runs[j]);
      assert !Weaker(s, runs[j].first, runs[j].last, a, b);
    }
  }

  /** Returns the selected run of the readings, or nothing when none is selected. */
  method CoherentVisibleLineRun(lines: Option<seq<int>>) returns (r: Option<(int, int)>)
    ensures r.Some? ==> Selected(Readings(lines), r.value.0, r.value.1)
    ensures r.None? ==> forall a, b :: !Selected(Readings(lines), a, b)
  {
    if lines.None? {
      return None;
    }
    ghost var s := Readings(lines);
    var normalized := SortedDistinct(lines.value);
    assert forall v :: v in s <==> v in normalized;
    if normalized == [] {
      return None;
    }
    var runs := MaximalRuns(normalized, s);
    var strongest := UniqueStrongest(runs);
    match strongest {
      case Some(run) =>
        r := Some((run.first, run.last));
        ghost var i :| 0 <= i < |runs| && runs[i] == run && BeatsAllOthers(runs, i);
        WinnerIsSelected(s, runs, i);
      case None =>
        r := None;
        forall a, b ensures !Selected(s, a, b) {
          NoWinnerNoSelection(s, runs, a, b);
        }
    }
  }

  predicate FarFromAll(s: set<int>, x: int) {
    forall v | v in s :: v < x - 2 || v > x + 2
  }

  /** A reading far from all others adds itself as a one-row run and changes no other run. */
  lemma IsolatedReadingAddsOneRun(s: set<int>, x: int, a: int, b: int)
    requires FarFromAll(s, x)
    ensures MaximalRun(s + {x}, a, b) <==> MaximalRun(s, a, b) || (a == x && b == x)
    ensures MaximalRun(s, a, b) ==> Members(s + {x}, a, b) == Members(s, a, b)
  {
    var t := s + {x};
    if MaximalRun(t, a, b) && (a, b) != (x, x) {
      assert a <= x < b ==> FollowedWithinTwo(t, x);
      assert a < x <= b ==> PrecededWithinTwo(t, x);
      forall w | w in s && a <= w < b ensures FollowedWithinTwo(s, w) {
        assert FollowedWithinTwo(t, w);
      }
      forall w | w in s && a < w <= b ensures PrecededWithinTwo(s, w) {
        assert PrecededWithinTwo(t, w);
      }
      assert !PrecededWithinTwo(t, a) && !FollowedWithinTwo(t, b);
      assert MaximalRun(s, a, b);
    }
    if MaximalRun(s, a, b) {
      if a < x < b {
        BridgedGap(s, a, b, x);
      }
      forall w | w in t && a <= w < b ensures FollowedWithinTwo(t, w) {
        assert FollowedWithinTwo(s, w);
      }
      forall w | w in t && a < w <= b ensures PrecededWithinTwo(t, w) {
        assert PrecededWithinTwo(s, w);
      }
      assert !PrecededWithinTwo(s, a) && !FollowedWithinTwo(s, b);
    }
  }

  /** No reading of a chain's interior can be far from the whole chain. */
  lemma {:induction false} BridgedGap(s: set<int>, v: int, b: int, x: int)
    requires Chain(s, v, b) && v < x < b
    ensures !FarFromAll(s, x)
    decreases x - v
  {
    assert FollowedWithinTwo(s, v);
    var next := if v + 1 in s then v + 1 else v + 2;
    if next < x {
      BridgedGap(s, next, b, x);
    }
  }

  /** One stray reading never changes a result whose run has at least two rows ... */
  lemma IsolatedReadingIgnored(s: set<int>, x: int, a: int, b: int)
    requires FarFromAll(s, x) && Selected(s, a, b) && |Members(s, a, b)| >= 2
    ensures Selected(s + {x}, a, b)
  {
    var t := s + {x};
    IsolatedReadingAddsOneRun(s, x, a, b);
    assert Members(t, x, x) == {x};
    forall c, d | MaximalRun(t, c, d) && (c, d) != (a, b)
      ensures Weaker(t, c, d, a, b)
    {
      IsolatedReadingAddsOneRun(s, x, c, d);
      assert (c, d) != (x, x) ==> Weaker(s, c, d, a, b);
    }
  }

  /** ... and always makes a one-row result ambiguous. */
  lemma IsolatedReadingSpoilsSingleRow(s: set<int>, x: int, a: int, b: int)
    requires FarFromAll(s, x) && Selected(s, a, b) && |Members(s, a, b)| < 2
    ensures forall c, d :: !Selected(s + {x}, c, d)
  {
    var t := s + {x};
    assert a == b by {
      if a < b {
        assert {a, b} <= Members(s, a, b);
        assert |{a, b}| == 2;
        SubsetCardinality({a, b}, Members(s, a, b));
      }
    }
    assert a != x;
    assert Members(t, x, x) == {x} && Members(s, a, a) == {a};
    forall c, d | MaximalRun(t, c, d)
      ensures !Selected(t, c, d)
    {
      IsolatedReadingAddsOneRun(s, x, c, d);
      IsolatedReadingAddsOneRun(s, x, a, b);
      IsolatedReadingAddsOneRun(s, x, x, x);
      if (c, d) == (x, x) {
        assert !Weaker(t, a, b, x, x);
      } else {
        assert !Weaker(t, x, x, c, d) by {
          assert (c, d) != (a, b) ==> Weaker(s, c, d, a, b);
          assert c in Members(s, c, d);
        }
      }
    }
  }

  lemma SubsetCardinality(s: set<int>, t: set<int>)
    requires s <= t
    ensures |s| <= |t|
  {
    assert t == s + (t - s);
  }

  lemma SelectionIsUnique(s: set<int>, a: int, b: int, c: int, d: int)
    requires Selected(s, a, b) && Selected(s, c, d)
    ensures (a, b) == (c, d)
  {
    assert (a, b) != (c, d) ==> Weaker(s, a, b, c, d) && Weaker(s, c, d, a, b);
  }
}
