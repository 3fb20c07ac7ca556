/** Where did one inserted text land?  `locate_single_insertion_offset` and the
    classification `boundary_edit_check` builds on it. */
module Insertion {
  import opened Wrappers

  function InsertAt(text: string, insertion: string, at: nat): string
    requires at <= |text|
  {
    text[..at] + insertion + text[at..]
  }

  predicate Explains(baseline: string, actual: string, insertion: string, at: nat) {
    at <= |baseline| && InsertAt(baseline, insertion, at) == actual
  }

  /** The explaining offsets from `from` on, in ascending order. */
  function Candidates(baseline: string, actual: string, insertion: string, from: nat): (c: seq<nat>)
    requires from <= |baseline| + 1
    ensures forall k: nat :: k in c <==> from <= k && Explains(baseline, actual, insertion, k)
    ensures forall i, j :: 0 <= i < j < |c| ==> c[i] < c[j]
    decreases |baseline| + 1 - from
  {
    if from > |baseline| then []
    else
      var rest := Candidates(baseline, actual, insertion, from + 1);
      assert forall i :: 0 <= i < |rest| ==> rest[i] in rest;
      if Explains(baseline, actual, insertion, from) then [from] + rest else rest
  }

  /** An offset is returned exactly when it is the only one explaining the edit. */
  function LocateSingleInsertionOffset(baseline: string, actual: string, insertion: string): (r: Option<nat>)
    ensures forall k: nat :: r == Some(k) <==>
      Explains(baseline, actual, insertion, k) && forall j: nat :: Explains(baseline, actual, insertion, j) ==> j == k
  {
    if |actual| != |baseline| + |insertion| then
      assert forall k: nat :: Explains(baseline, actual, insertion, k) ==> |actual| == |baseline| + |insertion|;
      None
    else
      var candidates := Candidates(baseline, actual, insertion, 0);
      assert |candidates| == 1 ==> candidates[0] in candidates;
      assert |candidates| > 1 ==>
             candidates[0] in candidates && candidates[1] in candidates && candidates[0] != candidates[1];
      if |candidates| == 1 then Some(candidates[0]) else None
  }

  // ---- When is the landing offset ambiguous?

  /** Two offsets explain the same edit exactly when the insertion commutes with the text between them. */
  lemma TwoExplanations(baseline: string, insertion: string, j: nat, k: nat)
    requires j <= k <= |baseline|
    ensures InsertAt(baseline, insertion, j) == InsertAt(baseline, insertion, k)
       <==> insertion + baseline[j..k] == baseline[j..k] + insertion
  {
    var (head, middle, tail) := (baseline[..j], baseline[j..k], baseline[k..]);
    assert baseline[j..] == middle + tail && baseline[..k] == head + middle;
    assert InsertAt(baseline, insertion, j) == head + (insertion + middle) + tail;
    assert InsertAt(baseline, insertion, k) == head + (middle + insertion) + tail;
    Cancel(head, insertion + middle, middle + insertion, tail);
  }

  lemma Cancel(head: string, x: string, y: string, tail: string)
    requires |x| == |y|
    ensures head + x + tail == head + y + tail <==> x == y
  {
    assert (head + x + tail)[|head|..|head| + |x|] == x;
    assert (head + y + tail)[|head|..|head| + |y|] == y;
  }

  predicate AllAre(text: string, c: char) {
    forall i :: 0 <= i < |text| ==> text[i] == c
  }

  lemma {:induction false} CommutesWithCharacter(w: string, c: char)
    ensures [c] + w == w + [c] <==> AllAre(w, c)
  {
    if w != [] {
      if [c] + w == w + [c] {
        assert ([c] + w)[0] == (w + [c])[0];
        assert w[0] == c;
        assert [c] + w[1..] == w[1..] + [c] by {
          assert w == [c] + w[1..];
          assert ([c] + w)[1..] == w && (w + [c])[1..] == w[1..] + [c];
        }
        CommutesWithCharacter(w[1..], c);
        assert forall i :: 1 <= i < |w| ==> w[i] == w[1..][i - 1];
      }
      if AllAre(w, c) {
        assert forall i :: 0 <= i < |w| + 1 ==> ([c] + w)[i] == c && (w + [c])[i] == c;
      }
    }
  }

  /** One inserted character is explained by exactly the offsets of the run of that character around it. */
  lemma SingleCharacterExplanations(baseline: string, c: char, k: nat, j: nat)
    requires k <= |baseline|
    ensures Explains(baseline, InsertAt(baseline, [c], k), [c], j)
       <==> j <= |baseline| && AllAre(if j <= k then baseline[j..k] else baseline[k..j], c)
  {
    if j <= |baseline| {
      if j <= k {
        TwoExplanations(baseline, [c], j, k);
        CommutesWithCharacter(baseline[j..k], c);
      } else {
        TwoExplanations(baseline, [c], k, j);
        CommutesWithCharacter(baseline[k..j], c);
      }
    }
  }

  /** So a one-character insertion is located exactly when no equal character touches it. */
  lemma {:induction false} SingleCharacterLocated(baseline: string, c: char, k: nat)
    requires k <= |baseline|
    ensures LocateSingleInsertionOffset(baseline, InsertAt(baseline, [c], k), [c]) == Some(k)
       <==> (k == 0 || baseline[k - 1] != c) && (k == |baseline| || baseline[k] != c)
  {
    var actual := InsertAt(baseline, [c], k);
    if k > 0 {
      SingleCharacterExplanations(baseline, c, k, k - 1);
    }
    if k < |baseline| {
      SingleCharacterExplanations(baseline, c, k, k + 1);
    }
    forall j: nat | Explains(baseline, actual, [c], j)
      ensures j < k ==> baseline[k - 1] == c
      ensures j > k ==> baseline[k] == c
    {
      SingleCharacterExplanations(baseline, c, k, j);
      assert j < k ==> baseline[j..k][k - 1 - j] == baseline[k - 1];
      assert j > k ==> baseline[k..j][0] == baseline[k];
    }
    assert Explains(baseline, actual, [c], k);
  }

  /** A mark holding a character the baseline lacks is located at every offset. */
  lemma {:induction false} FreshMarkLocated(baseline: string, insertion: string, k: nat)
    requires k <= |baseline|
    requires exists c :: c in insertion && c !in baseline
    ensures LocateSingleInsertionOffset(baseline, InsertAt(baseline, insertion, k), insertion) == Some(k)
  {
    var actual := InsertAt(baseline, insertion, k);
    var c :| c in insertion && c !in baseline;
    forall j: nat | Explains(baseline, actual, insertion, j) ensures j == k {
      FreshMarkPins(baseline, insertion, c, j, k);
    }
    assert Explains(baseline, actual, insertion, k);
  }

  lemma FreshMarkPins(baseline: string, insertion: string, c: char, j: nat, k: nat)
    requires j <= |baseline| && k <= |baseline|
    requires c in insertion && c !in baseline
    requires InsertAt(baseline, insertion, j) == InsertAt(baseline, insertion, k)
    ensures j == k
  {
    if j != k {
      var (lo, hi) := if j < k then (j, k) else (k, j);
      TwoExplanations(baseline, insertion, lo, hi);
      ForeignCharacterBlocksCommuting(insertion, baseline[lo..hi], c);
    }
  }

  lemma {:induction false} ForeignCharacterBlocksCommuting(u: string, w: string, c: char)
    requires c in u && c !in w && w != []
    ensures u + w != w + u
    decreases |u|
  {
    if u + w == w + u {
      // The foreign character sits past the whole of w, so w is a proper prefix of u.
      var i :| 0 <= i < |u| && u[i] == c;
      assert forall k :: 0 <= k < |w| ==> (w + u)[k] == w[k];
      assert (u + w)[i] == u[i];
      assert i >= |w|;
      assert (u + w)[..|w|] == u[..|w|] && (w + u)[..|w|] == w;
      var v := u[|w|..];
      assert u == w + v;
      assert (u + w)[|w|..] == v + w && (w + u)[|w|..] == u;
      assert v[i - |w|] == c;
      ForeignCharacterBlocksCommuting(v, w, c);
    }
  }

  // ---- Classifying a boundary edit

  const BOUNDARY_LANDING_FAR_MISS_CHARS := 4

  datatype Landing = NotInserted | Corrupted | FarMiss | AmbiguousNearCanonical | AtCanonical

  datatype Verdict = Continue | Fail | Blocked

  /** The decision taken on the fixture text read after the click and the typed mark. */
  function ClassifyLanding(baseline: string, insertion: string, canonical: nat, actual: string): (r: (Verdict, Landing))
    requires canonical <= |baseline|
  {
    var landing := LocateSingleInsertionOffset(baseline, actual, insertion);
    if actual != InsertAt(baseline, insertion, canonical) then
      if actual == baseline then (Blocked, NotInserted)
      else if landing.None? then (Fail, Corrupted)
      else
        var delta := if landing.value > canonical then landing.value - canonical else canonical - landing.value;
        if delta > BOUNDARY_LANDING_FAR_MISS_CHARS then (Blocked, FarMiss) else (Blocked, AmbiguousNearCanonical)
    else if landing != Some(canonical) then (Blocked, Corrupted)
    else (Continue, AtCanonical)
  }

  /** Matched bytes are refused as self-contradictory exactly when a second offset explains them too. */
  lemma MatchedButNotCanonicalIffAmbiguous(baseline: string, insertion: string, canonical: nat)
    requires canonical <= |baseline|
    ensures ClassifyLanding(baseline, insertion, canonical, InsertAt(baseline, insertion, canonical))
            == (Blocked, Corrupted)
       <==> exists j: nat ::
              j != canonical && Explains(baseline, InsertAt(baseline, insertion, canonical), insertion, j)
  {
    assert Explains(baseline, InsertAt(baseline, insertion, canonical), insertion, canonical);
  }

  /** With a fresh mark that branch is dead, the check goes on exactly at the
      canonical offset, and `fail` means the text is no insertion of the mark at all. */
  lemma {:induction false} FreshMarkClassification(baseline: string, insertion: string, canonical: nat, actual: string)
    requires canonical <= |baseline|
    requires exists c :: c in insertion && c !in baseline
    ensures var (verdict, landing) := ClassifyLanding(baseline, insertion, canonical, actual);
      && (verdict == Blocked ==> landing != Corrupted)
      && (verdict == Continue <==> Explains(baseline, actual, insertion, canonical))
      && (verdict == Fail <==> actual != baseline && forall j: nat :: !Explains(baseline, actual, insertion, j))
  {
    assert actual == InsertAt(baseline, insertion, canonical) <==> Explains(baseline, actual, insertion, canonical);
    if j: nat :| Explains(baseline, actual, insertion, j) {
      FreshMarkLocated(baseline, insertion, j);
      assert |actual| > |baseline|;
    }
  }

  /** A fresh mark that landed elsewhere is a far miss exactly more than four characters away, and always
      blocks; where nothing was inserted the check blocks too. */
  lemma {:induction false} FreshMarkMiss(baseline: string, insertion: string, canonical: nat, landed: nat)
    requires canonical <= |baseline| && landed <= |baseline| && landed != canonical
    requires exists c :: c in insertion && c !in baseline
    ensures ClassifyLanding(baseline, insertion, canonical, InsertAt(baseline, insertion, landed)) ==
            (Blocked, if landed > canonical + 4 || canonical > landed + 4 then FarMiss else AmbiguousNearCanonical)
    ensures ClassifyLanding(baseline, insertion, canonical, baseline) == (Blocked, NotInserted)
  {
    var c :| c in insertion && c !in baseline;
    FreshMarkLocated(baseline, insertion, landed);
    if InsertAt(baseline, insertion, landed) == InsertAt(baseline, insertion, canonical) {
      FreshMarkPins(baseline, insertion, c, landed, canonical);
    }
    assert |InsertAt(baseline, insertion, landed)| > |baseline|;
    assert |InsertAt(baseline, insertion, canonical)| > |baseline|;
  }
}
