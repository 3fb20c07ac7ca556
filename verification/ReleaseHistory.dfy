/** Planning and publishing releases over time: the catalog sequence each release gets, and what
    leftover drafts, foreign tags and foreign releases can and cannot do to it. */
module ReleaseHistory {
  import opened Wrappers

  datatype Version = Version(major: nat, minor: nat, patch: nat)

  predicate Newer(a: Version, b: Version) {
    a.major > b.major || (a.major == b.major && (a.minor > b.minor || (a.minor == b.minor && a.patch > b.patch)))
  }

  datatype Tag = Stable(version: Version) | Other(text: string)

  /** The catalog assets of a release: verification needs the signing key, so only this pipeline makes the last kind. */
  datatype Catalog = NoCatalog | Half | Unverifiable | Verified(sequence: int, names: Tag)

  datatype Release = Release(tag: Tag, draft: bool, catalog: Catalog)

  datatype PlanError = PlanError

  // ---- What is published

  /** Whether a public release is an error for the scan. */
  predicate Broken(r: Release) {
    !r.draft && (r.catalog.Half? || r.catalog.Unverifiable? || (r.catalog.Verified? && r.catalog.names != r.tag))
  }

  predicate Counts(r: Release) {
    !r.draft && r.catalog.Verified? && r.catalog.names == r.tag
  }

  predicate AnyBroken(releases: seq<Release>) {
    exists i :: 0 <= i < |releases| && Broken(releases[i])
  }

  /** The catalogs of the public releases, in order. */
  function Published(releases: seq<Release>): seq<(int, Tag)> {
    if releases == [] then []
    else
      var last := releases[|releases| - 1];
      Published(releases[..|releases| - 1]) + if Counts(last) then [(last.catalog.sequence, last.tag)] else []
  }

  method PublishedCatalogs(releases: seq<Release>) returns (r: Result<seq<(int, Tag)>, PlanError>)
    ensures r.Ok? <==> !AnyBroken(releases)
    ensures r.Ok? ==> r.value == Published(releases)
  {
    var found: seq<(int, Tag)> := [];
    for i := 0 to |releases|
      invariant forall j :: 0 <= j < i ==> !Broken(releases[j])
      invariant found == Published(releases[..i])
    {
      var release := releases[i];
      assert releases[..i + 1][..i] == releases[..i];
      if release.draft || release.catalog.NoCatalog? {
        continue;
      }
      if release.catalog.Half? || release.catalog.Unverifiable? {
        return Err(PlanError);
      }
      if release.catalog.names != release.tag {
        return Err(PlanError);
      }
      found := found + [(release.catalog.sequence, release.tag)];
    }
    assert releases[..|releases|] == releases;
    return Ok(found);
  }

  predicate Reused(published: seq<(int, Tag)>) {
    exists i, j :: 0 <= i < j < |published| && published[i].0 == published[j].0
  }

  function Highest(published: seq<(int, Tag)>): int
    requires published != []
  {
    var last := published[|published| - 1].0;
    if |published| == 1 then last
    else
      var rest := Highest(published[..|published| - 1]);
      if last > rest then last else rest
  }

  lemma {:induction false} HighestIs(published: seq<(int, Tag)>)
    requires published != []
    ensures forall i :: 0 <= i < |published| ==> published[i].0 <= Highest(published)
    ensures exists i :: 0 <= i < |published| && published[i].0 == Highest(published)
    decreases |published|
  {
    var n := |published| - 1;
    assert published[n].0 == published[|published| - 1].0;
    if n > 0 {
      HighestIs(published[..n]);
      var i :| 0 <= i < n && published[..n][i].0 == Highest(published[..n]);
      assert published[i].0 == Highest(published[..n]);
      forall j | 0 <= j < n ensures published[j].0 <= Highest(published) {
        assert published[..n][j] == published[j];
      }
    }
  }

  /** When a next sequence exists, and what it is. */
  predicate Sequenced(published: seq<(int, Tag)>, initial: bool) {
    && !Reused(published)
    && (initial <==> published == [])
    && (published != [] ==> Highest(published) < U64_MAX)
  }

  function NextSequence(published: seq<(int, Tag)>, initial: bool): Result<int, PlanError> {
    if Reused(published) then Err(PlanError)
    else if published == [] then (if initial then Ok(1) else Err(PlanError))
    else if initial then Err(PlanError)
    else if Highest(published) >= U64_MAX then Err(PlanError)
    else Ok(Highest(published) + 1)
  }

  // ---- Planning

  /** What exists, what is planned, and every catalog ever signed, for what tag and with what sequence. */
  datatype State = State(releases: seq<Release>, tags: set<Tag>, planned: Option<(Tag, int)>, signed: set<(int, Tag)>)

  predicate Taken(s: State, tag: Tag) {
    exists i :: 0 <= i < |s.releases| && s.releases[i].tag == tag
  }

  /** The other stable versions already tagged or released. */
  function Known(s: State, tag: Tag): set<Tag> {
    set t | t in s.tags + PublicTags(s.releases) && t != tag && t.Stable?
  }

  function PublicTags(releases: seq<Release>): set<Tag> {
    set i | 0 <= i < |releases| && !releases[i].draft :: releases[i].tag
  }

  /** Everything planning checks. */
  predicate Plannable(s: State, tag: Tag, tagPush: bool, initial: bool) {
    && tag.Stable? && !Taken(s, tag) && (tagPush <==> tag in s.tags)
    && (forall t | t in Known(s, tag) :: Newer(tag.version, t.version))
    && !AnyBroken(s.releases) && Sequenced(Published(s.releases), initial)
  }

  method PlanRelease(s: State, tag: Tag, tagPush: bool, initial: bool) returns (r: Result<int, PlanError>)
    ensures r.Ok? <==> Plannable(s, tag, tagPush, initial)
    ensures r.Ok? ==> r.value == if initial then 1 else Highest(Published(s.releases)) + 1
    // The sequence is the successor of a public one and above all of them.
    ensures r.Ok? && !initial ==>
              && (exists i :: 0 <= i < |Published(s.releases)| && Published(s.releases)[i].0 + 1 == r.value)
              && (forall i :: 0 <= i < |Published(s.releases)| ==> Published(s.releases)[i].0 < r.value)
  {
    if !tag.Stable? {
      return Err(PlanError);
    }
    if Taken(s, tag) {
      return Err(PlanError);
    }
    if tagPush && tag !in s.tags {
      return Err(PlanError);
    }
    if !tagPush && tag in s.tags {
      return Err(PlanError);
    }
    if exists t :: t in Known(s, tag) && !Newer(tag.version, t.version) {
      return Err(PlanError);
    }
    var catalogs := PublishedCatalogs(s.releases);
    if catalogs.Err? {
      return Err(PlanError);
    }
    r := NextSequence(catalogs.value, initial);
    if r.Ok? && !initial {
      HighestIs(catalogs.value);
    }
  }

  /** A version as one number, its parts being the digits in a base above all of them. */
  function Value(v: Version, base: nat): nat {
    v.major * base * base + v.minor * base + v.patch
  }

  ghost predicate Digits(v: Version, base: nat) {
    v.minor < base && v.patch < base
  }

  lemma CompareDigits(a: int, b: int, x: nat, y: nat, base: nat)
    requires x < base && y < base
    ensures a * base + x > b * base + y <==> a > b || (a == b && x > y)
  {
    if a > b {
      assert a * base >= (b + 1) * base;
    } else if a < b {
      assert b * base >= (a + 1) * base;
    }
  }

  lemma NewerByValue(a: Version, b: Version, base: nat)
    requires Digits(a, base) && Digits(b, base)
    ensures Newer(a, b) <==> Value(a, base) > Value(b, base)
  {
    var high, high' := a.major * base + a.minor, b.major * base + b.minor;
    CompareDigits(a.major, b.major, a.minor, b.minor, base);
    CompareDigits(high, high', a.patch, b.patch, base);
    CompareDigits(b.major, a.major, b.minor, a.minor, base);
    assert high * base == a.major * base * base + a.minor * base;
    assert high' * base == b.major * base * base + b.minor * base;
  }

  /** The version's number exceeds that of every other version tagged or public. */
  ghost predicate Above(s: State, tag: Tag, base: nat)
    requires tag.Stable?
  {
    && (forall t :: t in s.tags && t.Stable? && t != tag ==> Value(t.version, base) < Value(tag.version, base))
    && (forall i :: 0 <= i < |s.releases| && !s.releases[i].draft && s.releases[i].tag.Stable? ==>
          s.releases[i].tag == tag || Value(s.releases[i].tag.version, base) < Value(tag.version, base))
  }

  /** A public release has no catalog, or a verified one that names its tag. */
  ghost predicate Whole(releases: seq<Release>) {
    forall i :: 0 <= i < |releases| && !releases[i].draft && releases[i].catalog != NoCatalog ==>
      releases[i].catalog.Verified? && releases[i].catalog.names == releases[i].tag
  }

  ghost predicate Distinct(published: seq<(int, Tag)>) {
    forall i, k :: 0 <= i < k < |published| ==> published[i].0 != published[k].0
  }

  ghost predicate AllDigits(s: State, base: nat) {
    && (forall t :: t in s.tags && t.Stable? ==> Digits(t.version, base))
    && forall i :: 0 <= i < |s.releases| && s.releases[i].tag.Stable? ==> Digits(s.releases[i].tag.version, base)
  }

  /** The public catalogs are whole, distinct, not at the limit of 64 bits, and none only for the first. */
  ghost predicate CatalogsAllow(s: State, initial: bool) {
    && Whole(s.releases) && Distinct(Published(s.releases))
    && (forall i :: 0 <= i < |Published(s.releases)| ==> Published(s.releases)[i].0 < 18446744073709551615)
    && (initial <==> Published(s.releases) == [])
  }

  /** Planning succeeds exactly if the tag is free and above all other versions, and the catalogs allow it. */
  lemma PlannedExactly(s: State, tag: Tag, tagPush: bool, initial: bool, base: nat)
    requires AllDigits(s, base) && (tag.Stable? ==> Digits(tag.version, base))
    ensures Plannable(s, tag, tagPush, initial) <==>
              && tag.Stable? && (tagPush <==> tag in s.tags)
              && (forall i :: 0 <= i < |s.releases| ==> s.releases[i].tag != tag)
              && Above(s, tag, base) && CatalogsAllow(s, initial)
  {
    CatalogsExactly(s, initial);
    if tag.Stable? {
      AboveExactly(s, tag, base);
    }
  }

  lemma CatalogsExactly(s: State, initial: bool)
    ensures CatalogsAllow(s, initial) <==> !AnyBroken(s.releases) && Sequenced(Published(s.releases), initial)
  {
    WholeExactly(s.releases);
    SequencedExactly(Published(s.releases), initial);
  }

  lemma WholeExactly(releases: seq<Release>)
    ensures Whole(releases) <==> !AnyBroken(releases)
  {
    if AnyBroken(releases) {
      var i :| 0 <= i < |releases| && Broken(releases[i]);
      assert releases[i].catalog != NoCatalog;
    }
  }

  lemma SequencedExactly(published: seq<(int, Tag)>, initial: bool)
    ensures Sequenced(published, initial) <==>
              && Distinct(published) && (forall i :: 0 <= i < |published| ==> published[i].0 < 18446744073709551615)
              && (initial <==> published == [])
  {
    if published != [] {
      HighestIs(published);
    }
  }

  lemma AboveExactly(s: State, tag: Tag, base: nat)
    requires AllDigits(s, base) && tag.Stable? && Digits(tag.version, base)
    ensures (forall t | t in Known(s, tag) :: Newer(tag.version, t.version)) <==> Above(s, tag, base)
  {
    forall t: Tag | t.Stable? && Digits(t.version, base)
      ensures Newer(tag.version, t.version) <==> Value(t.version, base) < Value(tag.version, base)
    {
      NewerByValue(tag.version, t.version, base);
    }
    forall i | 0 <= i < |s.releases| && !s.releases[i].draft && s.releases[i].tag.Stable? && s.releases[i].tag != tag
      ensures s.releases[i].tag in Known(s, tag)
    {
      assert s.releases[i].tag in PublicTags(s.releases);
    }
  }

  // ---- Runs

  datatype Step =
    | Plan(tag: Tag, tagPush: bool, initial: bool)
    | Publish
    | Abandon(leavesDraft: bool)
    | PushTag(tag: Tag)
    | ForeignRelease(release: Release)        // made by hand: at best with a catalog signed earlier
    | Undraft(i: nat)                         // a draft published by hand
    | Withdraw(i: nat, keepDraft: bool)       // a release deleted, or made a draft again, by hand

  predicate Enabled(s: State, step: Step) {
    match step
    case Plan(tag, tagPush, initial) => s.planned == None && Plannable(s, tag, tagPush, initial)
    case Publish => s.planned.Some?
    case Abandon(_) => s.planned.Some?
    case PushTag(_) => true
    case ForeignRelease(release) =>
      release.catalog.Verified? ==> (release.catalog.sequence, release.catalog.names) in s.signed
    case Undraft(i) => i < |s.releases| && s.releases[i].draft
    case Withdraw(i, _) => i < |s.releases|
  }

  function PlannedSequence(s: State, initial: bool): int {
    if initial || Published(s.releases) == [] then 1 else Highest(Published(s.releases)) + 1
  }

  function Apply(s: State, step: Step): State
    requires Enabled(s, step)
  {
    match step
    case Plan(tag, _, initial) => s.(planned := Some((tag, PlannedSequence(s, initial))))
    case Publish =>
      var (tag, sequence) := s.planned.value;
      s.(releases := s.releases + [Release(tag, false, Verified(sequence, tag))], tags := s.tags + {tag},
         planned := None, signed := s.signed + {(sequence, tag)})
    case Abandon(leavesDraft) =>
      var (tag, sequence) := s.planned.value;
      var left := if leavesDraft then [Release(tag, true, Verified(sequence, tag))] else [];
      s.(releases := s.releases + left, planned := None, signed := s.signed + {(sequence, tag)})
    case PushTag(tag) => s.(tags := s.tags + {tag})
    case ForeignRelease(release) => s.(releases := s.releases + [release])
    case Undraft(i) => s.(releases := s.releases[i := s.releases[i].(draft := false)])
    case Withdraw(i, keepDraft) =>
      var left := if keepDraft then [s.releases[i].(draft := true)] else [];
      s.(releases := s.releases[..i] + left + s.releases[i + 1..])
  }

  /** The steps can be taken one after the other. */
  predicate Legal(s: State, steps: seq<Step>)
    decreases |steps|
  {
    steps == [] || (Enabled(s, steps[0]) && Legal(Apply(s, steps[0]), steps[1..]))
  }

  function Final(s: State, steps: seq<Step>): State
    requires Legal(s, steps)
    decreases |steps|
  {
    if steps == [] then s else Final(Apply(s, steps[0]), steps[1..])
  }

  /** No public catalog yet, and none signed but first ones; anything else may be there. */
  predicate Start(s: State) {
    && Published(s.releases) == [] && s.planned == None
    && (forall x :: x in s.signed ==> x.0 == 1 && x.1.Stable?)
    && forall i :: 0 <= i < |s.releases| && s.releases[i].catalog.Verified? ==>
         s.releases[i].catalog.sequence == 1 && s.releases[i].catalog.names.Stable?
  }

  // ---- What serialized planning keeps

  /** Sequences are 1, 2, 3, ... in order of publication, and so are the versions. */
  ghost predicate Orderly(published: seq<(int, Tag)>) {
    && (forall i :: 0 <= i < |published| ==> published[i].0 == i + 1 && published[i].1.Stable?)
    && (forall i, j :: 0 <= i < j < |published| ==> Newer(published[j].1.version, published[i].1.version))
  }

  ghost predicate PlanOk(s: State) {
    s.planned.Some? ==>
      var (tag, sequence) := s.planned.value;
      && sequence == |Published(s.releases)| + 1 && tag.Stable?
      && forall i :: 0 <= i < |Published(s.releases)| ==>
           Published(s.releases)[i].1.Stable? && Newer(tag.version, Published(s.releases)[i].1.version)
  }

  ghost predicate Inv(s: State) {
    Orderly(Published(s.releases)) && PlanOk(s)
  }

  lemma PublishedAppend(releases: seq<Release>, r: Release)
    ensures Published(releases + [r]) == Published(releases) + if Counts(r) then [(r.catalog.sequence, r.tag)] else []
  {
    assert (releases + [r])[..|releases|] == releases;
  }

  lemma {:induction false} PublishedTagIsPublic(releases: seq<Release>, i: nat)
    requires i < |Published(releases)|
    ensures Published(releases)[i].1 in PublicTags(releases)
    ensures exists j :: 0 <= j < |releases| && releases[j].tag == Published(releases)[i].1
    decreases |releases|
  {
    var n := |releases| - 1;
    var init := releases[..n];
    if i < |Published(init)| {
      PublishedTagIsPublic(init, i);
      var j :| 0 <= j < |init| && !init[j].draft && init[j].tag == Published(releases)[i].1;
      assert releases[j].tag == Published(releases)[i].1 && !releases[j].draft;
    } else {
      assert releases[n].tag == Published(releases)[i].1 && !releases[n].draft;
    }
  }

  lemma OrderlyHighest(published: seq<(int, Tag)>)
    requires Orderly(published) && published != []
    ensures Highest(published) == |published|
  {
    HighestIs(published);
    var i :| 0 <= i < |published| && published[i].0 == Highest(published);
    assert published[|published| - 1].0 == |published|;
  }

  lemma PlanInv(s: State, tag: Tag, tagPush: bool, initial: bool)
    requires Inv(s) && Enabled(s, Plan(tag, tagPush, initial))
    ensures Inv(Apply(s, Plan(tag, tagPush, initial)))
  {
    var published := Published(s.releases);
    if published != [] {
      OrderlyHighest(published);
    }
    forall i | 0 <= i < |published| ensures Newer(tag.version, published[i].1.version) {
      PublishedTagIsPublic(s.releases, i);
      assert published[i].1 in Known(s, tag);
    }
  }

  lemma PublishInv(s: State)
    requires Inv(s) && s.planned.Some?
    ensures Inv(Apply(s, Publish))
  {
    var (tag, sequence) := s.planned.value;
    PublishedAppend(s.releases, Release(tag, false, Verified(sequence, tag)));
  }

  lemma StepInv(s: State, step: Step)
    requires Inv(s) && Enabled(s, step) && !step.Undraft? && !step.Withdraw?
    requires step.ForeignRelease? ==> !Counts(step.release)
    ensures Inv(Apply(s, step))
  {
    match step {
      case Plan(tag, tagPush, initial) => PlanInv(s, tag, tagPush, initial);
      case Publish => PublishInv(s);
      case Abandon(leavesDraft) =>
        var (tag, sequence) := s.planned.value;
        if leavesDraft {
          PublishedAppend(s.releases, Release(tag, true, Verified(sequence, tag)));
        } else {
          assert s.releases + [] == s.releases;
        }
      case PushTag(_) =>
      case ForeignRelease(release) => PublishedAppend(s.releases, release);
    }
  }

  // ---- Drafts published by hand

  predicate IsPublic(s: State, sequence: int) {
    exists k :: 0 <= k < |Published(s.releases)| && Published(s.releases)[k].0 == sequence
  }

  /** What to check before publishing a draft by hand, or making a public release: its catalog is
      whole and names its tag, and its sequence is neither public nor planned. */
  predicate Careful(s: State, step: Step)
    requires Enabled(s, step)
  {
    match step
    case Undraft(i) =>
      var r := s.releases[i].(draft := false);
      !Broken(r) && (Counts(r) ==> Unclaimed(s, r.catalog.sequence))
    case ForeignRelease(r) => !Broken(r) && (Counts(r) ==> Unclaimed(s, r.catalog.sequence))
    case _ => true
  }

  predicate Unclaimed(s: State, sequence: int) {
    !IsPublic(s, sequence) && (s.planned.Some? ==> s.planned.value.1 != sequence)
  }

  predicate Stuck(s: State) {
    AnyBroken(s.releases) || Reused(Published(s.releases))
  }

  /** Not stuck, nor about to be once what is planned gets published. */
  predicate Sound(s: State) {
    !Stuck(s) && (s.planned.Some? ==> !IsPublic(s, s.planned.value.1))
  }

  lemma {:induction false} PublishedConcat(a: seq<Release>, b: seq<Release>)
    ensures Published(a + b) == Published(a) + Published(b)
    decreases |b|
  {
    if b == [] {
      assert a + b == a;
    } else {
      var n := |b| - 1;
      PublishedConcat(a, b[..n]);
      assert (a + b)[..|a + b| - 1] == a + b[..n];
    }
  }

  /** Where a release's catalog stands among the published ones. */
  lemma PublishedAround(releases: seq<Release>, i: nat)
    requires i < |releases|
    ensures var own := if Counts(releases[i]) then [(releases[i].catalog.sequence, releases[i].tag)] else [];
      Published(releases) == Published(releases[..i]) + own + Published(releases[i + 1..])
  {
    SplitAround(releases, i);
    PublishedMiddle(releases[..i], releases[i], releases[i + 1..]);
  }

  lemma SplitAround<T>(all: seq<T>, i: nat)
    requires i < |all|
    ensures all == (all[..i] + [all[i]]) + all[i + 1..]
  {
  }

  lemma PublishedMiddle(a: seq<Release>, r: Release, b: seq<Release>)
    ensures var own := if Counts(r) then [(r.catalog.sequence, r.tag)] else [];
      Published((a + [r]) + b) == Published(a) + own + Published(b)
  {
    PublishedAppend(a, r);
    PublishedConcat(a + [r], b);
  }

  predicate Uses(published: seq<(int, Tag)>, sequence: int) {
    exists k :: 0 <= k < |published| && published[k].0 == sequence
  }

  lemma UsesConcat(a: seq<(int, Tag)>, b: seq<(int, Tag)>, sequence: int)
    ensures Uses(a + b, sequence) <==> Uses(a, sequence) || Uses(b, sequence)
  {
    var all := a + b;
    if k :| 0 <= k < |a| && a[k].0 == sequence {
      assert all[k].0 == sequence;
    }
    if k :| 0 <= k < |b| && b[k].0 == sequence {
      assert all[|a| + k].0 == sequence;
    }
    if k :| 0 <= k < |all| && all[k].0 == sequence {
      assert k < |a| ==> a[k].0 == sequence;
      assert k >= |a| ==> b[k - |a|].0 == sequence;
    }
  }

  lemma ReusedConcat(a: seq<(int, Tag)>, b: seq<(int, Tag)>)
    ensures Reused(a + b) <==>
              Reused(a) || Reused(b) || exists k :: 0 <= k < |a| && Uses(b, a[k].0)
  {
    var all := a + b;
    if i, j :| 0 <= i < j < |a| && a[i].0 == a[j].0 {
      assert all[i].0 == all[j].0;
    }
    if i, j :| 0 <= i < j < |b| && b[i].0 == b[j].0 {
      assert all[|a| + i].0 == all[|a| + j].0;
    }
    if i :| 0 <= i < |a| && Uses(b, a[i].0) {
      var k :| 0 <= k < |b| && b[k].0 == a[i].0;
      assert all[i].0 == all[|a| + k].0;
    }
    if i, j :| 0 <= i < j < |all| && all[i].0 == all[j].0 {
      if i >= |a| {
        assert b[i - |a|].0 == b[j - |a|].0;
      } else if j >= |a| {
        assert b[j - |a|].0 == a[i].0;
      }
    }
  }

  /** One more catalog, wherever it appears, makes a repetition exactly when its sequence is used. */
  lemma ReusedInsert(a: seq<(int, Tag)>, x: (int, Tag), b: seq<(int, Tag)>)
    requires !Reused(a + b)
    ensures Reused(a + [x] + b) <==> Uses(a + b, x.0)
  {
    ReusedConcat(a, b);
    ReusedConcat(a + [x], b);
    ReusedConcat(a, [x]);
    UsesConcat(a, b, x.0);
    var ax := a + [x];
    assert Uses([x], x.0) by { assert [x][0].0 == x.0; }
    assert ax[|a|] == x && forall k :: 0 <= k < |a| ==> ax[k] == a[k];
    if k :| 0 <= k < |a| && Uses([x], a[k].0) {
      assert a[k].0 == x.0;
    }
    if k :| 0 <= k < |a| && a[k].0 == x.0 {
      assert Uses([x], a[k].0);
    }
    if k :| 0 <= k < |ax| && Uses(b, ax[k].0) {
      assert k < |a| ==> Uses(b, a[k].0);
    }
    if Uses(b, x.0) {
      assert Uses(b, ax[|a|].0);
    }
  }

  lemma UndraftPublished(s: State, i: nat)
    requires Enabled(s, Undraft(i))
    ensures var r := s.releases[i].(draft := false);
      var (a, b) := (Published(s.releases[..i]), Published(s.releases[i + 1..]));
      && Published(s.releases) == a + b
      && Published(Apply(s, Undraft(i)).releases) == a + (if Counts(r) then [(r.catalog.sequence, r.tag)] else []) + b
  {
    var t := Apply(s, Undraft(i));
    PublishedAround(s.releases, i);
    PublishedAround(t.releases, i);
    assert t.releases[..i] == s.releases[..i] && t.releases[i + 1..] == s.releases[i + 1..];
    assert Published(s.releases[..i]) + [] == Published(s.releases[..i]);
  }

  lemma BrokenAfterUndraft(s: State, i: nat)
    requires Enabled(s, Undraft(i)) && !AnyBroken(s.releases)
    ensures AnyBroken(Apply(s, Undraft(i)).releases) <==> Broken(s.releases[i].(draft := false))
  {
    var t := Apply(s, Undraft(i));
    if Broken(t.releases[i]) {
      assert AnyBroken(t.releases);
    }
    if k :| 0 <= k < |t.releases| && Broken(t.releases[k]) {
      assert k != i ==> Broken(s.releases[k]);
    }
  }

  lemma BrokenAfterAppend(releases: seq<Release>, r: Release)
    ensures AnyBroken(releases + [r]) <==> AnyBroken(releases) || Broken(r)
  {
    var all := releases + [r];
    assert all[|releases|] == r;
    if i :| 0 <= i < |releases| && Broken(releases[i]) {
      assert Broken(all[i]);
    }
  }

  lemma UndraftSound(s: State, i: nat)
    requires Sound(s) && Enabled(s, Undraft(i))
    ensures Sound(Apply(s, Undraft(i))) <==> Careful(s, Undraft(i))
  {
    var t, r := Apply(s, Undraft(i)), s.releases[i].(draft := false);
    var a, b := Published(s.releases[..i]), Published(s.releases[i + 1..]);
    UndraftPublished(s, i);
    BrokenAfterUndraft(s, i);
    if Counts(r) {
      var x := (r.catalog.sequence, r.tag);
      ReusedInsert(a, x, b);
      if s.planned.Some? {
        InsertUses(a, x, b, s.planned.value.1);
      }
    } else {
      assert a + [] + b == a + b;
    }
  }

  lemma InsertUses(a: seq<(int, Tag)>, x: (int, Tag), b: seq<(int, Tag)>, sequence: int)
    ensures Uses(a + [x] + b, sequence) <==> Uses(a + b, sequence) || x.0 == sequence
  {
    UsesConcat(a + [x], b, sequence);
    UsesConcat(a, [x], sequence);
    UsesConcat(a, b, sequence);
    assert [x][0] == x;
  }

  /** Appending a release keeps a history sound exactly when it is whole, and its sequence, if it is
      a public catalog, is neither public nor still planned. */
  lemma AppendSound(s: State, r: Release, t: State)
    requires Sound(s) && t.releases == s.releases + [r] && (t.planned == s.planned || t.planned == None)
    ensures Sound(t) <==>
              && !Broken(r)
              && (Counts(r) ==> !IsPublic(s, r.catalog.sequence)
                                && (t.planned.Some? ==> t.planned.value.1 != r.catalog.sequence))
  {
    PublishedAppend(s.releases, r);
    BrokenAfterAppend(s.releases, r);
    var p := Published(s.releases);
    if Counts(r) {
      var x := (r.catalog.sequence, r.tag);
      assert p + [] == p && p + [x] + [] == p + [x];
      ReusedInsert(p, x, []);
      if t.planned.Some? {
        InsertUses(p, x, [], t.planned.value.1);
      }
    } else {
      assert p + [] == p;
    }
  }

  /** What is withdrawn is no longer published, and nothing else changes. */
  lemma WithdrawPublished(s: State, i: nat, keepDraft: bool)
    requires i < |s.releases|
    ensures Published(Apply(s, Withdraw(i, keepDraft)).releases)
         == Published(s.releases[..i]) + Published(s.releases[i + 1..])
  {
    var a, b := s.releases[..i], s.releases[i + 1..];
    if keepDraft {
      PublishedMiddle(a, s.releases[i].(draft := true), b);
      assert Published(a) + [] == Published(a);
    } else {
      assert a + [] == a;
      PublishedConcat(a, b);
    }
  }

  lemma FewerUses(a: seq<(int, Tag)>, own: seq<(int, Tag)>, b: seq<(int, Tag)>, sequence: int)
    ensures Uses(a + b, sequence) ==> Uses(a + own + b, sequence)
  {
    UsesConcat(a, b, sequence);
    UsesConcat(a + own, b, sequence);
    UsesConcat(a, own, sequence);
  }

  lemma FewerReused(a: seq<(int, Tag)>, own: seq<(int, Tag)>, b: seq<(int, Tag)>)
    ensures Reused(a + b) ==> Reused(a + own + b)
  {
    var (less, all) := (a + b, a + own + b);
    if i, j :| 0 <= i < j < |less| && less[i].0 == less[j].0 {
      var i', j' := if i < |a| then i else i + |own|, if j < |a| then j else j + |own|;
      assert all[i'] == less[i] && all[j'] == less[j];
    }
  }

  lemma WithdrawSound(s: State, i: nat, keepDraft: bool)
    requires Sound(s) && i < |s.releases|
    ensures Sound(Apply(s, Withdraw(i, keepDraft)))
  {
    var t := Apply(s, Withdraw(i, keepDraft));
    var a, b := Published(s.releases[..i]), Published(s.releases[i + 1..]);
    var own := if Counts(s.releases[i]) then [(s.releases[i].catalog.sequence, s.releases[i].tag)] else [];
    WithdrawPublished(s, i, keepDraft);
    PublishedAround(s.releases, i);
    FewerReused(a, own, b);
    if s.planned.Some? {
      FewerUses(a, own, b, s.planned.value.1);
    }
    forall k: nat | k < |t.releases| ensures !Broken(t.releases[k]) {
      WithdrawNotBroken(s, i, keepDraft, k);
    }
  }

  lemma WithdrawNotBroken(s: State, i: nat, keepDraft: bool, k: nat)
    requires i < |s.releases| && !AnyBroken(s.releases) && k < |Apply(s, Withdraw(i, keepDraft)).releases|
    ensures !Broken(Apply(s, Withdraw(i, keepDraft)).releases[k])
  {
    var k' := if k < i || keepDraft then k else k + 1;
    assert !Broken(s.releases[k']);
  }

  lemma PlanSound(s: State, tag: Tag, tagPush: bool, initial: bool)
    requires Sound(s) && Enabled(s, Plan(tag, tagPush, initial))
    ensures Sound(Apply(s, Plan(tag, tagPush, initial)))
  {
    if Published(s.releases) != [] {
      HighestIs(Published(s.releases));
    }
  }

  /** From a sound history exactly the careful steps lead to a sound one. */
  lemma StepSound(s: State, step: Step)
    requires Sound(s) && Enabled(s, step)
    ensures Sound(Apply(s, step)) <==> Careful(s, step)
  {
    match step {
      case Plan(tag, tagPush, initial) => PlanSound(s, tag, tagPush, initial);
      case Publish =>
        var (tag, sequence) := s.planned.value;
        AppendSound(s, Release(tag, false, Verified(sequence, tag)), Apply(s, step));
      case Abandon(leavesDraft) =>
        var (tag, sequence) := s.planned.value;
        if leavesDraft {
          AppendSound(s, Release(tag, true, Verified(sequence, tag)), Apply(s, step));
        } else {
          assert s.releases + [] == s.releases;
        }
      case PushTag(_) =>
      case ForeignRelease(release) => AppendSound(s, release, Apply(s, step));
      case Undraft(i) => UndraftSound(s, i);
      case Withdraw(i, keepDraft) => WithdrawSound(s, i, keepDraft);
    }
  }

  predicate AllSound(s: State, steps: seq<Step>)
    requires Legal(s, steps)
    decreases |steps|
  {
    Sound(s) && (steps == [] || AllSound(Apply(s, steps[0]), steps[1..]))
  }

  predicate AllCareful(s: State, steps: seq<Step>)
    requires Legal(s, steps)
    decreases |steps|
  {
    steps == [] || (Careful(s, steps[0]) && AllCareful(Apply(s, steps[0]), steps[1..]))
  }

  /** A history stays sound throughout exactly when every release made or draft published by hand
      was checked: whole, naming its tag, and with a sequence neither public nor planned. */
  lemma {:induction false} SoundExactlyWhenCareful(s: State, steps: seq<Step>)
    requires Sound(s) && Legal(s, steps)
    ensures AllSound(s, steps) <==> AllCareful(s, steps)
    decreases |steps|
  {
    if steps != [] {
      StepSound(s, steps[0]);
      if Careful(s, steps[0]) {
        SoundExactlyWhenCareful(Apply(s, steps[0]), steps[1..]);
      } else if |steps| > 1 {
        assert !Sound(Apply(s, steps[0]));
      }
    }
  }

  // ---- Order, with drafts published by hand

  /** A catalog made by this pipeline, public or not, follows those published before it. */
  ghost predicate InLine(releases: seq<Release>, i: nat)
    requires i < |releases|
  {
    var c := releases[i].catalog;
    c.Verified? ==>
      && c.names.Stable? && 1 <= c.sequence <= |Published(releases[..i])| + 1
      && forall k :: 0 <= k < c.sequence - 1 && k < |Published(releases)| ==>
           Published(releases)[k].1.Stable? && Newer(c.names.version, Published(releases)[k].1.version)
  }

  /** A signed catalog carries at most the next sequence, and comes after those with lower ones. */
  ghost predicate SignedInLine(releases: seq<Release>, x: (int, Tag)) {
    && x.1.Stable? && 1 <= x.0 <= |Published(releases)| + 1
    && forall k :: 0 <= k < x.0 - 1 && k < |Published(releases)| ==>
         Published(releases)[k].1.Stable? && Newer(x.1.version, Published(releases)[k].1.version)
  }

  ghost predicate Lined(s: State) {
    && (forall i: nat :: i < |s.releases| ==> InLine(s.releases, i))
    && forall x :: x in s.signed ==> SignedInLine(s.releases, x)
  }

  lemma {:induction false} PublishedPrefixSize(releases: seq<Release>, i: nat)
    requires i <= |releases|
    ensures Published(releases[..i]) <= Published(releases)
  {
    assert releases == releases[..i] + releases[i..];
    PublishedConcat(releases[..i], releases[i..]);
  }

  lemma OrderlyUses(published: seq<(int, Tag)>, sequence: int)
    requires Orderly(published)
    ensures Uses(published, sequence) <==> 1 <= sequence <= |published|
  {
    if 1 <= sequence <= |published| {
      assert published[sequence - 1].0 == sequence;
    }
  }

  /** A careful draft carries the very next sequence, and comes after every public release. */
  lemma CarefulDraftIsNext(s: State, i: nat)
    requires Inv(s) && Lined(s) && Enabled(s, Undraft(i)) && Careful(s, Undraft(i))
    requires Counts(s.releases[i].(draft := false))
    ensures s.planned == None
    ensures s.releases[i].catalog.sequence == |Published(s.releases)| + 1
    ensures Published(Apply(s, Undraft(i)).releases)
         == Published(s.releases) + [(s.releases[i].catalog.sequence, s.releases[i].tag)]
  {
    var q, published := s.releases[i].catalog.sequence, Published(s.releases);
    assert InLine(s.releases, i);
    PublishedPrefixSize(s.releases, i);
    UndraftPublished(s, i);
    OrderlyUses(published, q);
    assert |Published(s.releases[..i])| == |published|;
    assert Published(s.releases[i + 1..]) == [];
    assert Published(s.releases[..i]) + [] == Published(s.releases[..i]);
  }

  lemma UndraftInv(s: State, i: nat)
    requires Inv(s) && Lined(s) && Enabled(s, Undraft(i)) && Careful(s, Undraft(i))
    ensures Inv(Apply(s, Undraft(i)))
  {
    var r := s.releases[i].(draft := false);
    UndraftPublished(s, i);
    if Counts(r) {
      assert InLine(s.releases, i);
      CarefulDraftIsNext(s, i);
      OrderlyNext(Published(s.releases), s.releases[i].tag);
    } else {
      var a, b := Published(s.releases[..i]), Published(s.releases[i + 1..]);
      assert a + [] + b == a + b;
    }
  }

  lemma OrderlyNext(published: seq<(int, Tag)>, tag: Tag)
    requires Orderly(published) && tag.Stable?
    requires forall k :: 0 <= k < |published| ==> Newer(tag.version, published[k].1.version)
    ensures Orderly(published + [(|published| + 1, tag)])
  {
  }

  /** A careful public release with a catalog signed earlier carries the very next sequence too. */
  lemma CarefulReleaseIsNext(s: State, r: Release)
    requires Inv(s) && Lined(s) && Enabled(s, ForeignRelease(r)) && Careful(s, ForeignRelease(r)) && Counts(r)
    ensures s.planned == None && r.catalog.sequence == |Published(s.releases)| + 1
    ensures Inv(Apply(s, ForeignRelease(r)))
  {
    var published := Published(s.releases);
    assert SignedInLine(s.releases, (r.catalog.sequence, r.catalog.names));
    OrderlyUses(published, r.catalog.sequence);
    PublishedAppend(s.releases, r);
    OrderlyNext(published, r.tag);
  }

  lemma CarefulStepInv(s: State, step: Step)
    requires Inv(s) && Lined(s) && Enabled(s, step) && Careful(s, step) && !step.Withdraw?
    ensures Inv(Apply(s, step))
  {
    if step.Undraft? {
      UndraftInv(s, step.i);
    } else if step.ForeignRelease? && Counts(step.release) {
      CarefulReleaseIsNext(s, step.release);
    } else {
      StepInv(s, step);
    }
  }

  /** Appending a release keeps the earlier ones in line: whatever is newly public has a sequence
      no earlier catalog has to follow. */
  lemma LinedAppend(s: State, r: Release, t: State)
    requires Inv(s) && Lined(s) && t.releases == s.releases + [r] && InLine(t.releases, |s.releases|)
    requires Counts(r) ==> r.catalog.sequence == |Published(s.releases)| + 1
    requires t.signed <= s.signed + if r.catalog.Verified? then {(r.catalog.sequence, r.catalog.names)} else {}
    ensures Lined(t)
  {
    PublishedAppend(s.releases, r);
    PublishedPrefixSize(t.releases, |s.releases|);
    assert t.releases[..|s.releases|] == s.releases;
    forall x | x in t.signed ensures SignedInLine(t.releases, x) {
      assert x in s.signed ==> SignedInLine(s.releases, x);
    }
    forall i: nat | i < |t.releases| ensures InLine(t.releases, i) {
      if i < |s.releases| {
        assert InLine(s.releases, i);
        assert t.releases[..i] == s.releases[..i];
        PublishedPrefixSize(s.releases, i);
      }
    }
  }

  lemma PlannedInLine(s: State, r: Release)
    requires Inv(s) && s.planned.Some?
    requires r.catalog == Verified(s.planned.value.1, s.planned.value.0) && r.tag == s.planned.value.0
    ensures InLine(s.releases + [r], |s.releases|)
  {
    PublishedAppend(s.releases, r);
    assert (s.releases + [r])[..|s.releases|] == s.releases;
  }

  lemma CopyInLine(s: State, r: Release)
    requires Inv(s) && Lined(s) && Enabled(s, ForeignRelease(r))
    ensures InLine(s.releases + [r], |s.releases|)
  {
    PublishedAppend(s.releases, r);
    assert (s.releases + [r])[..|s.releases|] == s.releases;
    if r.catalog.Verified? {
      assert SignedInLine(s.releases, (r.catalog.sequence, r.catalog.names));
    }
  }

  /** What is planned may be signed without being released. */
  lemma SignedOnly(s: State, t: State)
    requires Inv(s) && Lined(s) && t.releases == s.releases
    requires t.signed == s.signed
             || (s.planned.Some? && t.signed == s.signed + {(s.planned.value.1, s.planned.value.0)})
    ensures Lined(t)
  {
  }

  lemma UndraftLined(s: State, i: nat)
    requires Inv(s) && Lined(s) && Enabled(s, Undraft(i)) && Careful(s, Undraft(i))
    ensures Lined(Apply(s, Undraft(i)))
  {
    var t := Apply(s, Undraft(i));
    var r := s.releases[i].(draft := false);
    UndraftPublished(s, i);
    if Counts(r) {
      CarefulDraftIsNext(s, i);
    } else {
      var a, b := Published(s.releases[..i]), Published(s.releases[i + 1..]);
      assert a + [] + b == a + b;
    }
    forall k: nat | k < |t.releases| ensures InLine(t.releases, k) {
      UndraftKeepsLine(s, i, k);
    }
    forall x | x in t.signed ensures SignedInLine(t.releases, x) {
      assert SignedInLine(s.releases, x);
    }
  }

  lemma UndraftKeepsLine(s: State, i: nat, k: nat)
    requires Inv(s) && Lined(s) && Enabled(s, Undraft(i)) && Careful(s, Undraft(i)) && k < |s.releases|
    requires var t := Apply(s, Undraft(i));
      Published(t.releases) == Published(s.releases)
      || (s.releases[i].catalog.Verified?
          && Published(t.releases) == Published(s.releases) + [(|Published(s.releases)| + 1, s.releases[i].tag)])
    ensures InLine(Apply(s, Undraft(i)).releases, k)
  {
    var t := Apply(s, Undraft(i));
    assert InLine(s.releases, k);
    PublishedPrefixSize(s.releases, k);
    PrefixGrows(s.releases, i, k);
  }

  lemma PrefixGrows(releases: seq<Release>, i: nat, k: nat)
    requires i < |releases| && k <= |releases| && releases[i].draft
    ensures |Published(releases[..k])| <= |Published(releases[i := releases[i].(draft := false)][..k])|
  {
    var after := releases[i := releases[i].(draft := false)];
    if i < k {
      PublishedAround(releases[..k], i);
      PublishedAround(after[..k], i);
      assert releases[..k][..i] == after[..k][..i] && releases[..k][i + 1..] == after[..k][i + 1..];
    } else {
      assert after[..k] == releases[..k];
    }
  }

  lemma CarefulStepLined(s: State, step: Step)
    requires Inv(s) && Lined(s) && Enabled(s, step) && Careful(s, step) && !step.Withdraw?
    ensures Lined(Apply(s, step))
  {
    var t := Apply(s, step);
    match step {
      case Plan(_, _, _) => SignedOnly(s, t);
      case Publish =>
        var r := Release(s.planned.value.0, false, Verified(s.planned.value.1, s.planned.value.0));
        PlannedInLine(s, r);
        LinedAppend(s, r, t);
      case Abandon(leavesDraft) =>
        if leavesDraft {
          var r := Release(s.planned.value.0, true, Verified(s.planned.value.1, s.planned.value.0));
          PlannedInLine(s, r);
          LinedAppend(s, r, t);
        } else {
          assert t.releases == s.releases;
          SignedOnly(s, t);
        }
      case PushTag(_) => SignedOnly(s, t);
      case ForeignRelease(r) =>
        CopyInLine(s, r);
        if Counts(r) {
          CarefulReleaseIsNext(s, r);
        }
        LinedAppend(s, r, t);
      case Undraft(i) => UndraftLined(s, i);
    }
  }

  lemma StartLined(s: State)
    requires Start(s)
    ensures Inv(s) && Lined(s)
  {
  }

  predicate NoneWithdrawn(steps: seq<Step>) {
    forall i :: 0 <= i < |steps| ==> !steps[i].Withdraw?
  }

  lemma {:induction false} CarefulRun(s: State, steps: seq<Step>)
    requires Inv(s) && Lined(s) && Legal(s, steps) && AllCareful(s, steps) && NoneWithdrawn(steps)
    ensures Inv(Final(s, steps))
    decreases |steps|
  {
    if steps != [] {
      CarefulStepInv(s, steps[0]);
      CarefulStepLined(s, steps[0]);
      CarefulRun(Apply(s, steps[0]), steps[1..]);
    }
  }

  /** In every history whose hand-made releases were checked, drafts published by hand included,
      and none was withdrawn, the public sequences are exactly 1..n in order of publication and
      follow the versions. */
  lemma SequencesFollowVersions(s: State, steps: seq<Step>)
    requires Start(s) && Legal(s, steps) && AllCareful(s, steps) && NoneWithdrawn(steps)
    ensures Orderly(Published(Final(s, steps).releases))
  {
    StartLined(s);
    CarefulRun(s, steps);
  }

  // ---- What cannot be undone

  lemma {:induction false} ReusedKept(releases: seq<Release>, more: seq<Release>)
    requires Reused(Published(releases)) && releases <= more
    ensures Reused(Published(more))
    decreases |more|
  {
    if releases == more {
    } else {
      var n := |more| - 1;
      ReusedKept(releases, more[..n]);
      var i, j :| 0 <= i < j < |Published(more[..n])| && Published(more[..n])[i].0 == Published(more[..n])[j].0;
      assert Published(more)[i].0 == Published(more)[j].0;
    }
  }

  /** Two public releases with the same sequence. */
  predicate Clash(releases: seq<Release>, i: int, j: int) {
    && 0 <= i < j < |releases| && Counts(releases[i]) && Counts(releases[j])
    && releases[i].catalog.sequence == releases[j].catalog.sequence
  }

  /** The place of a public release among the published catalogs. */
  function PlaceOf(releases: seq<Release>, i: nat): (k: nat)
    requires i < |releases| && Counts(releases[i])
    ensures k < |Published(releases)|
    ensures Published(releases)[k] == (releases[i].catalog.sequence, releases[i].tag)
    ensures k == |Published(releases[..i])|
    decreases |releases|
  {
    var n := |releases| - 1;
    assert i < n ==> releases[..n][..i] == releases[..i];
    if i == n then |Published(releases[..n])| else PlaceOf(releases[..n], i)
  }

  lemma {:induction false} PublishedGrows(releases: seq<Release>, i: nat, j: nat)
    requires i < j <= |releases| && Counts(releases[i])
    ensures |Published(releases[..i])| < |Published(releases[..j])|
    decreases j
  {
    assert releases[..j][..j - 1] == releases[..j - 1];
    if i < j - 1 {
      PublishedGrows(releases, i, j - 1);
    }
  }

  lemma ClashIsReuse(releases: seq<Release>, i: nat, j: nat)
    requires Clash(releases, i, j)
    ensures Reused(Published(releases))
  {
    var a, b := PlaceOf(releases, i), PlaceOf(releases, j);
    PublishedGrows(releases, i, j);
    assert Published(releases)[a].0 == Published(releases)[b].0 && a < b;
  }

  lemma {:induction false} ReuseIsClash(releases: seq<Release>, a: nat, b: nat) returns (i: nat, j: nat)
    requires a < b < |Published(releases)| && Published(releases)[a].0 == Published(releases)[b].0
    ensures Clash(releases, i, j)
  {
    i := SourceOf(releases, a);
    j := SourceOf(releases, b);
    if j < i {
      PublishedGrows(releases, j, i);
    }
  }

  lemma {:induction false} SourceOf(releases: seq<Release>, k: nat) returns (i: nat)
    requires k < |Published(releases)|
    ensures i < |releases| && Counts(releases[i]) && |Published(releases[..i])| == k
    ensures Published(releases)[k].0 == releases[i].catalog.sequence
    decreases |releases|
  {
    var n := |releases| - 1;
    if k < |Published(releases[..n])| {
      i := SourceOf(releases[..n], k);
      assert releases[..n][..i] == releases[..i];
    } else {
      i := n;
    }
  }

  lemma StuckStep(s: State, step: Step)
    requires Stuck(s) && Enabled(s, step) && !step.Withdraw?
    ensures Stuck(Apply(s, step))
  {
    var t := Apply(s, step);
    if AnyBroken(s.releases) {
      var i :| 0 <= i < |s.releases| && Broken(s.releases[i]);
      assert Broken(t.releases[i]);
    } else {
      var a, b :| 0 <= a < b < |Published(s.releases)| && Published(s.releases)[a].0 == Published(s.releases)[b].0;
      var i, j := ReuseIsClash(s.releases, a, b);
      assert Clash(t.releases, i, j);
      ClashIsReuse(t.releases, i, j);
    }
  }

  lemma {:induction false} StuckStays(s: State, steps: seq<Step>)
    requires Stuck(s) && Legal(s, steps) && NoneWithdrawn(steps)
    ensures Stuck(Final(s, steps))
    decreases |steps|
  {
    if steps != [] {
      StuckStep(s, steps[0]);
      StuckStays(Apply(s, steps[0]), steps[1..]);
    }
  }

  /** Once a sequence has been reused, or a broken catalog is public, every later plan fails, until
      something is withdrawn. */
  lemma {:induction false} StuckForever(s: State, steps: seq<Step>, tag: Tag, tagPush: bool, initial: bool)
    requires Stuck(s) && Legal(s, steps) && NoneWithdrawn(steps)
    ensures !Plannable(Final(s, steps), tag, tagPush, initial)
  {
    StuckStays(s, steps);
  }

  // ---- Five histories

  function Numbered(minor: nat): Tag {
    Stable(Version(1, minor, 0))
  }

  const EMPTY := State([], {}, None, {})

  /** A release is abandoned, another takes its sequence, and then the draft is published by hand. */
  const RECKLESS := [Plan(Numbered(0), false, true), Abandon(true), Plan(Numbered(1), false, true), Publish, Undraft(0)]

  /** The same, except that a new release is made by hand from the abandoned draft's catalog. */
  const COPYING := [Plan(Numbered(0), false, true), Abandon(true), Plan(Numbered(1), false, true), Publish,
    ForeignRelease(Release(Numbered(0), false, Verified(1, Numbered(0))))]

  /** A release is published and deleted, and the next one is planned. */
  const WITHDRAWING := [Plan(Numbered(0), false, true), Publish, Withdraw(0, false), Plan(Numbered(1), false, true)]

  /** A release is abandoned and its draft published by hand before anything else is planned. */
  const PATIENT := [Plan(Numbered(0), false, true), Abandon(true), Undraft(0)]

  function Major(major: nat, minor: nat): Tag {
    Stable(Version(major, minor, 0))
  }

  /** A new major version after a high minor one. */
  const CROSSING := [Plan(Major(1, 9), false, true), Publish, Plan(Major(2, 0), false, false), Publish]

  function AfterNine(): State {
    State([Release(Major(1, 9), false, Verified(1, Major(1, 9)))], {Major(1, 9)}, None, {(1, Major(1, 9))})
  }

  function AfterTwo(): State {
    State(AfterNine().releases + [Release(Major(2, 0), false, Verified(2, Major(2, 0)))], {Major(1, 9), Major(2, 0)},
          None, {(1, Major(1, 9)), (2, Major(2, 0))})
  }

  lemma NinePublished()
    ensures Legal(EMPTY, CROSSING[..2]) && Final(EMPTY, CROSSING[..2]) == AfterNine()
    ensures Published(AfterNine().releases) == [(1, Major(1, 9))]
  {
    assert Published([]) == [];
    PublishedAppend([], AfterNine().releases[0]);
    var s1 := Apply(EMPTY, CROSSING[0]);
    assert Apply(s1, Publish) == AfterNine();
    LegalOne(s1, Publish, []);
    LegalOne(EMPTY, CROSSING[0], [Publish]);
    assert CROSSING[..2] == [CROSSING[0]] + ([Publish] + []);
  }

  lemma TwoPublished()
    ensures Enabled(AfterNine(), CROSSING[2]) && Enabled(Apply(AfterNine(), CROSSING[2]), Publish)
    ensures Apply(Apply(AfterNine(), CROSSING[2]), Publish) == AfterTwo()
    ensures Published(AfterTwo().releases) == [(1, Major(1, 9)), (2, Major(2, 0))]
  {
    NinePublished();
    var s := AfterNine();
    PublishedAppend(s.releases, AfterTwo().releases[1]);
    HighestIs(Published(s.releases));
    var t := Apply(s, CROSSING[2]);
    assert t.releases == s.releases && t.planned == Some((Major(2, 0), 2));
  }

  lemma NextAfterTwo()
    ensures !Plannable(AfterTwo(), Major(1, 10), false, false) && Plannable(AfterTwo(), Major(2, 1), false, false)
  {
    TwoPublished();
    assert Major(2, 0) in Known(AfterTwo(), Major(1, 10));
    HighestIs(Published(AfterTwo().releases));
  }

  lemma {:induction false} LegalConcat(s: State, first: seq<Step>, more: seq<Step>)
    requires Legal(s, first) && Legal(Final(s, first), more)
    ensures Legal(s, first + more) && Final(s, first + more) == Final(Final(s, first), more)
    decreases |first|
  {
    if first == [] {
      assert first + more == more;
    } else {
      LegalConcat(Apply(s, first[0]), first[1..], more);
      LegalOne(s, first[0], first[1..] + more);
      assert first + more == [first[0]] + (first[1..] + more);
    }
  }

  lemma TwoIsLegal()
    ensures Legal(AfterNine(), [CROSSING[2]] + [Publish]) && Final(AfterNine(), [CROSSING[2]] + [Publish]) == AfterTwo()
  {
    TwoPublished();
    LegalOne(Apply(AfterNine(), CROSSING[2]), Publish, []);
    LegalOne(AfterNine(), CROSSING[2], [Publish]);
  }

  /** Version 2.0 follows 1.9 with sequence 2, and 1.10 is refused after it. */
  lemma MajorComesFirst()
    ensures Legal(EMPTY, CROSSING) && Final(EMPTY, CROSSING) == AfterTwo()
    ensures Published(AfterTwo().releases) == [(1, Major(1, 9)), (2, Major(2, 0))]
    ensures !Plannable(AfterTwo(), Major(1, 10), false, false) && Plannable(AfterTwo(), Major(2, 1), false, false)
  {
    assert CROSSING == CROSSING[..2] + ([CROSSING[2]] + [Publish]);
    NinePublished();
    TwoIsLegal();
    LegalConcat(EMPTY, CROSSING[..2], [CROSSING[2]] + [Publish]);
    TwoPublished();
    NextAfterTwo();
  }

  function AfterAbandon(): State {
    State([Release(Numbered(0), true, Verified(1, Numbered(0)))], {}, None, {(1, Numbered(0))})
  }

  lemma AbandonedFirst()
    ensures Enabled(EMPTY, Plan(Numbered(0), false, true))
    ensures Enabled(Apply(EMPTY, Plan(Numbered(0), false, true)), Abandon(true))
    ensures Apply(Apply(EMPTY, Plan(Numbered(0), false, true)), Abandon(true)) == AfterAbandon()
  {
    assert Published([]) == [];
  }

  function BothReleased(): State {
    var draft := Release(Numbered(0), true, Verified(1, Numbered(0)));
    State([draft, Release(Numbered(1), false, Verified(1, Numbered(1)))], {Numbered(1)}, None,
          {(1, Numbered(0)), (1, Numbered(1))})
  }

  /** The sequence of the abandoned release is given out again. */
  lemma SecondTakesIt()
    ensures Enabled(AfterAbandon(), Plan(Numbered(1), false, true))
    ensures Apply(AfterAbandon(), Plan(Numbered(1), false, true)).planned == Some((Numbered(1), 1))
    ensures Apply(Apply(AfterAbandon(), Plan(Numbered(1), false, true)), Publish) == BothReleased()
  {
    var s := AfterAbandon();
    assert Published(s.releases) == [] by { PublishedAppend([], s.releases[0]); }
    var t := Apply(s, Plan(Numbered(1), false, true));
    assert t.releases == s.releases && t.tags == {};
    assert t.signed + {(1, Numbered(1))} == {(1, Numbered(0)), (1, Numbered(1))};
  }

  lemma RecklessSticks()
    ensures Start(EMPTY) && Legal(EMPTY, RECKLESS) && Stuck(Final(EMPTY, RECKLESS))
  {
    AbandonedFirst();
    SecondTakesIt();
    var last := Apply(BothReleased(), Undraft(0));
    assert Clash(last.releases, 0, 1);
    ClashIsReuse(last.releases, 0, 1);
    LegalFrom(EMPTY, RECKLESS, last);
  }

  lemma CopyingSticks()
    ensures Start(EMPTY) && Legal(EMPTY, COPYING) && Stuck(Final(EMPTY, COPYING))
  {
    AbandonedFirst();
    SecondTakesIt();
    var again := Release(Numbered(0), false, Verified(1, Numbered(0)));
    var last := Apply(BothReleased(), ForeignRelease(again));
    assert last.releases[2] == again;
    assert Clash(last.releases, 1, 2);
    ClashIsReuse(last.releases, 1, 2);
    LegalFrom(EMPTY, COPYING, last);
  }

  function Deleted(): State {
    State([], {Numbered(0)}, None, {(1, Numbered(0))})
  }

  function Planned(): State {
    State([], {}, Some((Numbered(0), 1)), {})
  }

  function OneReleased(): State {
    State([Release(Numbered(0), false, Verified(1, Numbered(0)))], {Numbered(0)}, None, {(1, Numbered(0))})
  }

  lemma FirstPublished()
    ensures Enabled(EMPTY, WITHDRAWING[0]) && Apply(EMPTY, WITHDRAWING[0]) == Planned()
    ensures Apply(Planned(), Publish) == OneReleased()
  {
    assert Published([]) == [];
  }

  lemma PublishedAndDeleted()
    ensures Enabled(EMPTY, WITHDRAWING[0]) && Enabled(Apply(EMPTY, WITHDRAWING[0]), WITHDRAWING[1])
    ensures Enabled(Apply(Apply(EMPTY, WITHDRAWING[0]), WITHDRAWING[1]), WITHDRAWING[2])
    ensures Apply(Apply(Apply(EMPTY, WITHDRAWING[0]), WITHDRAWING[1]), WITHDRAWING[2]) == Deleted()
  {
    FirstPublished();
    assert OneReleased().releases[..0] + [] + OneReleased().releases[1..] == [];
  }

  /** Only what is public counts, so the sequence of a deleted release is given out again. */
  lemma WithdrawnSequenceReturns()
    ensures Start(EMPTY) && Legal(EMPTY, WITHDRAWING) && AllCareful(EMPTY, WITHDRAWING)
    ensures Final(EMPTY, WITHDRAWING).planned == Some((Numbered(1), 1))
    ensures (1, Numbered(0)) in Final(EMPTY, WITHDRAWING).signed
  {
    PublishedAndDeleted();
    var s1 := Apply(EMPTY, WITHDRAWING[0]);
    var s2 := Apply(s1, WITHDRAWING[1]);
    assert Published([]) == [];
    LegalOne(Deleted(), WITHDRAWING[3], []);
    LegalOne(s2, WITHDRAWING[2], [WITHDRAWING[3]]);
    LegalOne(s1, WITHDRAWING[1], [WITHDRAWING[2], WITHDRAWING[3]]);
    LegalOne(EMPTY, WITHDRAWING[0], [WITHDRAWING[1], WITHDRAWING[2], WITHDRAWING[3]]);
    assert WITHDRAWING == [WITHDRAWING[0]] + ([WITHDRAWING[1]] + ([WITHDRAWING[2]] + ([WITHDRAWING[3]] + [])));
  }

  /** The five steps of the reckless history, taken one by one. */
  lemma LegalFrom(s: State, steps: seq<Step>, last: State)
    requires |steps| == 5
    requires Enabled(s, steps[0]) && Enabled(Apply(s, steps[0]), steps[1])
    requires Enabled(Apply(Apply(s, steps[0]), steps[1]), steps[2])
    requires Enabled(Apply(Apply(Apply(s, steps[0]), steps[1]), steps[2]), steps[3])
    requires Enabled(Apply(Apply(Apply(Apply(s, steps[0]), steps[1]), steps[2]), steps[3]), steps[4])
    requires last == Apply(Apply(Apply(Apply(Apply(s, steps[0]), steps[1]), steps[2]), steps[3]), steps[4])
    ensures Legal(s, steps) && Final(s, steps) == last
  {
    var s1 := Apply(s, steps[0]);
    var s2 := Apply(s1, steps[1]);
    var s3 := Apply(s2, steps[2]);
    var s4 := Apply(s3, steps[3]);
    assert Legal(last, []) && Final(last, []) == last;
    LegalOne(s4, steps[4], []);
    LegalOne(s3, steps[3], [steps[4]]);
    LegalOne(s2, steps[2], [steps[3], steps[4]]);
    LegalOne(s1, steps[1], [steps[2], steps[3], steps[4]]);
    LegalOne(s, steps[0], [steps[1], steps[2], steps[3], steps[4]]);
    assert steps == [steps[0]] + [steps[1], steps[2], steps[3], steps[4]];
  }

  lemma LegalOne(s: State, step: Step, rest: seq<Step>)
    requires Enabled(s, step) && Legal(Apply(s, step), rest)
    ensures Legal(s, [step] + rest) && Final(s, [step] + rest) == Final(Apply(s, step), rest)
  {
    assert ([step] + rest)[1..] == rest;
  }

  lemma PatientIsFine()
    ensures Legal(EMPTY, PATIENT) && AllCareful(EMPTY, PATIENT)
    ensures Published(Final(EMPTY, PATIENT).releases) == [(1, Numbered(0))]
    ensures Plannable(Final(EMPTY, PATIENT), Numbered(1), false, false)
  {
    AbandonedFirst();
    var s := AfterAbandon();
    var released := s.releases[0].(draft := false);
    var last := State([released], {}, None, s.signed);
    assert Published(s.releases) == [] by { PublishedAppend([], s.releases[0]); }
    assert Published(last.releases) == [(1, Numbered(0))] by { PublishedAppend([], released); }
    assert Apply(s, Undraft(0)) == last;
    var s1 := Apply(EMPTY, PATIENT[0]);
    LegalOne(s, PATIENT[2], []);
    LegalOne(s1, PATIENT[1], [PATIENT[2]]);
    LegalOne(EMPTY, PATIENT[0], [PATIENT[1], PATIENT[2]]);
    assert PATIENT == [PATIENT[0]] + ([PATIENT[1]] + ([PATIENT[2]] + []));
  }
}
