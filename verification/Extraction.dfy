/** Extracting an accepted ZIP onto a disk that may identify names that differ in case or normalization. */
module Extraction {
  import opened ReleaseArchive
  import opened Wrappers

  /** Components from the root down, as the disk identifies them. */
  type Path = seq<string>

  datatype Node = Directory | File(bytes: Bytes)

  function Canon(canon: string -> string, parts: seq<string>): (path: Path)
    ensures |path| == |parts| && forall i :: 0 <= i < |parts| ==> path[i] == canon(parts[i])
  {
    if parts == [] then [] else Canon(canon, parts[..|parts| - 1]) + [canon(parts[|parts| - 1])]
  }

  /** The place of a name, relative to wherever it is extracted. */
  function PlaceOf(canon: string -> string, name: string): Path {
    Canon(canon, Split(TrimSlash(name), '/'))
  }

  /** The disk identifies no two valid names that the collision check tells apart. */
  ghost predicate Compatible(u: Unicode, canon: string -> string) {
    forall s, t :: ValidName(u, s) && ValidName(u, t) && PlaceOf(canon, s) == PlaceOf(canon, t) ==>
      u.fold(TrimSlash(s)) == u.fold(TrimSlash(t))
  }

  /** Where the system looks for a relative name: empty and `.` components stay, `..` goes up. */
  function Resolve(at: seq<string>, parts: seq<string>): seq<string>
    decreases |parts|
  {
    if parts == [] then at
    else if parts[0] == "" || parts[0] == "." then Resolve(at, parts[1..])
    else if parts[0] == ".." then Resolve(if at == [] then [] else at[..|at| - 1], parts[1..])
    else Resolve(at + [parts[0]], parts[1..])
  }

  function Target(canon: string -> string, dest: Path, x: Info): Path {
    Canon(canon, Resolve(dest, Split(TrimSlash(x.filename), '/')))
  }

  /** A name that passed the checks stays below the destination. */
  lemma {:induction false} ResolveStays(u: Unicode, at: seq<string>, parts: seq<string>)
    requires forall i :: 0 <= i < |parts| ==> PortablePart(u, parts[i])
    ensures Resolve(at, parts) == at + parts
    decreases |parts|
  {
    if parts != [] {
      var first, rest := parts[0], parts[1..];
      assert PortablePart(u, first);
      assert Resolve(at, parts) == Resolve(at + [first], rest);
      ResolveStays(u, at + [first], rest);
      HeadMoves(at, parts);
    }
  }

  lemma HeadMoves<T>(at: seq<T>, parts: seq<T>)
    requires parts != []
    ensures (at + [parts[0]]) + parts[1..] == at + parts
  {
  }

  /** A path already in the disk's own spelling. */
  ghost predicate Spelled(canon: string -> string, path: Path) {
    forall i :: 0 <= i < |path| ==> canon(path[i]) == path[i]
  }

  lemma TargetIs(u: Unicode, canon: string -> string, dest: Path, x: Info)
    requires ValidName(u, x.filename) && Spelled(canon, dest)
    ensures Target(canon, dest, x) == dest + PlaceOf(canon, x.filename)
    ensures |Target(canon, dest, x)| > |dest| && Target(canon, dest, x)[..|dest|] == dest
  {
    var parts := Split(TrimSlash(x.filename), '/');
    ResolveStays(u, dest, parts);
    assert Canon(canon, dest + parts) == dest + Canon(canon, parts);
  }

  /** On such a disk no two entries of an accepted ZIP have the same place. */
  lemma {:induction false} TargetsDiffer(u: Unicode, canon: string -> string, dest: Path, size: nat,
                                         infos: seq<Info>, i: nat, j: nat)
    requires Acceptable(u, size, infos) && Compatible(u, canon) && Spelled(canon, dest)
    requires i < |infos| && j < |infos| && i != j
    ensures Target(canon, dest, infos[i]) != Target(canon, dest, infos[j])
  {
    var s, t := infos[i].filename, infos[j].filename;
    TargetIs(u, canon, dest, infos[i]);
    TargetIs(u, canon, dest, infos[j]);
    StripIsTrim(u, s);
    StripIsTrim(u, t);
    if Target(canon, dest, infos[i]) == Target(canon, dest, infos[j]) {
      assert PlaceOf(canon, s) == Target(canon, dest, infos[i])[|dest|..];
      assert PlaceOf(canon, t) == Target(canon, dest, infos[j])[|dest|..];
      NamesUnique(u, size, infos, i, j);
    }
  }

  /** A stored file of one byte. */
  function Small(name: string, content: byte): Info {
    Info(name, 0, STORED, 1, 1, 0, 0, Some([content]))
  }

  lemma TrimTwice(u: Unicode, name: string)
    requires ValidName(u, name)
    ensures ValidName(u, TrimSlash(name)) && TrimSlash(TrimSlash(name)) == TrimSlash(name)
    ensures StripSlashes(TrimSlash(name)) == TrimSlash(name)
  {
    StripIsTrim(u, name);
    var raw := TrimSlash(name);
    if raw[|raw| - 1] == '/' {
      LastPartEmpty(raw);
    }
  }

  lemma PairAcceptable(u: Unicode, size: nat, a: Info, b: Info)
    requires 0 < size <= MAX_ARCHIVE_BYTES
    requires ValidName(u, a.filename) && EntryOk(a) && ValidName(u, b.filename) && EntryOk(b)
    requires Key(u, a) != Key(u, b) && a.fileSize + b.fileSize <= MAX_UNPACKED_BYTES
    ensures Acceptable(u, size, [a, b])
  {
    var infos := [a, b];
    assert infos[..1] == [a] && [a][..0] == [];
    assert Unpacked([a]) == a.fileSize;
    assert Unpacked(infos) == Unpacked(infos[..1]) + b.fileSize;
  }

  /** On any other disk there is an accepted ZIP of two files with one place, and different contents. */
  lemma CollisionSlipsThrough(u: Unicode, canon: string -> string, dest: Path, size: nat, s: string, t: string)
    returns (infos: seq<Info>)
    requires 0 < size <= MAX_ARCHIVE_BYTES
    requires ValidName(u, s) && ValidName(u, t) && PlaceOf(canon, s) == PlaceOf(canon, t)
    requires u.fold(TrimSlash(s)) != u.fold(TrimSlash(t)) && Spelled(canon, dest)
    ensures infos == [Small(TrimSlash(s), 0), Small(TrimSlash(t), 1)] && Acceptable(u, size, infos)
    ensures Target(canon, dest, infos[0]) == Target(canon, dest, infos[1])
    ensures Fine(TargetsOf(canon, dest, infos), infos, 2) && !SharedAlike(TargetsOf(canon, dest, infos), infos)
  {
    TrimTwice(u, s);
    TrimTwice(u, t);
    PairAcceptable(u, size, Small(TrimSlash(s), 0), Small(TrimSlash(t), 1));
    TargetIs(u, canon, dest, Small(TrimSlash(s), 0));
    TargetIs(u, canon, dest, Small(TrimSlash(t), 1));
    infos := [Small(TrimSlash(s), 0), Small(TrimSlash(t), 1)];
    TwoFilesOnePlace(TargetsOf(canon, dest, infos), infos);
  }

  lemma TwoFilesOnePlace(targets: seq<Path>, infos: seq<Info>)
    requires |targets| == |infos| == 2 && targets[0] == targets[1]
    requires !infos[0].IsDir() && !infos[1].IsDir() && infos[0].Content() == Some([0])
             && infos[1].Content() == Some([1])
    ensures Fine(targets, infos, 2) && !SharedAlike(targets, infos)
  {
    forall i, j | 0 <= i < 2 && 0 <= j < 2 ensures !Clash(targets, infos, i, j) {
      assert targets[i] == targets[j];
    }
    assert [0] != [1];
    assert NodeOf(infos[0]) != NodeOf(infos[1]);
  }

  ghost predicate KeepsApart(u: Unicode, canon: string -> string, dest: Path) {
    forall size: nat, infos: seq<Info>, i: nat, j: nat ::
      Acceptable(u, size, infos) && i < j < |infos| ==>
        Target(canon, dest, infos[i]) != Target(canon, dest, infos[j])
  }

  /** The structural checks keep entries apart on exactly the compatible disks. */
  lemma ApartExactlyWhenCompatible(u: Unicode, canon: string -> string, dest: Path)
    requires Spelled(canon, dest)
    ensures KeepsApart(u, canon, dest) <==> Compatible(u, canon)
  {
    if Compatible(u, canon) {
      forall size: nat, infos: seq<Info>, i: nat, j: nat | Acceptable(u, size, infos) && i < j < |infos|
        ensures Target(canon, dest, infos[i]) != Target(canon, dest, infos[j])
      {
        TargetsDiffer(u, canon, dest, size, infos, i, j);
      }
    } else {
      var s, t :| ValidName(u, s) && ValidName(u, t) && PlaceOf(canon, s) == PlaceOf(canon, t)
                  && u.fold(TrimSlash(s)) != u.fold(TrimSlash(t));
      var infos := CollisionSlipsThrough(u, canon, dest, 1, s, t);
      assert Target(canon, dest, infos[0]) == Target(canon, dest, infos[1]);
    }
  }

  /** Greek iota with dialytika and tonos, as a capital with a combining accent and as one small letter. */
  const CAPITAL := "\U{03AA}\U{0301}"
  const SMALL := "\U{0390}"

  lemma {:induction false} SplitNone(s: string, c: char)
    requires c !in s
    ensures Split(s, c) == [s]
    decreases |s|
  {
    assert IndexOf(s, c) == |s|;
  }

  /** The key folds case after composing and does not compose again, so a disk that compares names
      by canonical caseless matching identifies two names with different keys. */
  lemma CanonicalCaselessIsNot(u: Unicode, canon: string -> string)
    requires u.fold(CAPITAL) == "\U{03CA}\U{0301}" && u.fold(SMALL) == "\U{03B9}\U{0308}\U{0301}"
    requires canon(CAPITAL) == canon(SMALL)
    requires u.utf8Length(CAPITAL) <= MAX_PATH_BYTES && u.upper(CAPITAL) !in WINDOWS_RESERVED
    requires u.utf8Length(SMALL) <= MAX_PATH_BYTES && u.upper(SMALL) !in WINDOWS_RESERVED
    ensures !Compatible(u, canon)
  {
    forall name | name in {CAPITAL, SMALL} ensures ValidName(u, name) && PlaceOf(canon, name) == [canon(name)] {
      SplitNone(name, '/');
      SplitNone(name, '.');
    }
    assert PlaceOf(canon, CAPITAL) == PlaceOf(canon, SMALL) && u.fold(CAPITAL) != u.fold(SMALL);
  }

  // ---- The disk

  predicate ProperPrefix(p: Path, q: Path) {
    |p| < |q| && p == q[..|p|]
  }

  type Nodes = map<Path, Node>

  /** Every node has a directory above it. */
  ghost predicate Rooted(nodes: Nodes) {
    && [] in nodes && nodes[[]] == Directory
    && forall p, n :: p in nodes && 0 <= n < |p| ==> p[..n] in nodes && nodes[p[..n]] == Directory
  }

  /** The nodes with the missing directories on the way to `p`, and `p` itself, added. */
  function WithDirectories(nodes: Nodes, p: Path, n: nat): Nodes
    requires n <= |p|
  {
    if n == 0 then nodes
    else
      var m := WithDirectories(nodes, p, n - 1);
      if p[..n] in m then m else m[p[..n] := Directory]
  }

  predicate FileOnTheWay(nodes: Nodes, p: Path, n: nat)
    requires n <= |p|
  {
    exists k :: 0 <= k <= n && p[..k] in nodes && nodes[p[..k]].File?
  }

  lemma {:induction false} WithDirectoriesIs(nodes: Nodes, p: Path, n: nat, q: Path)
    requires n <= |p|
    ensures q in WithDirectories(nodes, p, n) <==> q in nodes || (0 < |q| <= n && q == p[..|q|])
    ensures q in nodes ==> WithDirectories(nodes, p, n)[q] == nodes[q]
    ensures q !in nodes && q in WithDirectories(nodes, p, n) ==> WithDirectories(nodes, p, n)[q] == Directory
    decreases n
  {
    if n > 0 {
      WithDirectoriesIs(nodes, p, n - 1, q);
    }
  }

  // ---- What extraction leaves

  function NodeOf(x: Info): Node {
    if x.IsDir() then Directory else File(if x.Content().Some? then x.Content().value else [])
  }

  function ParentLength(p: Path): nat {
    if p == [] then 0 else |p| - 1
  }

  /** The disk after one more entry. */
  function Lay(nodes: Nodes, target: Path, x: Info): Nodes {
    if x.IsDir() then WithDirectories(nodes, target, |target|)
    else WithDirectories(nodes, target, ParentLength(target))[target := NodeOf(x)]
  }

  /** The disk after the first `i` entries. */
  function Layout(nodes: Nodes, targets: seq<Path>, infos: seq<Info>, i: nat): Nodes
    requires |targets| == |infos| && i <= |infos|
  {
    if i == 0 then nodes else Lay(Layout(nodes, targets, infos, i - 1), targets[i - 1], infos[i - 1])
  }

  /** An existing, empty destination, and targets below it. */
  ghost predicate Placed(nodes: Nodes, dest: Path, targets: seq<Path>, infos: seq<Info>) {
    && |targets| == |infos|
    && Rooted(nodes) && dest in nodes && nodes[dest] == Directory
    && (forall q :: q in nodes ==> !ProperPrefix(dest, q))
    && (forall i :: 0 <= i < |targets| ==> ProperPrefix(dest, targets[i]))
  }

  ghost predicate Distinct(targets: seq<Path>) {
    forall i, j :: 0 <= i < j < |targets| ==> targets[i] != targets[j]
  }

  /** A file, among the first `n` entries, where another one of them needs a directory. */
  ghost predicate Conflict(targets: seq<Path>, infos: seq<Info>, n: nat)
    requires |targets| == |infos| && n <= |infos|
  {
    exists i, j :: 0 <= i < n && 0 <= j < n && Clash(targets, infos, i, j)
  }

  predicate Clash(targets: seq<Path>, infos: seq<Info>, i: nat, j: nat)
    requires |targets| == |infos| && i < |infos| && j < |infos|
  {
    !infos[i].IsDir() && (ProperPrefix(targets[i], targets[j]) || (targets[i] == targets[j] && infos[j].IsDir()))
  }

  ghost predicate FileTarget(targets: seq<Path>, infos: seq<Info>, n: nat, q: Path, i: int)
    requires |targets| == |infos| && n <= |infos|
  {
    0 <= i < n && !infos[i].IsDir() && targets[i] == q
  }

  /** The last file written to a place. */
  ghost predicate LastFile(targets: seq<Path>, infos: seq<Info>, n: nat, q: Path, i: int)
    requires |targets| == |infos| && n <= |infos|
  {
    FileTarget(targets, infos, n, q, i) && forall j :: i < j < n ==> !FileTarget(targets, infos, n, q, j)
  }

  lemma {:induction false} SomeLast(targets: seq<Path>, infos: seq<Info>, n: nat, q: Path, i: nat) returns (last: nat)
    requires |targets| == |infos| && n <= |infos| && FileTarget(targets, infos, n, q, i)
    ensures LastFile(targets, infos, n, q, last)
    decreases n - i
  {
    if j :| i < j < n && FileTarget(targets, infos, n, q, j) {
      last := SomeLast(targets, infos, n, q, j);
    } else {
      last := i;
    }
  }

  ghost predicate Reached(targets: seq<Path>, n: nat, q: Path, i: int)
    requires n <= |targets|
  {
    0 <= i < n && (q == targets[i] || ProperPrefix(q, targets[i]))
  }

  /** What each place holds after the first `n` entries. */
  ghost predicate LaidOut(nodes: Nodes, targets: seq<Path>, infos: seq<Info>, n: nat, q: Path)
    requires |targets| == |infos| && n <= |infos|
  {
    var after := Layout(nodes, targets, infos, n);
    && (q in after <==> q in nodes || exists i :: Reached(targets, n, q, i))
    && (q in nodes ==> after[q] == nodes[q])
    && (q !in nodes ==> forall i :: LastFile(targets, infos, n, q, i) ==> q in after && after[q] == NodeOf(infos[i]))
    && (q in after && q !in nodes && (forall i :: !FileTarget(targets, infos, n, q, i)) ==> after[q] == Directory)
  }

  lemma {:induction false} LayoutIs(nodes: Nodes, dest: Path, targets: seq<Path>, infos: seq<Info>, n: nat, q: Path)
    requires Placed(nodes, dest, targets, infos) && n <= |infos| && !Conflict(targets, infos, n)
    ensures LaidOut(nodes, targets, infos, n, q)
    decreases n
  {
    if n > 0 {
      var m := n - 1;
      var t, x := targets[m], infos[m];
      var before := Layout(nodes, targets, infos, m);
      assert !Conflict(targets, infos, m);
      LayoutIs(nodes, dest, targets, infos, m, q);
      WithDirectoriesIs(before, t, if x.IsDir() then |t| else |t| - 1, q);
      LayoutStep(nodes, dest, targets, infos, m, q);
    }
  }

  lemma LayoutStep(nodes: Nodes, dest: Path, targets: seq<Path>, infos: seq<Info>, m: nat, q: Path)
    requires Placed(nodes, dest, targets, infos) && m < |infos| && !Conflict(targets, infos, m + 1)
    requires LaidOut(nodes, targets, infos, m, q)
    ensures LaidOut(nodes, targets, infos, m + 1, q)
  {
    var n := m + 1;
    var t, x := targets[m], infos[m];
    var before, after := Layout(nodes, targets, infos, m), Layout(nodes, targets, infos, n);
    assert after == Lay(before, t, x);
    LayIs(before, t, x, q);
    assert ProperPrefix(dest, t);
    assert q == [] ==> q in nodes;
    ReachedNext(targets, m, n, q);
    forall i | q !in nodes && LastFile(targets, infos, n, q, i) ensures q in after && after[q] == NodeOf(infos[i]) {
      LastFileNext(targets, infos, m, q, i);
    }
    if q in after && q !in nodes && forall i :: !FileTarget(targets, infos, n, q, i) {
      assert !FileTarget(targets, infos, n, q, m);
      forall i ensures !FileTarget(targets, infos, m, q, i) {
        assert !FileTarget(targets, infos, n, q, i);
      }
    }
  }

  /** What one more entry changes at a place. */
  lemma LayIs(before: Nodes, t: Path, x: Info, q: Path)
    requires t != []
    ensures q in Lay(before, t, x) <==> q in before || (q != [] && (q == t || ProperPrefix(q, t)))
    ensures q == t && !x.IsDir() ==> Lay(before, t, x)[q] == NodeOf(x)
    ensures !(q == t && !x.IsDir()) && q in before ==> Lay(before, t, x)[q] == before[q]
    ensures !(q == t && !x.IsDir()) && q !in before && q in Lay(before, t, x) ==> Lay(before, t, x)[q] == Directory
  {
    WithDirectoriesIs(before, t, if x.IsDir() then |t| else |t| - 1, q);
    assert t[..|t|] == t;
  }

  lemma ReachedNext(targets: seq<Path>, m: nat, n: nat, q: Path)
    requires n == m + 1 <= |targets|
    ensures (exists i :: Reached(targets, n, q, i))
       <==> (exists i :: Reached(targets, m, q, i)) || q == targets[m] || ProperPrefix(q, targets[m])
  {
    if i :| Reached(targets, m, q, i) {
      assert Reached(targets, n, q, i);
    }
    if q == targets[m] || ProperPrefix(q, targets[m]) {
      assert Reached(targets, n, q, m);
    }
    if i :| Reached(targets, n, q, i) {
      assert i < m ==> Reached(targets, m, q, i);
    }
  }

  lemma LastFileNext(targets: seq<Path>, infos: seq<Info>, m: nat, q: Path, i: int)
    requires |targets| == |infos| && m < |infos| && !Conflict(targets, infos, m + 1)
    requires LastFile(targets, infos, m + 1, q, i)
    ensures i == m || (LastFile(targets, infos, m, q, i) && targets[m] != q)
  {
    if i < m {
      assert FileTarget(targets, infos, m, q, i) && !FileTarget(targets, infos, m + 1, q, m);
      forall j | i < j < m ensures !FileTarget(targets, infos, m, q, j) {
        assert !FileTarget(targets, infos, m + 1, q, j);
      }
      assert !Clash(targets, infos, i, m);
    }
  }

  /** A file is on the way to the next entry exactly when an earlier file clashes with it. */
  lemma WayBlocked(nodes: Nodes, dest: Path, targets: seq<Path>, infos: seq<Info>, m: nat, n: nat)
    requires Placed(nodes, dest, targets, infos) && m < |infos| && !Conflict(targets, infos, m)
    requires n == if infos[m].IsDir() then |targets[m]| else |targets[m]| - 1
    ensures FileOnTheWay(Layout(nodes, targets, infos, m), targets[m], n)
            <==> exists i :: 0 <= i < m && Clash(targets, infos, i, m)
  {
    var t, laid := targets[m], Layout(nodes, targets, infos, m);
    if i :| 0 <= i < m && Clash(targets, infos, i, m) {
      var q := targets[i];
      LayoutIs(nodes, dest, targets, infos, m, q);
      assert FileTarget(targets, infos, m, q, i) && ProperPrefix(dest, q);
      var last := SomeLast(targets, infos, m, q, i);
      assert t[..|q|] == q && |q| <= n && laid[t[..|q|]].File?;
    }
    if FileOnTheWay(laid, t, n) {
      var k :| 0 <= k <= n && t[..k] in laid && laid[t[..k]].File?;
      var q := t[..k];
      LayoutIs(nodes, dest, targets, infos, m, q);
      NotAFileAbove(nodes, dest, t, k);
      var i :| FileTarget(targets, infos, m, q, i);
      assert Clash(targets, infos, i, m);
    }
  }

  lemma NotAFileAbove(nodes: Nodes, dest: Path, t: Path, k: nat)
    requires Rooted(nodes) && dest in nodes && nodes[dest] == Directory && ProperPrefix(dest, t) && k <= |t|
    requires forall q :: q in nodes ==> !ProperPrefix(dest, q)
    ensures t[..k] in nodes ==> nodes[t[..k]] == Directory
  {
    if k < |dest| {
      assert t[..k] == dest[..k];
    } else if k == |dest| {
      assert t[..k] == dest;
    } else {
      assert t[..k][..|dest|] == dest;
    }
  }

  /** The place of the next file is a directory already exactly when it clashes with an earlier entry. */
  lemma PlaceTaken(nodes: Nodes, dest: Path, targets: seq<Path>, infos: seq<Info>, m: nat)
    requires Placed(nodes, dest, targets, infos) && m < |infos| && !Conflict(targets, infos, m) && !infos[m].IsDir()
    ensures targets[m] in Layout(nodes, targets, infos, m) && Layout(nodes, targets, infos, m)[targets[m]] == Directory
            <==> exists i :: 0 <= i < m && Clash(targets, infos, m, i)
  {
    var t, laid := targets[m], Layout(nodes, targets, infos, m);
    LayoutIs(nodes, dest, targets, infos, m, t);
    assert ProperPrefix(dest, t);
    if i :| 0 <= i < m && Clash(targets, infos, m, i) {
      assert Reached(targets, m, t, i);
      forall j ensures !FileTarget(targets, infos, m, t, j) {
        assert 0 <= j < m ==> !Clash(targets, infos, j, i);
      }
    }
    if t in laid && laid[t] == Directory {
      var i :| Reached(targets, m, t, i);
      NoFileAtDirectory(nodes, targets, infos, m, t, i);
      assert Clash(targets, infos, m, i);
    }
  }

  lemma NoFileAtDirectory(nodes: Nodes, targets: seq<Path>, infos: seq<Info>, n: nat, q: Path, i: nat)
    requires |targets| == |infos| && n <= |infos| && LaidOut(nodes, targets, infos, n, q) && q !in nodes
    requires q in Layout(nodes, targets, infos, n) && Layout(nodes, targets, infos, n)[q] == Directory
    ensures !FileTarget(targets, infos, n, q, i)
  {
    if FileTarget(targets, infos, n, q, i) {
      var last := SomeLast(targets, infos, n, q, i);
    }
  }

  lemma ConflictNext(targets: seq<Path>, infos: seq<Info>, m: nat)
    requires |targets| == |infos| && m < |infos| && !Conflict(targets, infos, m)
    ensures Conflict(targets, infos, m + 1) <==>
              exists i :: 0 <= i < m && (Clash(targets, infos, i, m) || Clash(targets, infos, m, i))
  {
    if Conflict(targets, infos, m + 1) {
      var i, j :| 0 <= i < m + 1 && 0 <= j < m + 1 && Clash(targets, infos, i, j);
      assert !(i < m && j < m) && !(i == m && j == m);
      assert Clash(targets, infos, if i < m then i else m, if i < m then m else j);
    }
    if i :| 0 <= i < m && (Clash(targets, infos, i, m) || Clash(targets, infos, m, i)) {
      assert Conflict(targets, infos, m + 1);
    }
  }

  lemma {:induction false} ParentDirectories(nodes: Nodes, p: Path, n: nat)
    requires p != [] && n <= |p| - 1
    ensures WithDirectories(nodes, p[..|p| - 1], n) == WithDirectories(nodes, p, n)
    decreases n
  {
    if n > 0 {
      ParentDirectories(nodes, p, n - 1);
      assert p[..|p| - 1][..n] == p[..n];
    }
  }

  lemma ParentWay(nodes: Nodes, p: Path)
    requires p != []
    ensures FileOnTheWay(nodes, p[..|p| - 1], |p| - 1) <==> FileOnTheWay(nodes, p, |p| - 1)
  {
    var parent := p[..|p| - 1];
    assert forall k {:trigger parent[..k]} {:trigger p[..k]} :: 0 <= k <= |p| - 1 ==> parent[..k] == p[..k];
    if FileOnTheWay(nodes, parent, |p| - 1) {
      var k :| 0 <= k <= |p| - 1 && parent[..k] in nodes && nodes[parent[..k]].File?;
      assert p[..k] == parent[..k];
    }
    if FileOnTheWay(nodes, p, |p| - 1) {
      var k :| 0 <= k <= |p| - 1 && p[..k] in nodes && nodes[p[..k]].File?;
      assert parent[..k] == p[..k];
    }
  }

  /** Which call fails on the next entry, if it clashes with an earlier one. */
  lemma NextEntry(nodes: Nodes, dest: Path, targets: seq<Path>, infos: seq<Info>, m: nat)
    requires Placed(nodes, dest, targets, infos) && m < |infos| && !Conflict(targets, infos, m)
    ensures var laid := Layout(nodes, targets, infos, m);
      var (t, parent) := (targets[m], targets[m][..|targets[m]| - 1]);
      && [] in laid && laid[[]] == Directory
      && (infos[m].IsDir() ==> (Conflict(targets, infos, m + 1) <==> FileOnTheWay(laid, t, |t|)))
      && (!infos[m].IsDir() ==>
            (Conflict(targets, infos, m + 1) <==>
               FileOnTheWay(laid, parent, |parent|) || (t in laid && laid[t] == Directory)))
  {
    LayoutIs(nodes, dest, targets, infos, m, []);
    ConflictNext(targets, infos, m);
    WayBlocked(nodes, dest, targets, infos, m, if infos[m].IsDir() then |targets[m]| else |targets[m]| - 1);
    if !infos[m].IsDir() {
      PlaceTaken(nodes, dest, targets, infos, m);
    }
    ParentWay(Layout(nodes, targets, infos, m), targets[m]);
  }

  /** Making the parent directories does not touch the place of the file itself. */
  lemma ParentMade(nodes: Nodes, t: Path)
    requires t != []
    ensures var made := WithDirectories(nodes, t[..|t| - 1], |t| - 1);
      made == WithDirectories(nodes, t, |t| - 1) && (t in made <==> t in nodes) && (t in nodes ==> made[t] == nodes[t])
  {
    ParentDirectories(nodes, t, |t| - 1);
    WithDirectoriesIs(nodes, t, |t| - 1, t);
  }

  /** `archive.read` of a member of an accepted archive is that member's content. */
  lemma ReadsItself(u: Unicode, size: nat, infos: seq<Info>, i: nat)
    requires Acceptable(u, size, infos) && i < |infos| && !infos[i].IsDir()
    ensures Read(infos, infos[i].filename, MAX_ENTRY_BYTES) == infos[i].Content()
  {
    assert IsFile(infos, infos[i].filename, i);
    var found := Find(infos, infos[i].filename);
    NamesUnique(u, size, infos, i, found.value);
    assert EntryOk(infos[i]);
  }

  predicate ReadsAll(infos: seq<Info>) {
    forall i :: 0 <= i < |infos| && !infos[i].IsDir() ==>
      Read(infos, infos[i].filename, MAX_ENTRY_BYTES) == infos[i].Content()
  }

  lemma AcceptableReadsAll(u: Unicode, size: nat, infos: seq<Info>)
    requires Acceptable(u, size, infos)
    ensures ReadsAll(infos)
  {
    forall i | 0 <= i < |infos| && !infos[i].IsDir()
      ensures Read(infos, infos[i].filename, MAX_ENTRY_BYTES) == infos[i].Content()
    {
      ReadsItself(u, size, infos, i);
    }
  }

  function FileBytes(infos: seq<Info>): nat {
    if infos == [] then 0
    else
      var last := infos[|infos| - 1];
      FileBytes(infos[..|infos| - 1]) + if last.IsDir() then 0 else last.fileSize
  }

  lemma {:induction false} FileBytesBounded(infos: seq<Info>, n: nat)
    requires n <= |infos|
    ensures FileBytes(infos[..n]) <= Unpacked(infos)
    decreases |infos|
  {
    if n < |infos| {
      FileBytesBounded(infos[..|infos| - 1], n);
      assert infos[..|infos| - 1][..n] == infos[..n];
    } else if n > 0 {
      FileBytesBounded(infos[..n - 1], n - 1);
      assert infos[..n] == infos;
      assert infos[..n - 1][..n - 1] == infos[..n - 1];
    }
  }

  function TargetsOf(canon: string -> string, dest: Path, infos: seq<Info>): (targets: seq<Path>)
    ensures |targets| == |infos| && forall i :: 0 <= i < |infos| ==> targets[i] == Target(canon, dest, infos[i])
  {
    seq(|infos|, i requires 0 <= i < |infos| => Target(canon, dest, infos[i]))
  }

  predicate Readable(infos: seq<Info>, n: nat)
    requires n <= |infos|
  {
    forall i :: 0 <= i < n && !infos[i].IsDir() ==> infos[i].Content().Some?
  }

  ghost predicate EmptyAt(nodes: Nodes, dest: Path) {
    forall q :: q in nodes ==> !ProperPrefix(dest, q)
  }

  lemma {:induction false} TargetsPlaced(u: Unicode, canon: string -> string, dest: Path, size: nat,
                                         infos: seq<Info>, nodes: Nodes)
    requires Acceptable(u, size, infos) && Spelled(canon, dest)
    requires Rooted(nodes) && dest in nodes && nodes[dest] == Directory && EmptyAt(nodes, dest)
    ensures Placed(nodes, dest, TargetsOf(canon, dest, infos), infos)
    ensures Compatible(u, canon) ==> Distinct(TargetsOf(canon, dest, infos))
  {
    forall i | 0 <= i < |infos| ensures ProperPrefix(dest, Target(canon, dest, infos[i])) {
      TargetIs(u, canon, dest, infos[i]);
    }
    if Compatible(u, canon) {
      forall i, j | 0 <= i < j < |infos| ensures Target(canon, dest, infos[i]) != Target(canon, dest, infos[j]) {
        TargetsDiffer(u, canon, dest, size, infos, i, j);
      }
    }
  }

  /** The destination is an empty directory, or can be made. */
  ghost predicate Destined(nodes: Nodes, dest: Path) {
    !FileOnTheWay(nodes, dest, |dest|) && EmptyAt(nodes, dest)
  }

  function Made(nodes: Nodes, dest: Path): Nodes {
    WithDirectories(nodes, dest, |dest|)
  }

  /** Making the destination keeps a directory above every node, and nothing below it. */
  lemma MadeIs(nodes: Nodes, dest: Path)
    requires Rooted(nodes) && Destined(nodes, dest)
    ensures Rooted(Made(nodes, dest)) && dest in Made(nodes, dest) && Made(nodes, dest)[dest] == Directory
    ensures EmptyAt(Made(nodes, dest), dest)
    ensures dest in nodes ==> Made(nodes, dest) == nodes
  {
    var made := Made(nodes, dest);
    forall q ensures q in made <==> q in nodes || (0 < |q| <= |dest| && q == dest[..|q|])
             ensures q in nodes ==> made[q] == nodes[q]
             ensures q !in nodes && q in made ==> made[q] == Directory
    {
      WithDirectoriesIs(nodes, dest, |dest|, q);
    }
    assert dest[..|dest|] == dest;
    forall p, n | p in made && 0 <= n < |p| ensures p[..n] in made && made[p[..n]] == Directory {
      MadeAbove(nodes, dest, p, n);
    }
    if dest in nodes {
      forall q | q in made ensures q in nodes {
        assert dest[..|dest|] == dest && (|q| < |dest| ==> dest[..|q|] in nodes);
      }
    }
  }

  lemma MadeAbove(nodes: Nodes, dest: Path, p: Path, n: nat)
    requires Rooted(nodes) && Destined(nodes, dest) && p in Made(nodes, dest) && n < |p|
    ensures p[..n] in Made(nodes, dest) && Made(nodes, dest)[p[..n]] == Directory
  {
    WithDirectoriesIs(nodes, dest, |dest|, p);
    WithDirectoriesIs(nodes, dest, |dest|, p[..n]);
    if p !in nodes {
      assert p[..n] == dest[..n];
      assert dest[..n] in nodes ==> nodes[dest[..n]] == Directory;
    }
  }

  class Disk {
    var nodes: Nodes
    var written: nat      // bytes written so far

    constructor (nodes: Nodes)
      ensures this.nodes == nodes && written == 0
    {
      this.nodes, written := nodes, 0;
    }

    /** `mkdir(parents=True, exist_ok=True)`. */
    method MakeDirectories(p: Path) returns (ok: bool)
      requires [] in nodes && nodes[[]] == Directory
      modifies `nodes
      ensures ok <==> !FileOnTheWay(old(nodes), p, |p|)
      ensures ok ==> nodes == WithDirectories(old(nodes), p, |p|)
    {
      assert p[..0] == [];
      for n := 1 to |p| + 1
        invariant nodes == WithDirectories(old(nodes), p, n - 1)
        invariant forall k :: 0 <= k < n && p[..k] in old(nodes) ==> !old(nodes)[p[..k]].File?
      {
        WithDirectoriesIs(old(nodes), p, n - 1, p[..n]);
        if p[..n] in nodes {
          if nodes[p[..n]].File? {
            return false;
          }
        } else {
          nodes := nodes[p[..n] := Directory];
        }
      }
      return true;
    }

    /** `write_bytes`: replaces an existing file, cannot replace a directory. */
    method WriteBytes(p: Path, bytes: Bytes) returns (ok: bool)
      modifies `nodes, `written
      ensures ok <==> !(p in old(nodes) && old(nodes)[p] == Directory)
      ensures ok ==> nodes == old(nodes)[p := File(bytes)] && written == old(written) + |bytes|
      ensures !ok ==> nodes == old(nodes) && written == old(written)
    {
      if p in nodes && nodes[p] == Directory {
        return false;
      }
      nodes, written := nodes[p := File(bytes)], written + |bytes|;
      return true;
    }

    /** Writes one entry; a file is read after its parents are made and before it is opened. */
    method LayEntry(infos: seq<Info>, info: Info, target: Path) returns (ok: bool)
      requires target != [] && [] in nodes && nodes[[]] == Directory
      requires !info.IsDir() ==> Read(infos, info.filename, MAX_ENTRY_BYTES) == info.Content()
      modifies this
      ensures info.IsDir() ==> (ok <==> !FileOnTheWay(old(nodes), target, |target|))
      ensures !info.IsDir() ==>
                (ok <==> && !FileOnTheWay(old(nodes), target[..|target| - 1], |target| - 1)
                         && !(target in old(nodes) && old(nodes)[target] == Directory) && info.Content().Some?)
      ensures ok ==> nodes == Lay(old(nodes), target, info)
      ensures written == old(written) + if ok && !info.IsDir() then info.fileSize else 0
    {
      if info.IsDir() {
        ok := MakeDirectories(target);
        return;
      }
      ParentMade(nodes, target);
      ok := MakeDirectories(target[..|target| - 1]);
      if ok {
        var data := Read(infos, info.filename, MAX_ENTRY_BYTES);
        if data.None? {
          return false;
        }
        ok := WriteBytes(target, data.value);
      }
    }

    /** Fails exactly when the entry clashes with an earlier one or cannot be read. */
    method ExtractEntry(infos: seq<Info>, ghost dest: Path, targets: seq<Path>, i: nat, ghost before: Nodes)
      returns (ok: bool)
      requires ReadsAll(infos) && Placed(before, dest, targets, infos) && i < |infos|
      requires nodes == Layout(before, targets, infos, i) && Fine(targets, infos, i)
      modifies this
      ensures ok <==> Fine(targets, infos, i + 1)
      ensures ok ==> nodes == Layout(before, targets, infos, i + 1)
      ensures written == old(written) + if ok && !infos[i].IsDir() then infos[i].fileSize else 0
    {
      NextEntry(before, dest, targets, infos, i);
      FineNext(targets, infos, i);
      ok := LayEntry(infos, infos[i], targets[i]);
    }

    method ExtractAll(infos: seq<Info>, ghost dest: Path, targets: seq<Path>) returns (ok: bool)
      requires ReadsAll(infos) && Placed(nodes, dest, targets, infos)
      modifies this
      ensures ok <==> Fine(targets, infos, |infos|)
      ensures ok ==> nodes == Layout(old(nodes), targets, infos, |infos|) && written == old(written) + FileBytes(infos)
      ensures written <= old(written) + Unpacked(infos)
    {
      FileBytesBounded(infos, 0);
      for i := 0 to |infos|
        invariant nodes == Layout(old(nodes), targets, infos, i) && Fine(targets, infos, i)
        invariant written == old(written) + FileBytes(infos[..i]) && FileBytes(infos[..i]) <= Unpacked(infos)
      {
        FileBytesNext(infos, i);
        FileBytesBounded(infos, i + 1);
        FineKept(targets, infos, i + 1);
        ok := ExtractEntry(infos, dest, targets, i, old(nodes));
        if !ok {
          return;
        }
      }
      assert infos[..|infos|] == infos;
      return true;
    }

    /** Extraction, making the destination if it is missing. */
    method Extract(u: Unicode, canon: string -> string, dest: Path, size: nat, infos: seq<Info>) returns (ok: bool)
      requires Rooted(nodes) && Spelled(canon, dest)
      modifies this
      ensures ok <==> && Destined(old(nodes), dest) && Acceptable(u, size, infos)
                      && Fine(TargetsOf(canon, dest, infos), infos, |infos|)
      ensures ok ==> nodes == Layout(Made(old(nodes), dest), TargetsOf(canon, dest, infos), infos, |infos|)
      ensures ok ==> written == old(written) + FileBytes(infos)
      ensures written <= old(written) + MAX_UNPACKED_BYTES
    {
      if exists q :: q in nodes && ProperPrefix(dest, q) {
        return false;
      }
      ok := MakeDirectories(dest);
      if !ok {
        return;
      }
      MadeIs(old(nodes), dest);
      var archive := OpenArchive(u, size, infos);
      if archive.Err? {
        return false;
      }
      TargetsPlaced(u, canon, dest, size, infos, nodes);
      AcceptableReadsAll(u, size, infos);
      ok := ExtractAll(infos, dest, TargetsOf(canon, dest, infos));
    }
  }

  lemma FileBytesNext(infos: seq<Info>, i: nat)
    requires i < |infos|
    ensures FileBytes(infos[..i + 1]) == FileBytes(infos[..i]) + if infos[i].IsDir() then 0 else infos[i].fileSize
  {
    assert infos[..i + 1][..i] == infos[..i];
  }

  /** The first entries do not clash, and each file among them can be read. */
  ghost predicate Fine(targets: seq<Path>, infos: seq<Info>, n: nat)
    requires |targets| == |infos| && n <= |infos|
  {
    !Conflict(targets, infos, n) && Readable(infos, n)
  }

  lemma FineKept(targets: seq<Path>, infos: seq<Info>, n: nat)
    requires |targets| == |infos| && n <= |infos|
    ensures Fine(targets, infos, |infos|) ==> Fine(targets, infos, n)
  {
  }

  lemma FineNext(targets: seq<Path>, infos: seq<Info>, i: nat)
    requires |targets| == |infos| && i < |infos| && Fine(targets, infos, i)
    ensures Fine(targets, infos, i + 1) <==>
              !Conflict(targets, infos, i + 1) && (infos[i].IsDir() || infos[i].Content().Some?)
  {
  }

  // ---- What a successful extraction means

  /** Whatever the disk identifies, a place holds the last file written to it; nothing else is new
      but directories on the way, all below the destination, and what was there before is as it was. */
  lemma {:induction false} ExtractedBelow(nodes: Nodes, dest: Path, targets: seq<Path>, infos: seq<Info>, q: Path)
    requires Placed(nodes, dest, targets, infos) && !Conflict(targets, infos, |infos|)
    ensures var after := Layout(nodes, targets, infos, |infos|);
      && (q in nodes ==> q in after && after[q] == nodes[q])
      && (q in after && q !in nodes ==> ProperPrefix(dest, q))
      && (q in after && q !in nodes && after[q].File? ==>
            exists i :: LastFile(targets, infos, |infos|, q, i) && after[q] == NodeOf(infos[i]))
  {
    var n := |infos|;
    LayoutIs(nodes, dest, targets, infos, n, q);
    var after := Layout(nodes, targets, infos, n);
    if q in after && q !in nodes {
      var i :| Reached(targets, n, q, i);
      assert ProperPrefix(dest, targets[i]);
      NewNodesBelow(nodes, dest, targets[i], q);
      if after[q].File? {
        var j :| FileTarget(targets, infos, n, q, j);
        var last := SomeLast(targets, infos, n, q, j);
      }
    }
  }

  ghost predicate FileKept(nodes: Nodes, targets: seq<Path>, infos: seq<Info>, i: nat)
    requires |targets| == |infos| && i < |infos|
  {
    var after := Layout(nodes, targets, infos, |infos|);
    targets[i] in after && after[targets[i]] == NodeOf(infos[i])
  }

  ghost predicate SharedAlike(targets: seq<Path>, infos: seq<Info>)
    requires |targets| == |infos|
  {
    forall i: nat, j: nat :: i < |infos| && j < |infos| && !infos[i].IsDir() && !infos[j].IsDir() ==>
      (targets[i] == targets[j] ==> NodeOf(infos[i]) == NodeOf(infos[j]))
  }

  /** What is found where a file was put is the last file put there. */
  lemma KeptIfLast(nodes: Nodes, dest: Path, targets: seq<Path>, infos: seq<Info>, i: nat) returns (last: nat)
    requires Placed(nodes, dest, targets, infos) && !Conflict(targets, infos, |infos|)
    requires i < |infos| && !infos[i].IsDir()
    ensures last < |infos| && !infos[last].IsDir() && targets[last] == targets[i]
    ensures FileKept(nodes, targets, infos, i) <==> NodeOf(infos[i]) == NodeOf(infos[last])
  {
    LayoutIs(nodes, dest, targets, infos, |infos|, targets[i]);
    assert FileTarget(targets, infos, |infos|, targets[i], i) && ProperPrefix(dest, targets[i]);
    last := SomeLast(targets, infos, |infos|, targets[i], i);
  }

  /** No file is lost exactly when files that share a place have the same contents. */
  lemma FilesKeptExactly(nodes: Nodes, dest: Path, targets: seq<Path>, infos: seq<Info>)
    requires Placed(nodes, dest, targets, infos) && !Conflict(targets, infos, |infos|)
    ensures (forall i: nat :: i < |infos| && !infos[i].IsDir() ==> FileKept(nodes, targets, infos, i))
       <==> SharedAlike(targets, infos)
  {
    if SharedAlike(targets, infos) {
      forall i: nat | i < |infos| && !infos[i].IsDir() ensures FileKept(nodes, targets, infos, i) {
        var last := KeptIfLast(nodes, dest, targets, infos, i);
      }
    }
    if forall i: nat :: i < |infos| && !infos[i].IsDir() ==> FileKept(nodes, targets, infos, i) {
      forall i: nat, j: nat | i < |infos| && j < |infos| && !infos[i].IsDir() && !infos[j].IsDir()
        ensures targets[i] == targets[j] ==> NodeOf(infos[i]) == NodeOf(infos[j])
      {
        assert FileKept(nodes, targets, infos, i) && FileKept(nodes, targets, infos, j);
      }
    }
  }

  /** With distinct places, as on every compatible disk, every file of the archive is where its name
      says, with its content. */
  lemma {:induction false} ExtractedExactly(nodes: Nodes, dest: Path, targets: seq<Path>, infos: seq<Info>, i: nat)
    requires Placed(nodes, dest, targets, infos) && !Conflict(targets, infos, |infos|) && Distinct(targets)
    requires i < |infos|
    ensures var after := Layout(nodes, targets, infos, |infos|);
      targets[i] !in nodes && targets[i] in after && after[targets[i]] == NodeOf(infos[i])
  {
    var n, q := |infos|, targets[i];
    LayoutIs(nodes, dest, targets, infos, n, q);
    assert ProperPrefix(dest, q) && Reached(targets, n, q, i);
    forall j | j != i ensures !FileTarget(targets, infos, n, q, j) {
      assert 0 <= j < i ==> targets[j] != targets[i];
      assert i < j < n ==> targets[i] != targets[j];
    }
    if infos[i].IsDir() {
      assert !FileTarget(targets, infos, n, q, i);
    } else {
      assert LastFile(targets, infos, n, q, i);
    }
  }

  lemma PrefixesComparable(dest: Path, target: Path, q: Path)
    requires ProperPrefix(dest, target) && (q == target || ProperPrefix(q, target))
    ensures ProperPrefix(dest, q) || (|q| <= |dest| && q == dest[..|q|])
  {
    assert q == target[..|q|];
    if |q| <= |dest| {
      assert dest[..|q|] == target[..|q|];
    } else {
      assert q[..|dest|] == target[..|dest|];
    }
  }

  lemma NewNodesBelow(nodes: Nodes, dest: Path, target: Path, q: Path)
    requires Rooted(nodes) && dest in nodes && ProperPrefix(dest, target) && q !in nodes
    requires q == target || ProperPrefix(q, target)
    ensures ProperPrefix(dest, q)
  {
    PrefixesComparable(dest, target, q);
    assert dest[..|dest|] == dest;
  }
}
