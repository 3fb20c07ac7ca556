/** The signed inventory of a release ZIP: built from the staged files, and checked against the
    members of the ZIP it ships in. */
module ReleaseInventory {
  import opened Documents
  import opened ReleaseArchive
  import opened Signatures
  import opened Wrappers

  const MAX_INVENTORY_BYTES := 0x10_0000
  const UPDATER_PROTOCOL := 1
  const SHA256_DIGITS := 64

  datatype Header = Header(version: string, target: string, sourceSha: string, layout: int)

  datatype Entry = Entry(path: string, size: nat, sha256: string)

  // ---- Documents

  function EntryDocument(e: Entry): Json {
    Obj(map[Path := Str(e.path), Size := Int(e.size), Sha256 := Str(e.sha256)])
  }

  function EntryDocuments(entries: seq<Entry>): seq<Json> {
    seq(|entries|, i requires 0 <= i < |entries| => EntryDocument(entries[i]))
  }

  function Document(h: Header, entries: seq<Entry>): Json {
    Obj(map[Schema := Int(SCHEMA), Version := Str(h.version), Target := Str(h.target), SourceSha := Str(h.sourceSha),
            UpdaterProtocol := Int(UPDATER_PROTOCOL), LayoutRevision := Int(h.layout),
            Files := List(EntryDocuments(entries))])
  }

  predicate HeaderMatches(j: Json, h: Header) {
    && j.Obj?
    && j.fields.Keys == {Schema, Version, Target, SourceSha, UpdaterProtocol, LayoutRevision, Files}
    && IsNumber(j.fields[Schema], SCHEMA)
    && j.fields[Version] == Str(h.version) && j.fields[Target] == Str(h.target)
       && j.fields[SourceSha] == Str(h.sourceSha)
    && IsNumber(j.fields[UpdaterProtocol], UPDATER_PROTOCOL) && IsNumber(j.fields[LayoutRevision], h.layout)
    && j.fields[Files].List? && 0 < |j.fields[Files].items| <= MAX_ENTRIES
  }

  /** A file entry of the right fields and types; sizes must be integers, not merely equal to one. */
  function ParseEntry(j: Json): Option<Entry> {
    if j.Obj? && j.fields.Keys == {Path, Size, Sha256} && j.fields[Path].Str?
       && j.fields[Size].Int? && 0 <= j.fields[Size].i <= MAX_ENTRY_BYTES
       && j.fields[Sha256].Str? && MatchesHex(j.fields[Sha256].s, SHA256_DIGITS)
    then Some(Entry(j.fields[Path].s, j.fields[Size].i, j.fields[Sha256].s))
    else None
  }

  // ---- Lists without repetition

  function Names(paths: seq<string>): set<string> {
    set i | 0 <= i < |paths| :: paths[i]
  }

  ghost predicate NoRepeat(paths: seq<string>) {
    forall i, j :: 0 <= i < j < |paths| ==> paths[i] != paths[j]
  }

  lemma NamesAppend(paths: seq<string>, path: string)
    ensures Names(paths + [path]) == Names(paths) + {path}
    ensures NoRepeat(paths + [path]) <==> NoRepeat(paths) && path !in Names(paths)
  {
    var all := paths + [path];
    assert forall i :: 0 <= i < |paths| ==> all[i] == paths[i];
    forall x ensures x in Names(all) <==> x in Names(paths) + {path} {
      if x in Names(paths) {
        var i :| 0 <= i < |paths| && paths[i] == x;
        assert all[i] == x;
      }
      if x == path {
        assert all[|paths|] == x;
      }
    }
    if NoRepeat(all) {
      forall i, j | 0 <= i < j < |paths| ensures paths[i] != paths[j] {
        assert all[i] != all[j];
      }
      forall i | 0 <= i < |paths| ensures paths[i] != path {
        assert all[i] != all[|paths|];
      }
    }
  }

  /** A list repeats nothing exactly when its set of elements is as large as the list. */
  lemma {:induction false} NoRepeatIffFullSize(paths: seq<string>)
    ensures |Names(paths)| <= |paths|
    ensures NoRepeat(paths) <==> |Names(paths)| == |paths|
    decreases |paths|
  {
    if paths != [] {
      var n := |paths| - 1;
      NoRepeatIffFullSize(paths[..n]);
      NamesAppend(paths[..n], paths[n]);
      assert paths == paths[..n] + [paths[n]];
      assert paths[n] in Names(paths[..n]) ==> Names(paths) == Names(paths[..n]);
    }
  }

  // ---- What the ZIP contains

  predicate Outside(name: string, inventoryPath: string, signaturePath: string) {
    name != inventoryPath && name != signaturePath
  }

  /** The bytes of a member; none if it is missing or does not decompress to its declared size. */
  function Content(infos: seq<Info>, name: string): Option<Bytes> {
    var i := Find(infos, name);
    if i.None? then None else infos[i.value].Content()
  }

  /** The paths, relative to `prefix`, of the files the inventory answers for. */
  function OwnedPaths(infos: seq<Info>, prefix: string, inventoryPath: string, signaturePath: string): set<string> {
    set name | name in FileNames(infos) && prefix <= name && Outside(name, inventoryPath, signaturePath) ::
        name[|prefix|..]
  }

  type Contents = map<string, Option<Bytes>>

  function Owned(infos: seq<Info>, prefix: string, inventoryPath: string, signaturePath: string): Contents {
    map path | path in OwnedPaths(infos, prefix, inventoryPath, signaturePath) :: Content(infos, prefix + path)
  }

  lemma OwnedPathIs(infos: seq<Info>, prefix: string, inventoryPath: string, signaturePath: string, path: string)
    ensures path in Owned(infos, prefix, inventoryPath, signaturePath) <==>
              prefix + path in FileNames(infos) && Outside(prefix + path, inventoryPath, signaturePath)
  {
    assert (prefix + path)[|prefix|..] == path;
    if path in OwnedPaths(infos, prefix, inventoryPath, signaturePath) {
      var name :| name in FileNames(infos) && prefix <= name && Outside(name, inventoryPath, signaturePath)
                  && path == name[|prefix|..];
      assert name == prefix + path;
    }
  }

  // ---- The check

  /** One list entry agrees with the owned file it names. */
  predicate Agrees(hash: Bytes -> string, owned: Contents, j: Json) {
    var e := ParseEntry(j);
    e.Some? && e.value.path in owned && owned[e.value.path].Some?
    && e.value.size == |owned[e.value.path].value| && e.value.sha256 == hash(owned[e.value.path].value)
  }

  function PathOf(j: Json): string {
    var e := ParseEntry(j);
    if e.Some? then e.value.path else ""
  }

  function PathsOf(items: seq<Json>): seq<string> {
    if items == [] then [] else PathsOf(items[..|items| - 1]) + [PathOf(items[|items| - 1])]
  }

  lemma {:induction false} PathsOfAt(items: seq<Json>, i: nat)
    requires i < |items|
    ensures |PathsOf(items)| == |items| && PathsOf(items)[i] == PathOf(items[i])
    decreases |items|
  {
    var init := items[..|items| - 1];
    if i < |init| {
      PathsOfAt(init, i);
    } else if init != [] {
      PathsOfAt(init, 0);
    }
  }

  /** The list names every owned file exactly once, with its size and hash. */
  ghost predicate ListsExactly(hash: Bytes -> string, owned: Contents, items: seq<Json>) {
    && (forall i :: 0 <= i < |items| ==> Agrees(hash, owned, items[i]))
    && NoRepeat(PathsOf(items))
    && Names(PathsOf(items)) == owned.Keys
  }

  method VerifyList(hash: Bytes -> string, owned: Contents, items: seq<Json>) returns (ok: bool)
    ensures ok <==> ListsExactly(hash, owned, items)
  {
    var paths: seq<string> := [];
    for i := 0 to |items|
      invariant forall j :: 0 <= j < i ==> Agrees(hash, owned, items[j])
      invariant paths == PathsOf(items[..i])
    {
      if !Agrees(hash, owned, items[i]) {
        return false;
      }
      assert items[..i + 1][..i] == items[..i];
      paths := paths + [PathOf(items[i])];
    }
    assert items[..|items|] == items;
    NoRepeatIffFullSize(paths);
    return |Names(paths)| == |paths| && Names(paths) == owned.Keys;
  }

  ghost predicate Inventoried(scheme: Scheme, hash: Bytes -> string, trust: Trust, infos: seq<Info>, prefix: string,
                              inventoryPath: string, signaturePath: string, h: Header) {
    var raw := Read(infos, inventoryPath, MAX_INVENTORY_BYTES);
    var signature := Read(infos, signaturePath, MAX_SIGNATURE_BYTES);
    && raw.Some? && signature.Some?
    && Signed(scheme, trust, INVENTORY_DOMAIN, raw.value, signature.value)
    && Describes(scheme, hash, raw.value, Owned(infos, prefix, inventoryPath, signaturePath), h)
  }

  /** The inventory bytes are a document for this release that lists these files. */
  ghost predicate Describes(scheme: Scheme, hash: Bytes -> string, raw: Bytes, owned: Contents, h: Header) {
    var document := scheme.decode(raw);
    document.Some? && HeaderMatches(document.value, h) && ListsExactly(hash, owned, document.value.fields[Files].items)
  }

  method VerifyArchiveInventory(scheme: Scheme, hash: Bytes -> string, trust: Trust, infos: seq<Info>, prefix: string,
                                inventoryPath: string, signaturePath: string, h: Header)
    returns (r: Result<string, ReleaseError>)
    ensures r.Ok? <==> Inventoried(scheme, hash, trust, infos, prefix, inventoryPath, signaturePath, h)
    ensures r.Ok? ==> r.value == hash(Read(infos, inventoryPath, MAX_INVENTORY_BYTES).value)
  {
    var raw := Read(infos, inventoryPath, MAX_INVENTORY_BYTES);
    var signature := Read(infos, signaturePath, MAX_SIGNATURE_BYTES);
    if raw.None? || signature.None? {
      return Err(ReleaseError);
    }
    var signed := VerifySignature(scheme, trust, INVENTORY_DOMAIN, raw.value, signature.value);
    if signed.Err? {
      return Err(ReleaseError);
    }
    var document := scheme.decode(raw.value);
    if document.None? || !HeaderMatches(document.value, h) {
      return Err(ReleaseError);
    }
    var listed := VerifyList(hash, Owned(infos, prefix, inventoryPath, signaturePath),
        document.value.fields[Files].items);
    if !listed {
      return Err(ReleaseError);
    }
    return Ok(hash(raw.value));
  }

  // ---- What acceptance means

  /** No two of these files that share a name have the same hash and different bytes. */
  ghost predicate NoHashCollision(hash: Bytes -> string, a: Contents, b: Contents) {
    forall path :: path in a && path in b && a[path].Some? && b[path].Some? ==>
      (hash(a[path].value) == hash(b[path].value) ==> a[path] == b[path])
  }

  /** The one entry for an owned file. */
  lemma EntryFor(hash: Bytes -> string, owned: Contents, items: seq<Json>, path: string) returns (i: nat)
    requires ListsExactly(hash, owned, items) && path in owned
    ensures i < |items| && PathOf(items[i]) == path && Agrees(hash, owned, items[i])
    ensures forall j :: 0 <= j < |items| && PathOf(items[j]) == path ==> j == i
  {
    assert path in Names(PathsOf(items));
    i :| 0 <= i < |PathsOf(items)| && PathsOf(items)[i] == path;
    if items != [] {
      PathsOfAt(items, 0);
    }
    PathsOfAt(items, i);
    forall j | 0 <= j < |items| && PathOf(items[j]) == path ensures j == i {
      PathsOfAt(items, j);
    }
  }

  /** A list determines the names, sizes and hashes of the files it is accepted for. */
  lemma ListDetermines(hash: Bytes -> string, a: Contents, b: Contents, items: seq<Json>)
    requires ListsExactly(hash, a, items) && ListsExactly(hash, b, items)
    ensures a.Keys == b.Keys
    ensures forall path :: path in a ==> && a[path].Some? && b[path].Some? && |a[path].value| == |b[path].value|
                                         && hash(a[path].value) == hash(b[path].value)
  {
    assert a.Keys == b.Keys;
    forall path | path in a
      ensures a[path].Some? && b[path].Some? && |a[path].value| == |b[path].value|
      ensures hash(a[path].value) == hash(b[path].value)
    {
      var i := EntryFor(hash, a, items, path);
      assert Agrees(hash, b, items[i]);
    }
  }

  /** One inventory describes one release and one set of files, unless two files collide. */
  lemma InventoryDetermines(scheme: Scheme, hash: Bytes -> string, raw: Bytes, a: Contents, b: Contents, h: Header,
                            h': Header)
    requires Describes(scheme, hash, raw, a, h) && Describes(scheme, hash, raw, b, h')
    ensures h == h'
    ensures a == b <==> NoHashCollision(hash, a, b)
  {
    ListDetermines(hash, a, b, scheme.decode(raw).value.fields[Files].items);
    if NoHashCollision(hash, a, b) {
      assert forall path :: path in a ==> a[path] == b[path];
    }
  }

  /** Two ZIPs accepted with the same inventory bytes are of one release and own the same files,
      byte for byte, exactly when the hash separates the files that share a name. */
  lemma {:induction false} SameInventorySameBytes(scheme: Scheme, hash: Bytes -> string, trust: Trust, a: seq<Info>,
                                                  b: seq<Info>, prefix: string, inventoryPath: string,
                                                  signaturePath: string, h: Header, h': Header)
    requires Inventoried(scheme, hash, trust, a, prefix, inventoryPath, signaturePath, h)
    requires Inventoried(scheme, hash, trust, b, prefix, inventoryPath, signaturePath, h')
    requires Read(a, inventoryPath, MAX_INVENTORY_BYTES) == Read(b, inventoryPath, MAX_INVENTORY_BYTES)
    ensures h == h'
    ensures var ownedA := Owned(a, prefix, inventoryPath, signaturePath);
      var ownedB := Owned(b, prefix, inventoryPath, signaturePath);
      ownedA == ownedB <==> NoHashCollision(hash, ownedA, ownedB)
  {
    InventoryDetermines(scheme, hash, Read(a, inventoryPath, MAX_INVENTORY_BYTES).value,
                        Owned(a, prefix, inventoryPath, signaturePath), Owned(b, prefix, inventoryPath, signaturePath),
                        h, h');
  }

  // ---- Building

  type Tree = map<string, Bytes>

  /** Sizes a file system can report, and a layout revision of 64 bits. */
  predicate Stored(tree: Tree, h: Header) {
    0 <= h.layout <= U64_MAX && forall path | path in tree :: |tree[path]| <= U64_MAX
  }

  predicate Within(walk: seq<string>, tree: Tree) {
    forall i :: 0 <= i < |walk| ==> walk[i] in tree
  }

  /** A directory walk: every file once. */
  ghost predicate Walks(walk: seq<string>, tree: Tree) {
    NoRepeat(walk) && Names(walk) == tree.Keys && Within(walk, tree)
  }

  function Kept(walk: seq<string>, skip: set<string>): (kept: seq<string>)
    ensures |kept| <= |walk|
    ensures forall i :: 0 <= i < |kept| ==> kept[i] in walk && kept[i] !in skip
  {
    if walk == [] then []
    else
      var last := walk[|walk| - 1];
      Kept(walk[..|walk| - 1], skip) + if last in skip then [] else [last]
  }

  function EntryOf(hash: Bytes -> string, tree: Tree, path: string): Entry
    requires path in tree
  {
    Entry(path, |tree[path]|, hash(tree[path]))
  }

  function EntriesOf(hash: Bytes -> string, tree: Tree, walk: seq<string>): (entries: seq<Entry>)
    requires Within(walk, tree)
    ensures |entries| == |walk|
    ensures forall i :: 0 <= i < |walk| ==> entries[i] == EntryOf(hash, tree, walk[i])
  {
    if walk == [] then []
    else EntriesOf(hash, tree, walk[..|walk| - 1]) + [EntryOf(hash, tree, walk[|walk| - 1])]
  }

  function Folds(u: Unicode, walk: seq<string>): (folds: seq<string>)
    ensures |folds| == |walk| && forall i :: 0 <= i < |walk| ==> folds[i] == u.fold(walk[i])
  {
    if walk == [] then [] else Folds(u, walk[..|walk| - 1]) + [u.fold(walk[|walk| - 1])]
  }

  predicate AllValid(u: Unicode, walk: seq<string>) {
    forall i :: 0 <= i < |walk| ==> ValidName(u, walk[i])
  }

  ghost predicate Listable(u: Unicode, walk: seq<string>) {
    AllValid(u, walk) && NoRepeat(Folds(u, walk))
  }

  lemma ListablePrefix(u: Unicode, rels: seq<string>, n: nat)
    requires n <= |rels| && Listable(u, rels)
    ensures Listable(u, rels[..n])
  {
    var folds, some := Folds(u, rels), Folds(u, rels[..n]);
    assert some == folds[..n];
    forall i, j | 0 <= i < j < n ensures some[i] != some[j] {
      assert folds[i] != folds[j];
    }
    forall i | 0 <= i < n ensures ValidName(u, rels[..n][i]) {
      assert ValidName(u, rels[i]);
    }
  }

  lemma {:induction false} KeptPrefix(walk: seq<string>, skip: set<string>, n: nat)
    requires n <= |walk|
    ensures Kept(walk[..n], skip) <= Kept(walk, skip)
    decreases |walk|
  {
    if n == |walk| {
      assert walk[..n] == walk;
    } else {
      KeptPrefix(walk[..|walk| - 1], skip, n);
      assert walk[..|walk| - 1][..n] == walk[..n];
    }
  }

  lemma {:induction false} ListableKept(u: Unicode, walk: seq<string>, skip: set<string>, n: nat)
    requires n <= |walk|
    ensures Listable(u, Kept(walk, skip)) ==> Listable(u, Kept(walk[..n], skip))
  {
    KeptPrefix(walk, skip, n);
    if Listable(u, Kept(walk, skip)) {
      ListablePrefix(u, Kept(walk, skip), |Kept(walk[..n], skip)|);
    }
  }

  lemma KeptNext(walk: seq<string>, skip: set<string>, i: nat)
    requires i < |walk|
    ensures Kept(walk[..i + 1], skip) == Kept(walk[..i], skip) + if walk[i] in skip then [] else [walk[i]]
  {
    assert walk[..i + 1][..i] == walk[..i];
  }

  lemma EntriesNext(hash: Bytes -> string, tree: Tree, walk: seq<string>, path: string)
    requires Within(walk, tree) && path in tree
    ensures Within(walk + [path], tree)
    ensures EntriesOf(hash, tree, walk + [path]) == EntriesOf(hash, tree, walk) + [EntryOf(hash, tree, path)]
  {
    assert (walk + [path])[..|walk|] == walk;
  }

  lemma ListableAppend(u: Unicode, walk: seq<string>, path: string)
    ensures Listable(u, walk + [path])
            <==> Listable(u, walk) && ValidName(u, path) && u.fold(path) !in Names(Folds(u, walk))
    ensures Names(Folds(u, walk + [path])) == Names(Folds(u, walk)) + {u.fold(path)}
  {
    var all := walk + [path];
    assert all[..|walk|] == walk && all[|walk|] == path;
    NamesAppend(Folds(u, walk), u.fold(path));
    if AllValid(u, all) {
      forall i | 0 <= i < |walk| ensures ValidName(u, walk[i]) {
        assert ValidName(u, all[i]);
      }
    }
  }

  /** The next kept path decides whether the walk can still be listed. */
  lemma {:induction false} KeepOne(u: Unicode, walk: seq<string>, skip: set<string>, i: nat, kept: seq<string>)
    requires i < |walk| && walk[i] !in skip && kept == Kept(walk[..i], skip) && Listable(u, kept)
    ensures Kept(walk[..i + 1], skip) == kept + [walk[i]]
    ensures Listable(u, kept + [walk[i]]) <==> ValidName(u, walk[i]) && u.fold(walk[i]) !in Names(Folds(u, kept))
    ensures Listable(u, Kept(walk, skip)) ==> Listable(u, kept + [walk[i]])
    ensures Names(Folds(u, kept + [walk[i]])) == Names(Folds(u, kept)) + {u.fold(walk[i])}
  {
    KeptNext(walk, skip, i);
    ListableAppend(u, kept, walk[i]);
    ListableKept(u, walk, skip, i + 1);
  }

  method InventoryFiles(u: Unicode, hash: Bytes -> string, tree: Tree, walk: seq<string>, skip: set<string>)
    returns (r: Result<seq<Entry>, ReleaseError>)
    requires Within(walk, tree)
    ensures r.Ok? <==> Listable(u, Kept(walk, skip))
    ensures r.Ok? ==> Within(Kept(walk, skip), tree) && r.value == EntriesOf(hash, tree, Kept(walk, skip))
  {
    var files: seq<Entry> := [];
    var seen: set<string> := {};
    ghost var kept: seq<string> := [];
    for i := 0 to |walk|
      invariant kept == Kept(walk[..i], skip)
      invariant Within(kept, tree) && Listable(u, kept)
      invariant files == EntriesOf(hash, tree, kept) && seen == Names(Folds(u, kept))
    {
      var rel := walk[i];
      KeptNext(walk, skip, i);
      if rel !in skip {
        KeepOne(u, walk, skip, i, kept);
        EntriesNext(hash, tree, kept, rel);
        var named := ValidateMemberName(u, rel);
        if !named || u.fold(rel) in seen {
          return Err(ReleaseError);
        }
        kept := kept + [rel];
        seen := seen + {u.fold(rel)};
        files := files + [EntryOf(hash, tree, rel)];
      }
    }
    assert walk[..|walk|] == walk;
    return Ok(files);
  }

  /** The staged file as a ZIP member; names outside ASCII set a flag. */
  function MemberOf(tree: Tree, path: string, deflated: Bytes -> nat, ascii: string -> bool): Info
    requires path in tree
  {
    Info(path, if ascii(path) then 0 else 0x800, DEFLATED, |tree[path]|, deflated(tree[path]), 3, 0x1A4_0000,
         Some(tree[path]))
  }

  function MembersOf(tree: Tree, walk: seq<string>, deflated: Bytes -> nat, ascii: string -> bool): (infos: seq<Info>)
    requires Within(walk, tree)
    ensures |infos| == |walk|
    ensures forall i :: 0 <= i < |walk| ==> infos[i] == MemberOf(tree, walk[i], deflated, ascii)
  {
    if walk == [] then []
    else
      MembersOf(tree, walk[..|walk| - 1], deflated, ascii) + [MemberOf(tree, walk[|walk| - 1], deflated, ascii)]
  }

  lemma MembersNext(tree: Tree, walk: seq<string>, path: string, deflated: Bytes -> nat, ascii: string -> bool)
    requires Within(walk, tree) && path in tree
    ensures Within(walk + [path], tree)
    ensures MembersOf(tree, walk + [path], deflated, ascii)
         == MembersOf(tree, walk, deflated, ascii) + [MemberOf(tree, path, deflated, ascii)]
  {
    assert (walk + [path])[..|walk|] == walk;
  }

  lemma AllValidNext(u: Unicode, walk: seq<string>, path: string)
    requires AllValid(u, walk) && ValidName(u, path)
    ensures AllValid(u, walk + [path])
  {
  }

  method MakeZip(u: Unicode, tree: Tree, walk: seq<string>, deflated: Bytes -> nat, ascii: string -> bool)
    returns (r: Result<seq<Info>, ReleaseError>)
    requires Within(walk, tree)
    ensures r.Ok? <==> AllValid(u, walk)
    ensures r.Ok? ==> r.value == MembersOf(tree, walk, deflated, ascii)
  {
    var infos: seq<Info> := [];
    ghost var done: seq<string> := [];
    for i := 0 to |walk|
      invariant done == walk[..i] && Within(done, tree) && AllValid(u, done)
      invariant infos == MembersOf(tree, done, deflated, ascii)
    {
      var rel := walk[i];
      var named := ValidateMemberName(u, rel);
      if !named {
        return Err(ReleaseError);
      }
      MembersNext(tree, done, rel, deflated, ascii);
      AllValidNext(u, done, rel);
      infos := infos + [MemberOf(tree, rel, deflated, ascii)];
      done := done + [rel];
    }
    assert walk[..|walk|] == walk;
    return Ok(infos);
  }
}
