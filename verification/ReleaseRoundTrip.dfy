/** From a staging directory to an accepted ZIP: inventory, sign, zip, open, verify. */
module ReleaseRoundTrip {
  import opened Documents
  import opened ReleaseArchive
  import opened ReleaseInventory
  import opened Signatures
  import opened Wrappers

  ghost predicate HexHash(hash: Bytes -> string) {
    forall b :: MatchesHex(hash(b), 64)
  }

  function Present(tree: Tree): Contents {
    map path | path in tree :: Some(tree[path])
  }

  predicate Sized(tree: Tree) {
    forall path | path in tree :: |tree[path]| <= MAX_ENTRY_BYTES
  }

  function Inventory(scheme: Scheme, hash: Bytes -> string, tree: Tree, walk: seq<string>, h: Header): Bytes
    requires Within(walk, tree)
  {
    scheme.encode(Document(h, EntriesOf(hash, tree, walk)))
  }

  lemma ParsesBack(e: Entry)
    ensures ParseEntry(EntryDocument(e)) ==
              if e.size <= MAX_ENTRY_BYTES && MatchesHex(e.sha256, SHA256_DIGITS) then Some(e) else None
  {
  }

  lemma {:induction false} PathsOfDocuments(entries: seq<Entry>)
    requires forall i :: 0 <= i < |entries| ==>
             entries[i].size <= MAX_ENTRY_BYTES && MatchesHex(entries[i].sha256, SHA256_DIGITS)
    ensures |PathsOf(EntryDocuments(entries))| == |entries|
    ensures forall i :: 0 <= i < |entries| ==> PathsOf(EntryDocuments(entries))[i] == entries[i].path
  {
    var items := EntryDocuments(entries);
    if entries == [] {
      assert PathsOf(items) == [];
    }
    forall i | 0 <= i < |entries| ensures |PathsOf(items)| == |entries| && PathsOf(items)[i] == entries[i].path {
      PathsOfAt(items, i);
      ParsesBack(entries[i]);
      assert items[i] == EntryDocument(entries[i]);
    }
  }

  lemma BuiltAgrees(hash: Bytes -> string, tree: Tree, walk: seq<string>, i: nat)
    requires HexHash(hash) && Within(walk, tree) && i < |walk|
    ensures Agrees(hash, Present(tree), EntryDocuments(EntriesOf(hash, tree, walk))[i])
            <==> |tree[walk[i]]| <= MAX_ENTRY_BYTES
  {
    var entries := EntriesOf(hash, tree, walk);
    ParsesBack(entries[i]);
    assert EntryDocuments(entries)[i] == EntryDocument(entries[i]);
  }

  lemma BuiltPaths(hash: Bytes -> string, tree: Tree, walk: seq<string>)
    requires HexHash(hash) && Within(walk, tree) && Sized(tree)
    ensures PathsOf(EntryDocuments(EntriesOf(hash, tree, walk))) == walk
  {
    PathsOfDocuments(EntriesOf(hash, tree, walk));
  }

  /** The inventory of a tree lists exactly that tree, if no file is too big to be listed. */
  lemma BuiltListsExactly(hash: Bytes -> string, tree: Tree, walk: seq<string>)
    requires HexHash(hash) && Walks(walk, tree)
    ensures ListsExactly(hash, Present(tree), EntryDocuments(EntriesOf(hash, tree, walk))) <==> Sized(tree)
  {
    var items := EntryDocuments(EntriesOf(hash, tree, walk));
    if Sized(tree) {
      forall i | 0 <= i < |items| ensures Agrees(hash, Present(tree), items[i]) {
        BuiltAgrees(hash, tree, walk, i);
      }
      BuiltPaths(hash, tree, walk);
    } else {
      var path :| path in tree && |tree[path]| > MAX_ENTRY_BYTES;
      assert path in Names(walk);
      var i :| 0 <= i < |walk| && walk[i] == path;
      BuiltAgrees(hash, tree, walk, i);
    }
  }

  lemma InventoryPrints(hash: Bytes -> string, tree: Tree, walk: seq<string>, h: Header)
    requires Within(walk, tree) && Stored(tree, h)
    ensures Printable(Document(h, EntriesOf(hash, tree, walk)))
  {
    var entries := EntriesOf(hash, tree, walk);
    var items := EntryDocuments(entries);
    forall i | 0 <= i < |items| ensures Printable(items[i]) {
      assert entries[i].size <= U64_MAX;
      EntryPrints(entries[i]);
    }
    assert Printable(List(items));
    var document := Document(h, entries);
    assert document.fields.Keys == {Schema, Version, Target, SourceSha, UpdaterProtocol, LayoutRevision, Files};
    assert document.fields[Files] == List(items);
  }

  lemma EntryPrints(e: Entry)
    requires e.size <= U64_MAX
    ensures Printable(EntryDocument(e))
  {
    assert EntryDocument(e).fields.Keys == {Path, Size, Sha256};
  }

  /** The inventory document is accepted for the tree it was built from exactly within its limits. */
  lemma BuiltDescribes(scheme: Scheme, hash: Bytes -> string, tree: Tree, walk: seq<string>, h: Header)
    requires scheme.Lawful() && HexHash(hash) && Walks(walk, tree) && Stored(tree, h)
    ensures Describes(scheme, hash, Inventory(scheme, hash, tree, walk, h), Present(tree), h)
            <==> 0 < |walk| <= MAX_ENTRIES && Sized(tree)
  {
    var document := Document(h, EntriesOf(hash, tree, walk));
    InventoryPrints(hash, tree, walk, h);
    assert scheme.decode(Inventory(scheme, hash, tree, walk, h)) == Some(document);
    BuiltListsExactly(hash, tree, walk);
    BuiltHeader(h, EntriesOf(hash, tree, walk));
  }

  lemma BuiltHeader(h: Header, entries: seq<Entry>)
    ensures HeaderMatches(Document(h, entries), h) <==> 0 < |entries| <= MAX_ENTRIES
    ensures Document(h, entries).fields[Files] == List(EntryDocuments(entries))
  {
    var document := Document(h, entries);
    assert document.fields.Keys == {Schema, Version, Target, SourceSha, UpdaterProtocol, LayoutRevision, Files};
  }

  /** A ZIP that owns the tree's files and carries its signed inventory passes exactly when the
      inventory fits its limits, wherever the two extra files are kept. */
  lemma BuiltInventoryAccepted(scheme: Scheme, hash: Bytes -> string, trust: Trust, infos: seq<Info>, prefix: string,
                               inventoryPath: string, signaturePath: string, h: Header,
                               tree: Tree, walk: seq<string>, keyId: string, seed: Bytes)
    requires scheme.Lawful() && HexHash(hash) && Walks(walk, tree) && Stored(tree, h)
    requires |seed| == SEED_LENGTH && keyId in trust && trust[keyId] == scheme.publicKey(seed)
    requires Owned(infos, prefix, inventoryPath, signaturePath) == Present(tree)
    requires Content(infos, inventoryPath) == Some(Inventory(scheme, hash, tree, walk, h))
    requires Content(infos, signaturePath)
          == Some(SignatureFile(scheme, INVENTORY_DOMAIN, Inventory(scheme, hash, tree, walk, h), keyId, seed))
    ensures Inventoried(scheme, hash, trust, infos, prefix, inventoryPath, signaturePath, h) <==>
              && |Inventory(scheme, hash, tree, walk, h)| <= MAX_INVENTORY_BYTES
              && |SignatureFile(scheme, INVENTORY_DOMAIN, Inventory(scheme, hash, tree, walk, h), keyId, seed)|
                 <= MAX_SIGNATURE_BYTES
              && 0 < |walk| <= MAX_ENTRIES && Sized(tree)
  {
    var raw := Inventory(scheme, hash, tree, walk, h);
    var file := SignatureFile(scheme, INVENTORY_DOMAIN, raw, keyId, seed);
    ReadIsContent(infos, inventoryPath, MAX_INVENTORY_BYTES);
    ReadIsContent(infos, signaturePath, MAX_SIGNATURE_BYTES);
    BuiltDescribes(scheme, hash, tree, walk, h);
    if |file| <= MAX_SIGNATURE_BYTES {
      SignedVerifies(scheme, trust, INVENTORY_DOMAIN, raw, keyId, seed);
    }
  }

  lemma ReadIsContent(infos: seq<Info>, name: string, limit: nat)
    requires Content(infos, name).Some?
    ensures Read(infos, name, limit) == if |Content(infos, name).value| <= limit then Content(infos, name) else None
  {
  }

  // ---- The staged directory as a ZIP

  predicate FilePath(path: string) {
    path != "" && path[|path| - 1] != '/'
  }

  predicate FilePaths(tree: Tree) {
    forall path | path in tree :: FilePath(path)
  }

  predicate Compresses(data: Bytes, deflated: Bytes -> nat) {
    |data| > RATIO_MIN_BYTES ==> |data| <= (if deflated(data) > 1 then deflated(data) else 1) * MAX_RATIO
  }

  function TreeSize(tree: Tree, walk: seq<string>): nat
    requires Within(walk, tree)
  {
    if walk == [] then 0 else TreeSize(tree, walk[..|walk| - 1]) + |tree[walk[|walk| - 1]]|
  }

  /** The limits a staged directory must keep so that its ZIP is accepted.  The ratio rule is one
      of them: a large file that compresses too well is refused. */
  ghost predicate StagingLimits(u: Unicode, size: nat, tree: Tree, walk: seq<string>, deflated: Bytes -> nat)
    requires Within(walk, tree)
  {
    && 0 < size <= MAX_ARCHIVE_BYTES && 0 < |walk| <= MAX_ENTRIES
    && Listable(u, walk)
    && (forall i :: 0 <= i < |walk| ==> |tree[walk[i]]| <= MAX_ENTRY_BYTES && Compresses(tree[walk[i]], deflated))
    && TreeSize(tree, walk) <= MAX_UNPACKED_BYTES
  }

  lemma MemberOk(tree: Tree, path: string, deflated: Bytes -> nat, ascii: string -> bool)
    requires path in tree
    ensures EntryOk(MemberOf(tree, path, deflated, ascii)) <==>
              |tree[path]| <= MAX_ENTRY_BYTES && Compresses(tree[path], deflated)
  {
    var x := MemberOf(tree, path, deflated, ascii);
    assert x.Mode() == 0x1A4 && x.Kind() == 0 && x.Mode() / 1024 % 4 == 0;
  }

  lemma {:induction false} UnpackedMembers(tree: Tree, walk: seq<string>, deflated: Bytes -> nat, ascii: string -> bool)
    requires Within(walk, tree)
    ensures Unpacked(MembersOf(tree, walk, deflated, ascii)) == TreeSize(tree, walk)
    decreases |walk|
  {
    if walk != [] {
      var n := |walk| - 1;
      UnpackedMembers(tree, walk[..n], deflated, ascii);
      assert MembersOf(tree, walk, deflated, ascii)[..n] == MembersOf(tree, walk[..n], deflated, ascii);
    }
  }

  lemma MemberKey(u: Unicode, tree: Tree, path: string, deflated: Bytes -> nat, ascii: string -> bool)
    requires path in tree && FilePath(path)
    ensures Key(u, MemberOf(tree, path, deflated, ascii)) == u.fold(path)
    ensures !MemberOf(tree, path, deflated, ascii).IsDir()
  {
  }

  /** The ZIP of a directory is accepted exactly when the directory keeps the limits. */
  lemma {:induction false} StagedZipAcceptable(u: Unicode, size: nat, tree: Tree, walk: seq<string>,
                                               deflated: Bytes -> nat, ascii: string -> bool)
    requires Walks(walk, tree) && FilePaths(tree)
    ensures Acceptable(u, size, MembersOf(tree, walk, deflated, ascii))
            <==> StagingLimits(u, size, tree, walk, deflated)
  {
    var infos := MembersOf(tree, walk, deflated, ascii);
    UnpackedMembers(tree, walk, deflated, ascii);
    StagedEntriesOk(u, tree, walk, deflated, ascii);
    StagedNoCollision(u, tree, walk, deflated, ascii);
  }

  lemma StagedEntriesOk(u: Unicode, tree: Tree, walk: seq<string>, deflated: Bytes -> nat, ascii: string -> bool)
    requires Within(walk, tree)
    ensures EntriesOk(u, MembersOf(tree, walk, deflated, ascii)) <==>
              AllValid(u, walk)
              && forall i :: 0 <= i < |walk| ==>
                 |tree[walk[i]]| <= MAX_ENTRY_BYTES && Compresses(tree[walk[i]], deflated)
  {
    var infos := MembersOf(tree, walk, deflated, ascii);
    forall i | 0 <= i < |walk|
      ensures EntryOk(infos[i]) <==> |tree[walk[i]]| <= MAX_ENTRY_BYTES && Compresses(tree[walk[i]], deflated)
      ensures infos[i].filename == walk[i]
    {
      MemberOk(tree, walk[i], deflated, ascii);
    }
    if EntriesOk(u, infos) {
      forall i | 0 <= i < |walk|
        ensures ValidName(u, walk[i]) && |tree[walk[i]]| <= MAX_ENTRY_BYTES && Compresses(tree[walk[i]], deflated)
      {
        assert ValidName(u, infos[i].filename) && EntryOk(infos[i]);
      }
    }
  }

  lemma StagedNoCollision(u: Unicode, tree: Tree, walk: seq<string>, deflated: Bytes -> nat, ascii: string -> bool)
    requires Within(walk, tree) && FilePaths(tree)
    ensures NoCollision(u, MembersOf(tree, walk, deflated, ascii)) <==> NoRepeat(Folds(u, walk))
  {
    var infos, folds := MembersOf(tree, walk, deflated, ascii), Folds(u, walk);
    forall i | 0 <= i < |walk| ensures Key(u, infos[i]) == folds[i] {
      MemberKey(u, tree, walk[i], deflated, ascii);
    }
    if NoCollision(u, infos) {
      forall i, j | 0 <= i < j < |folds| ensures folds[i] != folds[j] {
        assert Key(u, infos[i]) != Key(u, infos[j]);
      }
    }
    if NoRepeat(folds) {
      forall i, j | 0 <= i < j < |infos| ensures Key(u, infos[i]) != Key(u, infos[j]) {
        assert folds[i] != folds[j];
      }
    }
  }

  lemma MemberAt(tree: Tree, walk: seq<string>, deflated: Bytes -> nat, ascii: string -> bool, i: nat)
    requires Within(walk, tree) && FilePaths(tree) && i < |walk|
    ensures var x := MembersOf(tree, walk, deflated, ascii)[i];
      x.filename == walk[i] && !x.IsDir() && x.Content() == Some(tree[walk[i]])
  {
    assert MembersOf(tree, walk, deflated, ascii)[i] == MemberOf(tree, walk[i], deflated, ascii);
    MemberKey(Unicode(s => 0, s => s, s => s), tree, walk[i], deflated, ascii);
  }

  lemma StagedFound(tree: Tree, walk: seq<string>, deflated: Bytes -> nat, ascii: string -> bool, path: string)
    requires Walks(walk, tree) && FilePaths(tree)
    ensures Find(MembersOf(tree, walk, deflated, ascii), path).Some? <==> path in tree
  {
    var infos := MembersOf(tree, walk, deflated, ascii);
    if path in tree {
      assert path in Names(walk);
      var i :| 0 <= i < |walk| && walk[i] == path;
      MemberAt(tree, walk, deflated, ascii, i);
      assert IsFile(infos, path, i);
    }
    var found := Find(infos, path);
    if found.Some? {
      MemberAt(tree, walk, deflated, ascii, found.value);
    }
  }

  lemma StagedContent(tree: Tree, walk: seq<string>, deflated: Bytes -> nat, ascii: string -> bool, path: string)
    requires Walks(walk, tree) && FilePaths(tree)
    ensures path in FileNames(MembersOf(tree, walk, deflated, ascii)) <==> path in tree
    ensures path in tree ==> Content(MembersOf(tree, walk, deflated, ascii), path) == Some(tree[path])
  {
    var infos := MembersOf(tree, walk, deflated, ascii);
    FileNamesAreFound(infos, path);
    StagedFound(tree, walk, deflated, ascii, path);
    var found := Find(infos, path);
    if found.Some? {
      MemberAt(tree, walk, deflated, ascii, found.value);
    }
  }

  function Staged(tree: Tree, inventoryPath: string, raw: Bytes, signaturePath: string, file: Bytes): Tree {
    tree[inventoryPath := raw][signaturePath := file]
  }

  /** A ZIP owns a tree when its members under the prefix, the two extra files aside, are that tree. */
  lemma OwnsTree(infos: seq<Info>, prefix: string, inventoryPath: string, signaturePath: string, tree: Tree)
    requires forall path ::
      prefix + path in FileNames(infos) && Outside(prefix + path, inventoryPath, signaturePath) <==> path in tree
    requires forall path :: path in tree ==> Content(infos, prefix + path) == Some(tree[path])
    ensures Owned(infos, prefix, inventoryPath, signaturePath) == Present(tree)
  {
    forall path ensures path in OwnedPaths(infos, prefix, inventoryPath, signaturePath) <==> path in tree {
      OwnedPathIs(infos, prefix, inventoryPath, signaturePath, path);
    }
  }

  lemma {:induction false} StagedOwns(tree: Tree, staged: Tree, walk: seq<string>, deflated: Bytes -> nat,
                                      ascii: string -> bool,
                                      inventoryPath: string, signaturePath: string)
    requires Walks(walk, staged) && FilePaths(staged)
    requires inventoryPath !in tree && signaturePath !in tree
    requires staged.Keys == tree.Keys + {inventoryPath, signaturePath}
    requires forall path :: path in tree ==> staged[path] == tree[path]
    ensures Owned(MembersOf(staged, walk, deflated, ascii), "", inventoryPath, signaturePath) == Present(tree)
  {
    var infos := MembersOf(staged, walk, deflated, ascii);
    forall path
      ensures "" + path in FileNames(infos) && Outside("" + path, inventoryPath, signaturePath) <==> path in tree
      ensures path in tree ==> Content(infos, "" + path) == Some(tree[path])
    {
      assert "" + path == path;
      StagedContent(staged, walk, deflated, ascii, path);
      assert path in staged.Keys <==> path in tree.Keys + {inventoryPath, signaturePath};
    }
    OwnsTree(infos, "", inventoryPath, signaturePath, tree);
  }

  lemma {:induction false} WalkIsSmaller(walk: seq<string>, tree: Tree, walk': seq<string>, tree': Tree)
    requires Walks(walk, tree) && Walks(walk', tree') && tree.Keys <= tree'.Keys
    ensures |walk| <= |walk'|
  {
    NoRepeatIffFullSize(walk);
    NoRepeatIffFullSize(walk');
    SubsetSize(tree.Keys, tree'.Keys);
  }

  lemma {:induction false} SubsetSize(a: set<string>, b: set<string>)
    requires a <= b
    ensures |a| <= |b|
  {
    if a != {} {
      var x :| x in a;
      SubsetSize(a - {x}, b - {x});
    }
  }

  lemma SizedStaged(staged: Tree, walk: seq<string>, tree: Tree)
    requires Walks(walk, staged) && tree.Keys <= staged.Keys
    requires forall path :: path in tree ==> staged[path] == tree[path]
    requires forall i :: 0 <= i < |walk| ==> |staged[walk[i]]| <= MAX_ENTRY_BYTES
    ensures Sized(tree)
  {
    forall path | path in tree ensures |tree[path]| <= MAX_ENTRY_BYTES {
      assert path in Names(walk);
      var i :| 0 <= i < |walk| && walk[i] == path;
    }
  }

  /** A staging directory that is inventoried, signed and zipped makes an accepted release ZIP
      exactly when it keeps the limits, its inventory included, and is not empty. */
  lemma {:induction false} StagingRoundTrip(u: Unicode, scheme: Scheme, hash: Bytes -> string, trust: Trust,
                                            size: nat, h: Header,
                                            tree: Tree, walk: seq<string>, staged: Tree, walk': seq<string>,
                                            inventoryPath: string, signaturePath: string, raw: Bytes, file: Bytes,
                                            keyId: string, seed: Bytes, deflated: Bytes -> nat, ascii: string -> bool)
    requires scheme.Lawful() && HexHash(hash) && Stored(tree, h)
    requires |seed| == SEED_LENGTH && keyId in trust && trust[keyId] == scheme.publicKey(seed)
    requires Walks(walk, tree) && FilePaths(tree)
    requires inventoryPath != signaturePath && inventoryPath !in tree && signaturePath !in tree
    requires FilePath(inventoryPath) && FilePath(signaturePath)
    requires raw == Inventory(scheme, hash, tree, walk, h)
             && file == SignatureFile(scheme, INVENTORY_DOMAIN, raw, keyId, seed)
    requires staged == Staged(tree, inventoryPath, raw, signaturePath, file) && Walks(walk', staged)
    ensures var infos := MembersOf(staged, walk', deflated, ascii);
      Acceptable(u, size, infos) && Inventoried(scheme, hash, trust, infos, "", inventoryPath, signaturePath, h)
      <==> && StagingLimits(u, size, staged, walk', deflated)
           && |raw| <= MAX_INVENTORY_BYTES && |file| <= MAX_SIGNATURE_BYTES && tree != map[]
  {
    StagedZipAcceptable(u, size, staged, walk', deflated, ascii);
    StagedInventoried(scheme, hash, trust, h, tree, walk, staged, walk', inventoryPath, signaturePath, raw, file,
                      keyId, seed, deflated, ascii);
    WalkIsSmaller(walk, tree, walk', staged);
    EmptyWalk(walk, tree);
    if StagingLimits(u, size, staged, walk', deflated) {
      SizedStaged(staged, walk', tree);
    }
  }

  lemma {:induction false} StagedInventoried(scheme: Scheme, hash: Bytes -> string, trust: Trust, h: Header,
                                             tree: Tree, walk: seq<string>, staged: Tree, walk': seq<string>,
                                             inventoryPath: string, signaturePath: string, raw: Bytes, file: Bytes,
                                             keyId: string, seed: Bytes, deflated: Bytes -> nat, ascii: string -> bool)
    requires scheme.Lawful() && HexHash(hash) && Stored(tree, h)
    requires |seed| == SEED_LENGTH && keyId in trust && trust[keyId] == scheme.publicKey(seed)
    requires Walks(walk, tree) && FilePaths(tree)
    requires inventoryPath != signaturePath && inventoryPath !in tree && signaturePath !in tree
    requires FilePath(inventoryPath) && FilePath(signaturePath)
    requires raw == Inventory(scheme, hash, tree, walk, h)
             && file == SignatureFile(scheme, INVENTORY_DOMAIN, raw, keyId, seed)
    requires staged == Staged(tree, inventoryPath, raw, signaturePath, file) && Walks(walk', staged)
    ensures var infos := MembersOf(staged, walk', deflated, ascii);
      Inventoried(scheme, hash, trust, infos, "", inventoryPath, signaturePath, h)
      <==> |raw| <= MAX_INVENTORY_BYTES && |file| <= MAX_SIGNATURE_BYTES && 0 < |walk| <= MAX_ENTRIES && Sized(tree)
  {
    var infos := MembersOf(staged, walk', deflated, ascii);
    StagedOwns(tree, staged, walk', deflated, ascii, inventoryPath, signaturePath);
    StagedContent(staged, walk', deflated, ascii, inventoryPath);
    StagedContent(staged, walk', deflated, ascii, signaturePath);
    BuiltInventoryAccepted(scheme, hash, trust, infos, "", inventoryPath, signaturePath, h, tree, walk, keyId, seed);
  }

  lemma EmptyWalk(walk: seq<string>, tree: Tree)
    requires Walks(walk, tree)
    ensures walk == [] <==> tree == map[]
  {
    assert walk != [] ==> walk[0] in tree;
    assert walk == [] ==> tree.Keys == {};
  }
}
