/** The two platform ZIPs of a release: the structural and inventory checks, and the checks on
    particular files, which are parameters. */
module ReleaseZips {
  import opened Documents
  import opened ReleaseArchive
  import opened ReleaseInventory
  import opened ReleaseRoundTrip
  import opened Signatures
  import opened Wrappers

  const INVENTORY_NAME := "hane-install.json"
  const INVENTORY_SIGNATURE_NAME := "hane-install.json.sig"
  const WINDOWS_TARGET := "x86_64-pc-windows-msvc"
  const MACOS_TARGET := "aarch64-apple-darwin"
  const WINDOWS_LAYOUT := 2
  const MACOS_LAYOUT := 2
  const MACOS_APP := "hane-macos-arm64/Hane.app"
  const MACOS_SIDECAR_ROOT := "hane-macos-arm64/Hane.app.update"
  const MACOS_BUNDLE_ID := "io.github.hide212131.hane"

  // Times are seconds since 1970; texts of four-digit years begin with year 1000.
  const FIRST_SECOND := -30_610_224_000
  const LAST_SECOND := 253_402_300_799

  predicate Dated(t: int) {
    FIRST_SECOND <= t <= LAST_SECOND
  }

  /** Signatures, hashing, the members of a ZIP file, the checks on its particular files, and the
      text of times. */
  datatype World = World(scheme: Scheme, hash: Bytes -> string, unicode: Unicode, members: Bytes -> seq<Info>,
                         windowsContents: (Bytes, string, string) -> bool,
                         macosContents: (Bytes, string, string) -> bool,
                         timeText: int -> string, parseTime: string -> Option<int>)
  {
    ghost predicate Lawful() {
      scheme.Lawful() && forall t :: Dated(t) ==> parseTime(timeText(t)) == Some(t)
    }
  }

  /** What verifying a ZIP reports for the catalog. */
  datatype Facts = Facts(unpackedSize: nat, inventorySha256: string, bundleId: string, bundleVersion: string)

  /** Where a platform keeps its inventory, and what the inventory must say. */
  datatype Layout = Layout(prefix: string, inventoryPath: string, signaturePath: string, header: Header)

  function WindowsLayout(version: string, sourceSha: string): Layout {
    Layout("", INVENTORY_NAME, INVENTORY_SIGNATURE_NAME, Header(version, WINDOWS_TARGET, sourceSha, WINDOWS_LAYOUT))
  }

  function MacosLayout(version: string, sourceSha: string): Layout {
    var sidecar := MACOS_SIDECAR_ROOT + "/" + version + "-" + sourceSha + "/";
    Layout(MACOS_APP + "/", sidecar + INVENTORY_NAME, sidecar + INVENTORY_SIGNATURE_NAME,
           Header(version, MACOS_TARGET, sourceSha, MACOS_LAYOUT))
  }

  /** The ZIP passes the structural checks and its own signed inventory. */
  ghost predicate Sound(w: World, trust: Trust, zip: Bytes, l: Layout) {
    && Acceptable(w.unicode, |zip|, w.members(zip))
    && Inventoried(w.scheme, w.hash, trust, w.members(zip), l.prefix, l.inventoryPath, l.signaturePath, l.header)
  }

  function FactsOf(w: World, zip: Bytes, l: Layout, bundleId: string, bundleVersion: string): Facts {
    var raw := Read(w.members(zip), l.inventoryPath, MAX_INVENTORY_BYTES);
    Facts(Unpacked(w.members(zip)), if raw.Some? then w.hash(raw.value) else "", bundleId, bundleVersion)
  }

  ghost function WindowsFacts(w: World, trust: Trust, zip: Bytes, version: string, sourceSha: string): Option<Facts> {
    var l := WindowsLayout(version, sourceSha);
    if Sound(w, trust, zip, l) && w.windowsContents(zip, version, sourceSha)
    then Some(FactsOf(w, zip, l, "", "")) else None
  }

  ghost function MacosFacts(w: World, trust: Trust, zip: Bytes, version: string, sourceSha: string): Option<Facts> {
    var l := MacosLayout(version, sourceSha);
    if Sound(w, trust, zip, l) && w.macosContents(zip, version, sourceSha)
    then Some(FactsOf(w, zip, l, MACOS_BUNDLE_ID, version))
    else None
  }

  method VerifySound(w: World, trust: Trust, zip: Bytes, l: Layout) returns (r: Option<(nat, string)>)
    ensures r.Some? <==> Sound(w, trust, zip, l)
    ensures r.Some? ==> Facts(r.value.0, r.value.1, "", "") == FactsOf(w, zip, l, "", "")
  {
    var archive := OpenArchive(w.unicode, |zip|, w.members(zip));
    if archive.Err? {
      return None;
    }
    var inventory := VerifyArchiveInventory(w.scheme, w.hash, trust, w.members(zip), l.prefix, l.inventoryPath,
                                            l.signaturePath, l.header);
    if inventory.Err? {
      return None;
    }
    return Some((archive.value.unpackedSize, inventory.value));
  }

  /** `verify_windows_zip`; the contents are looked at between the two general checks. */
  method VerifyWindowsZip(w: World, trust: Trust, zip: Bytes, version: string, sourceSha: string)
    returns (r: Option<Facts>)
    ensures r == WindowsFacts(w, trust, zip, version, sourceSha)
  {
    var sound := VerifySound(w, trust, zip, WindowsLayout(version, sourceSha));
    if sound.None? || !w.windowsContents(zip, version, sourceSha) {
      return None;
    }
    return Some(Facts(sound.value.0, sound.value.1, "", ""));
  }

  method VerifyMacosZip(w: World, trust: Trust, zip: Bytes, version: string, sourceSha: string)
    returns (r: Option<Facts>)
    ensures r == MacosFacts(w, trust, zip, version, sourceSha)
  {
    var sound := VerifySound(w, trust, zip, MacosLayout(version, sourceSha));
    if sound.None? || !w.macosContents(zip, version, sourceSha) {
      return None;
    }
    return Some(Facts(sound.value.0, sound.value.1, MACOS_BUNDLE_ID, version));
  }

  /** A verified ZIP is within the limits the catalog is checked against. */
  lemma VerifiedIsBounded(w: World, trust: Trust, zip: Bytes, version: string, sourceSha: string)
    ensures WindowsFacts(w, trust, zip, version, sourceSha).Some?
            || MacosFacts(w, trust, zip, version, sourceSha).Some? ==>
              |zip| <= MAX_ARCHIVE_BYTES && Unpacked(w.members(zip)) <= MAX_UNPACKED_BYTES
  {
  }

  /** A layout whose inventory lies beside the files it lists. */
  predicate AtRoot(l: Layout) {
    l.prefix == "" && l.inventoryPath != l.signaturePath && FilePath(l.inventoryPath) && FilePath(l.signaturePath)
  }

  lemma WindowsIsAtRoot(version: string, sourceSha: string)
    ensures AtRoot(WindowsLayout(version, sourceSha))
  {
    assert INVENTORY_SIGNATURE_NAME[|INVENTORY_NAME|] == '.';
  }

  /** A staged directory, inventoried, signed and zipped, is a sound ZIP exactly when it keeps the
      limits and is not empty; verifying it reports the hash of its own inventory. */
  lemma {:induction false} StagedIsSound(w: World, trust: Trust, zip: Bytes, l: Layout,
                                         tree: Tree, walk: seq<string>, staged: Tree, walk': seq<string>,
                                         raw: Bytes, file: Bytes, keyId: string, seed: Bytes,
                                         deflated: Bytes -> nat, ascii: string -> bool)
    requires w.scheme.Lawful() && HexHash(w.hash) && Stored(tree, l.header) && AtRoot(l)
    requires |seed| == SEED_LENGTH && keyId in trust && trust[keyId] == w.scheme.publicKey(seed)
    requires Walks(walk, tree) && FilePaths(tree) && l.inventoryPath !in tree && l.signaturePath !in tree
    requires raw == Inventory(w.scheme, w.hash, tree, walk, l.header)
    requires file == SignatureFile(w.scheme, INVENTORY_DOMAIN, raw, keyId, seed)
    requires staged == Staged(tree, l.inventoryPath, raw, l.signaturePath, file) && Walks(walk', staged)
    requires w.members(zip) == MembersOf(staged, walk', deflated, ascii)
    ensures Sound(w, trust, zip, l) <==>
              && StagingLimits(w.unicode, |zip|, staged, walk', deflated)
              && |raw| <= MAX_INVENTORY_BYTES && |file| <= MAX_SIGNATURE_BYTES && tree != map[]
    ensures |raw| <= MAX_INVENTORY_BYTES ==> FactsOf(w, zip, l, "", "").inventorySha256 == w.hash(raw)
  {
    StagingRoundTrip(w.unicode, w.scheme, w.hash, trust, |zip|, l.header, tree, walk, staged, walk',
                     l.inventoryPath, l.signaturePath, raw, file, keyId, seed, deflated, ascii);
    if |raw| <= MAX_INVENTORY_BYTES {
      StagedReport(w, zip, l, staged, walk', raw, deflated, ascii);
    }
  }

  /** So a Windows release directory verifies exactly when it keeps the limits, is not empty, and its
      particular files are in order. */
  lemma StagedWindowsVerifies(w: World, trust: Trust, zip: Bytes, version: string, sourceSha: string,
                              tree: Tree, walk: seq<string>, staged: Tree, walk': seq<string>,
                              raw: Bytes, file: Bytes, keyId: string, seed: Bytes,
                              deflated: Bytes -> nat, ascii: string -> bool)
    requires var l := WindowsLayout(version, sourceSha);
      && w.scheme.Lawful() && HexHash(w.hash) && Stored(tree, l.header)
      && |seed| == SEED_LENGTH && keyId in trust && trust[keyId] == w.scheme.publicKey(seed)
      && Walks(walk, tree) && FilePaths(tree) && l.inventoryPath !in tree && l.signaturePath !in tree
      && raw == Inventory(w.scheme, w.hash, tree, walk, l.header)
      && file == SignatureFile(w.scheme, INVENTORY_DOMAIN, raw, keyId, seed)
      && staged == Staged(tree, l.inventoryPath, raw, l.signaturePath, file) && Walks(walk', staged)
      && w.members(zip) == MembersOf(staged, walk', deflated, ascii)
    ensures WindowsFacts(w, trust, zip, version, sourceSha).Some? <==>
              && w.windowsContents(zip, version, sourceSha)
              && StagingLimits(w.unicode, |zip|, staged, walk', deflated)
              && |raw| <= MAX_INVENTORY_BYTES && |file| <= MAX_SIGNATURE_BYTES && tree != map[]
  {
    WindowsIsAtRoot(version, sourceSha);
    StagedIsSound(w, trust, zip, WindowsLayout(version, sourceSha), tree, walk, staged, walk', raw, file, keyId, seed,
                  deflated, ascii);
  }

  lemma StagedReport(w: World, zip: Bytes, l: Layout, staged: Tree, walk: seq<string>, raw: Bytes,
                     deflated: Bytes -> nat, ascii: string -> bool)
    requires Walks(walk, staged) && FilePaths(staged) && w.members(zip) == MembersOf(staged, walk, deflated, ascii)
    requires l.inventoryPath in staged && staged[l.inventoryPath] == raw && |raw| <= MAX_INVENTORY_BYTES
    ensures FactsOf(w, zip, l, "", "").inventorySha256 == w.hash(raw)
  {
    StagedContent(staged, walk, deflated, ascii, l.inventoryPath);
    ReadIsContent(w.members(zip), l.inventoryPath, MAX_INVENTORY_BYTES);
  }
}
