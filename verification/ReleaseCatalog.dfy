/** The signed update catalog of a release: built over the two real ZIPs, verified over the
    re-downloaded ones.  Times are seconds; a validity period is given in microseconds. */
module ReleaseCatalog {
  import opened Decimal
  import opened Documents
  import opened ReleaseArchive
  import opened ReleaseInventory
  import opened ReleaseZips
  import opened Signatures
  import opened Wrappers

  const MAX_CATALOG_BYTES := 0x4_0000
  const SECONDS_PER_DAY := 86_400
  const MAX_VALIDITY := 180 * SECONDS_PER_DAY
  const MAX_FUTURE_SKEW := SECONDS_PER_DAY
  const MICROSECONDS := 1_000_000
  const SHA1_DIGITS := 40

  const CHANNEL := "stable"
  const REPOSITORY := "hide212131/hane"
  const STATE_COMPATIBILITY := "backward-compatible-v1"
  const WINDOWS_ASSET := "hane-windows-x64.zip"
  const MACOS_ASSET := "hane-macos-arm64.zip"

  // ---- Inputs

  datatype Asset = WindowsZip | MacosZip | CatalogFile | CatalogSignature | OtherFile(name: string)

  datatype DirEntry = Regular(bytes: Bytes) | Irregular

  type ReleaseDir = map<Asset, DirEntry>

  predicate Numeral(s: string) {
    s != "" && AllDigits(s) && (|s| > 1 ==> s[0] != '0')
  }

  /** vMAJOR.MINOR.PATCH up to `$`, which also matches before a final newline. */
  predicate StableTag(tag: string) {
    && tag != "" && tag[0] == 'v'
    && var body := if tag[|tag| - 1] == '\n' then tag[..|tag| - 1] else tag;
       body != "" && ThreeParts(body[1..])
  }

  predicate ThreeParts(text: string) {
    var parts := Split(text, '.');
    |parts| == 3 && Numeral(parts[0]) && Numeral(parts[1]) && Numeral(parts[2])
  }

  function VersionOf(tag: string): string
    requires StableTag(tag)
  {
    tag[1..]
  }

  function Numbered(major: nat, minor: nat, patch: nat): string {
    Print(major) + ("." + (Print(minor) + ("." + Print(patch))))
  }

  lemma {:induction false} SplitDigits(s: string, rest: string)
    requires AllDigits(s)
    ensures Split(s + ("." + rest), '.') == [s] + Split(rest, '.')
    ensures Split(s, '.') == [s]
  {
    var whole := s + ("." + rest);
    var i := IndexOf(whole, '.');
    assert whole[|s|] == '.';
    assert forall k :: 0 <= k < |s| ==> whole[k] == s[k] && s[k] != '.';
    assert '.' !in whole[..i] && i <= |s|;
    assert i == |s| && whole[..i] == s && whole[i + 1..] == rest;
    var k := IndexOf(s, '.');
    assert k == |s| && s[..k] == s;
  }

  lemma {:induction false} PrintIsNumeral(n: nat)
    ensures Numeral(Print(n))
  {
    if n >= 10 {
      PrintIsNumeral(n / 10);
      NoLeadingZero(n / 10);
    }
  }

  lemma {:induction false} NoLeadingZero(n: nat)
    requires n > 0
    ensures Print(n)[0] != '0'
  {
    if n >= 10 {
      NoLeadingZero(n / 10);
    }
  }

  lemma NumberedSplits(major: nat, minor: nat, patch: nat)
    ensures Split(Numbered(major, minor, patch), '.') == [Print(major), Print(minor), Print(patch)]
  {
    SplitDigits(Print(major), Print(minor) + ("." + Print(patch)));
    SplitDigits(Print(minor), Print(patch));
    SplitDigits(Print(patch), "");
  }

  lemma NumberedEndsInDigit(major: nat, minor: nat, patch: nat)
    ensures var body := Numbered(major, minor, patch);
      body != [] && IsDigit(body[|body| - 1])
  {
    var body := Numbered(major, minor, patch);
    assert body[|body| - 1] == Print(patch)[|Print(patch)| - 1];
  }

  /** Every version has a tag, and it is the tag's version. */
  lemma TagOfVersion(major: nat, minor: nat, patch: nat)
    ensures var tag := "v" + Numbered(major, minor, patch);
      StableTag(tag) && VersionOf(tag) == Numbered(major, minor, patch)
  {
    var body := Numbered(major, minor, patch);
    var tag := "v" + body;
    PrintIsNumeral(major);
    PrintIsNumeral(minor);
    PrintIsNumeral(patch);
    NumberedSplits(major, minor, patch);
    NumberedEndsInDigit(major, minor, patch);
    assert tag[1..] == body && tag[|tag| - 1] == body[|body| - 1];
  }

  lemma {:induction false} NumeralPrints(s: string)
    requires Numeral(s)
    ensures Print(Value(s)) == s && (s[0] != '0' ==> Value(s) > 0)
    decreases |s|
  {
    var t, c := s[..|s| - 1], s[|s| - 1];
    if |s| > 1 {
      assert t[0] == s[0];
      NumeralPrints(t);
      assert Value(s) / 10 == Value(t) && Value(s) % 10 == Digit(c);
      assert s == t + [c];
    } else {
      assert t == [] && s == [c];
    }
  }

  /** Stable tags are exactly the versions after a v, with a final newline tolerated. */
  lemma StableTagExactly(tag: string)
    ensures StableTag(tag) <==>
            exists major: nat, minor: nat, patch: nat ::
              tag == "v" + Numbered(major, minor, patch) || tag == "v" + Numbered(major, minor, patch) + "\n"
  {
    if StableTag(tag) {
      var text := AfterV(tag);
      var major, minor, patch := ThreeNumerals(text);
    }
    if major: nat, minor: nat, patch: nat :|
         tag == "v" + Numbered(major, minor, patch) || tag == "v" + Numbered(major, minor, patch) + "\n" {
      NumberedIsStable(major, minor, patch);
    }
  }

  lemma JoinThree(parts: seq<string>)
    requires |parts| == 3
    ensures Join(parts, '.') == parts[0] + ("." + (parts[1] + ("." + parts[2])))
  {
    var rest := parts[1..];
    assert rest[1..] == [parts[2]] && Join(rest[1..], '.') == parts[2];
    assert Join(rest, '.') == parts[1] + ['.'] + parts[2] == parts[1] + ("." + parts[2]);
    assert Join(parts, '.') == parts[0] + ['.'] + Join(rest, '.');
  }

  lemma ThreeNumerals(text: string) returns (major: nat, minor: nat, patch: nat)
    requires ThreeParts(text)
    ensures text == Numbered(major, minor, patch)
  {
    var parts := Split(text, '.');
    JoinOfSplit(text, '.');
    JoinThree(parts);
    NumeralPrints(parts[0]);
    NumeralPrints(parts[1]);
    NumeralPrints(parts[2]);
    major, minor, patch := Value(parts[0]), Value(parts[1]), Value(parts[2]);
  }

  lemma AfterV(tag: string) returns (text: string)
    requires StableTag(tag)
    ensures ThreeParts(text) && (tag == "v" + text || tag == "v" + text + "\n")
  {
    var body := if tag[|tag| - 1] == '\n' then tag[..|tag| - 1] else tag;
    text := body[1..];
    assert body == "v" + text;
  }

  lemma NumberedIsStable(major: nat, minor: nat, patch: nat)
    ensures StableTag("v" + Numbered(major, minor, patch)) && StableTag("v" + Numbered(major, minor, patch) + "\n")
  {
    TagOfVersion(major, minor, patch);
    var tag := "v" + Numbered(major, minor, patch) + "\n";
    assert tag[..|tag| - 1] == "v" + Numbered(major, minor, patch);
    assert tag[..|tag| - 1][1..] == Numbered(major, minor, patch);
    NumberedSplits(major, minor, patch);
    PrintIsNumeral(major);
    PrintIsNumeral(minor);
    PrintIsNumeral(patch);
  }

  predicate IsSequence(n: int) {
    1 <= n <= U64_MAX
  }

  // ---- Building

  function WindowsEntry(w: World, zip: Bytes, facts: Facts): Json {
    Obj(map[AssetName := Str(WINDOWS_ASSET), ArchiveSize := Int(|zip|), ArchiveSha256 := Str(w.hash(zip)),
            UnpackedSize := Int(facts.unpackedSize), LayoutRevision := Int(WINDOWS_LAYOUT),
            InventorySha256 := Str(facts.inventorySha256)])
  }

  function MacosEntry(w: World, zip: Bytes, facts: Facts): Json {
    Obj(map[AssetName := Str(MACOS_ASSET), ArchiveSize := Int(|zip|), ArchiveSha256 := Str(w.hash(zip)),
            UnpackedSize := Int(facts.unpackedSize), LayoutRevision := Int(MACOS_LAYOUT),
            InventorySha256 := Str(facts.inventorySha256),
            BundleId := Str(facts.bundleId), BundleVersion := Str(facts.bundleVersion)])
  }

  /** The expiry printed for a validity period: fractions of a second are dropped. */
  function Expiry(published: int, validity: int): int {
    published + validity / MICROSECONDS
  }

  function IdentityPart(tag: string, sourceSha: string, sequence: int): map<Field, Json>
    requires StableTag(tag)
  {
    map[Schema := Int(SCHEMA), Channel := Str(CHANNEL), Repository := Str(REPOSITORY),
        Version := Str(VersionOf(tag)), Tag := Str(tag), SourceSha := Str(sourceSha),
        CatalogSequence := Int(sequence)]
  }

  function TermPart(w: World, published: int, validity: int, windows: Json, macos: Json): map<Field, Json> {
    map[PublishedAt := Str(w.timeText(published)), ExpiresAt := Str(w.timeText(Expiry(published, validity))),
        UpdaterProtocol := Int(UPDATER_PROTOCOL), MinUpdaterProtocol := Int(UPDATER_PROTOCOL),
        StateCompatibility := Str(STATE_COMPATIBILITY),
        Targets := Obj(map[WindowsX64 := windows, MacosArm64 := macos])]
  }

  function CatalogDocument(w: World, tag: string, sourceSha: string, sequence: int, published: int, validity: int,
                           windows: Json, macos: Json): Json
    requires StableTag(tag)
  {
    Obj(IdentityPart(tag, sourceSha, sequence) + TermPart(w, published, validity, windows, macos))
  }

  ghost function BuildCatalog(w: World, trust: Trust, windowsZip: Bytes, macosZip: Bytes, tag: string,
                              sourceSha: string, sequence: int, published: int, validity: int)
    : Result<Bytes, ReleaseError>
  {
    if !StableTag(tag) || !MatchesHex(sourceSha, SHA1_DIGITS) || !IsSequence(sequence) then Err(ReleaseError)
    else
      var windows := WindowsFacts(w, trust, windowsZip, VersionOf(tag), sourceSha);
      var macos := MacosFacts(w, trust, macosZip, VersionOf(tag), sourceSha);
      if windows.None? || macos.None? then Err(ReleaseError)
      else
        var raw := w.scheme.encode(BuiltDocument(w, tag, sourceSha, sequence, published, validity,
                                                 windowsZip, macosZip, windows.value, macos.value));
        if |raw| > MAX_CATALOG_BYTES then Err(ReleaseError) else Ok(raw)
  }

  /** A catalog is built exactly from a stable tag, a full commit, a sequence of 64 bits from 1 on and two
      verified ZIPs, unless it would be too long. */
  lemma BuildsExactly(w: World, trust: Trust, windowsZip: Bytes, macosZip: Bytes, tag: string,
                      sourceSha: string, sequence: int, published: int, validity: int)
    ensures BuildCatalog(w, trust, windowsZip, macosZip, tag, sourceSha, sequence, published, validity).Ok? <==>
            && StableTag(tag) && MatchesHex(sourceSha, 40) && 1 <= sequence <= 18446744073709551615
            && var windows := WindowsFacts(w, trust, windowsZip, tag[1..], sourceSha);
               var macos := MacosFacts(w, trust, macosZip, tag[1..], sourceSha);
               windows.Some? && macos.Some?
               && |w.scheme.encode(BuiltDocument(w, tag, sourceSha, sequence, published, validity,
                                                 windowsZip, macosZip, windows.value, macos.value))| <= 262144
  {
  }

  // ---- Verifying

  const IDENTITY := {Schema, Channel, Repository, Version, Tag, SourceSha, CatalogSequence}
  const TERMS := {PublishedAt, ExpiresAt, UpdaterProtocol, MinUpdaterProtocol, StateCompatibility, Targets}

  /** `parse_catalog`. */
  predicate WellFormed(j: Json) {
    && j.Obj? && j.fields.Keys == IDENTITY + TERMS
    && IsNumber(j.fields[Schema], SCHEMA)
    && j.fields[Channel] == Str(CHANNEL) && j.fields[Repository] == Str(REPOSITORY)
    && j.fields[CatalogSequence].Int? && IsSequence(j.fields[CatalogSequence].i)
    && j.fields[Tag].Str? && StableTag(j.fields[Tag].s) && j.fields[Version] == Str(VersionOf(j.fields[Tag].s))
    && j.fields[SourceSha].Str? && MatchesHex(j.fields[SourceSha].s, SHA1_DIGITS)
  }

  function TimeOf(w: World, j: Json): Option<int> {
    if j.Str? then w.parseTime(j.s) else None
  }

  /** Valid now, and for a period in range. */
  predicate InWindow(published: int, expires: int, now: int) {
    0 < expires - published <= MAX_VALIDITY && published <= now + MAX_FUTURE_SKEW && now < expires
  }

  predicate TargetMatches(w: World, entry: Json, fields: set<Field>, asset: string, layout: int, zip: Bytes,
                          facts: Facts) {
    && entry.Obj? && entry.fields.Keys == fields
    && {AssetName, ArchiveSize, ArchiveSha256, UnpackedSize, LayoutRevision, InventorySha256} <= fields
    && entry.fields[AssetName] == Str(asset) && IsNumber(entry.fields[ArchiveSize], |zip|)
    && entry.fields[ArchiveSha256] == Str(w.hash(zip)) && IsNumber(entry.fields[UnpackedSize], facts.unpackedSize)
    && IsNumber(entry.fields[LayoutRevision], layout)
    && |zip| <= MAX_ARCHIVE_BYTES && facts.unpackedSize <= MAX_UNPACKED_BYTES
    && entry.fields[InventorySha256] == Str(facts.inventorySha256)
  }

  const WINDOWS_FIELDS := {AssetName, ArchiveSize, ArchiveSha256, UnpackedSize, LayoutRevision, InventorySha256}
  const MACOS_FIELDS := {AssetName, ArchiveSize, ArchiveSha256, UnpackedSize, LayoutRevision, InventorySha256,
                         BundleId, BundleVersion}

  predicate ExactlyTheAssets(dir: ReleaseDir) {
    && dir.Keys == {WindowsZip, MacosZip, CatalogFile, CatalogSignature}
    && dir[WindowsZip].Regular? && dir[MacosZip].Regular? && dir[CatalogFile].Regular? && dir[CatalogSignature].Regular?
  }

  predicate NamesRelease(j: Json, tag: string, sourceSha: string, sequence: Option<int>)
    requires WellFormed(j)
  {
    && j.fields[Tag] == Str(tag) && j.fields[SourceSha] == Str(sourceSha)
    && (sequence.Some? ==> j.fields[CatalogSequence].i == sequence.value)
  }

  predicate Timely(w: World, j: Json, now: int)
    requires WellFormed(j)
  {
    && TimeOf(w, j.fields[PublishedAt]).Some? && TimeOf(w, j.fields[ExpiresAt]).Some?
    && InWindow(TimeOf(w, j.fields[PublishedAt]).value, TimeOf(w, j.fields[ExpiresAt]).value, now)
  }

  predicate Compatible(j: Json)
    requires WellFormed(j)
  {
    && IsNumber(j.fields[UpdaterProtocol], UPDATER_PROTOCOL) && IsNumber(j.fields[MinUpdaterProtocol], UPDATER_PROTOCOL)
    && j.fields[StateCompatibility] == Str(STATE_COMPATIBILITY)
  }

  /** The two target entries, if there are exactly those. */
  function TargetEntries(j: Json): Option<(Json, Json)>
    requires WellFormed(j)
  {
    var targets := j.fields[Targets];
    if targets.Obj? && targets.fields.Keys == {WindowsX64, MacosArm64}
    then Some((targets.fields[WindowsX64], targets.fields[MacosArm64]))
    else None
  }

  /** The document is a catalog of this release, valid now, over these two ZIPs. */
  ghost predicate Covers(w: World, trust: Trust, j: Json, tag: string, sourceSha: string, now: int,
                         sequence: Option<int>, windowsZip: Bytes, macosZip: Bytes)
    requires StableTag(tag)
  {
    && WellFormed(j) && NamesRelease(j, tag, sourceSha, sequence) && Timely(w, j, now) && Compatible(j)
    && TargetEntries(j).Some?
    && TargetsCovered(w, TargetEntries(j).value.0, TargetEntries(j).value.1,
                      WindowsFacts(w, trust, windowsZip, VersionOf(tag), sourceSha),
                      MacosFacts(w, trust, macosZip, VersionOf(tag), sourceSha),
                      windowsZip, macosZip)
  }

  predicate TargetsCovered(w: World, windowsEntry: Json, macosEntry: Json, windows: Option<Facts>, macos: Option<Facts>,
                           windowsZip: Bytes, macosZip: Bytes)
  {
    && windows.Some? && macos.Some?
    && TargetMatches(w, windowsEntry, WINDOWS_FIELDS, WINDOWS_ASSET, WINDOWS_LAYOUT, windowsZip, windows.value)
    && TargetMatches(w, macosEntry, MACOS_FIELDS, MACOS_ASSET, MACOS_LAYOUT, macosZip, macos.value)
    && macosEntry.fields[BundleId] == Str(macos.value.bundleId)
    && macosEntry.fields[BundleVersion] == Str(macos.value.bundleVersion)
  }

  /** `verify_release_dir`. */
  ghost predicate Accepted(w: World, trust: Trust, dir: ReleaseDir, tag: string, sourceSha: string, now: int,
                           sequence: Option<int>)
  {
    && StableTag(tag) && ExactlyTheAssets(dir)
    && var raw := dir[CatalogFile].bytes;
       Signed(w.scheme, trust, CATALOG_DOMAIN, raw, dir[CatalogSignature].bytes)
       && |raw| <= MAX_CATALOG_BYTES && w.scheme.decode(raw).Some?
       && Covers(w, trust, w.scheme.decode(raw).value, tag, sourceSha, now, sequence, dir[WindowsZip].bytes,
          dir[MacosZip].bytes)
  }

  // ---- Round trip and binding

  function Assembled(windowsZip: Bytes, macosZip: Bytes, raw: Bytes, file: Bytes): ReleaseDir {
    map[WindowsZip := Regular(windowsZip), MacosZip := Regular(macosZip), CatalogFile := Regular(raw),
        CatalogSignature := Regular(file)]
  }

  /** When a built catalog is accepted, if its ZIPs are the ones it was built over. */
  predicate InForce(sequence: int, published: int, validity: int, now: int, planned: Option<int>) {
    && 1_000_000 <= validity < 15_552_001_000_000
    && published - 86_400 <= now < published + validity / 1_000_000
    && (planned.Some? ==> planned.value == sequence)
  }

  /** A built and signed catalog verifies over the same ZIPs exactly from 24 hours before its
      publication until its expiry, when the validity is at least one second and less than 180
      days and one second.  That the ZIPs were verified when it was built is all they need. */
  lemma {:induction false} BuiltCatalogAccepted(w: World, trust: Trust, windowsZip: Bytes, macosZip: Bytes, tag: string,
                                                sourceSha: string, sequence: int, published: int, validity: int,
                                                raw: Bytes, file: Bytes, keyId: string, seed: Bytes,
                                                now: int, planned: Option<int>)
    requires w.Lawful() && Dated(published) && Dated(Expiry(published, validity))
    requires |seed| == SEED_LENGTH && keyId in trust && trust[keyId] == w.scheme.publicKey(seed)
    requires BuildCatalog(w, trust, windowsZip, macosZip, tag, sourceSha, sequence, published, validity) == Ok(raw)
    requires file == SignatureFile(w.scheme, CATALOG_DOMAIN, raw, keyId, seed) && |file| <= MAX_SIGNATURE_BYTES
    ensures Accepted(w, trust, Assembled(windowsZip, macosZip, raw, file), tag, sourceSha, now, planned)
            <==> InForce(sequence, published, validity, now, planned)
  {
    var windows, macos, document := BuiltParts(w, trust, windowsZip, macosZip, tag, sourceSha, sequence, published,
        validity, raw);
    SignedVerifies(w.scheme, trust, CATALOG_DOMAIN, raw, keyId, seed);
    AcceptedIsCovered(w, trust, windowsZip, macosZip, tag, sourceSha, raw, file, document, now, planned);
    BuiltCovers(w, trust, windowsZip, macosZip, tag, sourceSha, sequence, published, validity, now, planned, windows,
        macos);
  }

  /** What a successful build went through. */
  lemma BuiltParts(w: World, trust: Trust, windowsZip: Bytes, macosZip: Bytes, tag: string, sourceSha: string,
                   sequence: int, published: int, validity: int, raw: Bytes)
    returns (windows: Facts, macos: Facts, document: Json)
    requires w.Lawful()
    requires BuildCatalog(w, trust, windowsZip, macosZip, tag, sourceSha, sequence, published, validity) == Ok(raw)
    ensures StableTag(tag) && MatchesHex(sourceSha, SHA1_DIGITS) && IsSequence(sequence) && |raw| <= MAX_CATALOG_BYTES
    ensures WindowsFacts(w, trust, windowsZip, VersionOf(tag), sourceSha) == Some(windows)
    ensures MacosFacts(w, trust, macosZip, VersionOf(tag), sourceSha) == Some(macos)
    ensures document == BuiltDocument(w, tag, sourceSha, sequence, published, validity, windowsZip, macosZip, windows,
            macos)
    ensures w.scheme.decode(raw) == Some(document)
  {
    windows := WindowsFacts(w, trust, windowsZip, VersionOf(tag), sourceSha).value;
    macos := MacosFacts(w, trust, macosZip, VersionOf(tag), sourceSha).value;
    VerifiedIsBounded(w, trust, windowsZip, VersionOf(tag), sourceSha);
    VerifiedIsBounded(w, trust, macosZip, VersionOf(tag), sourceSha);
    document := BuiltDocument(w, tag, sourceSha, sequence, published, validity, windowsZip, macosZip, windows, macos);
    BuiltPrints(w, tag, sourceSha, sequence, published, validity, windowsZip, macosZip, windows, macos);
  }

  /** With a valid signature over readable bytes, acceptance is what the document says. */
  lemma AcceptedIsCovered(w: World, trust: Trust, windowsZip: Bytes, macosZip: Bytes, tag: string, sourceSha: string,
                          raw: Bytes, file: Bytes, document: Json, now: int, planned: Option<int>)
    requires StableTag(tag) && |raw| <= MAX_CATALOG_BYTES && w.scheme.decode(raw) == Some(document)
    requires Signed(w.scheme, trust, CATALOG_DOMAIN, raw, file)
    ensures Accepted(w, trust, Assembled(windowsZip, macosZip, raw, file), tag, sourceSha, now, planned)
            <==> Covers(w, trust, document, tag, sourceSha, now, planned, windowsZip, macosZip)
  {
    AssembledAssets(windowsZip, macosZip, raw, file);
  }

  lemma AssembledAssets(windowsZip: Bytes, macosZip: Bytes, raw: Bytes, file: Bytes)
    ensures var dir := Assembled(windowsZip, macosZip, raw, file);
      ExactlyTheAssets(dir) && dir[WindowsZip].bytes == windowsZip && dir[MacosZip].bytes == macosZip
      && dir[CatalogFile].bytes == raw && dir[CatalogSignature].bytes == file
  {
    assert Assembled(windowsZip, macosZip, raw, file).Keys == {WindowsZip, MacosZip, CatalogFile, CatalogSignature};
  }

  function BuiltDocument(w: World, tag: string, sourceSha: string, sequence: int, published: int, validity: int,
                         windowsZip: Bytes, macosZip: Bytes, windows: Facts, macos: Facts): Json
    requires StableTag(tag)
  {
    CatalogDocument(w, tag, sourceSha, sequence, published, validity,
                    WindowsEntry(w, windowsZip, windows), MacosEntry(w, macosZip, macos))
  }

  /** The document built for two verified ZIPs covers them exactly while it is in force. */
  lemma {:induction false} BuiltCovers(w: World, trust: Trust, windowsZip: Bytes, macosZip: Bytes, tag: string,
                                       sourceSha: string, sequence: int, published: int, validity: int, now: int,
                                       planned: Option<int>, windows: Facts, macos: Facts)
    requires w.Lawful() && StableTag(tag) && MatchesHex(sourceSha, SHA1_DIGITS) && IsSequence(sequence)
    requires Dated(published) && Dated(Expiry(published, validity))
    requires WindowsFacts(w, trust, windowsZip, VersionOf(tag), sourceSha) == Some(windows)
    requires MacosFacts(w, trust, macosZip, VersionOf(tag), sourceSha) == Some(macos)
    ensures Covers(w, trust, BuiltDocument(w, tag, sourceSha, sequence, published, validity, windowsZip, macosZip,
            windows, macos),
                   tag, sourceSha, now, planned, windowsZip, macosZip)
            <==> InForce(sequence, published, validity, now, planned)
  {
    var j := BuiltDocument(w, tag, sourceSha, sequence, published, validity, windowsZip, macosZip, windows, macos);
    var windowsEntry, macosEntry := WindowsEntry(w, windowsZip, windows), MacosEntry(w, macosZip, macos);
    BuiltHasFields(w, tag, sourceSha, sequence, published, validity, windowsEntry, macosEntry);
    BuiltFields(j, w, tag, sourceSha, sequence, published, validity, windowsEntry, macosEntry, now, planned);
    VerifiedIsBounded(w, trust, windowsZip, VersionOf(tag), sourceSha);
    VerifiedIsBounded(w, trust, macosZip, VersionOf(tag), sourceSha);
    BuiltTargets(w, windowsZip, macosZip, windows, macos);
    WholeSeconds(published, validity);
  }

  lemma BuiltPrints(w: World, tag: string, sourceSha: string, sequence: int, published: int, validity: int,
                    windowsZip: Bytes, macosZip: Bytes, windows: Facts, macos: Facts)
    requires StableTag(tag) && IsSequence(sequence)
    requires |windowsZip| <= MAX_ARCHIVE_BYTES && windows.unpackedSize <= MAX_UNPACKED_BYTES
    requires |macosZip| <= MAX_ARCHIVE_BYTES && macos.unpackedSize <= MAX_UNPACKED_BYTES
    ensures Printable(BuiltDocument(w, tag, sourceSha, sequence, published, validity, windowsZip, macosZip, windows,
            macos))
  {
    var windowsEntry, macosEntry := WindowsEntry(w, windowsZip, windows), MacosEntry(w, macosZip, macos);
    WindowsEntryPrints(w, windowsZip, windows);
    MacosEntryPrints(w, macosZip, macos);
    BuiltHasFields(w, tag, sourceSha, sequence, published, validity, windowsEntry, macosEntry);
    PartsPrint(BuiltDocument(w, tag, sourceSha, sequence, published, validity, windowsZip, macosZip, windows, macos),
               w, tag, sourceSha, sequence, published, validity, windowsEntry, macosEntry);
  }

  predicate AllPrint(j: Json, fields: set<Field>)
    requires j.Obj?
  {
    forall f | f in fields :: !f.Unknown? && f in j.fields && Printable(j.fields[f])
  }

  lemma IdentityPrints(j: Json, tag: string, sourceSha: string, sequence: int)
    requires StableTag(tag) && IsSequence(sequence) && IdentityFields(j, tag, sourceSha, sequence)
    ensures AllPrint(j, IDENTITY)
  {
  }

  lemma TermsPrint(j: Json, w: World, published: int, validity: int, windows: Json, macos: Json)
    requires TermFields(j, w, published, validity, windows, macos) && Printable(windows) && Printable(macos)
    ensures AllPrint(j, TERMS)
  {
    assert Printable(j.fields[Targets]);
  }

  lemma PartsPrint(j: Json, w: World, tag: string, sourceSha: string, sequence: int, published: int, validity: int,
                   windows: Json, macos: Json)
    requires StableTag(tag) && IsSequence(sequence) && Printable(windows) && Printable(macos)
    requires IdentityFields(j, tag, sourceSha, sequence) && TermFields(j, w, published, validity, windows, macos)
    ensures Printable(j)
  {
    IdentityPrints(j, tag, sourceSha, sequence);
    TermsPrint(j, w, published, validity, windows, macos);
    PrintsByParts(j, IDENTITY, TERMS);
  }

  lemma PrintsByParts(j: Json, a: set<Field>, b: set<Field>)
    requires j.Obj? && j.fields.Keys == a + b && AllPrint(j, a) && AllPrint(j, b)
    ensures Printable(j)
  {
    forall f | f in j.fields ensures !f.Unknown? && Printable(j.fields[f]) {
      assert f in a + b;
    }
  }

  lemma WindowsEntryPrints(w: World, zip: Bytes, facts: Facts)
    requires |zip| <= MAX_ARCHIVE_BYTES && facts.unpackedSize <= MAX_UNPACKED_BYTES
    ensures Printable(WindowsEntry(w, zip, facts))
  {
    assert WindowsEntry(w, zip, facts).fields.Keys == WINDOWS_FIELDS;
  }

  lemma MacosEntryPrints(w: World, zip: Bytes, facts: Facts)
    requires |zip| <= MAX_ARCHIVE_BYTES && facts.unpackedSize <= MAX_UNPACKED_BYTES
    ensures Printable(MacosEntry(w, zip, facts))
  {
    assert MacosEntry(w, zip, facts).fields.Keys == MACOS_FIELDS;
  }

  lemma WholeSeconds(published: int, validity: int)
    ensures 0 < Expiry(published, validity) - published <= MAX_VALIDITY <==> 1_000_000 <= validity < 15_552_001_000_000
  {
  }

  /** The fields of a built catalog that say what it is of. */
  predicate IdentityIn(m: map<Field, Json>, tag: string, sourceSha: string, sequence: int)
    requires StableTag(tag)
  {
    && IDENTITY <= m.Keys
    && m[Schema] == Int(SCHEMA) && m[Channel] == Str(CHANNEL) && m[Repository] == Str(REPOSITORY)
    && m[Version] == Str(VersionOf(tag)) && m[Tag] == Str(tag) && m[SourceSha] == Str(sourceSha)
    && m[CatalogSequence] == Int(sequence)
  }

  /** And those that say when, for whom, and over which ZIPs. */
  predicate TermsIn(m: map<Field, Json>, w: World, published: int, validity: int, windows: Json, macos: Json) {
    && TERMS <= m.Keys
    && m[PublishedAt] == Str(w.timeText(published)) && m[ExpiresAt] == Str(w.timeText(Expiry(published, validity)))
    && m[UpdaterProtocol] == Int(UPDATER_PROTOCOL) && m[MinUpdaterProtocol] == Int(UPDATER_PROTOCOL)
    && m[StateCompatibility] == Str(STATE_COMPATIBILITY)
    && m[Targets] == Obj(map[WindowsX64 := windows, MacosArm64 := macos])
  }

  predicate IdentityFields(j: Json, tag: string, sourceSha: string, sequence: int)
    requires StableTag(tag)
  {
    j.Obj? && j.fields.Keys == IDENTITY + TERMS && IdentityIn(j.fields, tag, sourceSha, sequence)
  }

  predicate TermFields(j: Json, w: World, published: int, validity: int, windows: Json, macos: Json) {
    j.Obj? && j.fields.Keys == IDENTITY + TERMS && TermsIn(j.fields, w, published, validity, windows, macos)
  }

  lemma IdentityPartIs(tag: string, sourceSha: string, sequence: int)
    requires StableTag(tag)
    ensures IdentityPart(tag, sourceSha, sequence).Keys == IDENTITY
    ensures IdentityIn(IdentityPart(tag, sourceSha, sequence), tag, sourceSha, sequence)
  {
  }

  lemma TermPartIs(w: World, published: int, validity: int, windows: Json, macos: Json)
    ensures TermPart(w, published, validity, windows, macos).Keys == TERMS
    ensures TermsIn(TermPart(w, published, validity, windows, macos), w, published, validity, windows, macos)
  {
  }

  lemma MergeKeepsIdentity(a: map<Field, Json>, b: map<Field, Json>, tag: string, sourceSha: string, sequence: int)
    requires StableTag(tag) && a.Keys == IDENTITY && b.Keys == TERMS && IdentityIn(a, tag, sourceSha, sequence)
    ensures IdentityFields(Obj(a + b), tag, sourceSha, sequence)
  {
    assert (a + b).Keys == a.Keys + b.Keys;
    assert forall f :: f in IDENTITY ==> f !in TERMS;
  }

  lemma MergeKeepsTerms(a: map<Field, Json>, b: map<Field, Json>, w: World, published: int, validity: int,
                        windows: Json, macos: Json)
    requires a.Keys == IDENTITY && b.Keys == TERMS && TermsIn(b, w, published, validity, windows, macos)
    ensures TermFields(Obj(a + b), w, published, validity, windows, macos)
  {
    assert (a + b).Keys == a.Keys + b.Keys;
  }

  lemma BuiltHasFields(w: World, tag: string, sourceSha: string, sequence: int, published: int, validity: int,
                       windows: Json, macos: Json)
    requires StableTag(tag)
    ensures IdentityFields(CatalogDocument(w, tag, sourceSha, sequence, published, validity, windows, macos),
                           tag, sourceSha, sequence)
    ensures TermFields(CatalogDocument(w, tag, sourceSha, sequence, published, validity, windows, macos),
                       w, published, validity, windows, macos)
  {
    IdentityPartIs(tag, sourceSha, sequence);
    TermPartIs(w, published, validity, windows, macos);
    var identity, terms := IdentityPart(tag, sourceSha, sequence), TermPart(w, published, validity, windows, macos);
    MergeKeepsIdentity(identity, terms, tag, sourceSha, sequence);
    MergeKeepsTerms(identity, terms, w, published, validity, windows, macos);
  }

  /** What a built catalog says besides the facts of its ZIPs. */
  lemma BuiltSays(j: Json, w: World, tag: string, sourceSha: string, sequence: int, published: int, validity: int,
                  windows: Json, macos: Json)
    requires StableTag(tag)
    requires IdentityFields(j, tag, sourceSha, sequence) && TermFields(j, w, published, validity, windows, macos)
    ensures j.fields[Schema] == Int(1) && j.fields[Channel] == Str("stable")
    ensures j.fields[Repository] == Str("hide212131/hane") && j.fields[Tag] == Str(tag)
    ensures j.fields[Version] == Str(tag[1..]) && j.fields[SourceSha] == Str(sourceSha)
    ensures j.fields[CatalogSequence] == Int(sequence)
    ensures j.fields[UpdaterProtocol] == Int(1) && j.fields[MinUpdaterProtocol] == Int(1)
    ensures j.fields[StateCompatibility] == Str("backward-compatible-v1")
    ensures j.fields[PublishedAt] == Str(w.timeText(published))
    ensures j.fields[ExpiresAt] == Str(w.timeText(published + validity / 1_000_000))
    ensures j.fields[Targets] == Obj(map[WindowsX64 := windows, MacosArm64 := macos])
  {
  }

  /** And what it says of the two ZIPs. */
  lemma TargetsSay(w: World, zip: Bytes, facts: Facts)
    ensures WindowsEntry(w, zip, facts).fields[AssetName] == Str("hane-windows-x64.zip")
    ensures WindowsEntry(w, zip, facts).fields[LayoutRevision] == Int(2)
    ensures MacosEntry(w, zip, facts).fields[AssetName] == Str("hane-macos-arm64.zip")
    ensures MacosEntry(w, zip, facts).fields[LayoutRevision] == Int(2)
    ensures MacosEntry(w, zip, facts).fields[BundleId] == Str(facts.bundleId)
    ensures MacosEntry(w, zip, facts).fields[BundleVersion] == Str(facts.bundleVersion)
    ensures forall e :: e in [WindowsEntry(w, zip, facts), MacosEntry(w, zip, facts)] ==>
              && e.fields[ArchiveSize] == Int(|zip|) && e.fields[ArchiveSha256] == Str(w.hash(zip))
              && e.fields[UnpackedSize] == Int(facts.unpackedSize)
              && e.fields[InventorySha256] == Str(facts.inventorySha256)
  {
  }

  lemma BuiltFields(j: Json, w: World, tag: string, sourceSha: string, sequence: int, published: int, validity: int,
                    windows: Json, macos: Json, now: int, planned: Option<int>)
    requires w.Lawful() && Dated(published) && Dated(Expiry(published, validity)) && StableTag(tag)
             && MatchesHex(sourceSha, SHA1_DIGITS) && IsSequence(sequence)
    requires IdentityFields(j, tag, sourceSha, sequence) && TermFields(j, w, published, validity, windows, macos)
    ensures WellFormed(j) && Compatible(j)
    ensures NamesRelease(j, tag, sourceSha, planned) <==> (planned.Some? ==> planned.value == sequence)
    ensures Timely(w, j, now) <==> InWindow(published, Expiry(published, validity), now)
    ensures TargetEntries(j) == Some((windows, macos))
  {
    assert j.fields[Targets].fields.Keys == {WindowsX64, MacosArm64};
  }

  lemma BuiltTargets(w: World, windowsZip: Bytes, macosZip: Bytes, windows: Facts, macos: Facts)
    ensures TargetsCovered(w, WindowsEntry(w, windowsZip, windows), MacosEntry(w, macosZip, macos),
                           Some(windows), Some(macos), windowsZip, macosZip) <==>
              && |windowsZip| <= MAX_ARCHIVE_BYTES && windows.unpackedSize <= MAX_UNPACKED_BYTES
              && |macosZip| <= MAX_ARCHIVE_BYTES && macos.unpackedSize <= MAX_UNPACKED_BYTES
  {
    assert WindowsEntry(w, windowsZip, windows).fields.Keys == WINDOWS_FIELDS;
    assert MacosEntry(w, macosZip, macos).fields.Keys == MACOS_FIELDS;
  }

  lemma SameTargets(w: World, windowsEntry: Json, macosEntry: Json, factsA: (Option<Facts>, Option<Facts>),
                    factsB: (Option<Facts>, Option<Facts>), zipsA: (Bytes, Bytes), zipsB: (Bytes, Bytes))
    requires TargetsCovered(w, windowsEntry, macosEntry, factsA.0, factsA.1, zipsA.0, zipsA.1)
    requires TargetsCovered(w, windowsEntry, macosEntry, factsB.0, factsB.1, zipsB.0, zipsB.1)
    ensures |zipsA.0| == |zipsB.0| && w.hash(zipsA.0) == w.hash(zipsB.0)
    ensures |zipsA.1| == |zipsB.1| && w.hash(zipsA.1) == w.hash(zipsB.1)
  {
  }

  /** Accepted with the same catalog bytes means the same release and two ZIPs of the same sizes and
      hashes, whoever asked and whenever: they are the same bytes unless the hash collides on them. */
  lemma CatalogBindsRelease(w: World, trust: Trust, a: ReleaseDir, b: ReleaseDir, tagA: string, tagB: string,
                            shaA: string, shaB: string, nowA: int, nowB: int, planA: Option<int>, planB: Option<int>)
    requires Accepted(w, trust, a, tagA, shaA, nowA, planA) && Accepted(w, trust, b, tagB, shaB, nowB, planB)
    requires a[CatalogFile] == b[CatalogFile]
    ensures tagA == tagB && shaA == shaB
    ensures |a[WindowsZip].bytes| == |b[WindowsZip].bytes| && w.hash(a[WindowsZip].bytes) == w.hash(b[WindowsZip].bytes)
    ensures |a[MacosZip].bytes| == |b[MacosZip].bytes| && w.hash(a[MacosZip].bytes) == w.hash(b[MacosZip].bytes)
  {
    var (windows, macos) := TargetEntries(w.scheme.decode(a[CatalogFile].bytes).value).value;
    var (windowsA, macosA) := (a[WindowsZip].bytes, a[MacosZip].bytes);
    var (windowsB, macosB) := (b[WindowsZip].bytes, b[MacosZip].bytes);
    SameTargets(w, windows, macos,
                (WindowsFacts(w, trust, windowsA, VersionOf(tagA), shaA),
                    MacosFacts(w, trust, macosA, VersionOf(tagA), shaA)),
                (WindowsFacts(w, trust, windowsB, VersionOf(tagB), shaB),
                    MacosFacts(w, trust, macosB, VersionOf(tagB), shaB)),
                (windowsA, macosA), (windowsB, macosB));
  }
}
