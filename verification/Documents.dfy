/** Parsed JSON documents of the release tooling, with the field names it uses, and Python's
    equality between a parsed scalar and an expected one. */
module Documents {
  import opened Wrappers

  datatype Field =
    | Schema | Signatures | KeyId | SignatureBase64
    | Version | Target | SourceSha | UpdaterProtocol | LayoutRevision | Files | Path | Size | Sha256
    | Channel | Repository | Tag | CatalogSequence | PublishedAt | ExpiresAt | MinUpdaterProtocol | StateCompatibility
    | Targets | WindowsX64 | MacosArm64
    | AssetName | ArchiveSize | ArchiveSha256 | UnpackedSize | InventorySha256 | BundleId | BundleVersion
    | Unknown(name: string)

  datatype Json =
    | Null
    | Bool(b: bool)
    | Int(i: int)
    | Real(r: real)
    | Str(s: string)
    | List(items: seq<Json>)
    | Obj(fields: map<Field, Json>)

  const SCHEMA := 1
  /** A document the release tooling writes: 64-bit integers, strings, lists and objects of known fields. */
  predicate Printable(j: Json) {
    match j
    case Int(i) => -U64_MAX <= i <= U64_MAX
    case Real(_) => false
    case List(items) => forall i :: 0 <= i < |items| ==> Printable(items[i])
    case Obj(fields) => forall f | f in fields :: !f.Unknown? && Printable(fields[f])
    case _ => true
  }

  /** Equal to an expected integer, as Python compares: 1.0 counts as 1, and `True` is refused separately. */
  predicate IsNumber(j: Json, n: int) {
    j == Int(n) || (j.Real? && j.r == n as real)
  }

  predicate IsHexDigit(c: char) {
    '0' <= c <= '9' || 'a' <= c <= 'f'
  }

  /** `re.match` of n lowercase hex digits up to `$`, which also matches before a final newline. */
  predicate MatchesHex(s: string, n: nat) {
    var t := if |s| == n + 1 && s[n] == '\n' then s[..n] else s;
    |t| == n && forall i :: 0 <= i < |t| ==> IsHexDigit(t[i])
  }
}
