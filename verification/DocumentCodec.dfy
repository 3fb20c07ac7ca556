/** A way to write every printable document as bytes that can be read back, so that the laws asked
    of the JSON codec, base64 and signatures can be met together. */
module DocumentCodec {
  import opened Documents
  import opened ReleaseArchive
  import opened ReleaseZips
  import opened Signatures
  import opened Wrappers

  const KNOWN := [Schema, Signatures, KeyId, SignatureBase64,
                  Version, Target, SourceSha, UpdaterProtocol, LayoutRevision, Files, Path, Size, Sha256,
                  Channel, Repository, Tag, CatalogSequence, PublishedAt, ExpiresAt, MinUpdaterProtocol,
                  StateCompatibility,
                  Targets, WindowsX64, MacosArm64,
                  AssetName, ArchiveSize, ArchiveSha256, UnpackedSize, InventorySha256, BundleId, BundleVersion]

  lemma KnownIsComplete(f: Field)
    ensures f.Unknown? || f in KNOWN
  {
    match f {
      case Schema => assert KNOWN[0] == f;
      case Signatures => assert KNOWN[1] == f;
      case KeyId => assert KNOWN[2] == f;
      case SignatureBase64 => assert KNOWN[3] == f;
      case Version => assert KNOWN[4] == f;
      case Target => assert KNOWN[5] == f;
      case SourceSha => assert KNOWN[6] == f;
      case UpdaterProtocol => assert KNOWN[7] == f;
      case LayoutRevision => assert KNOWN[8] == f;
      case Files => assert KNOWN[9] == f;
      case Path => assert KNOWN[10] == f;
      case Size => assert KNOWN[11] == f;
      case Sha256 => assert KNOWN[12] == f;
      case Channel => assert KNOWN[13] == f;
      case Repository => assert KNOWN[14] == f;
      case Tag => assert KNOWN[15] == f;
      case CatalogSequence => assert KNOWN[16] == f;
      case PublishedAt => assert KNOWN[17] == f;
      case ExpiresAt => assert KNOWN[18] == f;
      case MinUpdaterProtocol => assert KNOWN[19] == f;
      case StateCompatibility => assert KNOWN[20] == f;
      case Targets => assert KNOWN[21] == f;
      case WindowsX64 => assert KNOWN[22] == f;
      case MacosArm64 => assert KNOWN[23] == f;
      case AssetName => assert KNOWN[24] == f;
      case ArchiveSize => assert KNOWN[25] == f;
      case ArchiveSha256 => assert KNOWN[26] == f;
      case UnpackedSize => assert KNOWN[27] == f;
      case InventorySha256 => assert KNOWN[28] == f;
      case BundleId => assert KNOWN[29] == f;
      case BundleVersion => assert KNOWN[30] == f;
      case Unknown(_) =>
    }
  }

  // ---- Writing

  function Unary(n: nat): Bytes {
    if n == 0 then [0] else [1] + Unary(n - 1)
  }

  function Sign(i: int): nat {
    if i < 0 then 1 else 0
  }

  function Magnitude(i: int): nat {
    if i < 0 then -i else i
  }

  function Chars(s: string): Bytes {
    if s == "" then [] else Unary(s[0] as int) + Chars(s[1..])
  }

  function Encode(j: Json): Bytes
    decreases j, 1, 0
  {
    match j
    case Null => [0]
    case Bool(b) => [1, if b then 1 else 0]
    case Int(i) => [2] + (Unary(Sign(i)) + Unary(Magnitude(i)))
    case Real(_) => [3]
    case Str(s) => [4] + (Unary(|s|) + Chars(s))
    case List(items) => [5] + (Unary(|items|) + EncodeItems(j, |items|))
    case Obj(fields) => [6] + EncodeFields(j, KNOWN)
  }

  /** The last `n` items. */
  function EncodeItems(j: Json, n: nat): Bytes
    requires j.List? && n <= |j.items|
    decreases j, 0, n
  {
    if n == 0 then [] else Encode(j.items[|j.items| - n]) + EncodeItems(j, n - 1)
  }

  /** The listed fields, present or absent. */
  function EncodeFields(j: Json, fs: seq<Field>): Bytes
    requires j.Obj?
    decreases j, 0, |fs| + 1
  {
    if fs == [] then [] else EncodeField(j, fs[0]) + EncodeFields(j, fs[1..])
  }

  function EncodeField(j: Json, f: Field): Bytes
    requires j.Obj?
    decreases j, 0, 0
  {
    if f in j.fields then [1] + Encode(j.fields[f]) else [0]
  }

  // ---- Nothing is lost

  lemma {:induction false} UnaryPrefix(m: nat, n: nat, x: Bytes, y: Bytes)
    requires Unary(m) + x == Unary(n) + y
    ensures m == n && x == y
  {
    var a, b := Unary(m) + x, Unary(n) + y;
    assert a[0] == Unary(m)[0] && b[0] == Unary(n)[0];
    if m == 0 {
      assert a[1..] == x && b[1..] == y;
    } else if n > 0 {
      assert a[1..] == Unary(m - 1) + x && b[1..] == Unary(n - 1) + y;
      UnaryPrefix(m - 1, n - 1, x, y);
    }
  }

  lemma {:induction false} CharsPrefix(s: string, t: string, x: Bytes, y: Bytes)
    requires |s| == |t| && Chars(s) + x == Chars(t) + y
    ensures s == t && x == y
  {
    if s != "" {
      assert Chars(s) + x == Unary(s[0] as int) + (Chars(s[1..]) + x);
      assert Chars(t) + y == Unary(t[0] as int) + (Chars(t[1..]) + y);
      UnaryPrefix(s[0] as int, t[0] as int, Chars(s[1..]) + x, Chars(t[1..]) + y);
      CharsPrefix(s[1..], t[1..], x, y);
      assert s == [s[0]] + s[1..] && t == [t[0]] + t[1..];
    } else {
      assert Chars(s) + x == x && Chars(t) + y == y;
    }
  }

  lemma SameTag(a: Json, b: Json, x: Bytes, y: Bytes)
    requires Encode(a) + x == Encode(b) + y
    ensures a.Null? <==> b.Null?
    ensures a.Bool? <==> b.Bool?
    ensures a.Int? <==> b.Int?
    ensures a.Real? <==> b.Real?
    ensures a.Str? <==> b.Str?
    ensures a.List? <==> b.List?
    ensures a.Obj? <==> b.Obj?
  {
    assert (Encode(a) + x)[0] == Encode(a)[0] && (Encode(b) + y)[0] == Encode(b)[0];
  }

  lemma IntPrefix(a: Json, b: Json, x: Bytes, y: Bytes)
    requires a.Int? && b.Int? && Encode(a) + x == Encode(b) + y
    ensures a == b && x == y
  {
    assert (Encode(a) + x)[1..] == Unary(Sign(a.i)) + (Unary(Magnitude(a.i)) + x);
    assert (Encode(b) + y)[1..] == Unary(Sign(b.i)) + (Unary(Magnitude(b.i)) + y);
    UnaryPrefix(Sign(a.i), Sign(b.i), Unary(Magnitude(a.i)) + x, Unary(Magnitude(b.i)) + y);
    UnaryPrefix(Magnitude(a.i), Magnitude(b.i), x, y);
  }

  lemma LeafPrefix(a: Json, b: Json, x: Bytes, y: Bytes)
    requires Printable(a) && Printable(b) && Encode(a) + x == Encode(b) + y
    requires !a.List? && !a.Obj?
    ensures a == b && x == y
  {
    SameTag(a, b, x, y);
    var p, q := Encode(a) + x, Encode(b) + y;
    match a {
      case Null => assert p[1..] == x && q[1..] == y;
      case Bool(_) =>
        assert p[1] == Encode(a)[1] && q[1] == Encode(b)[1];
        assert p[2..] == x && q[2..] == y;
      case Int(_) => IntPrefix(a, b, x, y);
      case Str(_) => TextPrefix(a, b, x, y);
    }
  }

  lemma ListLengths(a: Json, b: Json, x: Bytes, y: Bytes)
    requires a.List? && b.List? && Encode(a) + x == Encode(b) + y
    ensures |a.items| == |b.items| && EncodeItems(a, |a.items|) + x == EncodeItems(b, |b.items|) + y
  {
    var p, q := Encode(a) + x, Encode(b) + y;
    assert p[1..] == Unary(|a.items|) + (EncodeItems(a, |a.items|) + x);
    assert q[1..] == Unary(|b.items|) + (EncodeItems(b, |b.items|) + y);
    UnaryPrefix(|a.items|, |b.items|, EncodeItems(a, |a.items|) + x, EncodeItems(b, |b.items|) + y);
  }

  lemma ObjectTails(a: Json, b: Json, x: Bytes, y: Bytes)
    requires a.Obj? && b.Obj? && Encode(a) + x == Encode(b) + y
    ensures EncodeFields(a, KNOWN) + x == EncodeFields(b, KNOWN) + y
  {
    assert (Encode(a) + x)[1..] == EncodeFields(a, KNOWN) + x;
    assert (Encode(b) + y)[1..] == EncodeFields(b, KNOWN) + y;
  }

  lemma TextPrefix(a: Json, b: Json, x: Bytes, y: Bytes)
    requires a.Str? && b.Str? && Encode(a) + x == Encode(b) + y
    ensures a == b && x == y
  {
    assert (Encode(a) + x)[1..] == Unary(|a.s|) + (Chars(a.s) + x);
    assert (Encode(b) + y)[1..] == Unary(|b.s|) + (Chars(b.s) + y);
    UnaryPrefix(|a.s|, |b.s|, Chars(a.s) + x, Chars(b.s) + y);
    CharsPrefix(a.s, b.s, x, y);
  }

  /** Different printable documents never start alike to their ends. */
  lemma {:induction false} EncodePrefix(a: Json, b: Json, x: Bytes, y: Bytes)
    requires Printable(a) && Printable(b) && Encode(a) + x == Encode(b) + y
    ensures a == b && x == y
    decreases a, 1, 0
  {
    SameTag(a, b, x, y);
    if a.List? {
      ListLengths(a, b, x, y);
      ItemsPrefix(a, b, |a.items|, x, y);
      assert a.items == b.items;
    } else if a.Obj? {
      ObjectTails(a, b, x, y);
      FieldsPrefix(a, b, KNOWN, x, y);
      SameFields(a, b);
    } else {
      LeafPrefix(a, b, x, y);
    }
  }

  lemma {:induction false} ItemsPrefix(a: Json, b: Json, n: nat, x: Bytes, y: Bytes)
    requires a.List? && b.List? && |a.items| == |b.items| && n <= |a.items| && Printable(a) && Printable(b)
    requires EncodeItems(a, n) + x == EncodeItems(b, n) + y
    ensures x == y && forall k :: |a.items| - n <= k < |a.items| ==> a.items[k] == b.items[k]
    decreases a, 0, n + 1
  {
    if n > 0 {
      var k := |a.items| - n;
      var u, v := EncodeItems(a, n - 1) + x, EncodeItems(b, n - 1) + y;
      assert EncodeItems(a, n) + x == Encode(a.items[k]) + u && EncodeItems(b, n) + y == Encode(b.items[k]) + v;
      EncodePrefix(a.items[k], b.items[k], u, v);
      ItemsPrefix(a, b, n - 1, x, y);
    } else {
      assert EncodeItems(a, n) + x == x && EncodeItems(b, n) + y == y;
    }
  }

  predicate AgreeOn(a: Json, b: Json, f: Field)
    requires a.Obj? && b.Obj?
  {
    (f in a.fields <==> f in b.fields) && (f in a.fields && f in b.fields ==> a.fields[f] == b.fields[f])
  }

  /** The first byte tells whether the field is there, and the rest is its value and what follows. */
  lemma FieldParts(a: Json, f: Field, x: Bytes)
    requires a.Obj? && Printable(a)
    ensures EncodeField(a, f) != []
    ensures (EncodeField(a, f) + x)[0] == EncodeField(a, f)[0]
    ensures (EncodeField(a, f) + x)[1..] == if f in a.fields then Encode(a.fields[f]) + x else x
  {
  }

  lemma {:induction false} FieldPrefix(a: Json, b: Json, f: Field, x: Bytes, y: Bytes)
    requires a.Obj? && b.Obj? && Printable(a) && Printable(b)
    requires EncodeField(a, f) + x == EncodeField(b, f) + y
    ensures x == y && AgreeOn(a, b, f)
    decreases a, 0, 0
  {
    FieldParts(a, f, x);
    FieldParts(b, f, y);
    if f in a.fields {
      EncodePrefix(a.fields[f], b.fields[f], x, y);
    }
  }

  lemma {:induction false} FieldsPrefix(a: Json, b: Json, fs: seq<Field>, x: Bytes, y: Bytes)
    requires a.Obj? && b.Obj? && Printable(a) && Printable(b)
    requires EncodeFields(a, fs) + x == EncodeFields(b, fs) + y
    ensures x == y && forall k :: 0 <= k < |fs| ==> AgreeOn(a, b, fs[k])
    decreases a, 0, |fs| + 1
  {
    if fs != [] {
      var u, v := EncodeFields(a, fs[1..]) + x, EncodeFields(b, fs[1..]) + y;
      assert EncodeFields(a, fs) + x == EncodeField(a, fs[0]) + u
             && EncodeFields(b, fs) + y == EncodeField(b, fs[0]) + v;
      FieldPrefix(a, b, fs[0], u, v);
      FieldsPrefix(a, b, fs[1..], x, y);
      assert forall k :: 1 <= k < |fs| ==> fs[k] == fs[1..][k - 1];
    } else {
      assert EncodeFields(a, fs) + x == x && EncodeFields(b, fs) + y == y;
    }
  }

  lemma SameFields(a: Json, b: Json)
    requires a.Obj? && b.Obj? && Printable(a) && Printable(b)
    requires forall k :: 0 <= k < |KNOWN| ==> AgreeOn(a, b, KNOWN[k])
    ensures a == b
  {
    forall f ensures AgreeOn(a, b, f) {
      KnownIsComplete(f);
      if f in KNOWN {
        var k :| 0 <= k < |KNOWN| && KNOWN[k] == f;
        assert AgreeOn(a, b, KNOWN[k]);
      }
    }
    SameMaps(a, b);
  }

  lemma SameMaps(a: Json, b: Json)
    requires a.Obj? && b.Obj? && forall f :: AgreeOn(a, b, f)
    ensures a == b
  {
    forall f ensures f in a.fields <==> f in b.fields {
      assert AgreeOn(a, b, f);
    }
    forall f | f in a.fields ensures a.fields[f] == b.fields[f] {
      assert AgreeOn(a, b, f);
    }
    assert a.fields == b.fields;
  }

  // ---- Reading back

  ghost predicate Writes(j: Json, bytes: Bytes) {
    Printable(j) && Encode(j) == bytes
  }

  ghost function Decode(bytes: Bytes): Option<Json> {
    if exists j :: Writes(j, bytes) then var j :| Writes(j, bytes); Some(j) else None
  }

  lemma ReadsBack(j: Json)
    requires Printable(j)
    ensures Decode(Encode(j)) == Some(j)
  {
    assert Writes(j, Encode(j));
    var found := Decode(Encode(j)).value;
    assert Encode(found) + [] == Encode(found) == Encode(j) == Encode(j) + [];
    EncodePrefix(found, j, [], []);
  }

  // ---- A scheme that keeps the laws

  /** One character a byte. */
  function Letters(b: Bytes): (s: string)
    ensures |s| == |b| && forall i :: 0 <= i < |b| ==> s[i] as int == b[i]
  {
    seq(|b|, i requires 0 <= i < |b| => b[i] as char)
  }

  function Numbers(s: string): (r: Option<Bytes>)
    ensures r.Some? <==> forall i :: 0 <= i < |s| ==> s[i] as int < 256
    ensures r.Some? ==> |r.value| == |s| && forall i :: 0 <= i < |s| ==> r.value[i] == s[i] as int
  {
    if forall i :: 0 <= i < |s| ==> s[i] as int < 256
    then Some(seq(|s|, i requires 0 <= i < |s| => s[i] as int))
    else None
  }

  lemma LettersReadBack(b: Bytes)
    ensures Numbers(Letters(b)) == Some(b)
  {
    assert Numbers(Letters(b)).value == b;
  }

  ghost function PlainScheme(): Scheme {
    Scheme(bytes => Decode(bytes), j => Encode(j), s => Numbers(s), b => Letters(b),
           (key, signature, message) => signature == seq(SIGNATURE_LENGTH, _ => 0),
           (seed, message) => seq(SIGNATURE_LENGTH, _ => 0), seed => seed)
  }

  /** The laws of a scheme contradict nothing: here is one that keeps them. */
  lemma PlainSchemeIsLawful()
    ensures PlainScheme().Lawful()
  {
    var scheme := PlainScheme();
    forall j | Printable(j) ensures scheme.decode(scheme.encode(j)) == Some(j) {
      ReadsBack(j);
    }
    forall b ensures scheme.fromBase64(scheme.toBase64(b)) == Some(b) {
      LettersReadBack(b);
    }
  }

  /** A time as that many letters after the first one. */
  function Tally(t: int): string {
    if t < FIRST_SECOND then "" else seq(t - FIRST_SECOND, _ => 'x')
  }

  ghost function PlainWorld(hash: Bytes -> string, unicode: Unicode, members: Bytes -> seq<Info>,
                            windowsContents: (Bytes, string, string) -> bool,
                            macosContents: (Bytes, string, string) -> bool): World {
    World(PlainScheme(), hash, unicode, members, windowsContents, macosContents,
          t => Tally(t), s => Some(|s| + FIRST_SECOND))
  }

  /** Nor do the laws of times contradict anything. */
  lemma PlainWorldIsLawful(hash: Bytes -> string, unicode: Unicode, members: Bytes -> seq<Info>,
                           windowsContents: (Bytes, string, string) -> bool,
                           macosContents: (Bytes, string, string) -> bool)
    ensures PlainWorld(hash, unicode, members, windowsContents, macosContents).Lawful()
  {
    PlainSchemeIsLawful();
  }
}
