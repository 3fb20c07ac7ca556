/** The structural checks on a release ZIP: portable entry names, no collisions on a case- and
    normalization-insensitive disk, no links or special files, and size limits. */
module ReleaseArchive {
  import opened Wrappers

  type Bytes = seq<byte>

  /** The character tables the checks consult. */
  datatype Unicode = Unicode(utf8Length: string -> nat, upper: string -> string, fold: string -> string)

  datatype ReleaseError = ReleaseError

  const MAX_ARCHIVE_BYTES := 0x1000_0000
  const MAX_UNPACKED_BYTES := 0x4000_0000
  const MAX_ENTRY_BYTES := 0x2000_0000
  const MAX_ENTRIES := 10_000
  const MAX_PATH_BYTES := 240
  const MAX_COMPONENT_BYTES := 255
  const MAX_RATIO := 500
  const RATIO_MIN_BYTES := 0x10_0000

  const WINDOWS_RESERVED := {"CON", "PRN", "AUX", "NUL",
    "COM1", "COM2", "COM3", "COM4", "COM5", "COM6", "COM7", "COM8", "COM9",
    "LPT1", "LPT2", "LPT3", "LPT4", "LPT5", "LPT6", "LPT7", "LPT8", "LPT9"}

  // ---- Names

  function IndexOf(s: string, c: char): (i: nat)
    ensures i <= |s| && c !in s[..i] && (i < |s| ==> s[i] == c)
  {
    if s == [] || s[0] == c then 0
    else
      var i := IndexOf(s[1..], c);
      assert s[..1 + i] == [s[0]] + s[1..][..i];
      1 + i
  }

  /** The parts between slashes; never empty. */
  function Split(s: string, c: char): (parts: seq<string>)
    ensures parts != []
    decreases |s|
  {
    var i := IndexOf(s, c);
    if i == |s| then [s] else [s[..i]] + Split(s[i + 1..], c)
  }

  function Join(parts: seq<string>, c: char): string
    requires parts != []
  {
    if |parts| == 1 then parts[0] else parts[0] + [c] + Join(parts[1..], c)
  }

  lemma {:induction false} JoinOfSplit(s: string, c: char)
    ensures Join(Split(s, c), c) == s
    ensures forall i :: 0 <= i < |Split(s, c)| ==> c !in Split(s, c)[i]
    decreases |s|
  {
    var i := IndexOf(s, c);
    if i == |s| {
      assert s[..i] == s;
    } else {
      JoinOfSplit(s[i + 1..], c);
      var rest := Split(s[i + 1..], c);
      assert ([s[..i]] + rest)[1..] == rest;
      assert s == s[..i] + [c] + s[i + 1..];
    }
  }

  function TrimSlash(name: string): string {
    if name != [] && name[|name| - 1] == '/' then name[..|name| - 1] else name
  }

  /** `rstrip("/")`. */
  function StripSlashes(name: string): string {
    if name != [] && name[|name| - 1] == '/' then StripSlashes(name[..|name| - 1]) else name
  }

  predicate PortablePart(u: Unicode, part: string) {
    && part != "" && part != "." && part != ".." && u.utf8Length(part) <= MAX_COMPONENT_BYTES
    && part[|part| - 1] != '.' && part[|part| - 1] != ' '
    && u.upper(Split(part, '.')[0]) !in WINDOWS_RESERVED
  }

  predicate ValidName(u: Unicode, name: string) {
    var raw := TrimSlash(name);
    && raw != "" && '\0' !in raw && '\\' !in raw && raw[0] != '/' && ':' !in raw
    && u.utf8Length(raw) <= MAX_PATH_BYTES
    && forall i :: 0 <= i < |Split(raw, '/')| ==> PortablePart(u, Split(raw, '/')[i])
  }

  method ValidateMemberName(u: Unicode, name: string) returns (ok: bool)
    ensures ok <==> ValidName(u, name)
  {
    var raw := TrimSlash(name);
    if raw == "" || '\0' in raw || '\\' in raw || raw[0] == '/' || ':' in raw {
      return false;
    }
    if u.utf8Length(raw) > MAX_PATH_BYTES {
      return false;
    }
    var parts := Split(raw, '/');
    for i := 0 to |parts|
      invariant forall j :: 0 <= j < i ==> PortablePart(u, parts[j])
    {
      var part := parts[i];
      if part in ["", ".", ".."] || u.utf8Length(part) > MAX_COMPONENT_BYTES {
        return false;
      }
      if part[|part| - 1] in ". " || u.upper(Split(part, '.')[0]) in WINDOWS_RESERVED {
        return false;
      }
    }
    return true;
  }

  /** A valid name has no empty part, so at most one slash is stripped to compare names. */
  lemma StripIsTrim(u: Unicode, name: string)
    requires ValidName(u, name)
    ensures StripSlashes(name) == TrimSlash(name)
  {
    var raw := TrimSlash(name);
    if raw[|raw| - 1] == '/' {
      LastPartEmpty(raw);
    }
  }

  lemma {:induction false} LastPartEmpty(s: string)
    requires s != "" && s[|s| - 1] == '/'
    ensures Split(s, '/')[|Split(s, '/')| - 1] == ""
    decreases |s|
  {
    var i := IndexOf(s, '/');
    assert s[..|s|] == s;
    assert s[|s| - 1] in s;
    if i < |s| - 1 {
      LastPartEmpty(s[i + 1..]);
    }
  }

  // ---- Entries

  /** One member.  `stream` is what decompressing it yields, nothing if that raises. */
  datatype Info = Info(filename: string, flagBits: nat, compressType: nat, fileSize: nat, compressSize: nat,
                       createSystem: nat, externalAttr: nat, stream: Option<Bytes>)
  {
    predicate IsDir() {
      filename != [] && filename[|filename| - 1] == '/'
    }

    function Mode(): nat {
      externalAttr / 0x1_0000
    }

    /** The file type bits of the mode. */
    function Kind(): nat {
      Mode() / 0x1000 % 16
    }

    function Content(): Option<Bytes> {
      if stream.Some? && |stream.value| == fileSize then stream else None
    }
  }

  const STORED := 0
  const DEFLATED := 8
  const REGULAR := 8
  const DIRECTORY := 4

  predicate EntryOk(x: Info) {
    && x.flagBits % 2 == 0
    && (x.compressType == STORED || x.compressType == DEFLATED)
    && x.fileSize <= MAX_ENTRY_BYTES
    && (x.fileSize > RATIO_MIN_BYTES ==> x.fileSize <= (if x.compressSize > 1 then x.compressSize else 1) * MAX_RATIO)
    && (x.createSystem == 3 && x.Mode() != 0 ==> x.Kind() in {0, REGULAR, DIRECTORY} && x.Mode() / 1024 % 4 == 0)
  }

  function Key(u: Unicode, x: Info): string {
    u.fold(StripSlashes(x.filename))
  }

  function Unpacked(infos: seq<Info>): nat {
    if infos == [] then 0 else Unpacked(infos[..|infos| - 1]) + infos[|infos| - 1].fileSize
  }

  ghost predicate NoCollision(u: Unicode, infos: seq<Info>) {
    forall i, j :: 0 <= i < j < |infos| ==> Key(u, infos[i]) != Key(u, infos[j])
  }

  ghost predicate EntriesOk(u: Unicode, infos: seq<Info>) {
    forall i :: 0 <= i < |infos| ==> ValidName(u, infos[i].filename) && EntryOk(infos[i])
  }

  function Keys(u: Unicode, infos: seq<Info>): set<string> {
    set i | 0 <= i < |infos| :: Key(u, infos[i])
  }

  lemma EntriesOkAppend(u: Unicode, infos: seq<Info>, x: Info)
    ensures EntriesOk(u, infos + [x]) <==> EntriesOk(u, infos) && ValidName(u, x.filename) && EntryOk(x)
    ensures Keys(u, infos + [x]) == Keys(u, infos) + {Key(u, x)}
    ensures Unpacked(infos + [x]) == Unpacked(infos) + x.fileSize
  {
    var all := infos + [x];
    assert all[..|infos|] == infos && all[|infos|] == x;
    assert forall i :: 0 <= i < |infos| ==> all[i] == infos[i];
    forall key ensures key in Keys(u, all) <==> key in Keys(u, infos) + {Key(u, x)} {
      if key in Keys(u, infos) {
        var i :| 0 <= i < |infos| && key == Key(u, infos[i]);
        assert key == Key(u, all[i]);
      }
      if key == Key(u, x) {
        assert key == Key(u, all[|infos|]);
      }
    }
  }

  lemma NoCollisionAppend(u: Unicode, infos: seq<Info>, x: Info)
    ensures NoCollision(u, infos + [x]) <==> NoCollision(u, infos) && Key(u, x) !in Keys(u, infos)
  {
    var all := infos + [x];
    assert forall i :: 0 <= i < |infos| ==> all[i] == infos[i];
    if NoCollision(u, all) {
      forall i, j | 0 <= i < j < |infos| ensures Key(u, infos[i]) != Key(u, infos[j]) {
        assert Key(u, all[i]) != Key(u, all[j]);
      }
      forall i | 0 <= i < |infos| ensures Key(u, infos[i]) != Key(u, x) {
        assert Key(u, all[i]) != Key(u, all[|infos|]);
      }
    }
  }

  /** A bad prefix spoils the whole list. */
  lemma {:induction false} PrefixChecks(u: Unicode, infos: seq<Info>, n: nat)
    requires n <= |infos|
    ensures EntriesOk(u, infos) ==> EntriesOk(u, infos[..n])
    ensures NoCollision(u, infos) ==> NoCollision(u, infos[..n])
  {
    assert forall i :: 0 <= i < n ==> infos[..n][i] == infos[i];
    if NoCollision(u, infos) {
      forall i, j | 0 <= i < j < n ensures Key(u, infos[..n][i]) != Key(u, infos[..n][j]) {
        assert Key(u, infos[i]) != Key(u, infos[j]);
      }
    }
  }

  /** What a ZIP must be to be accepted, in any order of checking. */
  ghost predicate Acceptable(u: Unicode, size: nat, infos: seq<Info>) {
    && 0 < size <= MAX_ARCHIVE_BYTES
    && 0 < |infos| <= MAX_ENTRIES
    && EntriesOk(u, infos) && NoCollision(u, infos) && Unpacked(infos) <= MAX_UNPACKED_BYTES
  }

  datatype Archive = Archive(entries: seq<Info>, unpackedSize: nat)

  method CheckEntry(x: Info) returns (ok: bool)
    ensures ok <==> EntryOk(x)
  {
    if x.flagBits % 2 == 1 {
      return false;
    }
    if x.compressType != STORED && x.compressType != DEFLATED {
      return false;
    }
    if x.fileSize > MAX_ENTRY_BYTES {
      return false;
    }
    if x.fileSize > RATIO_MIN_BYTES && x.fileSize > (if x.compressSize > 1 then x.compressSize else 1) * MAX_RATIO {
      return false;
    }
    if x.createSystem == 3 && x.Mode() != 0 {
      if x.Kind() != 0 && x.Kind() != REGULAR && x.Kind() != DIRECTORY {
        return false;
      }
      if x.Mode() / 1024 % 4 != 0 {
        return false;
      }
    }
    return true;
  }

  method OpenArchive(u: Unicode, size: nat, infos: seq<Info>) returns (r: Result<Archive, ReleaseError>)
    ensures r.Ok? <==> Acceptable(u, size, infos)
    ensures r.Ok? ==> r.value == Archive(infos, Unpacked(infos))
  {
    if size == 0 || size > MAX_ARCHIVE_BYTES {
      return Err(ReleaseError);
    }
    if infos == [] || |infos| > MAX_ENTRIES {
      return Err(ReleaseError);
    }
    var seen: set<string> := {};
    var total := 0;
    for i := 0 to |infos|
      invariant EntriesOk(u, infos[..i]) && NoCollision(u, infos[..i])
      invariant seen == Keys(u, infos[..i]) && total == Unpacked(infos[..i])
    {
      var info := infos[i];
      assert infos[..i + 1] == infos[..i] + [info];
      EntriesOkAppend(u, infos[..i], info);
      NoCollisionAppend(u, infos[..i], info);
      PrefixChecks(u, infos, i + 1);
      var named := ValidateMemberName(u, info.filename);
      if !named {
        return Err(ReleaseError);
      }
      var key := Key(u, info);
      if key in seen {
        return Err(ReleaseError);
      }
      seen := seen + {key};
      var fine := CheckEntry(info);
      if !fine {
        return Err(ReleaseError);
      }
      total := total + info.fileSize;
    }
    assert infos[..|infos|] == infos;
    if total > MAX_UNPACKED_BYTES {
      return Err(ReleaseError);
    }
    return Ok(Archive(infos, total));
  }

  // ---- What acceptance lets in

  lemma PartExactly(u: Unicode, part: string)
    ensures PortablePart(u, part) <==>
            && part != "" && part != "." && part != ".." && u.utf8Length(part) <= 255
            && part[|part| - 1] != '.' && part[|part| - 1] != ' ' && u.upper(Split(part, '.')[0]) !in WINDOWS_RESERVED
  {
  }

  /** Paths of more than 240 bytes and parts of more than 255 are refused wherever they stand. */
  lemma LongNamesRefused(u: Unicode, size: nat, infos: seq<Info>, i: nat)
    requires i < |infos|
    requires var name := TrimSlash(infos[i].filename);
      u.utf8Length(name) > 240 || exists k :: 0 <= k < |Split(name, '/')| && u.utf8Length(Split(name, '/')[k]) > 255
    ensures !Acceptable(u, size, infos)
  {
    var name := TrimSlash(infos[i].filename);
    if k :| 0 <= k < |Split(name, '/')| && u.utf8Length(Split(name, '/')[k]) > 255 {
      PartExactly(u, Split(name, '/')[k]);
    }
    assert Acceptable(u, size, infos) ==> ValidName(u, infos[i].filename);
  }

  /** Permission bits at most: no set-user-ID and no set-group-ID, a sticky bit at will. */
  predicate Plain(mode: nat) {
    || mode <= 0x3FF                  // 0o1777, without a file type
    || 0x4000 <= mode <= 0x43FF       // 0o040000 .. 0o041777, a directory
    || 0x8000 <= mode <= 0x83FF       // 0o100000 .. 0o101777, a regular file
  }

  /** An entry alone in its ZIP is accepted exactly if it is not encrypted, stored or deflated, within the
      limits, and, where Unix wrote a mode, a plain file or directory. */
  lemma LoneEntry(u: Unicode, size: nat, x: Info)
    requires x.externalAttr < 0x1_0000_0000 && ValidName(u, x.filename)
    ensures Acceptable(u, size, [x]) <==>
              && 1 <= size <= 268435456
              && x.flagBits % 2 == 0 && x.compressType in {0, 8}
              && x.fileSize <= 536870912 && (x.fileSize <= 1048576 || x.fileSize <= 500 * x.compressSize)
              && (x.createSystem == 3 ==> Plain(x.externalAttr / 65536))
  {
    EntryExactly(x);
    EntriesOkAppend(u, [], x);
    assert [x] == [] + [x];
  }

  lemma EntryExactly(x: Info)
    requires x.externalAttr < 0x1_0000_0000
    ensures EntryOk(x) <==>
              && x.flagBits % 2 == 0 && x.compressType in {0, 8}
              && x.fileSize <= 536870912 && (x.fileSize <= 1048576 || x.fileSize <= 500 * x.compressSize)
              && (x.createSystem == 3 ==> Plain(x.externalAttr / 65536))
  {
    ModeExactly(x.Mode());
  }

  lemma ModeExactly(mode: nat)
    requires mode < 0x1_0000
    ensures Plain(mode) <==> mode / 0x1000 % 16 in {0, 8, 4} && mode / 1024 % 4 == 0
  {
    var kind, rest := mode / 0x1000, mode % 0x1000;
    assert mode == kind * 0x1000 + rest && kind < 16;
    assert mode / 1024 == kind * 4 + rest / 1024;
    assert mode / 1024 % 4 == rest / 1024;
  }

  /** Wherever they stand: pipes, devices, links and sockets, and files that run as their owner or group. */
  lemma SpecialFilesRefused(u: Unicode, size: nat, infos: seq<Info>, i: nat)
    requires i < |infos| && infos[i].createSystem == 3 && infos[i].externalAttr < 0x1_0000_0000
    requires var mode := infos[i].externalAttr / 65536;
      || 0x1000 <= mode < 0x3000     // pipes and character devices
      || 0x6000 <= mode < 0x7000     // block devices
      || 0xA000 <= mode < 0xB000     // symbolic links
      || 0xC000 <= mode < 0xD000     // sockets
      || 0x8400 <= mode < 0x9000     // set-user-ID or set-group-ID
    ensures !Acceptable(u, size, infos)
  {
    EntryExactly(infos[i]);
  }

  /** Encrypted entries and other methods than stored and deflated spoil any ZIP. */
  lemma OtherFormatsRefused(u: Unicode, size: nat, infos: seq<Info>, i: nat)
    requires i < |infos| && (infos[i].flagBits % 2 == 1 || infos[i].compressType !in {0, 8})
    ensures !Acceptable(u, size, infos)
  {
    assert Acceptable(u, size, infos) ==> EntryOk(infos[i]);
  }

  /** All entries together keep the limits, and no two have one key. */
  lemma AcceptedTogether(u: Unicode, size: nat, infos: seq<Info>)
    ensures Acceptable(u, size, infos) <==>
              && 1 <= size <= 268435456 && 1 <= |infos| <= 10000 && Unpacked(infos) <= 1073741824
              && (forall i :: 0 <= i < |infos| ==> ValidName(u, infos[i].filename) && EntryOk(infos[i]))
              && (forall i, j :: 0 <= i < j < |infos| ==>
                    u.fold(TrimSlash(infos[i].filename)) != u.fold(TrimSlash(infos[j].filename)))
  {
    forall i | 0 <= i < |infos| && ValidName(u, infos[i].filename)
      ensures Key(u, infos[i]) == u.fold(TrimSlash(infos[i].filename))
    {
      StripIsTrim(u, infos[i].filename);
    }
  }

  // ---- What acceptance bounds

  function Compressed(infos: seq<Info>): nat {
    if infos == [] then 0 else Compressed(infos[..|infos| - 1]) + infos[|infos| - 1].compressSize
  }

  /** Accepted entries unpack to at most 500 times their compressed size, give or take a small
      constant for each entry, whatever their number and their sizes. */
  lemma {:induction false} ExpansionBounded(u: Unicode, infos: seq<Info>)
    requires EntriesOk(u, infos)
    ensures Unpacked(infos) <= MAX_RATIO * Compressed(infos) + (RATIO_MIN_BYTES + MAX_RATIO) * |infos|
    decreases |infos|
  {
    if infos != [] {
      var n := |infos| - 1;
      PrefixChecks(u, infos, n);
      ExpansionBounded(u, infos[..n]);
      assert EntryOk(infos[n]);
    }
  }

  // ---- Files of an accepted archive

  /** The names of the files, that is of the entries that are not directories. */
  function FileNames(infos: seq<Info>): set<string> {
    set i | 0 <= i < |infos| && !infos[i].IsDir() :: infos[i].filename
  }

  predicate IsFile(infos: seq<Info>, name: string, i: nat) {
    i < |infos| && infos[i].filename == name && !infos[i].IsDir()
  }

  /** No two entries of an accepted archive have the same name, not even up to case. */
  lemma NamesUnique(u: Unicode, size: nat, infos: seq<Info>, i: nat, j: nat)
    requires Acceptable(u, size, infos) && i < |infos| && j < |infos|
    requires u.fold(StripSlashes(infos[i].filename)) == u.fold(StripSlashes(infos[j].filename))
    ensures i == j
  {
    assert i < j ==> Key(u, infos[i]) != Key(u, infos[j]);
    assert j < i ==> Key(u, infos[j]) != Key(u, infos[i]);
  }

  /** The entry of a file; the last one of that name. */
  function Find(infos: seq<Info>, name: string): (r: Option<nat>)
    ensures r.Some? ==> IsFile(infos, name, r.value)
    ensures r.None? ==> forall i: nat :: !IsFile(infos, name, i)
  {
    if infos == [] then None
    else
      var last := |infos| - 1;
      if infos[last].filename == name && !infos[last].IsDir() then Some(last)
      else
        var r := Find(infos[..last], name);
        assert r.None? ==> forall i: nat :: IsFile(infos, name, i) ==> IsFile(infos[..last], name, i);
        r
  }

  lemma FileNamesAreFound(infos: seq<Info>, name: string)
    ensures name in FileNames(infos) <==> Find(infos, name).Some?
  {
    if name in FileNames(infos) {
      var i :| 0 <= i < |infos| && !infos[i].IsDir() && infos[i].filename == name;
      assert IsFile(infos, name, i);
    }
  }

  /** `Archive.read` and, without a limit, what `Archive.digest` hashes. */
  function Read(infos: seq<Info>, name: string, limit: nat): Option<Bytes> {
    var i := Find(infos, name);
    if i.None? || infos[i.value].fileSize > limit then None else infos[i.value].Content()
  }
}
