/** `macho_load_commands`: the load command table of a 64-bit little-endian Mach-O. */
module MachO {
  import opened Wrappers

  type u32 = n: int | 0 <= n < 0x1_0000_0000

  const HEADER_BYTES := 32
  const MAGIC: seq<byte> := [0xcf, 0xfa, 0xed, 0xfe]

  datatype Malformed = Malformed

  /** A load command: its number and the payload after the two size words. */
  datatype Command = Command(cmd: u32, payload: seq<byte>)

  predicate Fits(c: Command) {
    |c.payload| + 8 < 0x1_0000_0000
  }

  function Decode32(b: seq<byte>): u32
    requires |b| == 4
  {
    var b0: int, b1: int, b2: int, b3: int := b[0], b[1], b[2], b[3];
    b0 + 0x100 * (b1 + 0x100 * (b2 + 0x100 * b3))
  }

  function Encode32(n: u32): (b: seq<byte>)
    ensures |b| == 4 && Decode32(b) == n
  {
    var q1: int := n / 0x100;
    var q2: int := q1 / 0x100;
    var q3: int := q2 / 0x100;
    [n % 0x100, q1 % 0x100, q2 % 0x100, q3]
  }

  /** The first byte is the lowest. */
  lemma LittleEndian(b: seq<byte>)
    requires |b| == 4
    ensures Decode32(b) % 256 == b[0] as int && Decode32(b) / 256 % 256 == b[1] as int
    ensures Decode32(b) / 65536 % 256 == b[2] as int && Decode32(b) / 16777216 == b[3] as int
  {
    var b0: int, b1: int, b2: int, b3: int := b[0], b[1], b[2], b[3];
    var n1, n2 := b1 + 0x100 * (b2 + 0x100 * b3), b2 + 0x100 * b3;
    assert Decode32(b) == b0 + 0x100 * n1 && n1 == b1 + 0x100 * n2;
    assert Decode32(b) / 65536 == n2;
  }

  /** Only the 64-bit magic number is accepted, and the header with its commands must be there. */
  lemma HeaderExactly(data: seq<byte>)
    requires |data| >= 32
    ensures HeaderOk(data) <==> Decode32(data[..4]) == 0xfeedfacf && 32 + Decode32(data[20..24]) <= |data|
  {
    assert Decode32(MAGIC) == 0xfeedfacf;
    if Decode32(data[..4]) == 0xfeedfacf {
      Decode32Injective(data[..4], MAGIC);
    }
  }

  lemma LowByteUnique(b: byte, high: int, b': byte, high': int)
    requires b + 0x100 * high == b' + 0x100 * high'
    ensures b == b' && high == high'
  {
  }

  lemma {:induction false} Decode32Injective(a: seq<byte>, b: seq<byte>)
    requires |a| == 4 && |b| == 4 && Decode32(a) == Decode32(b)
    ensures a == b
  {
    var a1: int, a2: int, a3: int := a[1], a[2], a[3];
    var b1: int, b2: int, b3: int := b[1], b[2], b[3];
    LowByteUnique(a[0], a1 + 0x100 * (a2 + 0x100 * a3), b[0], b1 + 0x100 * (b2 + 0x100 * b3));
    LowByteUnique(a[1], a2 + 0x100 * a3, b[1], b2 + 0x100 * b3);
    LowByteUnique(a[2], a3, b[2], b3);
  }

  function Serialize(c: Command): (b: seq<byte>)
    requires Fits(c)
    ensures |b| == |c.payload| + 8
  {
    Encode32(c.cmd) + Encode32(|c.payload| + 8) + c.payload
  }

  predicate AllFit(table: seq<Command>) {
    forall i :: 0 <= i < |table| ==> Fits(table[i])
  }

  function SerializeAll(table: seq<Command>): seq<byte>
    requires AllFit(table)
  {
    if table == [] then [] else Serialize(table[0]) + SerializeAll(table[1..])
  }

  function Numbers(table: seq<Command>): seq<u32> {
    seq(|table|, i requires 0 <= i < |table| => table[i].cmd)
  }

  predicate HeaderOk(data: seq<byte>) {
    && |data| >= HEADER_BYTES
    && data[..4] == MAGIC
    && HEADER_BYTES + Decode32(data[20..24]) <= |data|
  }

  /** The declared command region. */
  function Region(data: seq<byte>): seq<byte>
    requires HeaderOk(data)
  {
    data[HEADER_BYTES..HEADER_BYTES + Decode32(data[20..24])]
  }

  /** `table` holds the declared number of commands and tiles a prefix of the region. */
  ghost predicate Tiles(data: seq<byte>, table: seq<Command>) {
    && HeaderOk(data)
    && |table| == Decode32(data[16..20])
    && AllFit(table) && SerializeAll(table) <= Region(data)
  }

  /** Accepted exactly when some table of the declared length tiles a prefix of the region,
      and then the numbers of that table are returned. */
  method LoadCommands(data: seq<byte>) returns (r: Result<seq<u32>, Malformed>)
    ensures r.Ok? <==> exists table :: Tiles(data, table)
    ensures r.Ok? ==> exists table :: Tiles(data, table) && r.value == Numbers(table)
  {
    if |data| < HEADER_BYTES || data[..4] != MAGIC {
      return Err(Malformed);
    }
    var ncmds := Decode32(data[16..20]);
    var end := HEADER_BYTES + Decode32(data[20..24]);
    if end > |data| {
      return Err(Malformed);
    }
    ghost var region := Region(data);
    ghost var table: seq<Command> := [];
    var offset := HEADER_BYTES;
    var commands: seq<u32> := [];
    for i := 0 to ncmds
      invariant HEADER_BYTES <= offset <= end
      invariant |table| == i && AllFit(table) && commands == Numbers(table)
      invariant SerializeAll(table) == region[..offset - HEADER_BYTES]
    {
      var at := offset - HEADER_BYTES;
      if offset + 8 > end {
        TruncatedTableRejected(region, table, ncmds);
        return Err(Malformed);
      }
      var cmd := Decode32(data[offset..offset + 4]);
      var size := Decode32(data[offset + 4..offset + 8]);
      HeadRead(data, at);
      if size < 8 || offset + size > end {
        MalformedEntryRejected(region, table, ncmds);
        return Err(Malformed);
      }
      ghost var next := Command(cmd, region[at + 8..at + size]);
      TableExtends(region, table, at, next);
      table := table + [next];
      commands := commands + [cmd];
      offset := offset + size;
    }
    assert Tiles(data, table);
    return Ok(commands);
  }

  /** The bytes read at `at` are the serialization of the entry they decode to. */
  lemma {:induction false} SerializedEntry(region: seq<byte>, at: nat, next: Command)
    requires at + 8 <= |region|
    requires Fits(next) && at + 8 + |next.payload| <= |region|
    requires next.cmd == Decode32(region[at..at + 4])
    requires |next.payload| + 8 == Decode32(region[at + 4..at + 8])
    requires next.payload == region[at + 8..at + 8 + |next.payload|]
    ensures region[..at] + Serialize(next) == region[..at + 8 + |next.payload|]
  {
    Decode32Injective(region[at..at + 4], Encode32(next.cmd));
    Decode32Injective(region[at + 4..at + 8], Encode32(|next.payload| + 8));
    assert region[at..at + 8 + |next.payload|] == region[at..at + 4] + region[at + 4..at + 8] + next.payload;
    assert region[..at] + region[at..at + 8 + |next.payload|] == region[..at + 8 + |next.payload|];
  }

  /** The head of a command, read from the file or from the region. */
  lemma HeadRead(data: seq<byte>, at: nat)
    requires HeaderOk(data) && at + 8 <= |Region(data)|
    ensures Decode32(data[HEADER_BYTES + at..HEADER_BYTES + at + 4]) == Decode32(Region(data)[at..at + 4])
    ensures Decode32(data[HEADER_BYTES + at + 4..HEADER_BYTES + at + 8]) == Decode32(Region(data)[at + 4..at + 8])
  {
    RegionSlice(data, at, 4);
    RegionSlice(data, at + 4, 4);
  }

  lemma RegionSlice(data: seq<byte>, at: nat, n: nat)
    requires HeaderOk(data) && at + n <= |Region(data)|
    ensures data[HEADER_BYTES + at..HEADER_BYTES + at + n] == Region(data)[at..at + n]
  {
  }

  lemma {:induction false} SerializeAllExtends(table: seq<Command>, next: Command)
    requires AllFit(table) && Fits(next)
    ensures AllFit(table + [next])
    ensures SerializeAll(table + [next]) == SerializeAll(table) + Serialize(next)
  {
    var longer := table + [next];
    if table == [] {
      assert SerializeAll(longer[1..]) == [];
    } else {
      assert longer[1..] == table[1..] + [next];
      SerializeAllExtends(table[1..], next);
    }
  }

  lemma TableExtends(region: seq<byte>, table: seq<Command>, at: nat, next: Command)
    requires AllFit(table) && at + 8 <= |region| && SerializeAll(table) == region[..at]
    requires Fits(next) && at + 8 + |next.payload| <= |region|
    requires next.cmd == Decode32(region[at..at + 4])
    requires |next.payload| + 8 == Decode32(region[at + 4..at + 8])
    requires next.payload == region[at + 8..at + 8 + |next.payload|]
    ensures AllFit(table + [next]) && SerializeAll(table + [next]) == region[..at + 8 + |next.payload|]
  {
    SerializedEntry(region, at, next);
    SerializeAllExtends(table, next);
  }

  /** No serialized command is a proper prefix of another. */
  lemma CommandsAgree(bytes: seq<byte>, x: Command, y: Command)
    requires Fits(x) && Fits(y)
    requires Serialize(x) <= bytes && Serialize(y) <= bytes
    ensures x == y
  {
    SerializedParts(bytes, x);
    SerializedParts(bytes, y);
  }

  lemma SerializedParts(bytes: seq<byte>, x: Command)
    requires Fits(x) && Serialize(x) <= bytes
    ensures Decode32(bytes[..4]) == x.cmd
    ensures Decode32(bytes[4..8]) == |x.payload| + 8
    ensures bytes[8..|x.payload| + 8] == x.payload
  {
    var entry := Serialize(x);
    assert bytes[..|entry|] == entry;
    assert bytes[..4] == entry[..4] == Encode32(x.cmd);
    assert bytes[4..8] == entry[4..8] == Encode32(|x.payload| + 8);
    assert bytes[8..|entry|] == entry[8..] == x.payload;
  }

  lemma FirstEntry(region: seq<byte>, table: seq<Command>)
    requires table != [] && AllFit(table) && SerializeAll(table) <= region
    ensures Serialize(table[0]) <= region
    ensures SerializeAll(table[1..]) <= region[|Serialize(table[0])|..]
  {
    var first := Serialize(table[0]);
    var all := SerializeAll(table);
    assert all[..|first|] == first && all[|first|..] == SerializeAll(table[1..]);
    assert region[..|all|] == all;
    assert region[..|first|] == all[..|first|];
    assert region[|first|..][..|all| - |first|] == all[|first|..];
  }

  /** Two tables serialized in the same bytes agree on their common length; when one is
      longer, its next command stands right after the shorter one's bytes. */
  lemma {:induction false} TablesAgree(region: seq<byte>, table: seq<Command>, longer: seq<Command>)
    requires AllFit(table) && AllFit(longer) && |table| <= |longer|
    requires SerializeAll(table) <= region && SerializeAll(longer) <= region
    ensures longer[..|table|] == table
    ensures |table| < |longer| ==> Serialize(longer[|table|]) <= region[|SerializeAll(table)|..]
  {
    if longer != [] {
      FirstEntry(region, longer);
    }
    if table != [] {
      FirstEntry(region, table);
      CommandsAgree(region, table[0], longer[0]);
      var n := |Serialize(table[0])|;
      TablesAgree(region[n..], table[1..], longer[1..]);
      assert longer[..|table|] == [longer[0]] + longer[1..][..|table| - 1];
      assert region[n..][|SerializeAll(table[1..])|..] == region[|SerializeAll(table)|..];
    } else {
      assert region[0..] == region;
    }
  }

  lemma TruncatedTableRejected(region: seq<byte>, table: seq<Command>, count: nat)
    requires AllFit(table) && SerializeAll(table) <= region
    requires |table| < count && |SerializeAll(table)| + 8 > |region|
    ensures forall longer :: |longer| == count && AllFit(longer) ==> !(SerializeAll(longer) <= region)
  {
    forall longer | |longer| == count && AllFit(longer) && SerializeAll(longer) <= region ensures false {
      TablesAgree(region, table, longer);
    }
  }

  lemma MalformedEntryRejected(region: seq<byte>, table: seq<Command>, count: nat)
    requires AllFit(table) && SerializeAll(table) <= region
    requires |table| < count && |SerializeAll(table)| + 8 <= |region|
    requires var at := |SerializeAll(table)|;
      var size := Decode32(region[at + 4..at + 8]);
      size < 8 || size > |region| - at
    ensures forall longer :: |longer| == count && AllFit(longer) ==> !(SerializeAll(longer) <= region)
  {
    var at := |SerializeAll(table)|;
    assert region[at..][4..8] == region[at + 4..at + 8];
    forall longer | |longer| == count && AllFit(longer) && SerializeAll(longer) <= region ensures false {
      TablesAgree(region, table, longer);
      SerializedParts(region[at..], longer[|table|]);
    }
  }

  /** At most one table tiles a file, so the parser recovers exactly what was serialized. */
  lemma TableRecovered(data: seq<byte>, table: seq<Command>, other: seq<Command>)
    requires Tiles(data, table) && Tiles(data, other)
    ensures table == other
  {
    TablesAgree(Region(data), table, other);
    assert other[..|other|] == other;
  }

  /** Whatever follows the declared region, and whatever the region holds after the
      table, a file built around a table is parsed back to that table. */
  lemma WellFormedFileTiles(header: seq<byte>, table: seq<Command>, slack: seq<byte>, rest: seq<byte>)
    requires AllFit(table) && |header| == HEADER_BYTES && header[..4] == MAGIC
    requires Decode32(header[16..20]) == |table|
    requires Decode32(header[20..24]) == |SerializeAll(table)| + |slack|
    ensures Tiles(header + SerializeAll(table) + slack + rest, table)
  {
    var data := header + SerializeAll(table) + slack + rest;
    assert data[..4] == header[..4] && data[16..20] == header[16..20] && data[20..24] == header[20..24];
    assert Region(data) == SerializeAll(table) + slack;
  }

  /** Bytes past the declared region never matter. */
  lemma OnlyHeaderAndRegionMatter(data: seq<byte>, other: seq<byte>, table: seq<Command>)
    requires HeaderOk(data)
    requires |other| >= HEADER_BYTES + |Region(data)|
    requires other[..HEADER_BYTES + |Region(data)|] == data[..HEADER_BYTES + |Region(data)|]
    ensures Tiles(data, table) <==> Tiles(other, table)
  {
    var n := HEADER_BYTES + |Region(data)|;
    assert forall k :: 0 <= k < n ==> other[k] == other[..n][k] && data[k] == data[..n][k];
    assert other[..4] == data[..4] && other[16..20] == data[16..20] && other[20..24] == data[20..24];
    assert Region(other) == Region(data);
  }
}
