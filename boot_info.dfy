/**
 * The partition-table decoder of rawMBR_GPT_analyzer/boot_info.cpp: the four
 * 16-byte entries of a classic PC master boot record, the first four
 * 128-byte entries of a GUID partition table's entry array, the lookup of a
 * partition type in the table read from PartitionTypes.csv, and the values
 * printed for each entry. The disk image is a byte sequence instead of a
 * stream.
 */
module BootInfo {
  import opened Wrappers
  import opened Bytes

  const SECTOR_SIZE: nat := 512
  /** The partition table starts at byte 0x1BE of the first sector. */
  const MBR_TABLE_OFFSET: nat := 0x1BE
  const MBR_ENTRY_SIZE: nat := 16
  const MBR_ENTRY_COUNT: nat := 4
  /** The GPT entry array is taken to start right after the header sector, at byte 0x400. */
  const GPT_ENTRIES_OFFSET: nat := 0x400
  const GPT_ENTRY_SIZE: nat := 128
  const GPT_ENTRY_COUNT: nat := 4

  /** `struct MbrPartitionEntry`: 1 + 3 + 1 + 3 + 4 + 4 bytes, no padding. */
  datatype MbrPartitionEntry = MbrPartitionEntry(
    bootIndicator: uint8,
    startChs: seq<uint8>,
    partitionType: uint8,
    endChs: seq<uint8>,
    startLba: uint32,
    size: uint32)

  predicate WellFormed(e: MbrPartitionEntry)
  {
    |e.startChs| == 3 && |e.endChs| == 3
  }

  /** Reading 16 bytes into the struct. */
  function DecodeMbrEntry(b: seq<uint8>): (e: MbrPartitionEntry)
    requires |b| == MBR_ENTRY_SIZE
    ensures WellFormed(e)
    ensures e.bootIndicator == b[0] && e.startChs == b[1..4]
    ensures e.partitionType == b[4] && e.endChs == b[5..8]
    ensures e.startLba as nat == LittleEndian(b[8..12]) && e.size as nat == LittleEndian(b[12..16])
  {
    MbrPartitionEntry(b[0], b[1..4], b[4], b[5..8], U32(b[8..12]), U32(b[12..16]))
  }

  /** The 16 bytes the struct occupies in memory. */
  function EncodeMbrEntry(e: MbrPartitionEntry): (b: seq<uint8>)
    requires WellFormed(e)
    ensures |b| == MBR_ENTRY_SIZE
  {
    [e.bootIndicator] + e.startChs + [e.partitionType] + e.endChs + FromU32(e.startLba) + FromU32(e.size)
  }

  lemma DecodeEncodeMbrEntry(e: MbrPartitionEntry)
    requires WellFormed(e)
    ensures DecodeMbrEntry(EncodeMbrEntry(e)) == e
  {
    var b := EncodeMbrEntry(e);
    var head := [e.bootIndicator] + e.startChs + [e.partitionType] + e.endChs;
    var lba := head + FromU32(e.startLba);
    assert |head| == 8 && |lba| == 12;
    assert b == lba + FromU32(e.size);
    assert b[..12] == lba && b[12..] == FromU32(e.size);
    assert lba[..8] == head && lba[8..] == FromU32(e.startLba);
    assert b[1..4] == head[1..4] == e.startChs && b[5..8] == head[5..8] == e.endChs;
    assert b[8..12] == lba[8..] && b[12..16] == b[12..];
    U32RoundTrip(e.startLba, b[8..12]);
    U32RoundTrip(e.size, b[12..16]);
  }

  lemma EncodeDecodeMbrEntry(b: seq<uint8>)
    requires |b| == MBR_ENTRY_SIZE
    ensures EncodeMbrEntry(DecodeMbrEntry(b)) == b
  {
    U32RoundTrip(0, b[8..12]);
    U32RoundTrip(0, b[12..16]);
    assert b == [b[0]] + b[1..4] + [b[4]] + b[5..8] + b[8..12] + b[12..16];
  }

  /** The bytes of MBR entry `i`. */
  function MbrEntryBytes(image: seq<uint8>, i: nat): (b: seq<uint8>)
    requires i < MBR_ENTRY_COUNT && |image| >= MBR_TABLE_OFFSET + MBR_ENTRY_COUNT * MBR_ENTRY_SIZE
    ensures |b| == MBR_ENTRY_SIZE
  {
    image[MBR_TABLE_OFFSET + MBR_ENTRY_SIZE * i .. MBR_TABLE_OFFSET + MBR_ENTRY_SIZE * i + MBR_ENTRY_SIZE]
  }

  /** `readMBR`: seek to 0x1BE, then read four consecutive 16-byte entries. */
  method ReadMbr(image: seq<uint8>) returns (table: seq<MbrPartitionEntry>)
    requires |image| >= MBR_TABLE_OFFSET + MBR_ENTRY_COUNT * MBR_ENTRY_SIZE
    ensures |table| == MBR_ENTRY_COUNT
    ensures forall i :: 0 <= i < MBR_ENTRY_COUNT ==> table[i] == DecodeMbrEntry(MbrEntryBytes(image, i))
    ensures forall i :: 0 <= i < MBR_ENTRY_COUNT ==> WellFormed(table[i]) && EncodeMbrEntry(table[i]) == MbrEntryBytes(image, i)
  {
    var pos := MBR_TABLE_OFFSET;
    table := [];
    for i := 0 to MBR_ENTRY_COUNT
      invariant |table| == i && pos == MBR_TABLE_OFFSET + MBR_ENTRY_SIZE * i
      invariant forall k :: 0 <= k < i ==> table[k] == DecodeMbrEntry(MbrEntryBytes(image, k))
    {
      var entry := DecodeMbrEntry(image[pos..pos + MBR_ENTRY_SIZE]);
      pos := pos + MBR_ENTRY_SIZE;
      table := table + [entry];
    }
    forall i | 0 <= i < MBR_ENTRY_COUNT
      ensures WellFormed(table[i]) && EncodeMbrEntry(table[i]) == MbrEntryBytes(image, i)
    {
      EncodeDecodeMbrEntry(MbrEntryBytes(image, i));
    }
  }

  /** What `readGPT` takes from one 128-byte partition entry. */
  datatype GptEntry = GptEntry(typeGuid: seq<uint8>, startLba: uint64, endLba: uint64)

  /** Type GUID at +0, starting LBA at +32, ending LBA at +40 (section 5.3.3 of the UEFI Specification). */
  function DecodeGptEntry(b: seq<uint8>): (e: GptEntry)
    requires |b| == GPT_ENTRY_SIZE
    ensures e.typeGuid == b[0..16]
    ensures e.startLba as nat == LittleEndian(b[32..40]) && e.endLba as nat == LittleEndian(b[40..48])
  {
    GptEntry(b[0..16], U64(b[32..40]), U64(b[40..48]))
  }

  /**
   * A 128-byte entry holding `e`; `uniqueGuid` (16 bytes) and `rest`
   * (attributes and name, 80 bytes) are the fields `readGPT` skips.
   */
  function EncodeGptEntry(e: GptEntry, uniqueGuid: seq<uint8>, rest: seq<uint8>): (b: seq<uint8>)
    requires |e.typeGuid| == 16 && |uniqueGuid| == 16 && |rest| == 80
    ensures |b| == GPT_ENTRY_SIZE
  {
    e.typeGuid + uniqueGuid + FromU64(e.startLba) + FromU64(e.endLba) + rest
  }

  /** Decoding recovers the three fields whatever the skipped bytes hold. */
  lemma DecodeEncodeGptEntry(e: GptEntry, uniqueGuid: seq<uint8>, rest: seq<uint8>)
    requires |e.typeGuid| == 16 && |uniqueGuid| == 16 && |rest| == 80
    ensures DecodeGptEntry(EncodeGptEntry(e, uniqueGuid, rest)) == e
  {
    var b := EncodeGptEntry(e, uniqueGuid, rest);
    assert b[0..16] == e.typeGuid;
    assert b[32..40] == FromU64(e.startLba) && b[40..48] == FromU64(e.endLba);
    U64RoundTrip(e.startLba, b[32..40]);
    U64RoundTrip(e.endLba, b[40..48]);
  }

  /** The bytes of GPT partition `i` (numbered from 1, as the source prints them). */
  function GptEntryBytes(image: seq<uint8>, i: nat): (b: seq<uint8>)
    requires 1 <= i <= GPT_ENTRY_COUNT && |image| >= GPT_ENTRIES_OFFSET + GPT_ENTRY_COUNT * GPT_ENTRY_SIZE
    ensures |b| == GPT_ENTRY_SIZE
  {
    image[GPT_ENTRIES_OFFSET + GPT_ENTRY_SIZE * (i - 1) .. GPT_ENTRIES_OFFSET + GPT_ENTRY_SIZE * i]
  }

  /**
   * `readGPT`: skip 0x400 bytes, then for partitions 1 to 4 read the type
   * GUID (16), skip 16, read the starting and ending LBA (8 each), skip 80.
   */
  method ReadGpt(image: seq<uint8>) returns (parts: seq<GptEntry>)
    requires |image| >= GPT_ENTRIES_OFFSET + GPT_ENTRY_COUNT * GPT_ENTRY_SIZE
    ensures |parts| == GPT_ENTRY_COUNT
    ensures forall i :: 1 <= i <= GPT_ENTRY_COUNT ==> parts[i - 1] == DecodeGptEntry(GptEntryBytes(image, i))
  {
    var pos := GPT_ENTRIES_OFFSET;
    parts := [];
    for i := 1 to GPT_ENTRY_COUNT + 1
      invariant |parts| == i - 1 && pos == GPT_ENTRIES_OFFSET + GPT_ENTRY_SIZE * (i - 1)
      invariant forall k :: 1 <= k < i ==> parts[k - 1] == DecodeGptEntry(GptEntryBytes(image, k))
    {
      ghost var base := pos;
      assert GptEntryBytes(image, i) == image[base..base + GPT_ENTRY_SIZE];
      var guidPartType := image[pos..pos + 16];
      pos := pos + 16;
      pos := pos + 16;
      var startLba := U64(image[pos..pos + 8]);
      pos := pos + 8;
      var endLba := U64(image[pos..pos + 8]);
      pos := pos + 8;
      pos := pos + 80;
      SliceOfSlice(image, base, base + GPT_ENTRY_SIZE, 0, 16);
      SliceOfSlice(image, base, base + GPT_ENTRY_SIZE, 32, 40);
      SliceOfSlice(image, base, base + GPT_ENTRY_SIZE, 40, 48);
      parts := parts + [GptEntry(guidPartType, startLba, endLba)];
    }
  }

  lemma SliceOfSlice(s: seq<uint8>, lo: nat, hi: nat, i: nat, j: nat)
    requires lo <= hi <= |s| && i <= j <= hi - lo
    ensures s[lo..hi][i..j] == s[lo + i..lo + j]
  {
    assert forall k :: 0 <= k < j - i ==> s[lo..hi][i..j][k] == s[lo + i + k];
  }

  // ---------------------------------------------------------------------
  // The partition-type table (PartitionTypes.csv) and its lookup.

  /** A row of the table: hex id and type name (the CSV's two columns). */
  datatype PartitionType = PartitionType(id: string, name: string)

  /** `_CVStoArray` prefixes a one-character id with "0" so that ids read as one byte. */
  function PadId(token: string): string
  {
    if |token| == 1 then "0" + token else token
  }

  predicate IsHexDigit(ch: char)
  {
    '0' <= ch <= '9' || 'a' <= ch <= 'f' || 'A' <= ch <= 'F'
  }

  function HexDigitValue(ch: char): (v: nat)
    requires IsHexDigit(ch)
    ensures v < 16
  {
    if '0' <= ch <= '9' then ch as nat - '0' as nat
    else if 'a' <= ch <= 'f' then ch as nat - 'a' as nat + 10
    else ch as nat - 'A' as nat + 10
  }

  /** The number of leading hexadecimal digits of `s`. */
  function HexPrefixLength(s: string): (n: nat)
    ensures n <= |s|
    ensures forall i :: 0 <= i < n ==> IsHexDigit(s[i])
    ensures n < |s| ==> !IsHexDigit(s[n])
  {
    if s == [] || !IsHexDigit(s[0]) then 0 else 1 + HexPrefixLength(s[1..])
  }

  /** The value of a string of hexadecimal digits, most significant first. */
  function HexValue(s: string): nat
    requires forall i :: 0 <= i < |s| ==> IsHexDigit(s[i])
  {
    if s == [] then 0 else 16 * HexValue(s[..|s| - 1]) + HexDigitValue(s[|s| - 1])
  }

  /**
   * `stoul(s, nullptr, 16)`: the value of the leading hexadecimal digits;
   * `None` where `stoul` throws `invalid_argument` (no leading digit).
   */
  function Stoul16(s: string): Option<nat>
  {
    var n := HexPrefixLength(s);
    if n == 0 then None else Some(HexValue(s[..n]))
  }

  /** A leading zero changes neither the digits' value nor whether they parse. */
  lemma {:induction false} HexValueLeadingZero(s: string)
    requires forall i :: 0 <= i < |s| ==> IsHexDigit(s[i])
    ensures HexValue("0" + s) == HexValue(s)
  {
    if s != [] {
      var front := s[..|s| - 1];
      HexValueLeadingZero(front);
      assert ("0" + s)[..|s|] == "0" + front;
    }
  }

  /** Padding an id keeps the value `stoul` reads from it, and a one-digit id becomes two digits. */
  lemma PadIdKeepsValue(token: string)
    requires token != [] && IsHexDigit(token[0])
    ensures Stoul16(PadId(token)) == Stoul16(token)
    ensures |token| <= 2 ==> |PadId(token)| == 2
  {
    if |token| == 1 {
      var padded := "0" + token;
      assert HexPrefixLength(padded) == 2;
      assert padded[..2] == padded && token[..1] == token;
      HexValueLeadingZero(token);
    }
  }

  /**
   * `_CVStoArray`: pads each CSV row's id, then copies the first
   * `arrayList.Length` rows (98 in the source) into the table.
   */
  method CsvToArray(arrayList: array<PartitionType>, csv: seq<(string, string)>)
    requires |csv| >= arrayList.Length
    modifies arrayList
    ensures forall i :: 0 <= i < arrayList.Length ==> arrayList[i] == PartitionType(PadId(csv[i].0), csv[i].1)
  {
    var data: seq<PartitionType> := [];
    for k := 0 to |csv|
      invariant |data| == k
      invariant forall i :: 0 <= i < k ==> data[i] == PartitionType(PadId(csv[i].0), csv[i].1)
    {
      data := data + [PartitionType(PadId(csv[k].0), csv[k].1)];
    }
    for i := 0 to arrayList.Length
      invariant forall j :: 0 <= j < i ==> arrayList[j] == data[j]
    {
      arrayList[i] := data[i];
    }
  }

  /** Outcome of searching the table for a partition type. */
  datatype Lookup =
    | Found(index: nat)    // the first row whose id reads as the type
    | NoMatch              // no row matches: nothing is printed for the entry
    | BadId(index: nat)    // `stoul` throws on this row's id before any match

  function LookupFrom(table: seq<PartitionType>, partitionType: uint8, j: nat): (r: Lookup)
    ensures r.Found? ==> j <= r.index < |table|
    ensures r.BadId? ==> j <= r.index < |table|
    decreases |table| - j
  {
    if j >= |table| then NoMatch
    else match Stoul16(table[j].id)
      case None => BadId(j)
      case Some(v) => if v == partitionType as nat then Found(j) else LookupFrom(table, partitionType, j + 1)
  }

  function LookupType(table: seq<PartitionType>, partitionType: uint8): Lookup
  {
    LookupFrom(table, partitionType, 0)
  }

  /** Row `k` parses and does not match. */
  predicate Skipped(table: seq<PartitionType>, partitionType: uint8, k: nat)
    requires k < |table|
  {
    Stoul16(table[k].id).Some? && Stoul16(table[k].id).value != partitionType as nat
  }

  lemma {:induction false} LookupFromSpec(table: seq<PartitionType>, partitionType: uint8, j: nat)
    ensures match LookupFrom(table, partitionType, j)
      case Found(i) => j <= i < |table| && Stoul16(table[i].id) == Some(partitionType as nat)
        && forall k :: j <= k < i ==> Skipped(table, partitionType, k)
      case NoMatch => forall k :: j <= k < |table| ==> Skipped(table, partitionType, k)
      case BadId(i) => (j <= i < |table| && Stoul16(table[i].id).None?
        && forall k :: j <= k < i ==> Skipped(table, partitionType, k))
    decreases |table| - j
  {
    if j < |table| && Stoul16(table[j].id).Some? && Stoul16(table[j].id).value != partitionType as nat {
      LookupFromSpec(table, partitionType, j + 1);
    }
  }

  /**
   * The lookup stops at the first row whose id reads as the entry's type;
   * it finds nothing only when every row parses and none matches.
   */
  lemma LookupTypeSpec(table: seq<PartitionType>, partitionType: uint8)
    ensures match LookupType(table, partitionType)
      case Found(i) => i < |table| && Stoul16(table[i].id) == Some(partitionType as nat)
        && forall k :: 0 <= k < i ==> Skipped(table, partitionType, k)
      case NoMatch => forall k :: 0 <= k < |table| ==> Skipped(table, partitionType, k)
      case BadId(i) => (i < |table| && Stoul16(table[i].id).None?
        && forall k :: 0 <= k < i ==> Skipped(table, partitionType, k))
  {
    LookupFromSpec(table, partitionType, 0);
  }

  /** The inner loop of `printMBR`: scan the rows in order and break on the first match. */
  method FindType(table: seq<PartitionType>, partitionType: uint8) returns (r: Lookup)
    ensures r == LookupType(table, partitionType)
  {
    var j := 0;
    while j < |table|
      invariant 0 <= j <= |table|
      invariant LookupFrom(table, partitionType, j) == LookupType(table, partitionType)
    {
      var v := Stoul16(table[j].id);
      if v.None? {
        return BadId(j);
      }
      if partitionType as nat == v.value {
        return Found(j);
      }
      j := j + 1;
    }
    return NoMatch;
  }

  /** `isspace` in the C locale. */
  predicate IsSpace(ch: char)
  {
    ch == ' ' || ch == '\t' || ch == '\n' || ch == '\r' || ch == '\U{000B}' || ch == '\U{000C}'
  }

  /** Drops one trailing whitespace character (the line end left by `getline`), if there is one. */
  function StripTrailingSpace(s: string): (r: string)
    ensures r <= s && |s| - |r| <= 1
    ensures |r| < |s| <==> s != [] && IsSpace(s[|s| - 1])
  {
    if s != [] && IsSpace(s[|s| - 1]) then s[..|s| - 1] else s
  }

  /** `entry.size*512`: unsigned 32-bit multiplication, so the product wraps modulo 2^32. */
  function SizeInBytes(size: uint32): (r: uint32)
    ensures r as nat % SECTOR_SIZE == 0
    ensures size < 0x80_0000 ==> r as nat == size as nat * SECTOR_SIZE
    ensures size >= 0x80_0000 ==> r as nat < size as nat * SECTOR_SIZE
    ensures (r as int - size as int * SECTOR_SIZE) % 0x1_0000_0000 == 0
  {
    var product := size as nat * SECTOR_SIZE;
    ModuloKeepsSectorMultiple(size as nat);
    (product % 0x1_0000_0000) as uint32
  }

  lemma ModuloKeepsSectorMultiple(n: nat)
    ensures (n * 512) % 0x1_0000_0000 % 512 == 0
  {
    var q := (n * 512) / 0x1_0000_0000;
    assert (n * 512) % 0x1_0000_0000 == 512 * (n - q * 0x80_0000);
  }

  /** The line `printMBR` prints for an entry whose type was found in row `row`. */
  datatype MbrRow = MbrRow(id: string, typeName: string, startLba: uint32, sizeInBytes: uint32)

  function RowFor(row: PartitionType, e: MbrPartitionEntry): MbrRow
  {
    MbrRow(row.id, StripTrailingSpace(row.name), e.startLba, SizeInBytes(e.size))
  }

  /**
   * The rows printed for `entries`, and whether a `stoul` exception ended
   * the listing early.
   */
  function ListRows(table: seq<PartitionType>, entries: seq<MbrPartitionEntry>): (seq<MbrRow>, bool)
  {
    if entries == [] then ([], false)
    else match LookupType(table, entries[0].partitionType)
      case BadId(_) => ([], true)
      case NoMatch => ListRows(table, entries[1..])
      case Found(j) =>
        var rest := ListRows(table, entries[1..]);
        ([RowFor(table[j], entries[0])] + rest.0, rest.1)
  }

  /** `r` is the row printed for some entry whose type was found in some table row. */
  predicate RowOfEntry(table: seq<PartitionType>, entries: seq<MbrPartitionEntry>, r: MbrRow)
  {
    exists i: nat, j: nat :: i < |entries| && j < |table|
      && LookupType(table, entries[i].partitionType) == Found(j) && r == RowFor(table[j], entries[i])
  }

  /** Every printed row belongs to an entry whose type was found. */
  lemma {:induction false} ListRowsFromFound(table: seq<PartitionType>, entries: seq<MbrPartitionEntry>)
    ensures forall r :: r in ListRows(table, entries).0 ==> RowOfEntry(table, entries, r)
  {
    if entries != [] {
      var rest := entries[1..];
      ListRowsFromFound(table, rest);
      LookupTypeSpec(table, entries[0].partitionType);
      forall r | r in ListRows(table, entries).0
        ensures RowOfEntry(table, entries, r)
      {
        if r in ListRows(table, rest).0 {
          assert RowOfEntry(table, rest, r);
          var i: nat, j: nat :| i < |rest| && j < |table|
            && LookupType(table, rest[i].partitionType) == Found(j) && r == RowFor(table[j], rest[i]);
          assert entries[i + 1] == rest[i];
        }
      }
    }
  }

  /**
   * The listing is cut short exactly when some entry's lookup throws;
   * otherwise an entry whose type is not in the table prints nothing, so
   * there is one row per entry exactly when every type is found.
   */
  lemma {:induction false} ListRowsCount(table: seq<PartitionType>, entries: seq<MbrPartitionEntry>)
    ensures ListRows(table, entries).1 <==> exists i :: 0 <= i < |entries| && LookupType(table, entries[i].partitionType).BadId?
    ensures |ListRows(table, entries).0| <= |entries|
    ensures (forall i :: 0 <= i < |entries| ==> LookupType(table, entries[i].partitionType).Found?)
      <==> |ListRows(table, entries).0| == |entries|
    ensures (forall i :: 0 <= i < |entries| ==> LookupType(table, entries[i].partitionType).NoMatch?)
      ==> ListRows(table, entries) == ([], false)
  {
    if entries != [] {
      var rest := entries[1..];
      ListRowsCount(table, rest);
      if exists i :: 0 <= i < |entries| && LookupType(table, entries[i].partitionType).BadId? {
        var i :| 0 <= i < |entries| && LookupType(table, entries[i].partitionType).BadId?;
        if i > 0 {
          assert rest[i - 1] == entries[i];
        }
      }
      if exists i :: 0 <= i < |rest| && LookupType(table, rest[i].partitionType).BadId? {
        var i :| 0 <= i < |rest| && LookupType(table, rest[i].partitionType).BadId?;
        assert entries[i + 1] == rest[i];
      }
      if forall i :: 0 <= i < |entries| ==> LookupType(table, entries[i].partitionType).Found? {
        forall i | 0 <= i < |rest|
          ensures LookupType(table, rest[i].partitionType).Found?
        {
          assert rest[i] == entries[i + 1];
        }
      }
      if |ListRows(table, entries).0| == |entries| {
        LookupTypeSpec(table, entries[0].partitionType);
        assert LookupType(table, entries[0].partitionType).Found?;
        assert |ListRows(table, rest).0| == |rest|;
        forall i | 0 <= i < |entries|
          ensures LookupType(table, entries[i].partitionType).Found?
        {
          if i > 0 {
            assert entries[i] == rest[i - 1];
          }
        }
      }
      if forall i :: 0 <= i < |entries| ==> LookupType(table, entries[i].partitionType).NoMatch? {
        forall i | 0 <= i < |rest|
          ensures LookupType(table, rest[i].partitionType).NoMatch?
        {
          assert rest[i] == entries[i + 1];
        }
      }
    }
  }

  /**
   * When every type is found, entry i prints row i: its id, stripped name,
   * start and size, from the first table row matching its type.
   */
  lemma {:induction false} ListRowsInOrder(table: seq<PartitionType>, entries: seq<MbrPartitionEntry>)
    requires forall i :: 0 <= i < |entries| ==> LookupType(table, entries[i].partitionType).Found?
    ensures !ListRows(table, entries).1
    ensures |ListRows(table, entries).0| == |entries|
    ensures forall i :: 0 <= i < |entries| ==>
      && LookupType(table, entries[i].partitionType).index < |table|
      && ListRows(table, entries).0[i] == RowFor(table[LookupType(table, entries[i].partitionType).index], entries[i])
  {
    if entries != [] {
      var rest := entries[1..];
      forall i | 0 <= i < |rest|
        ensures LookupType(table, rest[i].partitionType).Found?
      {
        assert rest[i] == entries[i + 1];
      }
      ListRowsInOrder(table, rest);
      LookupTypeSpec(table, entries[0].partitionType);
      forall i | 0 <= i < |entries|
        ensures && LookupType(table, entries[i].partitionType).index < |table|
          && ListRows(table, entries).0[i] == RowFor(table[LookupType(table, entries[i].partitionType).index], entries[i])
      {
        LookupTypeSpec(table, entries[i].partitionType);
        if i > 0 {
          assert entries[i] == rest[i - 1];
        }
      }
    }
  }

  /**
   * The first loop of `printMBR`: for each entry, find its type and print
   * one row, or nothing when no row matches; `failed` when `stoul` threw.
   */
  method PrintMbrRows(table: seq<PartitionType>, entries: seq<MbrPartitionEntry>) returns (rows: seq<MbrRow>, failed: bool)
    ensures (rows, failed) == ListRows(table, entries)
  {
    rows := [];
    var i := 0;
    assert entries[i..] == entries;
    assert [] + ListRows(table, entries).0 == ListRows(table, entries).0;
    while i < |entries|
      invariant 0 <= i <= |entries|
      invariant ListRows(table, entries) == (rows + ListRows(table, entries[i..]).0, ListRows(table, entries[i..]).1)
    {
      var entry := entries[i];
      var found := FindType(table, entry.partitionType);
      assert entries[i..][1..] == entries[i + 1..];
      match found {
        case BadId(_) =>
          assert rows + [] == rows;
          return rows, true;
        case NoMatch =>
        case Found(j) =>
          LookupTypeSpec(table, entry.partitionType);
          assert rows + ([RowFor(table[j], entry)] + ListRows(table, entries[i + 1..]).0)
            == (rows + [RowFor(table[j], entry)]) + ListRows(table, entries[i + 1..]).0;
          rows := rows + [RowFor(table[j], entry)];
      }
      i := i + 1;
    }
    assert rows + [] == rows;
    failed := false;
  }

  // ---------------------------------------------------------------------
  // The last 16 bytes of each partition's boot record.

  /**
   * The offset `printMBR` seeks to: `entry.start_lba + 512 - 16`, computed in
   * unsigned 32-bit arithmetic, so it wraps modulo 2^32.
   */
  function TailOffsetAsWritten(e: MbrPartitionEntry): (r: uint32)
    ensures e.startLba as nat < 0x1_0000_0000 - 496 ==> r as nat == e.startLba as nat + 496
    ensures e.startLba as nat >= 0x1_0000_0000 - 496 ==> r < e.startLba
    ensures (r as int - (e.startLba as int + 496)) % 0x1_0000_0000 == 0
  {
    ((e.startLba as nat + SECTOR_SIZE - 16) % 0x1_0000_0000) as uint32
  }

  /**
   * The seek treats the starting sector number as a byte offset: for a
   * partition starting at sector 2048 it reads bytes 2544..2559, which lie
   * in sector 4, not in the partition's first sector.
   */
  lemma TailOffsetAsWrittenMissesSector()
    ensures var e := MbrPartitionEntry(0, [0, 0, 0], 0x83, [0, 0, 0], 2048, 0x1000);
      && TailOffsetAsWritten(e) == 2544
      && TailOffsetAsWritten(e) as nat / SECTOR_SIZE == 4
      && TailOffsetAsWritten(e) as nat / SECTOR_SIZE != e.startLba as nat
  {
  }

  /**
   * The 16 bytes `printMBR` reads as written: at `TailOffsetAsWritten(e)`,
   * or `None` when the image ends before them.
   */
  function BootRecordTailAsWritten(image: seq<uint8>, e: MbrPartitionEntry): (t: Option<seq<uint8>>)
    ensures t.Some? <==> TailOffsetAsWritten(e) as nat + 16 <= |image|
    ensures t.Some? && e.startLba as nat < 0x1_0000_0000 - 496 ==>
      t.value == image[e.startLba as nat + SECTOR_SIZE - 16 .. e.startLba as nat + SECTOR_SIZE]
    ensures t.Some? && e.startLba as nat >= 0x1_0000_0000 - 496 ==>
      t.value == image[e.startLba as nat + 496 - 0x1_0000_0000 .. e.startLba as nat + 512 - 0x1_0000_0000]
  {
    var offset := TailOffsetAsWritten(e) as nat;
    if offset + 16 <= |image| then Some(image[offset..offset + 16]) else None
  }

  /** The as-written seek lands on the intended bytes only for a partition starting at sector 0. */
  lemma TailOffsetAsWrittenAgreesOnlyAtZero(e: MbrPartitionEntry)
    ensures TailOffsetAsWritten(e) as nat == BootRecordTailOffset(e) <==> e.startLba == 0
  {
    var s := e.startLba as nat;
    if s < 0x1_0000_0000 - 496 {
      assert TailOffsetAsWritten(e) as nat == s + 496;
      assert BootRecordTailOffset(e) == s * 512 + 496;
    } else {
      assert TailOffsetAsWritten(e) as nat < s;
      assert BootRecordTailOffset(e) >= s;
    }
  }

  /** The last 16 bytes of the partition's first sector: byte `start_lba*512 + 496`. */
  function BootRecordTailOffset(e: MbrPartitionEntry): (r: nat)
    ensures r / SECTOR_SIZE == e.startLba as nat
    ensures r % SECTOR_SIZE == SECTOR_SIZE - 16
    ensures r + 16 == (e.startLba as nat + 1) * SECTOR_SIZE
  {
    e.startLba as nat * SECTOR_SIZE + SECTOR_SIZE - 16
  }

  /**
   * The corrected read: the 16 bytes at `BootRecordTailOffset(e)`, or `None`
   * when the image ends before them.
   */
  function BootRecordTail(image: seq<uint8>, e: MbrPartitionEntry): (t: Option<seq<uint8>>)
    ensures t.Some? <==> BootRecordTailOffset(e) + 16 <= |image|
    ensures t.Some? ==> (|t.value| == 16
      && t.value == image[e.startLba as nat * SECTOR_SIZE .. (e.startLba as nat + 1) * SECTOR_SIZE][SECTOR_SIZE - 16..])
  {
    var offset := BootRecordTailOffset(e);
    if offset + 16 <= |image| then Some(image[offset..offset + 16]) else None
  }
}
