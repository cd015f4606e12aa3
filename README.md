# Chain-of-custody ledger and MBR/GPT decoder, modelled in Dafny

This project models two pieces of sequential logic from a digital-forensics
course repository.

**The chain-of-custody ledger** (`blockchain.py`; the same three classes are
repeated, apart from print statements, in `bchoc.py` lines 16-83):

- A `Case` collects evidence items. Each item is added with status `CHECKEDIN`.
- A `ChainOfCustody` block holds a timestamp, a payload, the previous block's
  hash, and its own hash, computed once at construction.
- A `Blockchain` owns the ordered block list. It loads the list from its
  store file, or starts it with a genesis block whose previous hash is `"0"`.
  `add_block` links each new block to the tail's hash, appends it and
  rewrites the whole list to the store.
- `get_cases` folds the chain into a dictionary (the last block for a case id
  wins). `get_case` returns the first matching case, or `None`.
- The `add` command of `bchoc.py` builds one case from `-i` arguments and
  appends one block holding it.

**The partition-table decoder** (`rawMBR_GPT_analyzer/boot_info.cpp`):

- It reads the four 16-byte entries of the MBR partition table at byte 0x1BE.
- It reads the first four 128-byte entries of the GPT partition entry array,
  taken to start at byte 0x400.
- It looks each MBR partition type up in a table read from a CSV file, and
  computes the values printed for the entry.
- It renders the MD5 and SHA-256 digests of the image as lowercase hex text.

Modules:

- `Custody` (custody.dfy): `Case` and `Blockchain` are classes, because the
  source updates them in place. `BlockStore` stands for the pickle file. A
  block is an immutable datatype.
- `Bchoc` (bchoc.dfy): the `add` command.
- `Bytes` (bytes.dfy): fixed-width integers and little-endian fields.
- `BootInfo` (boot_info.dfy): the MBR and GPT decoding and the type lookup.
- `Digest` (digest.dfy): the hex rendering.
- `Wrappers` (wrappers.dfy): `Option`.

Foreign and nondeterministic inputs are parameters:

- SHA-256 over `str(timestamp) + str(data) + str(previous_hash)` is a total
  function `hasher`, so equal inputs give equal hashes.
- `datetime.now()` is a `now` argument, or a `clock` function for item times.
- The disk image and the digests are byte sequences.

The code does less than a full custody system would. There is no custody
state machine, no chain verifier, no item-id uniqueness check, and the store
is not written atomically. The `add` command appends one block for the whole
case, not one per item. The model follows the code.

## Model

| member | source | states |
|---|---|---|
| `Custody.Case.constructor` | blockchain.py:14-16 | a new case has the given id and no items |
| `Custody.Case.AddItem` | blockchain.py:18-23 | appends exactly one item `(item_id, CHECKEDIN, time)`; earlier items are unchanged |
| `Custody.Case.GetItems` | blockchain.py:25-26 | returns the case's current item list |
| `Custody.CalculateHash` | blockchain.py:35-40 | the hash is the hash function applied to the block's timestamp, data and previous hash, in that order |
| `Custody.CalculateHashIgnoresStoredHash` | blockchain.py:35-40 | the stored hash field does not enter the hash |
| `Custody.NewBlock` | blockchain.py:29-33 | the block keeps the given timestamp, data and previous hash; its stored hash is the hash of those three |
| `Custody.HashDeterministic` | blockchain.py:35-40 | two self-consistent blocks with the same timestamp, data and previous hash have the same hash, so they are the same block |
| `Custody.GenesisBlock` | blockchain.py:53-54 | the genesis block has the given creation time, carries `"Genesis Block"` and previous hash `"0"`, and its hash is self-consistent |
| `Custody.Append` | blockchain.py:56-59 | `add_block` on a chain gives one more block; the earlier blocks are unchanged; the new block links to the old tail's hash and carries the data |
| `Custody.GenesisChainValid` | blockchain.py:48-54 | the one-block chain of a fresh store satisfies the hash-link invariant |
| `Custody.AppendPreservesValid` | blockchain.py:56-59 | `add_block` preserves the hash-link invariant |
| `Custody.ReplayValid` | bchoc.py:53-67 | any chain built from genesis by `add_block` alone is hash-linked, self-consistent, one longer than the steps, and holds the payloads in order |
| `Custody.CasesOfKeys` | blockchain.py:66-71 | `get_cases` has a key exactly for each case id found in a case block; other blocks are ignored |
| `Custody.CasesOfLastWins` | bchoc.py:72-77 | for a repeated case id, `get_cases` keeps the case of the last block with that id |
| `Custody.FirstCaseSpec` | blockchain.py:73-77 | `get_case` returns the case of the first block with that id, and `None` exactly when no block has it |
| `Custody.SameCaseIds` | bchoc.py:72-83 | `get_case` finds a case exactly for the ids that `get_cases` lists |
| `Custody.BlockStore.constructor` | blockchain.py:44-45 | the store starts with the given existence flag and block image |
| `Custody.Blockchain.constructor` | blockchain.py:43-51 | an existing store's chain is loaded unchanged; otherwise the chain is exactly the genesis block, written to the store; either way the store equals the chain |
| `Custody.Blockchain.AddBlock` | blockchain.py:56-61 | appends exactly one block linked to the tail's hash; earlier blocks are unchanged; the store is rewritten to the new chain; validity is preserved |
| `Custody.Blockchain.GetChain` | blockchain.py:63-64 | returns the chain |
| `Custody.Blockchain.GetCases` | blockchain.py:66-71 | the loop's dictionary is the last-wins fold of the chain; the chain is not modified |
| `Custody.Blockchain.GetCase` | blockchain.py:73-77 | the early-return loop gives the first matching case, or `None` |
| `Bchoc.CaseFlagGuardVacuous` | bchoc.py:125 | `str(argv[2] == '-c')` is a non-empty string, so the guard always holds |
| `Bchoc.FlagsFromSpec` | bchoc.py:128-129 | the positions the loop acts on are increasing and are exactly the even indices from 4 holding `-i` |
| `Bchoc.ScanFromFails` | bchoc.py:128-131 | the loop raises IndexError exactly when the last argument is an `-i` at an even index it reaches |
| `Bchoc.ScanFromLength` | bchoc.py:128-131 | a successful loop adds one item per flag |
| `Bchoc.ScanFromItemAt` | bchoc.py:128-131 | the k-th item id is the argument after the k-th flag |
| `Bchoc.ScanItemsSpec` | bchoc.py:128-131 | from index 4: IndexError iff a trailing flag; otherwise the ids are the values after the `-i` flags, in argument order |
| `Bchoc.DuplicateItemsKept` | bchoc.py:130-131 | repeated `-i 7 -i 7` gives two items `"7"`; duplicates are not rejected |
| `Bchoc.AddItems` | bchoc.py:128-131 | the loop succeeds iff the scan does, and then the case holds one `CHECKEDIN` item per flag, in order |
| `Bchoc.Add` | bchoc.py:124-134 | not `add`: nothing happens. Too few arguments, a trailing `-i` or an empty chain: IndexError and the chain is unchanged. Otherwise a fresh case with id `argv[3]` and the scanned items, all `CHECKEDIN`, is appended as exactly one block, and the store equals the chain |
| `Bytes.LittleEndianBound` | rawMBR_GPT_analyzer/boot_info.cpp:17-18 | n bytes read little-endian give a value below 256^n |
| `Bytes.DecodeEncodeLittleEndian` | rawMBR_GPT_analyzer/boot_info.cpp:17-18 | storing a value in n bytes and reading it back gives the value |
| `Bytes.EncodeDecodeLittleEndian` | rawMBR_GPT_analyzer/boot_info.cpp:17-18 | reading n bytes and storing the value back gives the same bytes |
| `Bytes.U32RoundTrip` | rawMBR_GPT_analyzer/boot_info.cpp:17-18 | a `uint32_t` field and its four bytes determine each other |
| `Bytes.U64RoundTrip` | rawMBR_GPT_analyzer/boot_info.cpp:168-171 | a `uint64_t` field and its eight bytes determine each other |
| `BootInfo.DecodeMbrEntry` | rawMBR_GPT_analyzer/boot_info.cpp:12-19 | boot indicator is byte 0, start CHS bytes 1-3, type byte 4, end CHS bytes 5-7, start LBA little-endian bytes 8-11, size little-endian bytes 12-15 |
| `BootInfo.DecodeEncodeMbrEntry` | rawMBR_GPT_analyzer/boot_info.cpp:12-19 | an entry written as its 16 bytes decodes to itself |
| `BootInfo.EncodeDecodeMbrEntry` | rawMBR_GPT_analyzer/boot_info.cpp:12-19 | decoding 16 bytes loses nothing: re-encoding gives the bytes |
| `BootInfo.ReadMbr` | rawMBR_GPT_analyzer/boot_info.cpp:127-135 | exactly 4 entries; entry i decodes bytes `[0x1BE+16i, 0x1BE+16i+16)` and re-encodes to them |
| `BootInfo.DecodeGptEntry` | rawMBR_GPT_analyzer/boot_info.cpp:153-171 | type GUID is bytes 0-15, starting LBA little-endian bytes 32-39, ending LBA little-endian bytes 40-47 of the entry |
| `BootInfo.DecodeEncodeGptEntry` | rawMBR_GPT_analyzer/boot_info.cpp:153-176 | the three fields are recovered whatever the 96 skipped bytes hold |
| `BootInfo.ReadGpt` | rawMBR_GPT_analyzer/boot_info.cpp:147-177 | exactly 4 entries; partition i (1..4) decodes bytes `[0x400+128(i-1), 0x400+128i)` |
| `BootInfo.PadIdKeepsValue` | rawMBR_GPT_analyzer/boot_info.cpp:53 | for an id starting with a hex digit, padding keeps the value `stoul` reads, and a one-digit id becomes two characters |
| `BootInfo.HexValueLeadingZero` | rawMBR_GPT_analyzer/boot_info.cpp:53 | a leading `"0"` does not change the value of a hex digit string |
| `BootInfo.CsvToArray` | rawMBR_GPT_analyzer/boot_info.cpp:47-67 | row i of the table is the CSV's row i with its id padded |
| `BootInfo.LookupFromSpec` | rawMBR_GPT_analyzer/boot_info.cpp:205-218 | from row j on: the result is the first row whose id reads as the type, or the first row whose id `stoul` rejects, or no match when every row reads and none matches |
| `BootInfo.LookupTypeSpec` | rawMBR_GPT_analyzer/boot_info.cpp:205-219 | the lookup over the whole table is first-match, with the same three outcomes |
| `BootInfo.FindType` | rawMBR_GPT_analyzer/boot_info.cpp:205-219 | the nested loop with `break` computes the first-match lookup |
| `BootInfo.StripTrailingSpace` | rawMBR_GPT_analyzer/boot_info.cpp:213-215 | the result is a prefix at most one character shorter; it is shorter exactly when the name ends in whitespace, so an empty name is left alone |
| `BootInfo.SizeInBytes` | rawMBR_GPT_analyzer/boot_info.cpp:216 | the printed size is `(size*512) mod 2^32`: a multiple of 512, exact below 2^23 sectors (4 GiB), and smaller than the true product from there |
| `BootInfo.ListRowsFromFound` | rawMBR_GPT_analyzer/boot_info.cpp:201-220 | every printed row is (id, stripped name, start LBA, size in bytes) of an entry whose type was found |
| `BootInfo.ListRowsCount` | rawMBR_GPT_analyzer/boot_info.cpp:201-220 | the listing stops early iff some lookup throws; an entry whose type is not found prints nothing; one row per entry iff every type is found |
| `BootInfo.ListRowsInOrder` | rawMBR_GPT_analyzer/boot_info.cpp:201-220 | when every type is found, nothing throws and row i belongs to entry i, built from the first table row matching its type |
| `BootInfo.PrintMbrRows` | rawMBR_GPT_analyzer/boot_info.cpp:199-220 | the loop over the four entries produces exactly that listing |
| `BootInfo.TailOffsetAsWritten` | rawMBR_GPT_analyzer/boot_info.cpp:229 | the seek offset is `(start_lba + 496) mod 2^32`, the unsigned 32-bit sum, so it is below `start_lba` once the sum wraps |
| `BootInfo.TailOffsetAsWrittenMissesSector` | rawMBR_GPT_analyzer/boot_info.cpp:229 | for a partition starting at sector 2048, the seek reads bytes 2544-2559 (sector 4) |
| `BootInfo.BootRecordTailAsWritten` | rawMBR_GPT_analyzer/boot_info.cpp:228-231 | the read as written: the 16 bytes at `start_lba + 496`, or at `start_lba + 496 - 2^32` once the sum wraps, present exactly when the image reaches past that offset |
| `BootInfo.TailOffsetAsWrittenAgreesOnlyAtZero` | rawMBR_GPT_analyzer/boot_info.cpp:229 | the as-written offset equals the intended one exactly when the partition starts at sector 0 |
| `BootInfo.BootRecordTailOffset` | rawMBR_GPT_analyzer/boot_info.cpp:224-231 | the intended offset lies in the partition's first sector, 16 bytes before its end |
| `BootInfo.BootRecordTail` | rawMBR_GPT_analyzer/boot_info.cpp:228-231 | the corrected read (see Findings): the 16 bytes are the last 16 of the partition's first sector, and are missing exactly when the image ends before them |
| `Digest.HexByteDigits` | rawMBR_GPT_analyzer/boot_info.cpp:96 | `hex`, `setw(2)`, `setfill('0')` write a byte as exactly its high then its low nibble, in lowercase |
| `Digest.HexDigest` | rawMBR_GPT_analyzer/boot_info.cpp:95-97 | the text is 2·N characters long and every character is a lowercase hex digit |
| `Digest.HexDigestLayout` | rawMBR_GPT_analyzer/boot_info.cpp:95-97 | characters 2i and 2i+1 are the nibbles of byte i |
| `Digest.HexDigestRoundTrip` | rawMBR_GPT_analyzer/boot_info.cpp:116-118 | reading the text back gives the digest, so no two digests share a text |
| `Digest.WriteHex` | rawMBR_GPT_analyzer/boot_info.cpp:95-97 | the output loop writes exactly the digest's hex text |
| `Digest.WriteDigestFiles` | rawMBR_GPT_analyzer/boot_info.cpp:93-119 | the MD5 file holds 32 hex characters and the SHA-256 file 64 |

## Left out

- Storage: pickle serialisation and file I/O are not modelled. Loading is taken to give back exactly the stored list. The store is a `BlockStore` object with an existence flag and a block image.
- Hashing internals: SHA-256 is the `hasher` parameter. `str()` of a `Case` is Python's default repr, which holds a memory address, so a hash is not reproducible across runs. The model only says that a hash is a function of the block's three fields.
- Printing: every `print` and `cout`, the `__main__` demonstration blocks, and `main`'s argument handling in boot_info.cpp.
- Unimplemented commands: checkout, checkin, remove, log and verify exist only as commented-out stubs. The item-id uniqueness check exists only as a TODO comment. None of these is modelled.
- Custody.Blockchain.AddBlock: requires a non-empty chain. On an empty chain (possible only if the store held an empty list) the source raises IndexError at `self.chain[-1]`. `Bchoc.Add` returns `IndexError` in that case.
- Custody.Blockchain.constructor: a chain loaded from an existing store is not checked, so it is valid only if the stored list was.
- Custody.Case.GetItems: Python returns the live list, so later changes show through it. The model returns the list's current value. The same holds for `Custody.Blockchain.GetChain`.
- BootInfo.ReadMbr: requires the image to reach byte 0x1FE. On a shorter image the source leaves entries uninitialised.
- BootInfo.ReadGpt: requires the image to reach byte 0x600. The source reads only four entries and assumes the array starts at byte 0x400 instead of reading the header. A file that cannot be opened only prints an error.
- BootInfo.CsvToArray: requires at least as many CSV rows as table rows (98 in the source). With fewer, the source indexes past its vector. Reading the file and splitting each line at its first comma are left out; the rows come in as pairs.
- BootInfo.Stoul16: models `stoul(s, nullptr, 16)` as the value of the leading hex digits, or an exception when there is none. Leading whitespace, a sign, a `0x` prefix and `out_of_range` are not modelled.
- BootInfo.BootRecordTail: on a short read the source prints the 16-byte buffer anyway, partly uninitialised; the model returns `None` instead. The same holds for `BootInfo.BootRecordTailAsWritten`.
- BootInfo.StripTrailingSpace: `isspace` is the C-locale set; bytes outside ASCII are not considered.
- Digest: the MD5 and SHA-256 computations (OpenSSL) and the chunked file reading that feeds them are foreign code. The digests come in as byte sequences.

## Findings

| source | as written | input that shows it | evidently intended | confidence | as-written member | corrected member |
|---|---|---|---|---|---|---|
| rawMBR_GPT_analyzer/boot_info.cpp:229 | `seekg(entry.start_lba + 512 - 16)` uses the starting sector number as a byte offset | `start_lba = 2048`: reads bytes 2544-2559, inside sector 4 | `start_lba*512 + 512 - 16`: the last 16 bytes of the partition's first sector | high; not executed | `BootInfo.TailOffsetAsWrittenMissesSector`, `BootInfo.BootRecordTailAsWritten` | `BootInfo.BootRecordTailOffset`, `BootInfo.BootRecordTail` |
