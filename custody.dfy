/**
 * The chain-of-custody ledger of blockchain.py (the same three classes are
 * repeated, apart from print statements, in bchoc.py lines 16-83).
 *
 * A `Case` collects evidence items; a `Block` (a `ChainOfCustody` object of
 * the source) carries a timestamp, a payload, the previous block's hash and
 * its own hash; a `Blockchain` owns the ordered list of blocks and rewrites
 * the whole list to its store after every change.
 */
module Custody {
  import opened Wrappers

  /** `datetime.now()`: the model takes the instant as a parameter. */
  type Timestamp = nat

  /** The only status the source ever writes for an item. */
  const CHECKEDIN: string := "CHECKEDIN"

  /** Text of the genesis block's payload and the sentinel previous hash. */
  const GENESIS_DATA: string := "Genesis Block"
  const GENESIS_PREVIOUS_HASH: string := "0"

  /** One entry of `Case.items`: the dictionary {item_id, status, time}. */
  datatype Item = Item(itemId: string, status: string, time: string)

  /** A case: its identifier never changes, its item list grows in place. */
  class Case {
    const caseId: string
    var items: seq<Item>

    constructor (caseId: string)
      ensures this.caseId == caseId && items == []
    {
      this.caseId := caseId;
      items := [];
    }

    /** Appends exactly one item, checked in, at the given time. */
    method AddItem(itemId: string, time: string)
      modifies this
      ensures items == old(items) + [Item(itemId, CHECKEDIN, time)]
    {
      items := items + [Item(itemId, CHECKEDIN, time)];
    }

    method GetItems() returns (r: seq<Item>)
      ensures r == items
    {
      r := items;
    }
  }

  /**
   * What a block carries. The source stores any Python object and tells a
   * case apart with `isinstance(block.data, Case)`; here the test is a
   * discriminant. The genesis block carries `Text("Genesis Block")`.
   */
  datatype Payload = Text(text: string) | CaseData(c: Case)

  /**
   * SHA-256 over `str(timestamp) + str(data) + str(previous_hash)`, in hex.
   * It is foreign code, so the model takes it as a parameter: any total
   * function, hence deterministic.
   */
  type HashFn = (Timestamp, Payload, string) -> string

  /** A `ChainOfCustody` object: never modified after construction. */
  datatype Block = Block(timestamp: Timestamp, data: Payload, previousHash: string, hash: string)

  /** `calculate_hash`: the hash of a block's three other fields. */
  function CalculateHash(hasher: HashFn, b: Block): (r: string)
    ensures r == hasher(b.timestamp, b.data, b.previousHash)
  {
    hasher(b.timestamp, b.data, b.previousHash)
  }

  /** The stored hash field does not enter the hash. */
  lemma CalculateHashIgnoresStoredHash(hasher: HashFn, b: Block, h: string)
    ensures CalculateHash(hasher, b.(hash := h)) == CalculateHash(hasher, b)
  {
  }

  /** A block whose stored hash is the hash of its other fields. */
  predicate SelfConsistent(hasher: HashFn, b: Block)
  {
    b.hash == CalculateHash(hasher, b)
  }

  /** `ChainOfCustody.__init__`: the hash is computed at construction. */
  function NewBlock(hasher: HashFn, now: Timestamp, data: Payload, previousHash: string): (b: Block)
    ensures b.timestamp == now && b.data == data && b.previousHash == previousHash
    ensures SelfConsistent(hasher, b)
  {
    var b := Block(now, data, previousHash, "");
    b.(hash := CalculateHash(hasher, b))
  }

  /** Two blocks made from the same three fields are the same block. */
  lemma HashDeterministic(hasher: HashFn, b1: Block, b2: Block)
    requires SelfConsistent(hasher, b1) && SelfConsistent(hasher, b2)
    requires b1.timestamp == b2.timestamp && b1.data == b2.data && b1.previousHash == b2.previousHash
    ensures b1.hash == b2.hash && b1 == b2
  {
  }

  /** `create_genesis_block`. */
  function GenesisBlock(hasher: HashFn, now: Timestamp): (b: Block)
    ensures b.timestamp == now
    ensures b.data == Text(GENESIS_DATA) && b.previousHash == GENESIS_PREVIOUS_HASH
    ensures SelfConsistent(hasher, b)
  {
    NewBlock(hasher, now, Text(GENESIS_DATA), GENESIS_PREVIOUS_HASH)
  }

  /** The hash-link invariant: the sentinel first, then each block names its predecessor's hash. */
  predicate Linked(chain: seq<Block>)
  {
    && |chain| > 0
    && chain[0].previousHash == GENESIS_PREVIOUS_HASH
    && forall i :: 0 < i < |chain| ==> chain[i].previousHash == chain[i - 1].hash
  }

  /** Linked, and every stored hash is the hash of its block's fields. */
  predicate ValidChain(hasher: HashFn, chain: seq<Block>)
  {
    && Linked(chain)
    && forall i :: 0 <= i < |chain| ==> SelfConsistent(hasher, chain[i])
  }

  /** The chain after `add_block(data)` at instant `now`. */
  function Append(hasher: HashFn, chain: seq<Block>, now: Timestamp, data: Payload): (r: seq<Block>)
    requires chain != []
    ensures |r| == |chain| + 1 && r[..|chain|] == chain
    ensures r[|chain|].previousHash == chain[|chain| - 1].hash
    ensures r[|chain|].data == data && r[|chain|].timestamp == now
    ensures SelfConsistent(hasher, r[|chain|])
  {
    chain + [NewBlock(hasher, now, data, chain[|chain| - 1].hash)]
  }

  /** A fresh chain is one genesis block and satisfies the invariant. */
  lemma GenesisChainValid(hasher: HashFn, now: Timestamp)
    ensures ValidChain(hasher, [GenesisBlock(hasher, now)])
  {
  }

  /** `add_block` preserves the invariant. */
  lemma AppendPreservesValid(hasher: HashFn, chain: seq<Block>, now: Timestamp, data: Payload)
    requires ValidChain(hasher, chain)
    ensures ValidChain(hasher, Append(hasher, chain, now, data))
  {
  }

  /**
   * The chain obtained from an empty store: the genesis block at `start`,
   * then one `add_block` per step, in order.
   */
  function Replay(hasher: HashFn, start: Timestamp, steps: seq<(Timestamp, Payload)>): (r: seq<Block>)
    ensures r != []
  {
    if steps == [] then [GenesisBlock(hasher, start)]
    else
      var last := steps[|steps| - 1];
      Append(hasher, Replay(hasher, start, steps[..|steps| - 1]), last.0, last.1)
  }

  /** Any chain built from genesis by `add_block` alone is valid and holds the payloads in order. */
  lemma {:induction false} ReplayValid(hasher: HashFn, start: Timestamp, steps: seq<(Timestamp, Payload)>)
    ensures var r := Replay(hasher, start, steps);
      && ValidChain(hasher, r)
      && |r| == |steps| + 1
      && r[0] == GenesisBlock(hasher, start)
      && forall i :: 0 <= i < |steps| ==> r[i + 1].data == steps[i].1 && r[i + 1].timestamp == steps[i].0
  {
    if steps != [] {
      var front := steps[..|steps| - 1];
      var last := steps[|steps| - 1];
      ReplayValid(hasher, start, front);
      var prev := Replay(hasher, start, front);
      AppendPreservesValid(hasher, prev, last.0, last.1);
      var r := Replay(hasher, start, steps);
      assert r == Append(hasher, prev, last.0, last.1);
      forall i | 0 <= i < |steps|
        ensures r[i + 1].data == steps[i].1 && r[i + 1].timestamp == steps[i].0
      {
        if i < |front| {
          assert r[i + 1] == prev[i + 1];
          assert front[i] == steps[i];
        }
      }
    }
  }

  /** The block is a case block for `caseId`. */
  predicate IsCaseBlock(b: Block, caseId: string)
  {
    b.data.CaseData? && b.data.c.caseId == caseId
  }

  /** `get_cases`: a dictionary filled in chain order, so the last case block for an id wins. */
  function CasesOf(chain: seq<Block>): map<string, Case>
  {
    if chain == [] then map[]
    else
      var b := chain[|chain| - 1];
      var m := CasesOf(chain[..|chain| - 1]);
      if b.data.CaseData? then m[b.data.c.caseId := b.data.c] else m
  }

  /** The dictionary's keys are exactly the ids of the case blocks; other blocks are ignored. */
  lemma {:induction false} CasesOfKeys(chain: seq<Block>, caseId: string)
    ensures caseId in CasesOf(chain) <==> exists i :: 0 <= i < |chain| && IsCaseBlock(chain[i], caseId)
  {
    if chain != [] {
      var front := chain[..|chain| - 1];
      CasesOfKeys(front, caseId);
      if caseId in CasesOf(front) {
        var i :| 0 <= i < |front| && IsCaseBlock(front[i], caseId);
        assert IsCaseBlock(chain[i], caseId);
      }
      if exists i :: 0 <= i < |chain| && IsCaseBlock(chain[i], caseId) {
        var i :| 0 <= i < |chain| && IsCaseBlock(chain[i], caseId);
        if i < |front| {
          assert IsCaseBlock(front[i], caseId);
        }
      }
    }
  }

  /** For a repeated case id the case of the last such block is the one kept. */
  lemma {:induction false} CasesOfLastWins(chain: seq<Block>, caseId: string)
    requires caseId in CasesOf(chain)
    ensures exists i ::
      && 0 <= i < |chain| && IsCaseBlock(chain[i], caseId)
      && CasesOf(chain)[caseId] == chain[i].data.c
      && forall j :: i < j < |chain| ==> !IsCaseBlock(chain[j], caseId)
  {
    var front := chain[..|chain| - 1];
    var b := chain[|chain| - 1];
    if IsCaseBlock(b, caseId) {
      assert CasesOf(chain)[caseId] == b.data.c;
    } else {
      assert caseId in CasesOf(front);
      CasesOfLastWins(front, caseId);
      var i :| 0 <= i < |front| && IsCaseBlock(front[i], caseId)
        && CasesOf(front)[caseId] == front[i].data.c
        && forall j :: i < j < |front| ==> !IsCaseBlock(front[j], caseId);
      assert chain[i] == front[i];
      forall j | i < j < |chain|
        ensures !IsCaseBlock(chain[j], caseId)
      {
        if j < |front| {
          assert chain[j] == front[j];
        }
      }
    }
  }

  /** `get_case`: the case of the first block with that id, or `None`. */
  function FirstCase(chain: seq<Block>, caseId: string): Option<Case>
  {
    if chain == [] then None
    else if IsCaseBlock(chain[0], caseId) then Some(chain[0].data.c)
    else FirstCase(chain[1..], caseId)
  }

  /** `get_case` finds the first matching block, and `None` exactly when there is none. */
  lemma {:induction false} FirstCaseSpec(chain: seq<Block>, caseId: string)
    ensures FirstCase(chain, caseId).None? <==> forall i :: 0 <= i < |chain| ==> !IsCaseBlock(chain[i], caseId)
    ensures FirstCase(chain, caseId).Some? ==> exists i ::
      && 0 <= i < |chain| && IsCaseBlock(chain[i], caseId)
      && FirstCase(chain, caseId).value == chain[i].data.c
      && forall j :: 0 <= j < i ==> !IsCaseBlock(chain[j], caseId)
  {
    if chain != [] && !IsCaseBlock(chain[0], caseId) {
      var rest := chain[1..];
      FirstCaseSpec(rest, caseId);
      if FirstCase(rest, caseId).Some? {
        var i :| 0 <= i < |rest| && IsCaseBlock(rest[i], caseId)
          && FirstCase(rest, caseId).value == rest[i].data.c
          && forall j :: 0 <= j < i ==> !IsCaseBlock(rest[j], caseId);
        assert chain[i + 1] == rest[i];
        forall j | 0 <= j < i + 1
          ensures !IsCaseBlock(chain[j], caseId)
        {
          if j > 0 {
            assert chain[j] == rest[j - 1];
          }
        }
      } else {
        forall i | 0 <= i < |chain|
          ensures !IsCaseBlock(chain[i], caseId)
        {
          if i > 0 {
            assert chain[i] == rest[i - 1];
          }
        }
      }
    }
  }

  /** `get_case` finds a case exactly for the ids that `get_cases` lists. */
  lemma SameCaseIds(chain: seq<Block>, caseId: string)
    ensures FirstCase(chain, caseId).Some? <==> caseId in CasesOf(chain)
  {
    FirstCaseSpec(chain, caseId);
    CasesOfKeys(chain, caseId);
  }

  /** The pickle file `blocks.bin`: whether it exists and the block list it holds. */
  class BlockStore {
    var fileExists: bool
    var image: seq<Block>

    constructor (fileExists: bool, image: seq<Block>)
      ensures this.fileExists == fileExists && this.image == image
    {
      this.fileExists := fileExists;
      this.image := image;
    }
  }

  class Blockchain {
    const store: BlockStore
    const hasher: HashFn
    var chain: seq<Block>

    /** The store holds exactly the in-memory chain. */
    ghost predicate Valid()
      reads this, store
    {
      store.fileExists && store.image == chain
    }

    /**
     * Loads the chain from an existing store unchanged; otherwise starts a
     * one-block chain from the genesis block and writes it to the store.
     */
    constructor (store: BlockStore, hasher: HashFn, now: Timestamp)
      modifies store
      ensures this.store == store && this.hasher == hasher
      ensures Valid()
      ensures old(store.fileExists) ==> chain == old(store.image)
      ensures !old(store.fileExists) ==> chain == [GenesisBlock(hasher, now)]
      ensures !old(store.fileExists) || ValidChain(hasher, old(store.image)) ==> ValidChain(hasher, chain)
    {
      this.store := store;
      this.hasher := hasher;
      var loaded := if store.fileExists then store.image else [GenesisBlock(hasher, now)];
      chain := loaded;
      if !store.fileExists {
        store.fileExists, store.image := true, loaded;
      }
      new;
      if !old(store.fileExists) {
        GenesisChainValid(hasher, now);
      }
    }

    /**
     * Links a new block to the current tail's hash, appends it and rewrites
     * the store. An empty chain makes `self.chain[-1]` raise IndexError,
     * which callers rule out.
     */
    method AddBlock(newData: Payload, now: Timestamp)
      requires Valid() && chain != []
      modifies this, store
      ensures Valid()
      ensures chain == Append(hasher, old(chain), now, newData)
      ensures |chain| == |old(chain)| + 1 && chain[..|old(chain)|] == old(chain)
      ensures chain[|chain| - 1].previousHash == old(chain[|chain| - 1].hash)
      ensures ValidChain(hasher, old(chain)) ==> ValidChain(hasher, chain)
    {
      var previousHash := chain[|chain| - 1].hash;
      var newBlock := NewBlock(hasher, now, newData, previousHash);
      chain := chain + [newBlock];
      store.image := chain;
      if ValidChain(hasher, old(chain)) {
        AppendPreservesValid(hasher, old(chain), now, newData);
      }
    }

    method GetChain() returns (r: seq<Block>)
      ensures r == chain
    {
      r := chain;
    }

    /** `get_cases`: reads the chain front to back, later blocks overwriting earlier ones. */
    method GetCases() returns (cases: map<string, Case>)
      ensures cases == CasesOf(chain)
    {
      cases := map[];
      var i := 0;
      while i < |chain|
        invariant 0 <= i <= |chain|
        invariant cases == CasesOf(chain[..i])
      {
        var block := chain[i];
        assert chain[..i + 1][..i] == chain[..i];
        if block.data.CaseData? {
          cases := cases[block.data.c.caseId := block.data.c];
        }
        i := i + 1;
      }
      assert chain[..i] == chain;
    }

    /** `get_case`: returns on the first block of that case id. */
    method GetCase(caseId: string) returns (r: Option<Case>)
      ensures r == FirstCase(chain, caseId)
    {
      var i := 0;
      while i < |chain|
        invariant 0 <= i <= |chain|
        invariant FirstCase(chain[i..], caseId) == FirstCase(chain, caseId)
      {
        var block := chain[i];
        if block.data.CaseData? && block.data.c.caseId == caseId {
          return Some(block.data.c);
        }
        assert chain[i..][1..] == chain[i + 1..];
        i := i + 1;
      }
      return None;
    }
  }
}
