/**
 * The `add` command of bchoc.py: `bchoc add -c <case_id> -i <item_id> ...`.
 * The arguments after the case id are read in pairs from index 4; each pair
 * whose first element is `-i` contributes one item. One block holding the
 * whole case is then appended to the ledger.
 */
module Bchoc {
  import opened Wrappers
  import opened Custody

  /** Python's `str` of a boolean. */
  function PyStr(b: bool): string
  {
    if b then "True" else "False"
  }

  /** The truth value of a string in an `if`: it is non-empty. */
  predicate Truthy(s: string)
  {
    |s| > 0
  }

  /** The guard `if(str(sys.argv[2] == '-c'))` holds whatever `argv[2]` is. */
  lemma CaseFlagGuardVacuous(argv: seq<string>)
    requires |argv| >= 3
    ensures Truthy(PyStr(argv[2] == "-c"))
  {
  }

  /** Index `x` holds an `-i` flag that the loop `range(4, len(argv), 2)` looks at. */
  predicate IsItemFlag(argv: seq<string>, x: int)
  {
    4 <= x < |argv| && x % 2 == 0 && argv[x] == "-i"
  }

  /**
   * The item ids the loop collects from index `x` on, stepping by two;
   * `None` when a flag is the last argument, so that `argv[x+1]` raises
   * IndexError.
   */
  function ScanFrom(argv: seq<string>, x: nat): Option<seq<string>>
    decreases |argv| - x
  {
    if x >= |argv| then Some([])
    else if x % 2 == 0 && argv[x] == "-i" then
      if x + 1 < |argv| then
        match ScanFrom(argv, x + 2)
        case None => None
        case Some(rest) => Some([argv[x + 1]] + rest)
      else None
    else ScanFrom(argv, x + 2)
  }

  /** `done` followed by the outcome of the rest of the scan. */
  function Prepend(done: seq<string>, o: Option<seq<string>>): Option<seq<string>>
  {
    match o
    case None => None
    case Some(rest) => Some(done + rest)
  }

  /** One step of the loop, seen from the ids collected so far. */
  lemma ScanStep(argv: seq<string>, x: nat, done: seq<string>)
    requires x < |argv|
    ensures x % 2 == 0 && argv[x] == "-i" && x + 1 >= |argv| ==> ScanFrom(argv, x).None?
    ensures x % 2 == 0 && argv[x] == "-i" && x + 1 < |argv| ==>
      Prepend(done, ScanFrom(argv, x)) == Prepend(done + [argv[x + 1]], ScanFrom(argv, x + 2))
    ensures !(x % 2 == 0 && argv[x] == "-i") ==> Prepend(done, ScanFrom(argv, x)) == Prepend(done, ScanFrom(argv, x + 2))
  {
    if x % 2 == 0 && argv[x] == "-i" && x + 1 < |argv| {
      var next := ScanFrom(argv, x + 2);
      if next.Some? {
        assert done + ([argv[x + 1]] + next.value) == (done + [argv[x + 1]]) + next.value;
      }
    }
  }

  function ScanItems(argv: seq<string>): Option<seq<string>>
  {
    ScanFrom(argv, 4)
  }

  /** The positions from `x` on, stepping by two, that hold an `-i` flag at an even index. */
  function FlagsFrom(argv: seq<string>, x: nat): seq<nat>
    decreases |argv| - x
  {
    if x >= |argv| then []
    else if x % 2 == 0 && argv[x] == "-i" then [x] + FlagsFrom(argv, x + 2)
    else FlagsFrom(argv, x + 2)
  }

  /** The flag positions are increasing and are exactly the even indices from `x` holding `-i`. */
  lemma {:induction false} FlagsFromSpec(argv: seq<string>, x: nat)
    requires x % 2 == 0
    ensures var ps := FlagsFrom(argv, x);
      && (forall y :: y in ps <==> x <= y < |argv| && y % 2 == 0 && argv[y] == "-i")
      && (forall i, j :: 0 <= i < j < |ps| ==> ps[i] < ps[j])
      && (forall i :: 0 <= i < |ps| ==> x <= ps[i])
    decreases |argv| - x
  {
    if x < |argv| {
      FlagsFromSpec(argv, x + 2);
      var rest := FlagsFrom(argv, x + 2);
      forall y | x <= y < |argv| && y % 2 == 0 && argv[y] == "-i"
        ensures y in FlagsFrom(argv, x)
      {
        if y != x {
          assert y in rest;
        }
      }
    }
  }

  /** The scan fails exactly when the last argument is a flag the loop reaches. */
  lemma {:induction false} ScanFromFails(argv: seq<string>, x: nat)
    requires x % 2 == 0
    ensures ScanFrom(argv, x).None? <==> x <= |argv| - 1 && (|argv| - 1) % 2 == 0 && argv[|argv| - 1] == "-i"
    decreases |argv| - x
  {
    if x < |argv| {
      ScanFromFails(argv, x + 2);
    }
  }

  /** When the scan succeeds it yields one item per flag position. */
  lemma {:induction false} ScanFromLength(argv: seq<string>, x: nat)
    requires ScanFrom(argv, x).Some?
    ensures |ScanFrom(argv, x).value| == |FlagsFrom(argv, x)|
    decreases |argv| - x
  {
    if x < |argv| {
      ScanFromLength(argv, x + 2);
    }
  }

  /** The k-th item is the argument right after the k-th flag position. */
  lemma {:induction false} ScanFromItemAt(argv: seq<string>, x: nat, k: nat)
    requires ScanFrom(argv, x).Some? && k < |FlagsFrom(argv, x)|
    ensures |ScanFrom(argv, x).value| == |FlagsFrom(argv, x)|
    ensures FlagsFrom(argv, x)[k] + 1 < |argv|
    ensures ScanFrom(argv, x).value[k] == argv[FlagsFrom(argv, x)[k] + 1]
    decreases |argv| - x
  {
    ScanFromLength(argv, x);
    if x % 2 == 0 && argv[x] == "-i" {
      assert x + 1 < |argv|;
      if k > 0 {
        ScanFromItemAt(argv, x + 2, k - 1);
      }
    } else {
      ScanFromItemAt(argv, x + 2, k);
    }
  }

  /** The loop from index 4: item ids are the values after the `-i` flags, in argument order. */
  lemma ScanItemsSpec(argv: seq<string>)
    ensures ScanItems(argv).None? <==> IsItemFlag(argv, |argv| - 1)
    ensures ScanItems(argv).Some? ==>
      var ids, ps := ScanItems(argv).value, FlagsFrom(argv, 4);
      && |ids| == |ps|
      && (forall y :: y in ps <==> IsItemFlag(argv, y))
      && (forall i, j :: 0 <= i < j < |ps| ==> ps[i] < ps[j])
      && forall k :: 0 <= k < |ps| ==> ps[k] + 1 < |argv| && ids[k] == argv[ps[k] + 1]
  {
    FlagsFromSpec(argv, 4);
    ScanFromFails(argv, 4);
    if ScanItems(argv).Some? {
      ScanFromLength(argv, 4);
      forall k | 0 <= k < |FlagsFrom(argv, 4)|
        ensures FlagsFrom(argv, 4)[k] + 1 < |argv| && ScanItems(argv).value[k] == argv[FlagsFrom(argv, 4)[k] + 1]
      {
        ScanFromItemAt(argv, 4, k);
      }
    }
  }

  /** Repeated item ids are not rejected: each `-i` gives its own item. */
  lemma DuplicateItemsKept()
    ensures ScanItems(["bchoc", "add", "-c", "C1", "-i", "7", "-i", "7"]) == Some(["7", "7"])
  {
    var argv := ["bchoc", "add", "-c", "C1", "-i", "7", "-i", "7"];
    assert ScanFrom(argv, 8) == Some([]);
    assert argv[6] == "-i" && argv[7] == "7";
    assert ScanFrom(argv, 6) == Some([argv[7]] + []);
    assert [argv[7]] + [] == [argv[7]];
    assert argv[4] == "-i" && argv[5] == "7";
    assert ScanFrom(argv, 4) == Some([argv[5]] + [argv[7]]);
    assert [argv[5]] + [argv[7]] == ["7", "7"];
    assert ScanItems(argv) == ScanFrom(argv, 4);
  }

  /** The items the command adds, the k-th read from the clock at its `add_item` call. */
  function NewItems(ids: seq<string>, clock: nat -> string): (items: seq<Item>)
    ensures |items| == |ids|
    ensures forall k :: 0 <= k < |ids| ==> items[k] == Item(ids[k], CHECKEDIN, clock(k))
  {
    if ids == [] then [] else NewItems(ids[..|ids| - 1], clock) + [Item(ids[|ids| - 1], CHECKEDIN, clock(|ids| - 1))]
  }

  /** What running the command did. */
  datatype Outcome =
    | NotAdd            // argv[1] is not "add": nothing happens
    | IndexError        // too few arguments, a trailing `-i`, or an empty chain
    | Added(c: Case)    // one block holding case `c` was appended

  /** The add branch runs to completion on these arguments and this chain. */
  predicate AddCompletes(argv: seq<string>, chain: seq<Block>)
  {
    |argv| >= 4 && argv[1] == "add" && ScanItems(argv).Some? && chain != []
  }

  /**
   * The loop of the `add` branch: one `add_item` per `-i` flag, in argument
   * order; `ok` is false where `argv[x+1]` raises IndexError, after the
   * items before that flag were added.
   */
  method AddItems(c: Case, argv: seq<string>, clock: nat -> string) returns (ok: bool)
    requires c.items == []
    modifies c
    ensures ok <==> ScanItems(argv).Some?
    ensures ok ==> c.items == NewItems(ScanItems(argv).value, clock)
  {
    ghost var done: seq<string> := [];
    var x := 4;
    assert ScanFrom(argv, x).Some? ==> [] + ScanFrom(argv, x).value == ScanFrom(argv, x).value;
    while x < |argv|
      invariant x % 2 == 0 && x >= 4
      invariant c.items == NewItems(done, clock)
      invariant ScanItems(argv) == Prepend(done, ScanFrom(argv, x))
      decreases |argv| - x
    {
      ScanStep(argv, x, done);
      if x % 2 == 0 && argv[x] == "-i" {
        if x + 1 >= |argv| {
          return false;
        }
        c.AddItem(argv[x + 1], clock(|c.items|));
        assert (done + [argv[x + 1]])[..|done|] == done;
        done := done + [argv[x + 1]];
      }
      x := x + 2;
    }
    assert done + [] == done;
    return true;
  }

  /**
   * The `add` branch of the command line (the ledger `bc` is the one built
   * at start-up). `clock(k)` is the time read by the k-th `add_item` and
   * `now` the time of the new block.
   */
  method Add(bc: Blockchain, argv: seq<string>, now: Timestamp, clock: nat -> string) returns (r: Outcome)
    requires bc.Valid()
    modifies bc, bc.store
    ensures bc.Valid()
    ensures r == NotAdd <==> |argv| >= 2 && argv[1] != "add"
    ensures r.Added? <==> AddCompletes(argv, old(bc.chain))
    ensures !r.Added? ==> bc.chain == old(bc.chain)
    ensures r.Added? ==>
      && fresh(r.c)
      && r.c.caseId == argv[3]
      && r.c.items == NewItems(ScanItems(argv).value, clock)
      && (forall k :: 0 <= k < |r.c.items| ==> r.c.items[k].status == CHECKEDIN)
      && bc.chain == Append(bc.hasher, old(bc.chain), now, CaseData(r.c))
  {
    if |argv| < 2 {
      return IndexError;
    }
    if argv[1] != "add" {
      return NotAdd;
    }
    if |argv| < 3 {
      return IndexError;
    }
    CaseFlagGuardVacuous(argv);
    if Truthy(PyStr(argv[2] == "-c")) {
      if |argv| < 4 {
        return IndexError;
      }
      var caseId := argv[3];
      var c := new Case(caseId);
      var ok := AddItems(c, argv, clock);
      if !ok || bc.chain == [] {
        return IndexError;
      }
      bc.AddBlock(CaseData(c), now);
      return Added(c);
    }
  }
}
