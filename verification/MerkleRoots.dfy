/**
 The additions and removals roots (block_root_validation.py, and the same loop in
 block_creation.py).

 hash_coin_ids sorts the ids before it hashes them, so its value stands for the multiset of
 ids; the value of compute_merkle_set_root stands for a set.
 */
module MerkleRoots {
  import opened Types

  datatype RootError = BadAdditionRoot | BadRemovalRoot

  /** The coins with a puzzle hash, in list order. */
  function GroupOf(coins: seq<Coin>, puzzleHash: Hash): seq<Coin> {
    if coins == [] then []
    else
      var before, last := GroupOf(coins[..|coins| - 1], puzzleHash), coins[|coins| - 1];
      if last.puzzleHash == puzzleHash then before + [last] else before
  }

  /** A group holds every coin with its puzzle hash as often as the list does, and nothing else. */
  lemma {:induction false} GroupCounts(coins: seq<Coin>, puzzleHash: Hash, c: Coin)
    ensures multiset(GroupOf(coins, puzzleHash))[c] == if c.puzzleHash == puzzleHash then multiset(coins)[c] else 0
  {
    if coins != [] {
      GroupCounts(coins[..|coins| - 1], puzzleHash, c);
      assert coins == coins[..|coins| - 1] + [coins[|coins| - 1]];
    }
  }

  function PuzzleHashes(coins: seq<Coin>): set<Hash> { set c | c in coins :: c.puzzleHash }

  /** What goes into the additions root: each puzzle hash, and the hash of its group. */
  function AdditionsRoot(coins: seq<Coin>): MerkleRoot {
    (set p | p in PuzzleHashes(coins) :: PuzzleItem(p))
    + (set p | p in PuzzleHashes(coins) :: IdsItem(multiset(GroupOf(coins, p))))
  }

  function RemovalsRoot(coins: seq<Coin>): MerkleRoot { set c | c in coins :: NameItem(c) }

  /** A group's ids stand in the other list's root only as the same group. */
  lemma SameRootSameCount(a: seq<Coin>, b: seq<Coin>, c: Coin)
    requires AdditionsRoot(a) == AdditionsRoot(b) && c in a
    ensures multiset(a)[c] == multiset(b)[c]
  {
    var ids := IdsItem(multiset(GroupOf(a, c.puzzleHash)));
    assert c.puzzleHash in PuzzleHashes(a);
    assert ids in AdditionsRoot(a);
    assert ids in AdditionsRoot(b);
    var p :| p in PuzzleHashes(b) && ids == IdsItem(multiset(GroupOf(b, p)));
    GroupCounts(a, c.puzzleHash, c);
    GroupCounts(b, p, c);
  }

  /** The additions root commits to the additions, each as often as it occurs, and to nothing about their order. */
  lemma RootsCommit(a: seq<Coin>, b: seq<Coin>)
    ensures AdditionsRoot(a) == AdditionsRoot(b) <==> multiset(a) == multiset(b)
    ensures RemovalsRoot(a) == RemovalsRoot(b) <==> ToSet(a) == ToSet(b)
  {
    hide AdditionsRoot;
    if AdditionsRoot(a) == AdditionsRoot(b) {
      forall c: Coin ensures multiset(a)[c] == multiset(b)[c] {
        if c in a {
          SameRootSameCount(a, b, c);
        } else if c in b {
          SameRootSameCount(b, a, c);
        }
      }
    }
    if multiset(a) == multiset(b) {
      RootsIgnoreOrder(a, b);
    }
    assert forall c :: c in a <==> NameItem(c) in RemovalsRoot(a);
    assert forall c :: c in b <==> NameItem(c) in RemovalsRoot(b);
    if RemovalsRoot(a) == RemovalsRoot(b) {
      assert forall c :: c in ToSet(a) <==> c in ToSet(b);
    }
    if ToSet(a) == ToSet(b) {
      assert forall c :: c in a <==> c in ToSet(a);
      assert forall c :: c in b <==> c in ToSet(b);
    }
  }

  /** The roots do not depend on the order of the lists. */
  lemma RootsIgnoreOrder(a: seq<Coin>, b: seq<Coin>)
    requires multiset(a) == multiset(b)
    ensures AdditionsRoot(a) == AdditionsRoot(b)
    ensures RemovalsRoot(a) == RemovalsRoot(b)
  {
    assert forall c :: c in a <==> c in multiset(a);
    assert forall c :: c in b <==> c in multiset(b);
    assert PuzzleHashes(a) == PuzzleHashes(b);
    forall p ensures multiset(GroupOf(a, p)) == multiset(GroupOf(b, p)) {
      forall c: Coin ensures multiset(GroupOf(a, p))[c] == multiset(GroupOf(b, p))[c] {
        GroupCounts(a, p, c);
        GroupCounts(b, p, c);
      }
    }
  }

  /** The loop that builds the dictionary of lists. */
  method GroupByPuzzle(coins: seq<Coin>) returns (groups: map<Hash, seq<Coin>>)
    ensures groups.Keys == PuzzleHashes(coins)
    ensures forall p :: p in groups ==> groups[p] == GroupOf(coins, p)
  {
    groups := map[];
    for i := 0 to |coins|
      invariant groups.Keys == PuzzleHashes(coins[..i])
      invariant forall p :: p in groups ==> groups[p] == GroupOf(coins[..i], p)
      invariant forall p :: p !in groups ==> GroupOf(coins[..i], p) == []
    {
      assert coins[..i + 1][..i] == coins[..i];
      assert coins[..i + 1] == coins[..i] + [coins[i]];
      assert PuzzleHashes(coins[..i + 1]) == PuzzleHashes(coins[..i]) + {coins[i].puzzleHash};
      if coins[i].puzzleHash in groups {
        groups := groups[coins[i].puzzleHash := groups[coins[i].puzzleHash] + [coins[i]]];
      } else {
        groups := groups[coins[i].puzzleHash := [coins[i]]];
      }
    }
    assert coins[..|coins|] == coins;
  }

  /** What one entry of the dictionary contributes. */
  function EntryItems(groups: map<Hash, seq<Coin>>, puzzles: set<Hash>): set<MerkleItem>
    requires puzzles <= groups.Keys
  {
    (set p | p in puzzles :: PuzzleItem(p)) + (set p | p in puzzles :: IdsItem(multiset(groups[p])))
  }

  /** The loop over the dictionary's items; they go into a set, so their order does not matter. */
  method MerkleItems(groups: map<Hash, seq<Coin>>) returns (items: seq<MerkleItem>)
    ensures ToSet(items) == EntryItems(groups, groups.Keys)
  {
    items := [];
    var rest := groups.Keys;
    ghost var seen: set<Hash> := {};
    while rest != {}
      invariant rest !! seen && rest + seen == groups.Keys
      invariant ToSet(items) == EntryItems(groups, seen)
      decreases rest
    {
      var p :| p in rest;
      var pair := [PuzzleItem(p), IdsItem(multiset(groups[p]))];
      assert ToSet(items + pair) == ToSet(items) + {PuzzleItem(p), IdsItem(multiset(groups[p]))};
      assert EntryItems(groups, seen + {p}) == EntryItems(groups, seen) + {PuzzleItem(p), IdsItem(multiset(groups[p]))};
      items := items + pair;
      rest := rest - {p};
      seen := seen + {p};
    }
    assert seen == groups.Keys;
  }

  /** The two loops together, as creator and validator run them. */
  method ComputeAdditionsRoot(coins: seq<Coin>) returns (root: MerkleRoot)
    ensures root == AdditionsRoot(coins)
  {
    var groups := GroupByPuzzle(coins);
    var items := MerkleItems(groups);
    root := ToSet(items);
  }

  method ComputeRemovalsRoot(coins: seq<Coin>) returns (root: MerkleRoot)
    ensures root == RemovalsRoot(coins)
  {
    var names := [];
    for i := 0 to |coins|
      invariant ToSet(names) == RemovalsRoot(coins[..i])
    {
      assert coins[..i + 1] == coins[..i] + [coins[i]];
      assert ToSet(names + [NameItem(coins[i])]) == ToSet(names) + {NameItem(coins[i])};
      names := names + [NameItem(coins[i])];
    }
    assert coins[..|coins|] == coins;
    root := ToSet(names);
  }

  /** The first root that differs decides. */
  function RootErrorOf(f: FoliageTx, additions: seq<Coin>, removals: seq<Coin>): Option<RootError> {
    if f.additionsRoot != AdditionsRoot(additions) then Some(BadAdditionRoot)
    else if f.removalsRoot != RemovalsRoot(removals) then Some(BadRemovalRoot)
    else None
  }

  /** validate_block_merkle_roots. */
  method ValidateBlockMerkleRoots(f: FoliageTx, additions: seq<Coin>, removals: seq<Coin>)
      returns (err: Option<RootError>)
    ensures err == RootErrorOf(f, additions, removals)
  {
    var root := ComputeAdditionsRoot(additions);
    if f.additionsRoot != root {
      return Some(BadAdditionRoot);
    }
    root := ComputeRemovalsRoot(removals);
    if f.removalsRoot != root {
      return Some(BadRemovalRoot);
    }
    return None;
  }

  lemma {:induction false} SameSetSameMultiset(a: seq<Coin>, b: seq<Coin>)
    requires NoDuplicates(a) && NoDuplicates(b) && ToSet(a) == ToSet(b)
    ensures multiset(a) == multiset(b)
  {
    forall c: Coin ensures multiset(a)[c] == multiset(b)[c] {
      CountOnce(a, c);
      CountOnce(b, c);
      assert c in a <==> c in ToSet(a);
      assert c in b <==> c in ToSet(b);
    }
  }

  lemma {:induction false} CountOnce(a: seq<Coin>, c: Coin)
    requires NoDuplicates(a)
    ensures multiset(a)[c] == if c in a then 1 else 0
  {
    if a != [] {
      CountOnce(a[..|a| - 1], c);
      assert a == a[..|a| - 1] + [a[|a| - 1]];
    }
  }

  /** The validator lists the set of expected coins in any order; the creator lists them in the order of its walk. */
  lemma ListedRoot(created: seq<Coin>, claims: seq<Coin>, listed: seq<Coin>)
    requires NoDuplicates(claims) && NoDuplicates(listed) && ToSet(claims) == ToSet(listed)
    ensures AdditionsRoot(created + claims) == AdditionsRoot(created + listed)
  {
    SameSetSameMultiset(claims, listed);
    assert multiset(created + claims) == multiset(created) + multiset(claims);
    assert multiset(created + listed) == multiset(created) + multiset(listed);
    RootsIgnoreOrder(created + claims, created + listed);
  }
}
