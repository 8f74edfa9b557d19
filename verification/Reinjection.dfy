/** The transactions that a reorganisation dropped from the chain. */
module Reinjection {
  import opened Transactions
  import opened Prelude

  type Hash = nat

  datatype Block = Block(parent: Hash, number: nat, txs: seq<Tx>)

  /** The stored blocks by hash. */
  type Blocks = map<Hash, Block>

  /** The parent of a block, if it is stored under the number below. */
  function Parent(bs: Blocks, h: Hash): (p: Option<Hash>)
    requires h in bs
    ensures p.Some? ==> p.value in bs && bs[p.value].number + 1 == bs[h].number
  {
    var p := bs[h].parent;
    if p in bs && bs[p].number + 1 == bs[h].number then Some(p) else None
  }

  /** Everything from a block down to number `n` is stored. */
  ghost predicate Rooted(bs: Blocks, h: Hash, n: nat)
    requires h in bs
    decreases bs[h].number
  {
    n == bs[h].number || (n < bs[h].number && Parent(bs, h).Some? && Rooted(bs, Parent(bs, h).value, n))
  }

  ghost function Ancestor(bs: Blocks, h: Hash, n: nat): (r: Hash)
    requires h in bs && Rooted(bs, h, n)
    ensures r in bs && bs[r].number == n
    decreases bs[h].number
  {
    if n == bs[h].number then h else Ancestor(bs, Parent(bs, h).value, n)
  }

  /** The transactions of a block and its ancestors above number `n`, block by block. */
  ghost function Above(bs: Blocks, h: Hash, n: nat): seq<Tx>
    requires h in bs && Rooted(bs, h, n)
    decreases bs[h].number
  {
    if n == bs[h].number then [] else bs[h].txs + Above(bs, Parent(bs, h).value, n)
  }

  /** Two blocks have the same stored ancestor at number `n`. */
  ghost predicate Meet(bs: Blocks, a: Hash, b: Hash, n: nat)
    requires a in bs && b in bs
  {
    Rooted(bs, a, n) && Rooted(bs, b, n) && Ancestor(bs, a, n) == Ancestor(bs, b, n)
  }

  /** Number `n` is the last one at which two blocks have the same stored ancestor. */
  ghost predicate Fork(bs: Blocks, a: Hash, b: Hash, n: nat)
    requires a in bs && b in bs
  {
    Meet(bs, a, b, n) && forall m: nat | Meet(bs, a, b, m) :: m <= n
  }

  /** What is in `a` and not in `b`, in the order of `a`. */
  function Minus(a: seq<Tx>, b: seq<Tx>): (r: seq<Tx>)
    ensures forall tx :: tx in r <==> tx in a && tx !in b
  {
    if a == [] then [] else if a[|a| - 1] in b then Minus(a[..|a| - 1], b) else Minus(a[..|a| - 1], b) + [a[|a| - 1]]
  }

  /** The difference of two lists of transactions. */
  method TxDifference(a: seq<Tx>, b: seq<Tx>) returns (keep: seq<Tx>)
    ensures keep == Minus(a, b)
  {
    var remove := {};
    for i := 0 to |b|
      invariant remove == set tx | tx in b[..i]
    {
      remove := remove + {b[i]};
    }
    keep := [];
    for i := 0 to |a|
      invariant keep == Minus(a[..i], b)
    {
      assert a[..i + 1][..i] == a[..i];
      if a[i] !in remove {
        keep := keep + [a[i]];
      }
    }
    assert a[..|a|] == a;
  }

  // ---- Walking down -----------------------------------------------------------------------------------

  /** What is stored down to `n` can be reached in two steps. */
  lemma {:induction false} Halfway(bs: Blocks, h: Hash, m: nat, n: nat)
    requires h in bs && n <= m <= bs[h].number
    ensures Rooted(bs, h, n) <==> Rooted(bs, h, m) && Rooted(bs, Ancestor(bs, h, m), n)
    ensures Rooted(bs, h, n) ==>
              && Ancestor(bs, h, n) == Ancestor(bs, Ancestor(bs, h, m), n)
              && Above(bs, h, n) == Above(bs, h, m) + Above(bs, Ancestor(bs, h, m), n)
    decreases bs[h].number
  {
    if m < bs[h].number && Parent(bs, h).Some? {
      Halfway(bs, Parent(bs, h).value, m, n);
    }
  }

  lemma OneDown(bs: Blocks, h: Hash, cur: Hash)
    requires h in bs && cur in bs && 0 < bs[cur].number <= bs[h].number && Rooted(bs, h, bs[cur].number)
    requires cur == Ancestor(bs, h, bs[cur].number)
    ensures Rooted(bs, h, bs[cur].number - 1) <==> Parent(bs, cur).Some?
    ensures Parent(bs, cur).Some? ==>
              && Ancestor(bs, h, bs[cur].number - 1) == Parent(bs, cur).value
              && Above(bs, h, bs[cur].number - 1) == Above(bs, h, bs[cur].number) + bs[cur].txs
  {
    Halfway(bs, h, bs[cur].number, bs[cur].number - 1);
  }

  /** Walks down to number `n` and collects the transactions on the way; a missing block ends the walk. */
  method Descend(bs: Blocks, h: Hash, n: nat) returns (at: Option<Hash>, txs: seq<Tx>)
    requires h in bs && n <= bs[h].number
    ensures at.Some? <==> Rooted(bs, h, n)
    ensures at.Some? ==> at.value == Ancestor(bs, h, n) && txs == Above(bs, h, n)
  {
    var cur := h;
    txs := [];
    while bs[cur].number > n
      invariant cur in bs && n <= bs[cur].number <= bs[h].number && Rooted(bs, h, bs[cur].number)
      invariant cur == Ancestor(bs, h, bs[cur].number) && txs == Above(bs, h, bs[cur].number)
      decreases bs[cur].number
    {
      OneDown(bs, h, cur);
      txs := txs + bs[cur].txs;
      var parent := Parent(bs, cur);
      if parent.None? {
        Halfway(bs, h, bs[cur].number - 1, n);
        return None, [];
      }
      cur := parent.value;
    }
    at := Some(cur);
  }

  /** Walks down two branches of the same height until they meet. */
  method Converge(bs: Blocks, a: Hash, b: Hash) returns (at: Option<nat>, left: seq<Tx>, right: seq<Tx>)
    requires a in bs && b in bs && bs[a].number == bs[b].number
    ensures at.None? ==> forall n: nat :: !Meet(bs, a, b, n)
    ensures at.Some? ==> Fork(bs, a, b, at.value) && left == Above(bs, a, at.value) && right == Above(bs, b, at.value)
  {
    var x, y := a, b;
    left, right := [], [];
    while x != y
      invariant x in bs && y in bs && bs[x].number == bs[y].number <= bs[a].number
      invariant Rooted(bs, a, bs[x].number) && x == Ancestor(bs, a, bs[x].number) && left == Above(bs, a, bs[x].number)
      invariant Rooted(bs, b, bs[y].number) && y == Ancestor(bs, b, bs[y].number) && right == Above(bs, b, bs[y].number)
      invariant forall n: nat | Meet(bs, a, b, n) :: n <= bs[x].number
      decreases bs[x].number
    {
      Lower(bs, a, b, x, y);
      left := left + bs[x].txs;
      var px := Parent(bs, x);
      if px.None? {
        return None, [], [];
      }
      right := right + bs[y].txs;
      var py := Parent(bs, y);
      if py.None? {
        return None, [], [];
      }
      OneDown(bs, a, x);
      OneDown(bs, b, y);
      x, y := px.value, py.value;
    }
    at := Some(bs[x].number);
  }

  /** Branches that differ can only meet below, and not at all if a parent is missing. */
  lemma Lower(bs: Blocks, a: Hash, b: Hash, x: Hash, y: Hash)
    requires a in bs && b in bs && x in bs && y in bs && bs[x].number == bs[y].number <= bs[a].number == bs[b].number && x != y
    requires Rooted(bs, a, bs[x].number) && x == Ancestor(bs, a, bs[x].number)
    requires Rooted(bs, b, bs[y].number) && y == Ancestor(bs, b, bs[y].number)
    requires forall n: nat | Meet(bs, a, b, n) :: n <= bs[x].number
    ensures forall n: nat | Meet(bs, a, b, n) :: n < bs[x].number && Parent(bs, x).Some? && Parent(bs, y).Some?
  {
    forall n: nat | Meet(bs, a, b, n) ensures n < bs[x].number && Parent(bs, x).Some? && Parent(bs, y).Some? {
      assert n != bs[x].number;
      Halfway(bs, a, bs[x].number, n);
      Halfway(bs, b, bs[y].number, n);
    }
  }

  /** Two branches meet where their cut-down forms meet. */
  lemma MeetBelow(bs: Blocks, a: Hash, b: Hash, k: nat, n: nat)
    requires a in bs && b in bs && k <= bs[a].number && k <= bs[b].number && Rooted(bs, a, k) && Rooted(bs, b, k) && n <= k
    ensures Meet(bs, a, b, n) <==> Meet(bs, Ancestor(bs, a, k), Ancestor(bs, b, k), n)
  {
    Halfway(bs, a, k, n);
    Halfway(bs, b, k, n);
  }

  // ---- What a new head brings back ----------------------------------------------------------------------

  /** Nothing is looked for if the new head is a child of the old one, or far from it. */
  predicate Skipped(bs: Blocks, oldHead: Option<Hash>, newHead: Hash)
    requires newHead in bs && (oldHead.Some? ==> oldHead.value in bs)
  {
    || oldHead.None? || oldHead.value == bs[newHead].parent
    || bs[oldHead.value].number > bs[newHead].number + 64 || bs[newHead].number > bs[oldHead.value].number + 64
  }

  /** The transactions of the old branch that are not on the new one; no answer if the branches do not meet in the store. */
  ghost function Dropped(bs: Blocks, oldHead: Option<Hash>, newHead: Hash): Option<seq<Tx>>
    requires newHead in bs && (oldHead.Some? ==> oldHead.value in bs)
  {
    if Skipped(bs, oldHead, newHead) then Some([])
    else if exists n: nat :: Fork(bs, oldHead.value, newHead, n) then
      var n: nat :| Fork(bs, oldHead.value, newHead, n);
      Some(Minus(Above(bs, oldHead.value, n), Above(bs, newHead, n)))
    else None
  }

  /** The number `m` is on the branch of `h` above `n`, and its block holds the transaction. */
  ghost predicate Includes(bs: Blocks, h: Hash, n: nat, m: nat, tx: Tx)
    requires h in bs && Rooted(bs, h, n)
  {
    n < m <= bs[h].number && Rooted(bs, h, m) && tx in bs[Ancestor(bs, h, m)].txs
  }

  /** The collected transactions are those of the blocks of the branch. */
  lemma {:induction false} AboveIff(bs: Blocks, h: Hash, n: nat, tx: Tx)
    requires h in bs && Rooted(bs, h, n)
    ensures tx in Above(bs, h, n) <==> exists m: nat :: Includes(bs, h, n, m, tx)
    decreases bs[h].number
  {
    if n < bs[h].number {
      var p := Parent(bs, h).value;
      AboveIff(bs, p, n, tx);
      if tx in bs[h].txs {
        assert Includes(bs, h, n, bs[h].number, tx);
      } else if m: nat :| Includes(bs, p, n, m, tx) {
        assert Includes(bs, h, n, m, tx);
      }
      forall m: nat | Includes(bs, h, n, m, tx) ensures tx in Above(bs, h, n) {
        assert m < bs[h].number ==> Includes(bs, p, n, m, tx);
      }
    } else {
      assert forall m: nat :: !Includes(bs, h, n, m, tx);
    }
  }

  /** Exactly the transactions come back that the old branch includes above the last common block and the new branch does not. */
  lemma DroppedIff(bs: Blocks, oldHead: Hash, newHead: Hash, n: nat, tx: Tx)
    requires newHead in bs && oldHead in bs && !Skipped(bs, Some(oldHead), newHead) && Fork(bs, oldHead, newHead, n)
    ensures Dropped(bs, Some(oldHead), newHead).Some?
    ensures tx in Dropped(bs, Some(oldHead), newHead).value <==>
              && (exists m: nat :: Includes(bs, oldHead, n, m, tx))
              && !(exists m: nat :: Includes(bs, newHead, n, m, tx))
  {
    ForkUnique(bs, oldHead, newHead);
    AboveIff(bs, oldHead, n, tx);
    AboveIff(bs, newHead, n, tx);
  }

  /** When the new head is a child of the old one, there is nothing to look for. */
  lemma ChildDropsNothing(bs: Blocks, oldHead: Hash, newHead: Hash)
    requires newHead in bs && oldHead in bs && Parent(bs, newHead) == Some(oldHead)
    ensures Fork(bs, oldHead, newHead, bs[oldHead].number) && Above(bs, oldHead, bs[oldHead].number) == []
  {
    var n := bs[oldHead].number;
    assert Rooted(bs, oldHead, n) && Ancestor(bs, oldHead, n) == oldHead;
    assert Rooted(bs, newHead, n) && Ancestor(bs, newHead, n) == oldHead;
    forall m: nat | Meet(bs, oldHead, newHead, m) ensures m <= n {
      RootedDepth(bs, oldHead, m);
    }
  }

  method FindDropped(bs: Blocks, oldHead: Option<Hash>, newHead: Hash) returns (r: Option<seq<Tx>>)
    requires newHead in bs && (oldHead.Some? ==> oldHead.value in bs)
    ensures r == Dropped(bs, oldHead, newHead)
  {
    if Skipped(bs, oldHead, newHead) {
      return Some([]);
    }
    var found, discarded, included := FindFork(bs, oldHead.value, newHead);
    if found.None? {
      return None;
    }
    ForkUnique(bs, oldHead.value, newHead);
    var txs := TxDifference(discarded, included);
    return Some(txs);
  }

  lemma ForkUnique(bs: Blocks, a: Hash, b: Hash)
    requires a in bs && b in bs
    ensures forall n: nat, m: nat | Fork(bs, a, b, n) && Fork(bs, a, b, m) :: n == m
  {
  }

  /** The transactions of both branches above the last common block. */
  method FindFork(bs: Blocks, a: Hash, b: Hash) returns (at: Option<nat>, left: seq<Tx>, right: seq<Tx>)
    requires a in bs && b in bs
    ensures at.None? ==> forall n: nat :: !Meet(bs, a, b, n)
    ensures at.Some? ==> Fork(bs, a, b, at.value) && left == Above(bs, a, at.value) && right == Above(bs, b, at.value)
  {
    var k := if bs[a].number <= bs[b].number then bs[a].number else bs[b].number;
    forall n: nat | Meet(bs, a, b, n) ensures n <= k && Rooted(bs, a, k) && Rooted(bs, b, k) {
      RootedDepth(bs, a, n);
      RootedDepth(bs, b, n);
      Halfway(bs, a, k, n);
      Halfway(bs, b, k, n);
    }
    var rem, discarded := Descend(bs, a, k);
    if rem.None? {
      return None, [], [];
    }
    var add, included := Descend(bs, b, k);
    if add.None? {
      return None, [], [];
    }
    at, left, right := Converge(bs, rem.value, add.value);
    forall n: nat | n <= k ensures Meet(bs, a, b, n) <==> Meet(bs, rem.value, add.value, n) {
      MeetBelow(bs, a, b, k, n);
    }
    if at.Some? {
      RootedDepth(bs, rem.value, at.value);
      Halfway(bs, a, k, at.value);
      Halfway(bs, b, k, at.value);
    }
    left, right := discarded + left, included + right;
  }

  lemma RootedDepth(bs: Blocks, h: Hash, n: nat)
    requires h in bs && Rooted(bs, h, n)
    ensures n <= bs[h].number
  {
  }
}
