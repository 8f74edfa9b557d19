/**
 The full block chain: fork choice, re-organisation, canonical numbering and the
 transaction lookup table.
 */
module BlockChain {
  import opened BlockTree
  import opened Prelude

  type TxHash = nat

  datatype Body = Body(root: nat, txs: seq<TxHash>)

  datatype Block = Block(hash: Hash, header: Header, body: Body)

  datatype Status = UnknownAncestor | InvalidOldChain | InvalidNewChain | Canonical | Side

  /** The lookup entries of one block. */
  function Entries(hash: Hash, txs: seq<TxHash>): (r: map<TxHash, Hash>)
    ensures forall t :: t in r <==> t in txs
    ensures forall t | t in r :: r[t] == hash
  {
    if txs == [] then map[] else Entries(hash, txs[1..])[txs[0] := hash]
  }

  // ---- Every block there is ---------------------------------------------------------------

  /** The lookup entries of the ancestors of `h` with numbers above `n`, later blocks winning. */
  ghost function Branch(hs: map<Hash, Header>, bs: map<Hash, Body>, genesis: Hash, h: Hash, n: nat): map<TxHash, Hash>
    requires Tree(hs, genesis) && bs.Keys == hs.Keys && h in hs
    decreases hs[h].number
  {
    if hs[h].number <= n then map[]
    else
      assert Linked(hs, genesis, h);
      Branch(hs, bs, genesis, hs[h].parent, n) + Entries(h, bs[h].txs)
  }

  /** The lookup entries of the whole chain that ends in `h`. */
  ghost function ChainLookup(hs: map<Hash, Header>, bs: map<Hash, Body>, genesis: Hash, h: Hash): map<TxHash, Hash>
    requires Tree(hs, genesis) && bs.Keys == hs.Keys && h in hs
  {
    Entries(genesis, bs[genesis].txs) + Branch(hs, bs, genesis, h, 0)
  }

  /** No transaction of block `h` occurs on the chain below it. */
  ghost predicate NewTxs(hs: map<Hash, Header>, bs: map<Hash, Body>, genesis: Hash, h: Hash)
    requires Tree(hs, genesis) && bs.Keys == hs.Keys && h in hs
  {
    h == genesis
    || (hs[h].parent in hs && forall t | t in bs[h].txs :: t !in ChainLookup(hs, bs, genesis, hs[h].parent))
  }

  /** A set of blocks closed under parents in which no chain holds a transaction twice. */
  ghost predicate World(hs: map<Hash, Header>, bs: map<Hash, Body>, genesis: Hash) {
    && Tree(hs, genesis)
    && bs.Keys == hs.Keys
    && forall h {:trigger NewTxs(hs, bs, genesis, h)} | h in hs :: NewTxs(hs, bs, genesis, h)
  }

  lemma ChainStep(hs: map<Hash, Header>, bs: map<Hash, Body>, genesis: Hash, h: Hash)
    requires Tree(hs, genesis) && bs.Keys == hs.Keys && h in hs && hs[h].number > 0
    ensures hs[h].parent in hs
    ensures ChainLookup(hs, bs, genesis, h)
         == ChainLookup(hs, bs, genesis, hs[h].parent) + Entries(h, bs[h].txs)
  {
    assert Linked(hs, genesis, h);
  }

  /** Splitting a chain at number `n`. */
  lemma {:induction false} ChainSplit(hs: map<Hash, Header>, bs: map<Hash, Body>, genesis: Hash, h: Hash, n: nat)
    requires Tree(hs, genesis) && bs.Keys == hs.Keys && h in hs && n <= hs[h].number
    ensures ChainLookup(hs, bs, genesis, h)
         == ChainLookup(hs, bs, genesis, At(hs, genesis, h, n)) + Branch(hs, bs, genesis, h, n)
    decreases hs[h].number
  {
    if n < hs[h].number {
      assert Linked(hs, genesis, h);
      var p := hs[h].parent;
      ChainSplit(hs, bs, genesis, p, n);
      ChainStep(hs, bs, genesis, h);
      MapAssoc(ChainLookup(hs, bs, genesis, At(hs, genesis, h, n)), Branch(hs, bs, genesis, p, n), Entries(h, bs[h].txs));
    }
  }

  lemma MapAssoc<K, V>(a: map<K, V>, b: map<K, V>, c: map<K, V>)
    ensures (a + b) + c == a + (b + c)
  {
  }

  lemma GrowLookup(lookup: map<TxHash, Hash>, base: map<TxHash, Hash>, below: map<TxHash, Hash>, b: Hash, txs: seq<TxHash>,
                   added: seq<TxHash>)
    requires lookup == base + below && TxSet(added) == below.Keys
    ensures lookup + Entries(b, txs) == base + (below + Entries(b, txs))
    ensures TxSet(added + txs) == (below + Entries(b, txs)).Keys
  {
    MapAssoc(base, below, Entries(b, txs));
  }

  /** What a branch adds is new to the chain it grows on. */
  lemma {:induction false} BranchIsNew(hs: map<Hash, Header>, bs: map<Hash, Body>, genesis: Hash, h: Hash, n: nat)
    requires World(hs, bs, genesis) && h in hs && n <= hs[h].number
    ensures Branch(hs, bs, genesis, h, n).Keys !! ChainLookup(hs, bs, genesis, At(hs, genesis, h, n)).Keys
    decreases hs[h].number
  {
    if n < hs[h].number {
      assert Linked(hs, genesis, h);
      assert NewTxs(hs, bs, genesis, h);
      BranchIsNew(hs, bs, genesis, hs[h].parent, n);
      ChainSplit(hs, bs, genesis, hs[h].parent, n);
    }
  }

  /** Extending a branch by the next block up. */
  lemma BranchStep(hs: map<Hash, Header>, bs: map<Hash, Body>, genesis: Hash, h: Hash, n: nat, m: nat)
    requires Tree(hs, genesis) && bs.Keys == hs.Keys && h in hs && n <= m < hs[h].number
    ensures var next := At(hs, genesis, h, m + 1);
            Branch(hs, bs, genesis, next, n) == Branch(hs, bs, genesis, At(hs, genesis, h, m), n) + Entries(next, bs[next].txs)
  {
    AtPred(hs, genesis, h, m + 1);
  }

  /**
   Overwriting the old chain's lookup with the new branch and then deleting what only the
   old branch held gives the new chain's lookup.
   */
  lemma ReorgLookup(hs: map<Hash, Header>, bs: map<Hash, Body>, genesis: Hash, old_: Hash, new_: Hash, n: nat)
    requires World(hs, bs, genesis) && old_ in hs && new_ in hs
    requires n <= hs[old_].number && n <= hs[new_].number
    requires At(hs, genesis, old_, n) == At(hs, genesis, new_, n)
    ensures var deleted := Branch(hs, bs, genesis, old_, n);
            var added := Branch(hs, bs, genesis, new_, n);
            (ChainLookup(hs, bs, genesis, old_) + added) - (deleted.Keys - added.Keys)
            == ChainLookup(hs, bs, genesis, new_)
  {
    ChainSplit(hs, bs, genesis, old_, n);
    ChainSplit(hs, bs, genesis, new_, n);
    BranchIsNew(hs, bs, genesis, old_, n);
  }

  function TxSet(txs: seq<TxHash>): set<TxHash> {
    set t | t in txs
  }

  /** The transactions of `a` that do not occur in `b`. */
  function TxDifference(a: seq<TxHash>, b: seq<TxHash>): set<TxHash> {
    set t | t in a && t !in b
  }

  predicate Child(parent: Block, child: Block) {
    child.header.parent == parent.hash && child.header.number == parent.header.number + 1
  }

  predicate Successive(batch: seq<Block>, i: nat)
    requires 1 <= i < |batch|
  {
    Child(batch[i - 1], batch[i])
  }

  // ---- The fork choice ----------------------------------------------------------------------

  /** More total difficulty is better, and at the same total a lower number. */
  predicate Better(td: nat, number: nat, td': nat, number': nat) {
    td > td' || (td == td' && number < number')
  }

  /** No block of the set is better than the head. */
  ghost predicate Best(hs: map<Hash, Header>, td: map<Hash, nat>, some: set<Hash>, head: Hash)
    requires head in hs && head in td && some <= hs.Keys && some <= td.Keys
  {
    forall h | h in some :: !Better(td[h], hs[h].number, td[head], hs[head].number)
  }

  /** Writing one more block keeps the head best, if the better of the two becomes the head. */
  lemma BestGrows(hs: map<Hash, Header>, td: map<Hash, nat>, some: set<Hash>, head: Hash, hash: Hash, header: Header, total: nat,
                  head': Hash)
    requires head in hs && head in td && some <= hs.Keys && some <= td.Keys && Best(hs, td, some, head)
    requires hash in hs ==> hs[hash] == header
    requires hash in td ==> td[hash] == total
    requires || (head' == hash && !Better(td[head], hs[head].number, total, header.number))
             || (head' == head && !Better(total, header.number, td[head], hs[head].number))
    ensures Best(hs[hash := header], td[hash := total], some + {hash}, head')
  {
  }

  /** Whatever the order in which blocks arrive and however ties are settled, the head's total and number are the same. */
  lemma BestAgree(hs: map<Hash, Header>, td: map<Hash, nat>, some: set<Hash>, head: Hash, head': Hash)
    requires some <= hs.Keys && some <= td.Keys && head in some && head' in some
    requires Best(hs, td, some, head)
    ensures Best(hs, td, some, head') <==> td[head] == td[head'] && hs[head].number == hs[head'].number
  {
    assert !Better(td[head'], hs[head'].number, td[head], hs[head].number);
    if Best(hs, td, some, head') {
      assert !Better(td[head], hs[head].number, td[head'], hs[head'].number);
    }
  }

  /** The block is on the canonical chain at or below the head. */
  predicate IsCanonical(hs: map<Hash, Header>, canon: map<nat, Hash>, head: Hash, b: Block) {
    && head in hs && b.header.number <= hs[head].number
    && b.header.number in canon && canon[b.header.number] == b.hash
  }

  /** A canonical block at the same height, other than `b`, has the same state root. */
  predicate ClaimsState(hs: map<Hash, Header>, bs: map<Hash, Body>, canon: map<nat, Hash>, head: Hash, b: Block) {
    && head in hs && b.header.number <= hs[head].number
    && b.header.number in canon && canon[b.header.number] != b.hash
    && canon[b.header.number] in bs && bs[canon[b.header.number]].root == b.body.root
  }

  /** The first `i` blocks of a batch are canonical. */
  ghost predicate AllCanonical(hs: map<Hash, Header>, canon: map<nat, Hash>, head: Hash, batch: seq<Block>, i: nat) {
    i <= |batch| && forall j | 0 <= j < i :: IsCanonical(hs, canon, head, batch[j])
  }

  /** None of the first `i` blocks of a batch claims a canonical state. */
  ghost predicate NoClaims(hs: map<Hash, Header>, bs: map<Hash, Body>, canon: map<nat, Hash>, head: Hash, batch: seq<Block>, i: nat) {
    i <= |batch| && forall j | 0 <= j < i :: !ClaimsState(hs, bs, canon, head, batch[j])
  }

  lemma OneMore(hs: map<Hash, Header>, bs: map<Hash, Body>, canon: map<nat, Hash>, head: Hash, batch: seq<Block>, i: nat, next: nat)
    requires i < |batch| && next == i + 1
    ensures AllCanonical(hs, canon, head, batch, next) <==>
              AllCanonical(hs, canon, head, batch, i) && IsCanonical(hs, canon, head, batch[i])
    ensures NoClaims(hs, bs, canon, head, batch, next) <==>
              NoClaims(hs, bs, canon, head, batch, i) && !ClaimsState(hs, bs, canon, head, batch[i])
  {
  }

  /** An import of pruned blocks ends at block `i`: it or its parent is stored with its state. */
  predicate Stops(states: set<nat>, hs: map<Hash, Header>, batch: seq<Block>, i: nat)
    requires 1 <= i < |batch|
  {
    batch[i - 1].body.root in states || (batch[i].hash in hs && batch[i].body.root in states)
  }

  /** How far an import of pruned blocks gets. */
  ghost function Reach(states: set<nat>, hs: map<Hash, Header>, batch: seq<Block>, i: nat): (n: nat)
    requires 1 <= i <= |batch|
    ensures i <= n <= |batch| && (n < |batch| ==> Stops(states, hs, batch, n))
    ensures forall j | i <= j < n :: !Stops(states, hs, batch, j)
    decreases |batch| - i
  {
    if i == |batch| || Stops(states, hs, batch, i) then i else Reach(states, hs, batch, i + 1)
  }

  lemma ReachNext(states: set<nat>, hs: map<Hash, Header>, batch: seq<Block>, i: nat, n: nat)
    requires batch != [] && n == Reach(states, hs, batch, 1) && 1 <= i <= n
    ensures i < |batch| ==> (i < n <==> !Stops(states, hs, batch, i))
  {
  }

  class BlockChain {
    const genesis: Hash
    ghost const world: map<Hash, Header>     // every block that can ever be written
    ghost const contents: map<Hash, Body>
    var headers: map<Hash, Header>
    var bodies: map<Hash, Body>
    var td: map<Hash, nat>
    var canon: map<nat, Hash>
    var lookup: map<TxHash, Hash>
    var current: Hash
    var states: set<nat>                     // roots of the states that are still there
    ghost var executed: set<Hash>            // blocks written together with their state

    /** The store is a parent-closed part of the world with correct total difficulties. */
    ghost predicate StoreValid()
      reads this`headers, this`bodies, this`td
    {
      && World(world, contents, genesis)
      && Tree(headers, genesis)
      && bodies.Keys == headers.Keys
      && (forall h | h in headers :: h in world && headers[h] == world[h] && bodies[h] == contents[h])
      && Weighted(headers, td, genesis)
    }

    /** The numbers up to the head's map exactly to its parent chain. */
    ghost predicate Numbered(head: Hash)
      requires World(world, contents, genesis) && head in world
      reads this`canon
    {
      forall n | 0 <= n <= world[head].number :: n in canon && canon[n] == At(world, genesis, head, n)
    }

    ghost predicate Valid()
      reads this
    {
      && StoreValid()
      && current in headers && executed <= headers.Keys && current in executed
      && Numbered(current)
      && lookup == ChainLookup(world, contents, genesis, current)
      && Best(headers, td, executed, current)
      && bodies[current].root in states
    }

    ghost predicate Knows(b: Block)
    {
      && b.hash in world && world[b.hash] == b.header && b.hash != genesis
      && b.hash in contents && contents[b.hash] == b.body
    }

    constructor (genesis: Hash, header: Header, body: Body, ghost world: map<Hash, Header>, ghost contents: map<Hash, Body>)
      requires World(world, contents, genesis) && world[genesis] == header && contents[genesis] == body
      ensures Valid() && current == genesis && executed == {genesis}
      ensures this.genesis == genesis && this.world == world && this.contents == contents
      ensures headers == map[genesis := header] && td == map[genesis := header.difficulty] && states == {body.root}
    {
      this.genesis := genesis;
      this.world := world;
      this.contents := contents;
      headers := map[genesis := header];
      bodies := map[genesis := body];
      td := map[genesis := header.difficulty];
      canon := map[0 := genesis];
      lookup := Entries(genesis, body.txs);
      current := genesis;
      states := {body.root};
      executed := {genesis};
    }

    lemma ParentStored(h: Hash)
      requires StoreValid() && h in headers && h != genesis
      ensures headers[h].parent in headers && headers[headers[h].parent].number == headers[h].number - 1
    {
      assert Linked(headers, genesis, h);
    }

    lemma {:induction false} AncestorStored(h: Hash, n: nat)
      requires StoreValid() && h in headers && n <= headers[h].number
      ensures At(world, genesis, h, n) in headers
      decreases headers[h].number
    {
      if n < headers[h].number {
        ParentStored(h);
        AncestorStored(headers[h].parent, n);
      }
    }

    /** Injects a block as the head of the canonical chain. */
    method Insert(hash: Hash)
      requires hash in headers
      modifies this`canon, this`current
      ensures current == hash && canon == old(canon)[headers[hash].number := hash]
    {
      canon := canon[headers[hash].number := hash];
      current := hash;
    }

    /**
     Moves the canonical chain from `oldHead` to `newHead`: walks both branches down to their
     common ancestor, inserts the new one bottom up, and drops the lookup entries of
     transactions only the old one held. Never fails on a parent-closed store.
     */
    method Reorg(oldHead: Hash, newHead: Hash) returns (error: Status)
      requires StoreValid() && oldHead in headers && newHead in headers
      requires Numbered(oldHead)
      requires lookup == ChainLookup(world, contents, genesis, oldHead)
      modifies this`canon, this`current, this`lookup
      ensures error == Canonical
      ensures Numbered(newHead)
      ensures lookup == ChainLookup(world, contents, genesis, newHead)
    {
      var oldBlock, newBlock := oldHead, newHead;
      var newChain: seq<Hash> := [];
      var deletedTxs: seq<TxHash> := [];
      if headers[oldHead].number > headers[newHead].number {
        oldBlock, deletedTxs := ReduceOld(oldHead, headers[newHead].number);
      } else {
        newBlock, newChain := ReduceNew(newHead, headers[oldHead].number);
      }
      error, newBlock, newChain, deletedTxs := FindCommon(oldHead, newHead, oldBlock, newBlock, newChain, deletedTxs);
      InsertBranch(oldHead, newHead, newChain, deletedTxs, headers[newBlock].number);
    }

    /** The part of the old chain above `n` is about to go: collects its transactions. */
    method ReduceOld(oldHead: Hash, n: nat) returns (oldBlock: Hash, deletedTxs: seq<TxHash>)
      requires StoreValid() && oldHead in headers && n <= headers[oldHead].number
      ensures oldBlock in headers && oldBlock == At(world, genesis, oldHead, n)
      ensures TxSet(deletedTxs) == Branch(world, contents, genesis, oldHead, n).Keys
    {
      oldBlock, deletedTxs := oldHead, [];
      while headers[oldBlock].number != n
        invariant oldBlock in headers && n <= headers[oldBlock].number <= headers[oldHead].number
        invariant oldBlock == At(world, genesis, oldHead, headers[oldBlock].number)
        invariant TxSet(deletedTxs) == Branch(world, contents, genesis, oldHead, headers[oldBlock].number).Keys
        decreases headers[oldBlock].number
      {
        ParentStored(oldBlock);
        deletedTxs := deletedTxs + bodies[oldBlock].txs;
        StepDown(oldHead, headers[oldBlock].number, deletedTxs);
        oldBlock := headers[oldBlock].parent;
      }
    }

    /** The part of the new chain above `n` is about to be inserted: collects its blocks. */
    method ReduceNew(newHead: Hash, n: nat) returns (newBlock: Hash, newChain: seq<Hash>)
      requires StoreValid() && newHead in headers && n <= headers[newHead].number
      ensures newBlock in headers && newBlock == At(world, genesis, newHead, n)
      ensures Descends(newChain, newHead, n)
    {
      newBlock, newChain := newHead, [];
      while headers[newBlock].number != n
        invariant newBlock in headers && n <= headers[newBlock].number <= headers[newHead].number
        invariant newBlock == At(world, genesis, newHead, headers[newBlock].number)
        invariant Descends(newChain, newHead, headers[newBlock].number)
        decreases headers[newBlock].number
      {
        ParentStored(newBlock);
        newChain := newChain + [newBlock];
        AtPred(world, genesis, newHead, headers[newBlock].number);
        newBlock := headers[newBlock].parent;
      }
    }

    /** Walks both chains down in step until they meet. */
    method FindCommon(oldHead: Hash, newHead: Hash, o: Hash, n: Hash, chain: seq<Hash>, txs: seq<TxHash>)
      returns (error: Status, common: Hash, newChain: seq<Hash>, deletedTxs: seq<TxHash>)
      requires StoreValid() && oldHead in headers && newHead in headers && o in headers && n in headers
      requires headers[o].number == headers[n].number <= headers[oldHead].number
      requires headers[n].number <= headers[newHead].number
      requires o == At(world, genesis, oldHead, headers[o].number)
      requires n == At(world, genesis, newHead, headers[n].number)
      requires Descends(chain, newHead, headers[n].number)
      requires TxSet(txs) == Branch(world, contents, genesis, oldHead, headers[o].number).Keys
      ensures error == Canonical
      ensures common in headers && headers[common].number <= headers[n].number
      ensures common == At(world, genesis, oldHead, headers[common].number)
      ensures common == At(world, genesis, newHead, headers[common].number)
      ensures Descends(newChain, newHead, headers[common].number)
      ensures TxSet(deletedTxs) == Branch(world, contents, genesis, oldHead, headers[common].number).Keys
    {
      var oldBlock, newBlock := o, n;
      newChain, deletedTxs := chain, txs;
      AtBottom(world, genesis, oldHead);
      AtBottom(world, genesis, newHead);
      while oldBlock != newBlock
        invariant oldBlock in headers && newBlock in headers
        invariant headers[oldBlock].number == headers[newBlock].number <= headers[n].number
        invariant oldBlock == At(world, genesis, oldHead, headers[oldBlock].number)
        invariant newBlock == At(world, genesis, newHead, headers[newBlock].number)
        invariant Descends(newChain, newHead, headers[newBlock].number)
        invariant TxSet(deletedTxs) == Branch(world, contents, genesis, oldHead, headers[oldBlock].number).Keys
        decreases headers[oldBlock].number
      {
        ParentStored(oldBlock);
        ParentStored(newBlock);
        newChain := newChain + [newBlock];
        deletedTxs := deletedTxs + bodies[oldBlock].txs;
        StepDown(oldHead, headers[oldBlock].number, deletedTxs);
        AtPred(world, genesis, newHead, headers[newBlock].number);
        if headers[oldBlock].parent !in headers {
          return InvalidOldChain, oldBlock, newChain, deletedTxs;
        }
        if headers[newBlock].parent !in headers {
          return InvalidNewChain, newBlock, newChain, deletedTxs;
        }
        oldBlock, newBlock := headers[oldBlock].parent, headers[newBlock].parent;
      }
      return Canonical, newBlock, newChain, deletedTxs;
    }

    /** `chain` lists the ancestors of `head` from itself down to number `n + 1`. */
    ghost predicate Descends(chain: seq<Hash>, head: Hash, n: nat)
      requires World(world, contents, genesis) && head in world && n <= world[head].number
    {
      && |chain| == world[head].number - n
      && forall i | 0 <= i < |chain| :: chain[i] == At(world, genesis, head, world[head].number - i)
    }

    /** Collecting one more old block's transactions extends the deleted branch by it. */
    lemma StepDown(oldHead: Hash, n: nat, deletedTxs: seq<TxHash>)
      requires World(world, contents, genesis) && oldHead in world && 0 < n <= world[oldHead].number
      requires var b := At(world, genesis, oldHead, n);
               TxSet(deletedTxs) == Branch(world, contents, genesis, oldHead, n).Keys + TxSet(contents[b].txs)
      ensures world[At(world, genesis, oldHead, n)].parent == At(world, genesis, oldHead, n - 1)
      ensures TxSet(deletedTxs) == Branch(world, contents, genesis, oldHead, n - 1).Keys
    {
      AtPred(world, genesis, oldHead, n);
      BranchKeysDown(world, contents, genesis, oldHead, n);
    }

    /** Inserts the collected new branch and fixes the lookup table. */
    method InsertBranch(oldHead: Hash, newHead: Hash, newChain: seq<Hash>, deletedTxs: seq<TxHash>, n: nat)
      requires StoreValid() && oldHead in headers && newHead in headers
      requires n <= headers[oldHead].number && n <= headers[newHead].number
      requires At(world, genesis, oldHead, n) == At(world, genesis, newHead, n)
      requires Descends(newChain, newHead, n)
      requires TxSet(deletedTxs) == Branch(world, contents, genesis, oldHead, n).Keys
      requires Numbered(oldHead) && lookup == ChainLookup(world, contents, genesis, oldHead)
      modifies this`canon, this`current, this`lookup
      ensures Numbered(newHead)
      ensures lookup == ChainLookup(world, contents, genesis, newHead)
    {
      var addedTxs := InsertAll(oldHead, newHead, newChain, n);
      ReorgLookup(world, contents, genesis, oldHead, newHead, n);
      assert TxDifference(deletedTxs, addedTxs) == TxSet(deletedTxs) - TxSet(addedTxs);
      lookup := lookup - TxDifference(deletedTxs, addedTxs);
    }

    /** Inserts the collected new branch, lowest block first. */
    method InsertAll(oldHead: Hash, newHead: Hash, newChain: seq<Hash>, n: nat) returns (addedTxs: seq<TxHash>)
      requires StoreValid() && oldHead in headers && newHead in headers
      requires n <= headers[oldHead].number && n <= headers[newHead].number
      requires At(world, genesis, oldHead, n) == At(world, genesis, newHead, n)
      requires Descends(newChain, newHead, n)
      requires Numbered(oldHead) && lookup == ChainLookup(world, contents, genesis, oldHead)
      modifies this`canon, this`current, this`lookup
      ensures Inserted(oldHead, newHead, n, headers[newHead].number, addedTxs)
    {
      addedTxs := [];
      var i := |newChain|;
      ghost var m := n;
      NoneInserted(oldHead, newHead, n);
      while i > 0
        invariant 0 <= i <= |newChain| && n <= m && m + i == headers[newHead].number
        invariant Inserted(oldHead, newHead, n, m, addedTxs)
      {
        i, m := i - 1, m + 1;
        addedTxs := InsertNext(oldHead, newHead, n, m - 1, m, newChain[i], addedTxs);
      }
    }

    /** The new branch above the common number `n` is in place up to number `m`. */
    ghost predicate Inserted(oldHead: Hash, newHead: Hash, n: nat, m: nat, addedTxs: seq<TxHash>)
      requires World(world, contents, genesis) && oldHead in world && newHead in world && n <= m <= world[newHead].number
      reads this`canon, this`lookup
    {
      && (forall k | 0 <= k <= m :: k in canon && canon[k] == At(world, genesis, newHead, k))
      && var added := Branch(world, contents, genesis, At(world, genesis, newHead, m), n);
         TxSet(addedTxs) == added.Keys && lookup == ChainLookup(world, contents, genesis, oldHead) + added
    }

    lemma NoneInserted(oldHead: Hash, newHead: Hash, n: nat)
      requires World(world, contents, genesis) && oldHead in world && newHead in world
      requires n <= world[oldHead].number && n <= world[newHead].number
      requires At(world, genesis, oldHead, n) == At(world, genesis, newHead, n)
      requires Numbered(oldHead) && lookup == ChainLookup(world, contents, genesis, oldHead)
      ensures Inserted(oldHead, newHead, n, n, [])
    {
      forall m | 0 <= m <= n ensures m in canon && canon[m] == At(world, genesis, newHead, m) {
        MeetAgree(world, genesis, oldHead, newHead, n, m);
      }
    }

    method InsertNext(oldHead: Hash, newHead: Hash, ghost n: nat, ghost below: nat, ghost m: nat, b: Hash, addedTxs: seq<TxHash>)
      returns (added: seq<TxHash>)
      requires StoreValid() && oldHead in headers && newHead in headers && n <= below < m == below + 1 <= headers[newHead].number
      requires b == At(world, genesis, newHead, m)
      requires Inserted(oldHead, newHead, n, below, addedTxs)
      modifies this`canon, this`current, this`lookup
      ensures Inserted(oldHead, newHead, n, m, added)
    {
      AncestorStored(newHead, m);
      LookupNext(oldHead, newHead, n, below, m, b, addedTxs);
      Insert(b);
      lookup := lookup + Entries(b, bodies[b].txs);
      added := addedTxs + bodies[b].txs;
    }

    lemma LookupNext(oldHead: Hash, newHead: Hash, n: nat, below: nat, m: nat, b: Hash, addedTxs: seq<TxHash>)
      requires World(world, contents, genesis) && oldHead in world && newHead in world
      requires n <= below < m == below + 1 <= world[newHead].number && b == At(world, genesis, newHead, m)
      requires Inserted(oldHead, newHead, n, below, addedTxs)
      ensures var added := Branch(world, contents, genesis, b, n);
              && lookup + Entries(b, contents[b].txs) == ChainLookup(world, contents, genesis, oldHead) + added
              && TxSet(addedTxs + contents[b].txs) == added.Keys
    {
      BranchStep(world, contents, genesis, newHead, n, below);
      GrowLookup(lookup, ChainLookup(world, contents, genesis, oldHead),
                 Branch(world, contents, genesis, At(world, genesis, newHead, below), n), b, contents[b].txs, addedTxs);
    }

    /** Stores the block and its total difficulty. */
    method Store(b: Block, total: nat)
      requires StoreValid() && Knows(b) && b.header.parent in headers
      requires total == td[b.header.parent] + b.header.difficulty
      modifies this`headers, this`bodies, this`td
      ensures StoreValid()
      ensures headers == old(headers)[b.hash := b.header]
      ensures bodies == old(bodies)[b.hash := b.body]
      ensures td == old(td)[b.hash := total]
      ensures forall h | h in old(td) :: td[h] == old(td)[h]
    {
      assert Linked(world, genesis, b.hash);
      InsertKeepsTree(headers, td, genesis, b.hash, b.header);
      assert b.hash in td ==> Adds(headers, td, genesis, b.hash);
      td := td[b.hash := total];
      headers := headers[b.hash := b.header];
      bodies := bodies[b.hash := b.body];
    }

    /** Whether a block of total difficulty `externTd` replaces the head. */
    predicate Beats(b: Block, externTd: nat, keepCurrent: bool, keepBlock: bool, coin: bool)
      requires current in headers && current in td
      reads this
    {
      || Better(externTd, b.header.number, td[current], headers[current].number)
      || (externTd == td[current] && b.header.number == headers[current].number && !keepCurrent && (keepBlock || coin))
    }

    /**
     Writes an executed block. `keepCurrent` and `keepBlock` say which of the two contenders
     the local miner wants to preserve, `coin` settles what is still undecided.
     */
    method WriteBlockWithState(b: Block, keepCurrent: bool, keepBlock: bool, coin: bool) returns (status: Status)
      requires Valid() && Knows(b)
      modifies this
      ensures Valid()
      ensures b.header.parent !in old(headers) ==>
                && status == UnknownAncestor
                && headers == old(headers) && bodies == old(bodies) && td == old(td) && canon == old(canon)
                && lookup == old(lookup) && current == old(current) && executed == old(executed) && states == old(states)
      ensures b.header.parent in old(headers) ==>
                && headers == old(headers)[b.hash := b.header]
                && bodies == old(bodies)[b.hash := b.body]
                && td == old(td)[b.hash := old(td)[b.header.parent] + b.header.difficulty]
                && executed == old(executed) + {b.hash} && states == old(states) + {b.body.root}
                && (if old(Beats(b, td[b.header.parent] + b.header.difficulty, keepCurrent, keepBlock, coin))
                    then status == Canonical && current == b.hash
                    else status == Side && current == old(current) && canon == old(canon) && lookup == old(lookup))
      ensures td[current] >= old(td[current])
      ensures td[current] == old(td[current]) ==> headers[current].number <= old(headers[current].number)
    {
      if b.header.parent !in td {
        return UnknownAncestor;
      }
      status := WriteChild(b, keepCurrent, keepBlock, coin);
    }

    method WriteChild(b: Block, keepCurrent: bool, keepBlock: bool, coin: bool) returns (status: Status)
      requires Valid() && Knows(b) && b.header.parent in headers
      modifies this
      ensures Valid()
      ensures headers == old(headers)[b.hash := b.header] && bodies == old(bodies)[b.hash := b.body]
      ensures td == old(td)[b.hash := old(td)[b.header.parent] + b.header.difficulty]
      ensures executed == old(executed) + {b.hash} && states == old(states) + {b.body.root}
      ensures if old(Beats(b, td[b.header.parent] + b.header.difficulty, keepCurrent, keepBlock, coin))
              then status == Canonical && current == b.hash
              else status == Side && current == old(current) && canon == old(canon) && lookup == old(lookup)
      ensures td[current] >= old(td[current])
      ensures td[current] == old(td[current]) ==> headers[current].number <= old(headers[current].number)
    {
      var externTd := b.header.difficulty + td[b.header.parent];
      var reorg := ForkChoice(b, externTd, keepCurrent, keepBlock, coin);
      StoreExecuted(b, externTd, if reorg then b.hash else current);
      if reorg {
        Adopt(b);
        status := Canonical;
      } else {
        status := Side;
      }
    }

    /** Stores a block that was executed; `head` is the better of it and the current head. */
    method StoreExecuted(b: Block, total: nat, ghost head: Hash)
      requires Valid() && Knows(b) && b.header.parent in headers
      requires total == td[b.header.parent] + b.header.difficulty
      requires || (head == b.hash && !Better(td[current], headers[current].number, total, b.header.number))
               || (head == current && !Better(total, b.header.number, td[current], headers[current].number))
      modifies this`headers, this`bodies, this`td, this`states, this`executed
      ensures StoreValid() && executed == old(executed) + {b.hash} && executed <= headers.Keys
      ensures states == old(states) + {b.body.root} && bodies[current] == old(bodies)[current]
      ensures headers == old(headers)[b.hash := b.header] && bodies == old(bodies)[b.hash := b.body]
      ensures td == old(td)[b.hash := total] && td[current] == old(td)[current] && headers[current] == old(headers)[current]
      ensures head in headers && Best(headers, td, executed, head)
    {
      assert b.hash in headers ==> Adds(headers, td, genesis, b.hash);
      BestGrows(headers, td, executed, current, b.hash, b.header, total, head);
      Store(b, total);
      states := states + {b.body.root};
      executed := executed + {b.hash};
    }

    /** Higher total difficulty wins; ties go to the lower number, then to the miner's own block. */
    method ForkChoice(b: Block, externTd: nat, keepCurrent: bool, keepBlock: bool, coin: bool) returns (reorg: bool)
      requires current in headers && current in td
      ensures Better(externTd, b.header.number, td[current], headers[current].number) ==> reorg
      ensures Better(td[current], headers[current].number, externTd, b.header.number) ==> !reorg
      ensures externTd == td[current] && b.header.number == headers[current].number ==>
                (reorg <==> !keepCurrent && (keepBlock || coin))
    {
      var localTd := td[current];
      reorg := externTd > localTd;
      if !reorg && externTd == localTd {
        if b.header.number < headers[current].number {
          reorg := true;
        } else if b.header.number == headers[current].number {
          reorg := !keepCurrent && (keepBlock || coin);
        }
      }
    }

    /** Makes a stored block the head, re-organising unless it extends the current one. */
    method Adopt(b: Block)
      requires StoreValid() && Knows(b) && b.hash in headers && current in headers
      requires Numbered(current) && lookup == ChainLookup(world, contents, genesis, current)
      modifies this`canon, this`current, this`lookup
      ensures current == b.hash && Numbered(b.hash)
      ensures lookup == ChainLookup(world, contents, genesis, b.hash)
    {
      ParentStored(b.hash);
      ChainStep(world, contents, genesis, b.hash);
      if b.header.parent != current {
        var error := Reorg(current, b.hash);
        Rewrite(lookup, ChainLookup(world, contents, genesis, b.header.parent), Entries(b.hash, b.body.txs));
      }
      lookup := lookup + Entries(b.hash, b.body.txs);
      Insert(b.hash);
    }

    // ---- Side chains ------------------------------------------------------------------------

    predicate OnCanonical(b: Block)
      reads this`headers, this`canon, this`current
    {
      IsCanonical(headers, canon, current, b)
    }

    predicate GhostState(b: Block)
      reads this`headers, this`bodies, this`canon, this`current
    {
      ClaimsState(headers, bodies, canon, current, b)
    }

    /** The child of a block off the canonical chain is off it too. */
    lemma OffCanonicalStaysOff(parent: Block, child: Block)
      requires Valid() && Knows(parent) && Knows(child)
      requires Child(parent, child) && !OnCanonical(parent)
      ensures !OnCanonical(child)
    {
      if OnCanonical(child) {
        AtPred(world, genesis, current, child.header.number);
      }
    }

    /** The block is stored and the state it leads to is still there. */
    predicate HasState(h: Hash)
      reads this`bodies, this`states
    {
      h in bodies && bodies[h].root in states
    }

    function ValidateBody(b: Block): Verdict
      reads this`headers, this`bodies, this`states
    {
      if HasState(b.hash) then KnownBlock
      else if HasState(b.header.parent) then Importable
      else if b.header.parent !in headers then UnknownParent
      else PrunedAncestor
    }

    /** Forgets states, but never the head's. */
    method Prune(gone: set<nat>)
      requires Valid() && bodies[current].root !in gone
      modifies this`states
      ensures Valid() && states == old(states) - gone
    {
      states := states - gone;
    }

    /**
     Imports a batch that starts with a block whose parent's state was pruned, up to the first
     block that is known with its state or whose parent is. Canonical blocks are skipped, the
     others stored with a total difficulty accumulated from block to block instead of looked
     up. `total` is the accumulated value compared with the head's at the end; it is missing,
     and that comparison undefined, exactly when all blocks taken are canonical already.
     */
    method InsertSidechain(batch: seq<Block>) returns (outcome: Outcome, total: Option<nat>, ghost n: nat)
      requires Valid()
      requires batch != [] && ValidateBody(batch[0]) == PrunedAncestor
      requires forall i | 0 <= i < |batch| :: Knows(batch[i])
      requires forall i {:trigger Successive(batch, i)} | 1 <= i < |batch| :: Successive(batch, i)
      modifies this`headers, this`bodies, this`td
      ensures Valid()
      ensures forall h | h in old(td) :: h in td && td[h] == old(td)[h]
      ensures n == Reach(states, old(headers), batch, 1)
      ensures outcome.GhostStateAttack? <==> exists i :: 0 <= i < n && ClaimsState(old(headers), old(bodies), canon, current, batch[i])
      ensures !outcome.GhostStateAttack? ==>
                && (forall i | 0 <= i < n :: batch[i].hash in headers)
                && (total.None? <==> forall i | 0 <= i < n :: IsCanonical(old(headers), canon, current, batch[i]))
                && (total.Some? ==> total.value == td[batch[n - 1].hash])
                && (outcome == if total.None? then Undefined else if td[current] > total.value then Written else Reimport)
    {
      var attack;
      n := Reach(states, headers, batch, 1);
      attack, total := ImportSide(batch, n);
      if attack {
        outcome := GhostStateAttack;
      } else if total.None? {
        outcome := Undefined;
      } else if td[current] > total.value {
        outcome := Written;
      } else {
        outcome := Reimport;
      }
    }

    /** Stores the side blocks of a batch, up to one that claims a canonical state. */
    method ImportSide(batch: seq<Block>, ghost n: nat) returns (attack: bool, total: Option<nat>)
      requires Valid()
      requires batch != [] && batch[0].header.parent in headers
      requires forall i | 0 <= i < |batch| :: Knows(batch[i])
      requires forall i {:trigger Successive(batch, i)} | 1 <= i < |batch| :: Successive(batch, i)
      requires n == Reach(states, headers, batch, 1)
      modifies this`headers, this`bodies, this`td
      ensures Valid() && Grown(old(headers), old(bodies), old(td))
      ensures attack <==> exists i :: 0 <= i < n && ClaimsState(old(headers), old(bodies), canon, current, batch[i])
      ensures !attack ==>
                && (forall i | 0 <= i < n :: batch[i].hash in headers)
                && (total.None? <==> forall i | 0 <= i < n :: IsCanonical(old(headers), canon, current, batch[i]))
                && (total.Some? ==> total.value == td[batch[n - 1].hash])
    {
      ghost var hs, bs, td0 := headers, bodies, td;
      var i;
      attack, total, i := ImportLoop(batch, n);
      if !attack {
        ImportedMeans(hs, bs, td0, batch, n, total);
      }
    }

    /** Takes blocks as long as they are refused for a pruned ancestor and claim no canonical state. */
    method ImportLoop(batch: seq<Block>, ghost n: nat) returns (attack: bool, total: Option<nat>, i: nat)
      requires Valid()
      requires batch != [] && batch[0].header.parent in headers
      requires forall i | 0 <= i < |batch| :: Knows(batch[i])
      requires forall i {:trigger Successive(batch, i)} | 1 <= i < |batch| :: Successive(batch, i)
      requires n == Reach(states, headers, batch, 1)
      modifies this`headers, this`bodies, this`td
      ensures Valid() && Grown(old(headers), old(bodies), old(td))
      ensures if attack then i < n && ClaimsState(old(headers), old(bodies), canon, current, batch[i])
              else i == n && Imported(old(headers), old(bodies), old(td), batch, n, total)
    {
      attack, total, i := false, None, 0;
      ghost var hs, bs, td0 := headers, bodies, td;
      NoneImported(batch);
      while i < |batch| && !attack && (i == 0 || ValidateBody(batch[i]).PrunedAncestor?)
        invariant Valid() && i <= n && Grown(hs, bs, td0)
        invariant if attack then i < n && ClaimsState(hs, bs, canon, current, batch[i]) else Imported(hs, bs, td0, batch, i, total)
        invariant !attack && 0 < i < |batch| ==> (ValidateBody(batch[i]).PrunedAncestor? <==> i < n)
        decreases |batch| - i, !attack
      {
        var next := i + 1;
        assert (i > 0 ==> Successive(batch, i)) && (next < |batch| ==> Successive(batch, next));
        ReachNext(states, hs, batch, next, n);
        attack, total := ImportStep(batch, i, next, total, hs, bs, td0);
        if !attack {
          i := next;
        }
      }
    }

    lemma NoneImported(batch: seq<Block>)
      requires Valid() && batch != [] && batch[0].header.parent in headers
      ensures Imported(headers, bodies, td, batch, 0, None)
    {
      forall k | 0 <= k <= headers[current].number ensures canon[k] in bodies {
        AncestorStored(current, k);
      }
    }

    lemma ImportedMeans(headers0: map<Hash, Header>, bodies0: map<Hash, Body>, td0: map<Hash, nat>,
                        batch: seq<Block>, n: nat, total: Option<nat>)
      requires Imported(headers0, bodies0, td0, batch, n, total)
      ensures forall i | 0 <= i < n :: batch[i].hash in headers && !ClaimsState(headers0, bodies0, canon, current, batch[i])
      ensures total.None? <==> forall i | 0 <= i < n :: IsCanonical(headers0, canon, current, batch[i])
      ensures total.Some? ==> n > 0 && batch[n - 1].hash in td && total.value == td[batch[n - 1].hash]
    {
    }

    /** Imports one block and tells whether the next one is imported too. */
    method ImportStep(batch: seq<Block>, i: nat, ghost next: nat, total: Option<nat>,
                      ghost headers0: map<Hash, Header>, ghost bodies0: map<Hash, Body>, ghost td0: map<Hash, nat>)
      returns (attack: bool, sum: Option<nat>)
      requires Valid() && i < |batch| && next == i + 1 && Imported(headers0, bodies0, td0, batch, i, total)
      requires Knows(batch[i]) && (i > 0 ==> Knows(batch[i - 1]) && Child(batch[i - 1], batch[i]))
      requires next < |batch| ==> Knows(batch[next]) && Child(batch[i], batch[next])
      modifies this`headers, this`bodies, this`td
      ensures Valid() && Grown(headers0, bodies0, td0)
      ensures if attack then ClaimsState(headers0, bodies0, canon, current, batch[i])
              else Imported(headers0, bodies0, td0, batch, next, sum)
      ensures !attack && next < |batch| ==> (ValidateBody(batch[next]).PrunedAncestor? <==> !Stops(states, headers0, batch, next))
    {
      attack, sum := ImportNext(batch, i, next, total, headers0, bodies0, td0);
      if !attack && next < |batch| {
        VerdictIs(batch, i, next, sum, headers0, bodies0, td0);
      }
    }

    /** The next block is refused by the loop exactly if it is known with its state, or its parent is. */
    lemma VerdictIs(batch: seq<Block>, i: nat, next: nat, total: Option<nat>,
                    headers0: map<Hash, Header>, bodies0: map<Hash, Body>, td0: map<Hash, nat>)
      requires StoreValid() && next == i + 1 < |batch| && Imported(headers0, bodies0, td0, batch, next, total)
      requires Knows(batch[i]) && Knows(batch[next]) && Child(batch[i], batch[next])
      ensures ValidateBody(batch[next]).PrunedAncestor? <==> !Stops(states, headers0, batch, next)
    {
      assert batch[next - 1] == batch[i] && batch[i].hash in headers;
    }

    /** The first `i` blocks are stored, and `total` is what has been accumulated. */
    ghost predicate Imported(headers0: map<Hash, Header>, bodies0: map<Hash, Body>, td0: map<Hash, nat>,
                             batch: seq<Block>, i: nat, total: Option<nat>)
      reads this
    {
      && Grown(headers0, bodies0, td0) && i <= |batch|
      && current in headers0 && current in headers
      && (forall n | 0 <= n <= headers[current].number :: n in canon && canon[n] in bodies0)
      && (i < |batch| ==> batch[i].header.parent in headers)
      && (i < |batch| ==> forall h | h in headers && h !in headers0 :: headers[h].number < batch[i].header.number)
      && (forall j | 0 <= j < i :: batch[j].hash in headers) && NoClaims(headers0, bodies0, canon, current, batch, i)
      && (total.None? <==> AllCanonical(headers0, canon, current, batch, i))
      && (total.Some? ==>
            && i > 0 && batch[i - 1].hash in td && total.value == td[batch[i - 1].hash]
            && !IsCanonical(headers0, canon, current, batch[i - 1]))
    }

    method ImportNext(batch: seq<Block>, i: nat, ghost next: nat, total: Option<nat>,
                      ghost headers0: map<Hash, Header>, ghost bodies0: map<Hash, Body>, ghost td0: map<Hash, nat>)
      returns (attack: bool, sum: Option<nat>)
      requires Valid() && i < |batch| && next == i + 1 && Imported(headers0, bodies0, td0, batch, i, total)
      requires Knows(batch[i]) && (i > 0 ==> Knows(batch[i - 1]) && Child(batch[i - 1], batch[i]))
      requires next < |batch| ==> Child(batch[i], batch[next])
      modifies this`headers, this`bodies, this`td
      ensures Valid() && Grown(headers0, bodies0, td0)
      ensures if attack then ClaimsState(headers0, bodies0, canon, current, batch[i])
              else Imported(headers0, bodies0, td0, batch, next, sum)
    {
      BeforeImport(batch, i, total, headers0, bodies0, td0);
      attack, sum := ImportSideBlock(batch[i], total);
      if !attack {
        AfterImport(batch, i, next, total, sum, headers0, bodies0, td0);
      }
    }

    lemma BeforeImport(batch: seq<Block>, i: nat, total: Option<nat>,
                       headers0: map<Hash, Header>, bodies0: map<Hash, Body>, td0: map<Hash, nat>)
      requires Valid() && i < |batch| && Imported(headers0, bodies0, td0, batch, i, total)
      requires Knows(batch[i]) && (i > 0 ==> Knows(batch[i - 1]) && Child(batch[i - 1], batch[i]))
      ensures IsCanonical(headers0, canon, current, batch[i]) == OnCanonical(batch[i])
      ensures ClaimsState(headers0, bodies0, canon, current, batch[i]) == GhostState(batch[i])
      ensures total.Some? ==> !OnCanonical(batch[i]) && total.value == td[batch[i].header.parent]
    {
      SameCanonical(headers0, bodies0, batch[i]);
      if total.Some? {
        SameCanonical(headers0, bodies0, batch[i - 1]);
        OffCanonicalStaysOff(batch[i - 1], batch[i]);
      }
    }

    lemma AfterImport(batch: seq<Block>, i: nat, next: nat, total: Option<nat>, sum: Option<nat>,
                      headers0: map<Hash, Header>, bodies0: map<Hash, Body>, td0: map<Hash, nat>)
      requires Grown(headers0, bodies0, td0) && i < |batch| && next == i + 1
      requires current in headers0 && current in headers && batch[i].hash in headers
      requires forall n | 0 <= n <= headers[current].number :: n in canon && canon[n] in bodies0
      requires next < |batch| ==> Child(batch[i], batch[next])
      requires forall h | h in headers && h !in headers0 :: headers[h].number <= batch[i].header.number
      requires (forall j | 0 <= j < i :: batch[j].hash in headers) && NoClaims(headers0, bodies0, canon, current, batch, i)
      requires !ClaimsState(headers0, bodies0, canon, current, batch[i])
      requires total.None? <==> AllCanonical(headers0, canon, current, batch, i)
      requires total.Some? ==> sum.Some?
      requires sum.None? <==> IsCanonical(headers0, canon, current, batch[i])
      requires sum.Some? ==> batch[i].hash in td && sum.value == td[batch[i].hash]
      ensures Imported(headers0, bodies0, td0, batch, next, sum)
    {
      OneMore(headers0, bodies0, canon, current, batch, i, next);
      assert batch[next - 1] == batch[i];
    }

    /** The store holds at least what it held. */
    ghost predicate Grown(headers0: map<Hash, Header>, bodies0: map<Hash, Body>, td0: map<Hash, nat>)
      reads this`headers, this`bodies, this`td
    {
      && (forall h | h in headers0 :: h in headers && headers[h] == headers0[h])
      && (forall h | h in bodies0 :: h in bodies && bodies[h] == bodies0[h])
      && (forall h | h in td0 :: h in td && td[h] == td0[h])
    }

    /** Storing side blocks changes nothing about the canonical chain. */
    lemma SameCanonical(headers0: map<Hash, Header>, bodies0: map<Hash, Body>, b: Block)
      requires current in headers0 && current in headers && headers[current] == headers0[current]
      requires forall h | h in bodies0 :: h in bodies && bodies[h] == bodies0[h]
      requires forall n | 0 <= n <= headers[current].number :: n in canon && canon[n] in bodies0
      ensures IsCanonical(headers0, canon, current, b) == OnCanonical(b)
      ensures ClaimsState(headers0, bodies0, canon, current, b) == GhostState(b)
    {
    }

    /** Skips a canonical block, refuses one that claims a canonical state, and stores any other. */
    method ImportSideBlock(b: Block, total: Option<nat>) returns (attack: bool, sum: Option<nat>)
      requires Valid() && Knows(b) && b.header.parent in headers
      requires total.Some? ==> !OnCanonical(b) && total.value == td[b.header.parent]
      modifies this`headers, this`bodies, this`td
      ensures Valid() && Grown(old(headers), old(bodies), old(td))
      ensures attack <==> old(GhostState(b))
      ensures forall h | h in headers && h !in old(headers) :: headers[h].number == b.header.number
      ensures !attack ==> b.hash in headers && (sum.None? <==> OnCanonical(b)) && (sum.Some? ==> sum.value == td[b.hash])
    {
      if OnCanonical(b) {
        CanonicalStored(b);
        return false, total;
      }
      if GhostState(b) {
        return true, total;
      }
      var next := WriteSideBlock(b, total);
      return false, Some(next);
    }

    /** Adds the block's difficulty to the running total and stores it unless it is known. */
    method WriteSideBlock(b: Block, total: Option<nat>) returns (sum: nat)
      requires Valid() && Knows(b) && b.header.parent in headers
      requires total.Some? ==> total.value == td[b.header.parent]
      modifies this`headers, this`bodies, this`td
      ensures Valid() && b.hash in headers && sum == td[b.hash]
      ensures forall h | h in headers && h !in old(headers) :: headers[h].number == b.header.number
      ensures forall h | h in old(headers) :: h in headers && headers[h] == old(headers)[h] && bodies[h] == old(bodies)[h]
      ensures forall h | h in old(td) :: h in td && td[h] == old(td)[h]
    {
      sum := (if total.None? then td[b.header.parent] else total.value) + b.header.difficulty;
      if b.hash !in headers {
        Store(b, sum);
      } else {
        assert Adds(headers, td, genesis, b.hash);
      }
    }

    /**
     The blocks to execute before `last` can be the head: its ancestors, itself first, up to but
     without the first one whose state is still there. There is none exactly if all are pruned.
     */
    method Gather(last: Hash) returns (hashes: seq<Hash>, base: Option<Hash>)
      requires StoreValid() && last in headers
      ensures |hashes| <= headers[last].number + 1
      ensures forall i | 0 <= i < |hashes| ::
                hashes[i] == At(world, genesis, last, headers[last].number - i) && !HasState(hashes[i])
      ensures if |hashes| <= headers[last].number
              then base == Some(At(world, genesis, last, headers[last].number - |hashes|)) && HasState(base.value)
              else base == None
    {
      hashes, base := [], Some(last);
      while base.Some? && !HasState(base.value)
        invariant |hashes| <= headers[last].number + 1
        invariant forall i | 0 <= i < |hashes| ::
                    hashes[i] == At(world, genesis, last, headers[last].number - i) && !HasState(hashes[i])
        invariant if |hashes| <= headers[last].number
                  then base == Some(At(world, genesis, last, headers[last].number - |hashes|)) && base.value in headers
                  else base == None
        decreases headers[last].number + 1 - |hashes|
      {
        var h := base.value;
        hashes := hashes + [h];
        if headers[h].number == 0 {
          base := None;
        } else {
          AtPred(world, genesis, last, headers[h].number);
          AtBottom(world, genesis, h);
          ParentStored(h);
          base := Some(headers[h].parent);
        }
      }
    }

    lemma CanonicalStored(b: Block)
      requires Valid() && OnCanonical(b)
      ensures b.hash in headers
    {
      AncestorStored(current, b.header.number);
    }
  }

  /** What the validation of a body says of a block with a valid header. */
  datatype Verdict = KnownBlock | UnknownParent | PrunedAncestor | Importable

  datatype Outcome =
    | GhostStateAttack  // a side block claims a state that only the canonical chain computed
    | Undefined         // nothing accumulated to compare with the head
    | Written           // side chain stored, still lighter than the head
    | Reimport          // at least as heavy as the head: execute it

  lemma Rewrite<K, V>(m: map<K, V>, low: map<K, V>, high: map<K, V>)
    requires m == low + high
    ensures m + high == low + high
  {
  }

  lemma {:induction false} BranchKeysDown(hs: map<Hash, Header>, bs: map<Hash, Body>, genesis: Hash, h: Hash, n: nat)
    requires Tree(hs, genesis) && bs.Keys == hs.Keys && h in hs && 0 < n <= hs[h].number
    ensures Branch(hs, bs, genesis, h, n - 1).Keys
         == Branch(hs, bs, genesis, h, n).Keys + TxSet(bs[At(hs, genesis, h, n)].txs)
    decreases hs[h].number
  {
    assert Linked(hs, genesis, h);
    if n < hs[h].number {
      BranchKeysDown(hs, bs, genesis, hs[h].parent, n);
    }
  }

  // ---- A batch that is canonical already ----------------------------------------------------

  /** Importing a canonical block whose own and whose parent's state were pruned leaves nothing to compare with the head. */
  method ImportPruned(chain: BlockChain, b: Block) returns (outcome: Outcome, total: Option<nat>)
    requires chain.Valid() && chain.Knows(b) && chain.OnCanonical(b) && chain.ValidateBody(b) == PrunedAncestor
    modifies chain
    ensures chain.Valid() && outcome == Undefined && total == None
  {
    ghost var n;
    outcome, total, n := chain.InsertSidechain([b]);
  }

  /** Writes a block on top of the head. */
  method Extend(chain: BlockChain, b: Block)
    requires chain.Valid() && chain.Knows(b) && b.header.parent == chain.current && b.header.difficulty > 0
    modifies chain
    ensures chain.Valid() && chain.current == b.hash && chain.states == old(chain.states) + {b.body.root}
    ensures chain.headers == old(chain.headers)[b.hash := b.header] && chain.bodies == old(chain.bodies)[b.hash := b.body]
  {
    var status := chain.WriteBlockWithState(b, false, false, false);
  }

  ghost predicate InWorld(world: map<Hash, Header>, contents: map<Hash, Body>, x: Block) {
    x.hash in world && world[x.hash] == x.header && x.hash in contents && contents[x.hash] == x.body && x.header.difficulty > 0
  }

  /** Three blocks on top of the genesis; the states of the lower two are pruned. */
  method PruneMiddle(genesis: Block, a: Block, b: Block, c: Block, ghost world: map<Hash, Header>, ghost contents: map<Hash, Body>)
    returns (chain: BlockChain)
    requires World(world, contents, genesis.hash) && InWorld(world, contents, genesis)
    requires InWorld(world, contents, a) && InWorld(world, contents, b) && InWorld(world, contents, c)
    requires Child(genesis, a) && Child(a, b) && Child(b, c) && c.body.root !in {a.body.root, b.body.root}
    ensures fresh(chain) && chain.Valid() && chain.Knows(b) && chain.OnCanonical(b) && chain.ValidateBody(b) == PrunedAncestor
  {
    chain := new BlockChain(genesis.hash, genesis.header, genesis.body, world, contents);
    Extend(chain, a);
    Extend(chain, b);
    Extend(chain, c);
    PruneTwo(chain, a, b, c);
  }

  method PruneTwo(chain: BlockChain, a: Block, b: Block, c: Block)
    requires chain.Valid() && chain.Knows(a) && chain.Knows(b) && chain.Knows(c) && chain.current == c.hash
    requires a.hash in chain.headers && b.hash in chain.headers && Child(a, b) && Child(b, c)
    requires c.body.root !in {a.body.root, b.body.root}
    modifies chain
    ensures chain.Valid() && chain.OnCanonical(b) && chain.ValidateBody(b) == PrunedAncestor
  {
    BelowHead(chain, b, c);
    chain.Prune({a.body.root, b.body.root});
  }

  lemma BelowHead(chain: BlockChain, b: Block, c: Block)
    requires chain.Valid() && chain.Knows(b) && chain.Knows(c) && Child(b, c) && chain.current == c.hash
    ensures chain.OnCanonical(b)
  {
    AtPred(chain.world, chain.genesis, c.hash, c.header.number);
  }

  method CanonicalBatch() returns (chain: BlockChain, outcome: Outcome, total: Option<nat>)
    ensures chain.Valid() && outcome == Undefined && total == None
  {
    var genesis := Block(0, Header(0, 0, 1), Body(0, []));
    var a, b, c := Block(1, Header(0, 1, 1), Body(1, [])), Block(2, Header(1, 2, 1), Body(2, [])), Block(3, Header(2, 3, 1), Body(3, []));
    ghost var world := map[0 := genesis.header, 1 := a.header, 2 := b.header, 3 := c.header];
    ghost var contents := map[0 := genesis.body, 1 := a.body, 2 := b.body, 3 := c.body];
    FourBlocks(world, contents);
    chain := PruneMiddle(genesis, a, b, c, world, contents);
    outcome, total := ImportPruned(chain, b);
  }

  lemma FourBlocks(world: map<Hash, Header>, contents: map<Hash, Body>)
    requires world == map[0 := Header(0, 0, 1), 1 := Header(0, 1, 1), 2 := Header(1, 2, 1), 3 := Header(2, 3, 1)]
    requires contents == map[0 := Body(0, []), 1 := Body(1, []), 2 := Body(2, []), 3 := Body(3, [])]
    ensures World(world, contents, 0)
  {
    assert Tree(world, 0);
  }
}
