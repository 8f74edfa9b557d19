/** The tree of known headers: parent links, ancestors and total difficulty. */
module BlockTree {

  type Hash = nat

  datatype Header = Header(parent: Hash, number: nat, difficulty: nat)

  /** The header's parent is in the store, one number below. */
  ghost predicate Linked(hs: map<Hash, Header>, genesis: Hash, h: Hash)
    requires h in hs
  {
    h == genesis || (hs[h].parent in hs && hs[h].number == hs[hs[h].parent].number + 1)
  }

  /** Every header but the genesis is linked to its parent. */
  ghost predicate Tree(hs: map<Hash, Header>, genesis: Hash) {
    && genesis in hs
    && hs[genesis].number == 0
    && forall h {:trigger Linked(hs, genesis, h)} | h in hs :: Linked(hs, genesis, h)
  }

  /** The `k`-th ancestor, found by walking parent links. */
  ghost function Up(hs: map<Hash, Header>, genesis: Hash, h: Hash, k: nat): (r: Hash)
    requires Tree(hs, genesis) && h in hs && k <= hs[h].number
    ensures r in hs && hs[r].number == hs[h].number - k
    decreases k
  {
    if k == 0 then h
    else
      assert Linked(hs, genesis, h);
      Up(hs, genesis, hs[h].parent, k - 1)
  }

  /** The ancestor with number `n`. */
  ghost function At(hs: map<Hash, Header>, genesis: Hash, h: Hash, n: nat): (r: Hash)
    requires Tree(hs, genesis) && h in hs && n <= hs[h].number
    ensures r in hs && hs[r].number == n
  {
    Up(hs, genesis, h, hs[h].number - n)
  }

  lemma {:induction false} UpUp(hs: map<Hash, Header>, genesis: Hash, h: Hash, i: nat, j: nat)
    requires Tree(hs, genesis) && h in hs && i + j <= hs[h].number
    ensures Up(hs, genesis, Up(hs, genesis, h, i), j) == Up(hs, genesis, h, i + j)
    decreases i
  {
    if i > 0 {
      assert Linked(hs, genesis, h);
      UpUp(hs, genesis, hs[h].parent, i - 1, j);
    }
  }

  /** Ancestors of an ancestor are ancestors. */
  lemma AtAt(hs: map<Hash, Header>, genesis: Hash, h: Hash, n: nat, m: nat)
    requires Tree(hs, genesis) && h in hs && m <= n <= hs[h].number
    ensures At(hs, genesis, At(hs, genesis, h, n), m) == At(hs, genesis, h, m)
  {
    UpUp(hs, genesis, h, hs[h].number - n, n - m);
  }

  /** One step further up is one parent link. */
  lemma AtPred(hs: map<Hash, Header>, genesis: Hash, h: Hash, n: nat)
    requires Tree(hs, genesis) && h in hs && 0 < n <= hs[h].number
    ensures hs[At(hs, genesis, h, n)].parent == At(hs, genesis, h, n - 1)
  {
    UpUp(hs, genesis, h, hs[h].number - n, 1);
    var a := At(hs, genesis, h, n);
    assert Linked(hs, genesis, a);
    assert Up(hs, genesis, a, 1) == Up(hs, genesis, hs[a].parent, 0);
  }

  lemma AtBottom(hs: map<Hash, Header>, genesis: Hash, h: Hash)
    requires Tree(hs, genesis) && h in hs
    ensures At(hs, genesis, h, 0) == genesis
  {
    assert Linked(hs, genesis, At(hs, genesis, h, 0));
  }

  /** Two chains that meet at some number agree below it. */
  lemma MeetAgree(hs: map<Hash, Header>, genesis: Hash, a: Hash, b: Hash, n: nat, m: nat)
    requires Tree(hs, genesis) && a in hs && b in hs
    requires m <= n <= hs[a].number && n <= hs[b].number
    requires At(hs, genesis, a, n) == At(hs, genesis, b, n)
    ensures At(hs, genesis, a, m) == At(hs, genesis, b, m)
  {
    AtAt(hs, genesis, a, n, m);
    AtAt(hs, genesis, b, n, m);
  }

  /** A larger store has the same ancestors for the headers already there. */
  lemma {:induction false} UpExtends(hs: map<Hash, Header>, hs': map<Hash, Header>, genesis: Hash, h: Hash, k: nat)
    requires Tree(hs, genesis) && Tree(hs', genesis)
    requires forall x | x in hs :: x in hs' && hs'[x] == hs[x]
    requires h in hs && k <= hs[h].number
    ensures Up(hs', genesis, h, k) == Up(hs, genesis, h, k)
    decreases k
  {
    if k > 0 {
      assert Linked(hs, genesis, h);
      UpExtends(hs, hs', genesis, hs[h].parent, k - 1);
    }
  }

  lemma AtExtends(hs: map<Hash, Header>, hs': map<Hash, Header>, genesis: Hash, h: Hash)
    requires Tree(hs, genesis) && Tree(hs', genesis)
    requires forall x | x in hs :: x in hs' && hs'[x] == hs[x]
    requires h in hs
    ensures forall n | 0 <= n <= hs[h].number :: At(hs', genesis, h, n) == At(hs, genesis, h, n)
  {
    forall n | 0 <= n <= hs[h].number ensures At(hs', genesis, h, n) == At(hs, genesis, h, n) {
      UpExtends(hs, hs', genesis, h, hs[h].number - n);
    }
  }

  /** The header's total difficulty is its parent's plus its own difficulty. */
  ghost predicate Adds(hs: map<Hash, Header>, td: map<Hash, nat>, genesis: Hash, h: Hash)
    requires h in hs && h in td
  {
    h == genesis || (hs[h].parent in td && td[h] == td[hs[h].parent] + hs[h].difficulty)
  }

  /** Total difficulty obeys the recurrence of the block tree everywhere. */
  ghost predicate Weighted(hs: map<Hash, Header>, td: map<Hash, nat>, genesis: Hash) {
    && td.Keys == hs.Keys
    && forall h {:trigger Adds(hs, td, genesis, h)} | h in hs :: Adds(hs, td, genesis, h)
  }

  /** A header is the child of its stored parent, and a hash names one header only. */
  predicate Fits(hs: map<Hash, Header>, genesis: Hash, hash: Hash, header: Header) {
    && hash != genesis
    && (header.parent in hs ==> header.number == hs[header.parent].number + 1)
    && (hash in hs ==> hs[hash] == header)
  }

  /** Writing a fitting header whose parent is known keeps the tree and its weights. */
  lemma InsertKeepsTree(hs: map<Hash, Header>, td: map<Hash, nat>, genesis: Hash, hash: Hash, header: Header)
    requires Tree(hs, genesis) && Weighted(hs, td, genesis)
    requires Fits(hs, genesis, hash, header) && header.parent in hs
    ensures Tree(hs[hash := header], genesis)
    ensures Weighted(hs[hash := header], td[hash := td[header.parent] + header.difficulty], genesis)
    ensures forall h, n | h in hs && 0 <= n <= hs[h].number ::
              At(hs[hash := header], genesis, h, n) == At(hs, genesis, h, n)
  {
    var hs' := hs[hash := header];
    var td' := td[hash := td[header.parent] + header.difficulty];
    forall h | h in hs' ensures Linked(hs', genesis, h) && Adds(hs', td', genesis, h) {
      assert header.parent != hash;
      if h in hs {
        assert Linked(hs, genesis, h) && Adds(hs, td, genesis, h);
        assert hash in hs ==> Linked(hs, genesis, hash) && Adds(hs, td, genesis, hash);
      }
    }
    forall h | h in hs ensures forall n | 0 <= n <= hs[h].number :: At(hs', genesis, h, n) == At(hs, genesis, h, n) {
      AtExtends(hs, hs', genesis, h);
    }
  }
}
