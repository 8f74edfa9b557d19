/**
 Pooled transactions and per-account lists of them.

 Transaction hashes are taken to be injective, so a transaction stands for its own hash.
 */
module Transactions {
  import opened Prelude

  type Address = int

  /** `cost` is the value sent plus price times gas; `intrinsic` is missing when it overflows. */
  datatype Tx = Tx(
    from: Address, nonce: nat, price: nat, gas: nat, value: int, cost: int,
    size: nat, signed: bool, intrinsic: Option<nat>, payload: nat)

  /** The transactions of one account by nonce. */
  type Items = map<nat, Tx>

  predicate ByNonce(m: Items) {
    forall n | n in m :: m[n].nonce == n
  }

  predicate Holds(m: Items, tx: Tx) {
    tx.nonce in m && m[tx.nonce] == tx
  }

  lemma {:induction false} LeastExists(m: Items, n: nat)
    requires n in m
    ensures exists l :: l in m && forall k | k in m :: l <= k
    decreases n
  {
    if k :| k in m && k < n {
      LeastExists(m, k);
    }
  }

  lemma {:induction false} GreatestExists(m: Items, n: nat)
    requires n in m
    ensures exists g :: g in m && forall k | k in m :: k <= g
    decreases set k | k in m && k > n
  {
    if k :| k in m && k > n {
      var above := set x | x in m && x > n;
      assert k in above && k !in set x | x in m && x > k;
      GreatestExists(m, k);
    }
  }

  function Least(m: Items): (n: nat)
    requires m != map[]
    ensures n in m && forall k | k in m :: n <= k
  {
    var some :| some in m;
    LeastExists(m, some);
    var n :| n in m && forall k | k in m :: n <= k;
    n
  }

  function Greatest(m: Items): (n: nat)
    requires m != map[]
    ensures n in m && forall k | k in m :: k <= n
  {
    var some :| some in m;
    GreatestExists(m, some);
    var n :| n in m && forall k | k in m :: k <= n;
    n
  }

  lemma GreatestIs(m: Items, n: nat)
    requires n in m && forall k | k in m :: k <= n
    ensures Greatest(m) == n
  {
    var g := Greatest(m);
    assert g <= n && n <= g;
  }

  lemma LeastIs(m: Items, n: nat)
    requires n in m && forall k | k in m :: n <= k
    ensures Least(m) == n
  {
    var l := Least(m);
    assert l <= n && n <= l;
  }

  // ---- What the operations of a list do --------------------------------------------------------

  function Below(m: Items, t: nat): Items {
    map n | n in m && n < t :: m[n]
  }

  function From(m: Items, t: nat): Items {
    map n | n in m && n >= t :: m[n]
  }

  /** The transactions an account can no longer pay, or that no block can hold. */
  function Unpayable(m: Items, balance: int, maxGas: nat): Items {
    map n | n in m && (m[n].cost > balance || m[n].gas > maxGas) :: m[n]
  }

  function Payable(m: Items, balance: int, maxGas: nat): Items {
    map n | n in m && !(m[n].cost > balance || m[n].gas > maxGas) :: m[n]
  }

  /** What is left after dropping the unpayable; a strict list keeps no nonce above a dropped one. */
  function Filtered(m: Items, balance: int, maxGas: nat, strict: bool): Items {
    var gone := Unpayable(m, balance, maxGas);
    if strict && gone != map[] then Below(m, Least(gone)) else Payable(m, balance, maxGas)
  }

  /** The payable transactions a strict list gives up because a lower nonce was dropped. */
  function Invalidated(m: Items, balance: int, maxGas: nat, strict: bool): Items {
    var gone := Unpayable(m, balance, maxGas);
    if strict && gone != map[] then From(Payable(m, balance, maxGas), Least(gone)) else map[]
  }

  /** Filtering splits a list in three. */
  lemma FilteredParts(m: Items, balance: int, maxGas: nat, strict: bool)
    ensures var kept, gone, invalid :=
              Filtered(m, balance, maxGas, strict), Unpayable(m, balance, maxGas), Invalidated(m, balance, maxGas, strict);
            && kept + gone + invalid == m
            && kept.Keys !! gone.Keys && kept.Keys !! invalid.Keys && gone.Keys !! invalid.Keys
            && (strict ==> forall n, x | n in kept && x in gone + invalid :: n < x)
  {
    var kept, gone, invalid :=
      Filtered(m, balance, maxGas, strict), Unpayable(m, balance, maxGas), Invalidated(m, balance, maxGas, strict);
    assert forall n | n in kept :: n in m && n !in gone;
    assert kept + gone + invalid == m;
  }

  /** The lowest `k` nonces. */
  function Lowest(m: Items, k: nat): (r: Items)
    ensures forall n | n in r :: n in m && r[n] == m[n]
    ensures |r| == if |m| <= k then |m| else k
    decreases |m|
  {
    if |m| <= k then m
    else
      var g := Greatest(m);
      assert m.Keys == (m - {g}).Keys + {g};
      Lowest(m - {g}, k)
  }

  lemma {:induction false} LowestAreLow(m: Items, k: nat)
    ensures forall n, x | n in Lowest(m, k) && x in m && x !in Lowest(m, k) :: n < x
    decreases |m|
  {
    if |m| > k {
      var g := Greatest(m);
      assert m.Keys == (m - {g}).Keys + {g};
      LowestAreLow(m - {g}, k);
    }
  }

  predicate Unbroken(m: Items, lo: nat, hi: nat) {
    forall n | lo <= n <= hi :: n in m
  }

  /** The unbroken run of nonces from `n` on. */
  function Streak(m: Items, n: nat): Items {
    map k | k in m && n <= k && Unbroken(m, n, k) :: m[k]
  }

  /** What is ready to be processed when the next nonce is `start`. */
  function Ready(m: Items, start: nat): Items {
    if m == map[] || Least(m) > start then map[] else Streak(m, Least(m))
  }

  /** `tx` may take the place of `old`: dearer, and by the required percentage. */
  predicate Outbids(old_: Tx, tx: Tx, priceBump: nat) {
    old_.price < tx.price && old_.price * (100 + priceBump) / 100 <= tx.price
  }

  predicate Accepts(m: Items, tx: Tx, priceBump: nat) {
    tx.nonce in m ==> Outbids(m[tx.nonce], tx, priceBump)
  }
}
