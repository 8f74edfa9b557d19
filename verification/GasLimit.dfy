/**
 The gas limit a miner chooses for the next block, and where that choice drifts
 over a whole chain.
 */
module GasLimit {
  import opened Prelude

  const MAX_LIMIT: nat := 0x7fff_ffff_ffff_ffff  // largest gas limit a valid header may carry
  const BOUND_DIVISOR: nat := 1024
  const MIN_GAS_LIMIT: nat := 5000

  function Contribution(used: nat): nat {
    Wrap(used + used / 2) / BOUND_DIVISOR
  }

  function Decay(limit: nat): nat {
    Wrap(limit / BOUND_DIVISOR - 1)
  }

  /** The limit of the block after a parent that used `used` of its `parent` gas. */
  function CalcGasLimit(used: nat, parent: nat, floor: nat, ceil: nat): nat {
    var decay := Decay(parent);
    var raw := Wrap(Wrap(parent - decay) + Contribution(used));
    var limit := if raw < MIN_GAS_LIMIT then MIN_GAS_LIMIT else raw;
    if limit < floor then
      var up := Wrap(parent + decay);
      if up > floor then floor else up
    else if limit > ceil then
      var down := Wrap(parent - decay);
      if down < ceil then ceil else down
    else
      limit
  }

  /** What header verification demands of a child's limit. */
  predicate Acceptable(parent: nat, limit: nat) {
    && -(parent / BOUND_DIVISOR) < limit - parent < parent / BOUND_DIVISOR
    && limit >= MIN_GAS_LIMIT
  }

  /** A parent that itself passed header verification, and a sane target range. */
  predicate Sane(used: nat, parent: nat, floor: nat, ceil: nat) {
    && used <= parent
    && MIN_GAS_LIMIT <= parent <= MAX_LIMIT
    && floor <= ceil
    && MIN_GAS_LIMIT <= ceil <= MAX_LIMIT
  }

  predicate Within(limit: nat, floor: nat, ceil: nat) {
    floor <= limit <= ceil
  }

  /** How far a limit is from the target range. */
  function Distance(limit: nat, floor: nat, ceil: nat): nat {
    if limit < floor then floor - limit else if limit > ceil then limit - ceil else 0
  }

  /** The one family of parents whose child is rejected: a tiny, nearly full block. */
  predicate Overshoots(used: nat, parent: nat, floor: nat, ceil: nat) {
    parent < 5120 && used + used / 2 >= 7168 && Within(parent + 4, floor, ceil)
  }

  /** No 64-bit operation in the computation wraps around for a sane parent. */
  lemma NoWraparound(used: nat, parent: nat, floor: nat, ceil: nat)
    requires Sane(used, parent, floor, ceil)
    ensures Contribution(used) == (used + used / 2) / BOUND_DIVISOR
    ensures Decay(parent) == parent / BOUND_DIVISOR - 1
    ensures 0 <= parent - Decay(parent) < TWO_TO_THE_64
    ensures Wrap(parent - Decay(parent)) == parent - Decay(parent)
    ensures Wrap(parent - Decay(parent) + Contribution(used)) == parent - Decay(parent) + Contribution(used)
    ensures Wrap(parent + Decay(parent)) == parent + Decay(parent)
  {
    assert parent / BOUND_DIVISOR >= 4;
  }

  /** The mined limit passes verification exactly when the parent does not overshoot. */
  lemma LimitAcceptable(used: nat, parent: nat, floor: nat, ceil: nat)
    requires Sane(used, parent, floor, ceil)
    ensures Acceptable(parent, CalcGasLimit(used, parent, floor, ceil))
            <==> !Overshoots(used, parent, floor, ceil)
  {
    NoWraparound(used, parent, floor, ceil);
  }

  lemma OvershootExample()
    ensures Sane(5000, 5000, 5000, 8000000)
    ensures CalcGasLimit(5000, 5000, 5000, 8000000) == 5004
    ensures !Acceptable(5000, CalcGasLimit(5000, 5000, 5000, 8000000))
  {
    LimitAcceptable(5000, 5000, 5000, 8000000);
    NoWraparound(5000, 5000, 5000, 8000000);
  }

  /**
   One block: a limit inside the range stays inside; a limit outside moves at least
   `parent / 1024 - 1 >= 3` closer, or lands inside.
   */
  lemma StepConverges(used: nat, parent: nat, floor: nat, ceil: nat)
    requires Sane(used, parent, floor, ceil)
    ensures var next := CalcGasLimit(used, parent, floor, ceil);
            && MIN_GAS_LIMIT <= next <= MAX_LIMIT
            && (Within(parent, floor, ceil) ==> Within(next, floor, ceil))
            && (Within(next, floor, ceil)
                || Distance(next, floor, ceil) + 3 <= Distance(parent, floor, ceil))
  {
    NoWraparound(used, parent, floor, ceil);
    assert parent / BOUND_DIVISOR >= 4;
  }

  /** The limits of a chain of blocks whose successive gas usages are `usage`. */
  function Chain(parent: nat, usage: seq<nat>, floor: nat, ceil: nat): nat
    decreases |usage|
  {
    if usage == [] then parent
    else Chain(CalcGasLimit(usage[0], parent, floor, ceil), usage[1..], floor, ceil)
  }

  /** Every block of the chain used no more than its own limit. */
  predicate ValidUsage(parent: nat, usage: seq<nat>, floor: nat, ceil: nat)
    decreases |usage|
  {
    usage == []
    || (usage[0] <= parent
        && ValidUsage(CalcGasLimit(usage[0], parent, floor, ceil), usage[1..], floor, ceil))
  }

  /**
   Whatever the blocks use, the limit is inside the target range after at most a third
   of its initial distance in blocks (rounded up), and at every later block.
   */
  lemma {:induction false} ChainConverges(parent: nat, usage: seq<nat>, floor: nat, ceil: nat)
    requires Sane(0, parent, floor, ceil)
    requires ValidUsage(parent, usage, floor, ceil)
    requires 3 * |usage| >= Distance(parent, floor, ceil)
    ensures Within(Chain(parent, usage, floor, ceil), floor, ceil)
    decreases |usage|
  {
    if usage != [] {
      StepConverges(usage[0], parent, floor, ceil);
      ChainConverges(CalcGasLimit(usage[0], parent, floor, ceil), usage[1..], floor, ceil);
    }
  }
}
