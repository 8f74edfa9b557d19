/** The header chain: writing headers, walking ancestors and rewinding. */
module HeaderChain {
  import opened BlockTree
  import opened Prelude

  datatype Status = UnknownAncestor | Canonical | Side

  datatype Ancestor = Missing | Found(hash: Hash, number: nat)

  datatype Entry = Entry(hash: Hash, header: Header)

  /** Each header is the child of the one before, and no hash occurs twice. */
  predicate Contiguous(batch: seq<Entry>) {
    && (forall i | 1 <= i < |batch| ::
          && batch[i].header.number == batch[i - 1].header.number + 1
          && batch[i].header.parent == batch[i - 1].hash)
    && (forall i, j | 0 <= i < j < |batch| :: batch[i].hash != batch[j].hash)
  }

  function Entries(batch: seq<Entry>): map<Hash, Header> {
    if batch == [] then map[]
    else
      var last := batch[|batch| - 1];
      Entries(batch[..|batch| - 1])[last.hash := last.header]
  }

  lemma {:induction false} EntriesMembers(batch: seq<Entry>, h: Hash)
    requires forall i, j | 0 <= i < j < |batch| :: batch[i].hash != batch[j].hash
    ensures h in Entries(batch) ==> exists i :: 0 <= i < |batch| && batch[i].hash == h && batch[i].header == Entries(batch)[h]
    ensures forall i | 0 <= i < |batch| :: batch[i].hash in Entries(batch) && Entries(batch)[batch[i].hash] == batch[i].header
  {
    if batch != [] {
      EntriesMembers(batch[..|batch| - 1], h);
    }
  }

  /** A batch entry that fits the store still fits once the entries before it were added. */
  lemma StillFits(hs: map<Hash, Header>, genesis: Hash, batch: seq<Entry>, k: nat)
    requires k < |batch| && Contiguous(batch)
    requires forall i | 0 <= i < |batch| :: Fits(hs, genesis, batch[i].hash, batch[i].header)
    ensures Fits(hs + Entries(batch[..k]), genesis, batch[k].hash, batch[k].header)
    ensures k > 0 ==> batch[k].header.parent in Entries(batch[..k])
  {
    EntriesMembers(batch[..k], batch[k].hash);
    EntriesMembers(batch[..k], batch[k].header.parent);
    if k > 0 {
      assert batch[..k][k - 1] == batch[k - 1];
      assert batch[k].header.parent == batch[k - 1].hash;
    }
  }

  lemma EntriesStep(hs: map<Hash, Header>, batch: seq<Entry>, k: nat)
    requires k < |batch|
    ensures hs + Entries(batch[..k + 1]) == (hs + Entries(batch[..k]))[batch[k].hash := batch[k].header]
  {
    assert batch[..k + 1][..k] == batch[..k];
  }

  /** The number-to-hash map is exactly the parent chain of `head`. */
  ghost predicate CanonicalChain(hs: map<Hash, Header>, genesis: Hash, canon: map<nat, Hash>, head: Hash)
    requires Tree(hs, genesis) && head in hs
  {
    && (forall n :: n in canon <==> 0 <= n <= hs[head].number)
    && (forall n | 0 <= n <= hs[head].number :: canon[n] == At(hs, genesis, head, n))
  }

  /**
   How many ancestors of `h`, starting with `h` itself, must be passed before one of them
   is on the canonical chain.
   */
  ghost function ToCanonical(hs: map<Hash, Header>, genesis: Hash, canon: map<nat, Hash>, h: Hash): (d: nat)
    requires Tree(hs, genesis) && h in hs
    ensures d <= hs[h].number
    decreases hs[h].number
  {
    if h == genesis || (hs[h].number in canon && canon[hs[h].number] == h) then 0
    else
      assert Linked(hs, genesis, h);
      1 + ToCanonical(hs, genesis, canon, hs[h].parent)
  }

  /** The numbers above `n` and below the block's own point to its ancestors; those up to `n` are as before. */
  ghost predicate Rewritten(hs: map<Hash, Header>, genesis: Hash, hash: Hash, before: map<nat, Hash>, canon: map<nat, Hash>, n: nat)
    requires Tree(hs, genesis) && hash in hs
  {
    && (forall k :: k in canon ==> 0 <= k <= hs[hash].number)
    && (forall k | 0 <= k <= n :: k in canon <==> k in before)
    && (forall k | 0 <= k <= n && k in canon :: canon[k] == before[k])
    && (forall k | n < k < hs[hash].number :: k in canon && canon[k] == At(hs, genesis, hash, k))
    && (forall k | n < k < hs[hash].number :: k !in before || canon[k] != before[k])
  }

  lemma RewrittenNext(hs: map<Hash, Header>, genesis: Hash, hash: Hash, before: map<nat, Hash>, canon: map<nat, Hash>, n: nat, below: nat)
    requires Tree(hs, genesis) && hash in hs && Rewritten(hs, genesis, hash, before, canon, n)
    requires n == below + 1 && n < hs[hash].number && (n !in canon || canon[n] != At(hs, genesis, hash, n))
    ensures Rewritten(hs, genesis, hash, before, canon[n := At(hs, genesis, hash, n)], below)
  {
  }

  function Min(a: nat, b: nat): nat {
    if a < b then a else b
  }

  class HeaderChain {
    const genesis: Hash
    var headers: map<Hash, Header>
    var td: map<Hash, nat>
    var canon: map<nat, Hash>
    var current: Hash

    ghost predicate Valid()
      reads this
    {
      && Tree(headers, genesis)
      && Weighted(headers, td, genesis)
      && current in headers
      && CanonicalChain(headers, genesis, canon, current)
    }

    /** No stored header has more total difficulty than the head. */
    ghost predicate Heaviest()
      reads this
    {
      current in td && forall h | h in td :: td[h] <= td[current]
    }

    constructor (genesis: Hash, header: Header)
      requires header.number == 0
      ensures Valid() && Heaviest() && current == genesis && this.genesis == genesis
      ensures headers == map[genesis := header] && td == map[genesis := header.difficulty]
    {
      this.genesis := genesis;
      headers := map[genesis := header];
      td := map[genesis := header.difficulty];
      canon := map[0 := genesis];
      current := genesis;
    }

    /**
     Writes a header whose parent is known; `coin` decides ties of total difficulty.
     `fork` is where the rewriting of the canonical numbering stopped: the highest block
     below the new head that the old and the new canonical chain share.
     */
    method WriteHeader(hash: Hash, header: Header, coin: bool) returns (status: Status, ghost fork: nat)
      requires Valid()
      requires Fits(headers, genesis, hash, header)
      modifies this
      ensures Valid() && (old(Heaviest()) ==> Heaviest())
      ensures header.parent !in old(headers) ==>
                status == UnknownAncestor && headers == old(headers) && td == old(td)
                && canon == old(canon) && current == old(current)
      ensures header.parent in old(headers) ==>
                && headers == old(headers)[hash := header]
                && td == old(td)[hash := old(td)[header.parent] + header.difficulty]
                && (var wins := td[hash] > old(td)[old(current)] || (td[hash] == old(td)[old(current)] && coin);
                    if wins then status == Canonical && current == hash
                    else status == Side && current == old(current) && canon == old(canon))
      ensures status == Canonical ==>
                && fork < header.number && fork in old(canon) && canon[fork] == old(canon)[fork]
                && forall n | fork < n < header.number :: n !in old(canon) || canon[n] != old(canon)[n]
    {
      fork := 0;
      if header.parent !in td {
        assert header.parent !in headers;
        return UnknownAncestor, 0;
      }
      assert header.parent in headers;
      var localTd := td[current];
      var externTd := header.difficulty + td[header.parent];

      InsertKeepsTree(headers, td, genesis, hash, header);
      assert hash in headers ==> Adds(headers, td, genesis, hash);
      td := td[hash := externTd];
      headers := headers[hash := header];

      if externTd > localTd || (externTd == localTd && coin) {
        fork := Adopt(hash, header);
        status := Canonical;
      } else {
        status := Side;
      }
    }

    /** One header of a batch: skipped when known, refused when its parent is not. */
    method InsertHeader(e: Entry, coin: bool) returns (stored: bool)
      requires Valid() && Fits(headers, genesis, e.hash, e.header)
      modifies this
      ensures Valid() && (old(Heaviest()) ==> Heaviest())
      ensures stored <==> e.hash in old(headers) || e.header.parent in old(headers)
      ensures stored ==> headers == old(headers)[e.hash := e.header]
      ensures !stored ==> headers == old(headers) && canon == old(canon) && current == old(current)
      ensures forall h | h in old(td) :: h in td && td[h] == old(td)[h]
      ensures td[current] >= old(td[current])
    {
      if e.hash in headers {
        assert headers[e.hash := e.header] == headers;
        return true;
      }
      var status, fork := WriteHeader(e.hash, e.header, coin);
      return status != UnknownAncestor;
    }

    /**
     Imports a batch of linked headers, skipping known ones; `coins[i]` decides a tie at the
     `i`-th. The batch is stored whole or, when its first parent is unknown, not at all.
     */
    method InsertHeaderChain(batch: seq<Entry>, coins: seq<bool>) returns (failed: Option<nat>)
      requires Valid() && |coins| == |batch|
      requires Contiguous(batch)
      requires forall i | 0 <= i < |batch| :: Fits(headers, genesis, batch[i].hash, batch[i].header)
      requires batch != [] && batch[0].hash in headers ==> batch[0].header.parent in headers
      modifies this
      ensures Valid() && (old(Heaviest()) ==> Heaviest())
      ensures failed == None <==> batch == [] || batch[0].header.parent in old(headers)
      ensures failed.Some? ==> failed.value == 0 && headers == old(headers) && canon == old(canon) && current == old(current)
      ensures failed == None ==>
                && headers == old(headers) + Entries(batch)
                && forall h | h in old(td) :: h in td && td[h] == old(td)[h]
      ensures td[current] >= old(td[current])
    {
      for i := 0 to |batch|
        invariant Valid() && (old(Heaviest()) ==> Heaviest())
        invariant headers == old(headers) + Entries(batch[..i])
        invariant forall h | h in old(td) :: h in td && td[h] == old(td)[h]
        invariant td[current] >= old(td[current])
        invariant i > 0 ==> batch[0].header.parent in old(headers)
        invariant i > 0 ==> batch[i - 1].hash in headers
        invariant i == 0 ==> canon == old(canon) && current == old(current)
      {
        StillFits(old(headers), genesis, batch, i);
        var stored := InsertHeader(batch[i], coins[i]);
        if !stored {
          return Some(i);
        }
        EntriesStep(old(headers), batch, i);
      }
      assert batch[..|batch|] == batch;
      return None;
    }

    /** Makes a stored header the new head and re-routes the canonical numbering to it. */
    method Adopt(hash: Hash, header: Header) returns (ghost fork: nat)
      requires Tree(headers, genesis) && hash in headers && headers[hash] == header
      requires hash != genesis && current in headers
      requires CanonicalChain(headers, genesis, canon, current)
      modifies this`canon, this`current
      ensures current == hash && CanonicalChain(headers, genesis, canon, hash)
      ensures fork < header.number && fork in old(canon) && canon[fork] == old(canon)[fork]
      ensures forall n | fork < n < header.number :: n !in old(canon) || canon[n] != old(canon)[n]
    {
      DropAbove(header.number);
      fork := Reroute(hash, header);
      canon := canon[header.number := hash];
      current := hash;
    }

    /** Deletes the canonical numbers above `number`, up to the first missing one. */
    method DropAbove(number: nat)
      requires Tree(headers, genesis) && current in headers
      requires CanonicalChain(headers, genesis, canon, current)
      modifies this`canon
      ensures forall n :: n in canon <==> 0 <= n <= headers[current].number && n <= number
      ensures forall n :: n in canon ==> canon[n] == old(canon)[n]
    {
      var batch: set<nat> := {};
      var i := number + 1;
      while i in canon
        invariant number < i
        invariant forall n :: n in batch <==> number < n < i
        invariant forall n | number < n < i :: n in canon
        decreases headers[current].number + 1 - i
      {
        batch := batch + {i};
        i := i + 1;
      }
      canon := canon - batch;
    }

    /** Overwrites stale canonical numbers below `header` down to the first that is right. */
    method Reroute(hash: Hash, header: Header) returns (ghost fork: nat)
      requires Tree(headers, genesis) && hash in headers && headers[hash] == header
      requires hash != genesis && current in headers
      requires forall n :: n in canon <==> 0 <= n <= headers[current].number && n <= header.number
      requires forall n :: n in canon ==> canon[n] == At(headers, genesis, current, n)
      modifies this`canon
      ensures forall n :: n in canon ==> 0 <= n <= header.number
      ensures forall n | 0 <= n < header.number :: n in canon && canon[n] == At(headers, genesis, hash, n)
      ensures fork < header.number && fork in old(canon) && canon[fork] == old(canon)[fork]
      ensures forall n | fork < n < header.number :: n !in old(canon) || canon[n] != old(canon)[n]
    {
      ghost var before := canon;
      fork := OverwriteStale(hash, header);
      forall n | 0 <= n <= fork ensures n in canon && canon[n] == At(headers, genesis, hash, n) {
        assert n in canon <==> n in before;
        MeetAgree(headers, genesis, hash, current, fork, n);
      }
    }

    /** Walks from the parent of `header` down to a number that already points to the right hash. */
    method OverwriteStale(hash: Hash, header: Header) returns (ghost fork: nat)
      requires Tree(headers, genesis) && hash in headers && headers[hash] == header
      requires hash != genesis && current in headers
      requires forall n :: n in canon <==> 0 <= n <= headers[current].number && n <= header.number
      requires forall n :: n in canon ==> canon[n] == At(headers, genesis, current, n)
      modifies this`canon
      ensures fork < header.number && fork in canon && canon[fork] == At(headers, genesis, hash, fork)
      ensures forall n :: n in canon ==> 0 <= n <= header.number
      ensures forall n | 0 <= n <= fork :: n in canon <==> n in old(canon)
      ensures forall n | 0 <= n <= fork && n in canon :: canon[n] == old(canon)[n]
      ensures forall n | fork < n < header.number :: n in canon && canon[n] == At(headers, genesis, hash, n)
      ensures forall n | fork < n < header.number :: n !in old(canon) || canon[n] != old(canon)[n]
    {
      assert Linked(headers, genesis, hash);
      AtPred(headers, genesis, hash, header.number);
      AtBottom(headers, genesis, hash);
      AtBottom(headers, genesis, current);
      ghost var before := canon;
      var headHash := header.parent;
      var headNumber := header.number - 1;
      while headNumber !in canon || canon[headNumber] != headHash
        invariant 0 <= headNumber < header.number
        invariant headHash == At(headers, genesis, hash, headNumber)
        invariant Rewritten(headers, genesis, hash, before, canon, headNumber)
        decreases headNumber
      {
        assert headNumber > 0;
        AtPred(headers, genesis, hash, headNumber);
        RewrittenNext(headers, genesis, hash, before, canon, headNumber, headNumber - 1);
        canon := canon[headNumber := headHash];
        headHash := headers[headHash].parent;
        headNumber := headNumber - 1;
      }
      fork := headNumber;
    }

    /**
     The ancestor `ancestor` generations above `hash`, taking the canonical shortcut as soon
     as the walk meets the canonical chain and giving up after `budget` other blocks.
     */
    method GetAncestor(hash: Hash, number: nat, ancestor: nat, budget: nat) returns (r: Ancestor, left: nat)
      requires Valid()
      requires hash in headers ==> headers[hash].number == number
      ensures hash in headers && r.Found? ==>
                ancestor <= number && r.hash == Up(headers, genesis, hash, ancestor) && r.number == number - ancestor
      ensures hash in headers ==>
                (r.Missing? <==> ancestor > number
                                 || (ancestor > 1 && budget < Min(ancestor, ToCanonical(headers, genesis, canon, hash))))
      ensures hash in headers && r.Found? && ancestor != 1 ==>
                left == budget - Min(ancestor, ToCanonical(headers, genesis, canon, hash))
      ensures hash !in headers ==> (r.Found? <==> ancestor == 0) && (r.Found? ==> r == Found(hash, number))
    {
      left := budget;
      if ancestor > number {
        return Missing, left;
      }
      if ancestor == 1 {
        if hash in headers {
          assert Linked(headers, genesis, hash);
          return Found(headers[hash].parent, number - 1), left;
        } else {
          return Missing, left;
        }
      }
      r, left := Walk(hash, number, ancestor, budget);
    }

    /** Walks parent links until it meets the canonical chain, is there, or has passed `budget` blocks. */
    method Walk(hash: Hash, number: nat, ancestor: nat, budget: nat) returns (r: Ancestor, left: nat)
      requires Valid() && ancestor <= number && (hash in headers ==> headers[hash].number == number)
      ensures hash in headers && r.Found? ==> r == Found(Up(headers, genesis, hash, ancestor), number - ancestor)
      ensures hash in headers ==> (r.Missing? <==> budget < Min(ancestor, ToCanonical(headers, genesis, canon, hash)))
      ensures hash in headers && r.Found? ==> left == budget - Min(ancestor, ToCanonical(headers, genesis, canon, hash))
      ensures hash !in headers ==> (r.Found? <==> ancestor == 0) && (r.Found? ==> r == Found(hash, number))
    {
      left := budget;
      AtBottom(headers, genesis, current);
      var h, n, k := hash, number, ancestor;
      while k != 0
        invariant 0 <= k <= ancestor && n == number - (ancestor - k)
        invariant hash !in headers ==> h == hash && k == ancestor && left == budget
        invariant hash in headers ==> h == Up(headers, genesis, hash, ancestor - k)
        invariant hash in headers ==>
                    var d := ToCanonical(headers, genesis, canon, hash);
                    && ancestor - k <= d && d - (ancestor - k) == ToCanonical(headers, genesis, canon, h)
                    && left == budget - (ancestor - k)
        decreases k
      {
        if n in canon && canon[n] == h {
          assert hash in headers;
          AtAt(headers, genesis, current, n, n - k);
          UpUp(headers, genesis, hash, ancestor - k, k);
          return Found(canon[n - k], n - k), left;
        }
        if left == 0 {
          return Missing, left;
        }
        left := left - 1;
        k := k - 1;
        if h !in headers {
          return Missing, left;
        }
        assert Linked(headers, genesis, h);
        UpUp(headers, genesis, hash, ancestor - k - 1, 1);
        assert Up(headers, genesis, headers[h].parent, 0) == headers[h].parent;
        h := headers[h].parent;
        n := n - 1;
      }
      return Found(h, n), left;
    }

    /**
     Rewinds to block `head`: the canonical headers above it are deleted. The header tree
     stays parent-closed, and the chain valid, exactly when no side branch forks off above.
     */
    method SetHead(head: nat)
      requires Valid()
      modifies this
      ensures old(headers[current].number) <= head ==>
                headers == old(headers) && td == old(td) && canon == old(canon) && current == old(current)
      ensures old(headers[current].number) > head ==>
                && current == old(canon[head])
                && canon == (map n | n in old(canon) && n <= head :: old(canon)[n])
                && headers == old(headers) - Above(old(canon), head)
                && td == old(td) - Above(old(canon), head)
      ensures Valid() <==> !ForksAbove(old(headers), genesis, old(canon), head)
      ensures old(headers[current].number) > head ==>
                (Heaviest() <==> LightSides(old(headers), old(td), old(canon), old(canon)[head]))
    {
      var hdr, batch := CollectAbove(head);
      var numbers := NumbersAbove(head, headers[current].number);
      RewindIsValid(headers, td, genesis, canon, current, head);
      RewindParts(headers, td, genesis, canon, current, head, numbers);
      if head < headers[current].number {
        RewindHeaviest(headers, td, genesis, canon, current, head);
      }
      Rewind(hdr, batch, numbers);
    }

    /** Deletes the collected headers and numbers. */
    method Rewind(hdr: Hash, batch: set<Hash>, numbers: set<nat>)
      modifies this
      ensures current == hdr && headers == old(headers) - batch && td == old(td) - batch && canon == old(canon) - numbers
    {
      current := hdr;
      headers := headers - batch;
      td := td - batch;
      canon := canon - numbers;
    }

    /** Walks down to `head`, collecting the headers to delete. */
    method CollectAbove(head: nat) returns (hdr: Hash, batch: set<Hash>)
      requires Valid()
      ensures batch == Above(canon, Min(head, headers[current].number))
      ensures hdr == (if headers[current].number <= head then current else canon[head])
    {
      var height := headers[current].number;
      batch := {};
      hdr := current;
      while headers[hdr].number > head
        invariant hdr in headers && headers[hdr].number <= height
        invariant hdr == At(headers, genesis, current, headers[hdr].number)
        invariant headers[hdr].number >= Min(head, height)
        invariant batch == Above(canon, headers[hdr].number)
        decreases headers[hdr].number
      {
        var num := headers[hdr].number;
        AtPred(headers, genesis, current, num);
        assert Linked(headers, genesis, hdr);
        assert Above(canon, num - 1) == Above(canon, num) + {canon[num]};
        batch := batch + {hdr};
        hdr := headers[hdr].parent;
      }
    }
  }

  method NumbersAbove(head: nat, height: nat) returns (numbers: set<nat>)
    ensures forall n :: n in numbers <==> head < n <= height
  {
    numbers := {};
    var i := height;
    while i > head
      invariant Min(head, height) <= i <= height
      invariant forall n :: n in numbers <==> i < n <= height
    {
      numbers := numbers + {i};
      i := i - 1;
    }
  }

  /** The canonical hashes with numbers above `head`. */
  ghost function Above(canon: map<nat, Hash>, head: nat): set<Hash> {
    set n | n in canon && n > head :: canon[n]
  }

  /** A side header hangs off a canonical one above `head`. */
  ghost predicate ForkAbove(hs: map<Hash, Header>, canon: map<nat, Hash>, head: nat, h: Hash)
    requires h in hs
  {
    h !in canon.Values && hs[h].parent in Above(canon, head)
  }

  ghost predicate ForksAbove(hs: map<Hash, Header>, genesis: Hash, canon: map<nat, Hash>, head: nat) {
    exists h :: h in hs && h != genesis && ForkAbove(hs, canon, head, h)
  }

  lemma AboveMembers(hs: map<Hash, Header>, genesis: Hash, canon: map<nat, Hash>, current: Hash, head: nat, h: Hash)
    requires Tree(hs, genesis) && current in hs && CanonicalChain(hs, genesis, canon, current)
    ensures h in Above(canon, head) <==>
              h in hs && head < hs[h].number <= hs[current].number && canon[hs[h].number] == h
    ensures h in canon.Values <==> h in hs && hs[h].number in canon && canon[hs[h].number] == h
  {
    if h in canon.Values {
      var n :| n in canon && canon[n] == h;
      assert n == hs[h].number;
    }
  }

  /** With no fork above `head`, what remains after the rewind is still parent-closed. */
  lemma RewindKeepsTree(hs: map<Hash, Header>, td: map<Hash, nat>, genesis: Hash,
                        canon: map<nat, Hash>, current: Hash, head: nat)
    requires Tree(hs, genesis) && Weighted(hs, td, genesis) && current in hs
    requires CanonicalChain(hs, genesis, canon, current)
    requires !ForksAbove(hs, genesis, canon, head)
    ensures Tree(hs - Above(canon, head), genesis)
    ensures Weighted(hs - Above(canon, head), td - Above(canon, head), genesis)
  {
    var gone := Above(canon, head);
    AboveMembers(hs, genesis, canon, current, head, genesis);
    forall h | h in hs - gone
      ensures Linked(hs - gone, genesis, h) && Adds(hs - gone, td - gone, genesis, h)
    {
      assert Linked(hs, genesis, h) && Adds(hs, td, genesis, h);
      if h != genesis {
        AboveMembers(hs, genesis, canon, current, head, h);
        AboveMembers(hs, genesis, canon, current, head, hs[h].parent);
        assert !ForkAbove(hs, canon, head, h);
      }
    }
  }

  lemma RewindKeepsChain(hs: map<Hash, Header>, genesis: Hash, canon: map<nat, Hash>, current: Hash, head: nat)
    requires Tree(hs, genesis) && current in hs && CanonicalChain(hs, genesis, canon, current)
    requires Tree(hs - Above(canon, head), genesis)
    ensures var current' := canon[Min(head, hs[current].number)];
            && current' in hs - Above(canon, head)
            && CanonicalChain(hs - Above(canon, head), genesis, map n | n in canon && n <= head :: canon[n], current')
  {
    var hs' := hs - Above(canon, head);
    var current' := canon[Min(head, hs[current].number)];
    AboveMembers(hs, genesis, canon, current, head, current');
    AtExtends(hs', hs, genesis, current');
    forall n | 0 <= n <= hs[current'].number ensures canon[n] == At(hs', genesis, current', n) {
      AtAt(hs, genesis, current, hs[current'].number, n);
    }
  }

  /** Removing the canonical headers above `head` leaves a valid chain iff nothing forked off them. */
  lemma RewindParts(hs: map<Hash, Header>, td: map<Hash, nat>, genesis: Hash, canon: map<nat, Hash>, current: Hash,
                    head: nat, numbers: set<nat>)
    requires Tree(hs, genesis) && current in hs && CanonicalChain(hs, genesis, canon, current)
    requires forall n :: n in numbers <==> head < n <= hs[current].number
    ensures Above(canon, Min(head, hs[current].number)) == Above(canon, head)
    ensures canon - numbers == (map n | n in canon && n <= head :: canon[n])
    ensures hs[current].number <= head ==>
              && Above(canon, head) == {} && hs - Above(canon, head) == hs && td - Above(canon, head) == td
              && canon - numbers == canon && canon[hs[current].number] == current
  {
    assert forall n | n in canon :: n <= hs[current].number;
  }

  lemma RewindIsValid(hs: map<Hash, Header>, td: map<Hash, nat>, genesis: Hash,
                      canon: map<nat, Hash>, current: Hash, head: nat)
    requires Tree(hs, genesis) && Weighted(hs, td, genesis) && current in hs
    requires CanonicalChain(hs, genesis, canon, current)
    ensures var hs' := hs - Above(canon, head);
            var canon' := map n | n in canon && n <= head :: canon[n];
            var current' := canon[Min(head, hs[current].number)];
            (Tree(hs', genesis) && Weighted(hs', td - Above(canon, head), genesis) && current' in hs'
             && CanonicalChain(hs', genesis, canon', current'))
            <==> !ForksAbove(hs, genesis, canon, head)
  {
    if h :| h in hs && h != genesis && ForkAbove(hs, canon, head, h) {
      AboveMembers(hs, genesis, canon, current, head, h);
      var hs' := hs - Above(canon, head);
      assert h in hs' && !Linked(hs', genesis, h);
    } else {
      RewindKeepsTree(hs, td, genesis, canon, current, head);
      RewindKeepsChain(hs, genesis, canon, current, head);
    }
  }

  /** No header off the canonical chain has more total difficulty than `head`. */
  ghost predicate LightSides(hs: map<Hash, Header>, td: map<Hash, nat>, canon: map<nat, Hash>, head: Hash)
    requires td.Keys == hs.Keys && head in td
  {
    forall h | h in hs && h !in canon.Values :: td[h] <= td[head]
  }

  /** Total difficulty grows along a chain. */
  lemma {:induction false} AncestorsLighter(hs: map<Hash, Header>, td: map<Hash, nat>, genesis: Hash, h: Hash, n: nat)
    requires Tree(hs, genesis) && Weighted(hs, td, genesis) && h in hs && n <= hs[h].number
    ensures td[At(hs, genesis, h, n)] <= td[h]
    decreases hs[h].number
  {
    if n < hs[h].number {
      assert Linked(hs, genesis, h) && Adds(hs, td, genesis, h);
      AncestorsLighter(hs, td, genesis, hs[h].parent, n);
    }
  }

  /** After a rewind the head is the heaviest header left iff no side header is heavier. */
  lemma RewindHeaviest(hs: map<Hash, Header>, td: map<Hash, nat>, genesis: Hash,
                       canon: map<nat, Hash>, current: Hash, head: nat)
    requires Tree(hs, genesis) && Weighted(hs, td, genesis) && current in hs
    requires CanonicalChain(hs, genesis, canon, current) && head < hs[current].number
    ensures var left := td - Above(canon, head);
            (canon[head] in left && forall h | h in left :: left[h] <= left[canon[head]]) <==> LightSides(hs, td, canon, canon[head])
  {
    var left := td - Above(canon, head);
    forall h ensures h in left <==> h in hs && (h !in canon.Values || hs[h].number <= head) {
      AboveMembers(hs, genesis, canon, current, head, h);
    }
    forall h | h in left && h in canon.Values ensures td[h] <= td[canon[head]] {
      AboveMembers(hs, genesis, canon, current, head, h);
      AtAt(hs, genesis, current, head, hs[h].number);
      AncestorsLighter(hs, td, genesis, canon[head], hs[h].number);
    }
  }

  // ---- A rewind that breaks the chain -------------------------------------------------------

  /** Rewinding a chain with a side header above the target leaves an orphan behind. */
  method OrphanAfterRewind() returns (chain: HeaderChain)
    ensures !chain.Valid() && !chain.Heaviest()
  {
    chain := new HeaderChain(0, Header(0, 0, 1));
    var status, fork := chain.WriteHeader(1, Header(0, 1, 1), false);
    status, fork := chain.WriteHeader(2, Header(1, 2, 1), false);
    status, fork := chain.WriteHeader(3, Header(1, 2, 1), false);
    OrphanIsFork(chain.headers, chain.td, chain.canon);
    chain.SetHead(0);
  }

  lemma OrphanIsFork(hs: map<Hash, Header>, td: map<Hash, nat>, canon: map<nat, Hash>)
    requires hs == map[0 := Header(0, 0, 1), 1 := Header(0, 1, 1), 2 := Header(1, 2, 1), 3 := Header(1, 2, 1)]
    requires Tree(hs, 0) && Weighted(hs, td, 0) && CanonicalChain(hs, 0, canon, 2)
    ensures ForksAbove(hs, 0, canon, 0) && canon[0] == 0 && !LightSides(hs, td, canon, 0)
  {
    AboveMembers(hs, 0, canon, 2, 0, 3);
    AboveMembers(hs, 0, canon, 2, 0, 1);
    AtPred(hs, 0, 2, 2);
    AtBottom(hs, 0, 2);
    assert Adds(hs, td, 0, 3) && Adds(hs, td, 0, 1);
    assert ForkAbove(hs, canon, 0, 3);
  }
}
