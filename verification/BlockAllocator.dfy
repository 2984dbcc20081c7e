/** The PMFS block allocator (drivers/nvm-ref/pmfs/balloc.c): an in-use list of
    block intervals that refines a plain set of used blocks. */
module BlockAllocator {
  import opened Wrappers
  import opened BlockSizes
  import opened Words
  import opened IntervalList

  // ------------------------------------------------------- the allocator itself

  /** The part of the super block the allocator owns.  `nodes` is the linked list
      block_inuse_head in list order; a pointer to a node is its position. */
  class SuperBlock {
    const blockStart: nat
    const blockEnd: nat
    var nodes: seq<Interval>
    var numFreeBlocks: nat
    var numBlocknodeAllocated: nat

    ghost function UsedBlocks(): set<nat>
      reads this
    {
      Used(nodes, blockEnd)
    }

    ghost predicate Valid()
      reads this
    {
      && blockEnd <= MAX_BLOCKS
      && Canonical(nodes, blockStart, blockEnd)
      && numFreeBlocks + |UsedBlocks()| == blockEnd - blockStart
      && numBlocknodeAllocated == |nodes|
    }

    /** pmfs_init (super.c) followed by pmfs_init_blockmap: the first blocks hold the
        super block, the inode table and the journal, which are never empty and
        which pmfs_check_size makes fit the device. */
    constructor (blockStart: nat, blockEnd: nat, initUsedSize: nat, blocksizeBits: nat)
      requires blockEnd <= MAX_BLOCKS
      requires 0 < initUsedSize <= (blockEnd - blockStart) * Pow2(blocksizeBits)
      ensures Valid() && this.blockStart == blockStart && this.blockEnd == blockEnd
      ensures exists n: nat ::
        && n > 0 && (n - 1) * Pow2(blocksizeBits) < initUsedSize <= n * Pow2(blocksizeBits)
        && UsedBlocks() == Run(blockStart, n)
    {
      var blocksize := Pow2(blocksizeBits);
      var numUsed := (initUsedSize + blocksize - 1) / blocksize;
      CeilingDivision(initUsedSize, blocksize, blockEnd - blockStart);
      this.blockStart, this.blockEnd := blockStart, blockEnd;
      nodes := [Interval(blockStart, blockStart + numUsed - 1)];
      numFreeBlocks := blockEnd - blockStart - numUsed;
      numBlocknodeAllocated := 1;
      new;
      forall b ensures b in UsedBlocks() <==> b in Run(blockStart, numUsed) {
        OneOrTwoCover(nodes, 0, 1, b);
        assert nodes[0..1] == nodes;
      }
      assert UsedBlocks() == Run(blockStart, numUsed);
    }

    /** pmfs_next_blocknode. */
    function NextNode(i: nat): Option<nat>
      reads this
    {
      if i + 1 < |nodes| then Some(i + 1) else None
    }

    /** The four cases in the loop body of __pmfs_free_block, for the node at position i. */
    method FreeInNode(i: nat, newLow: nat, newHigh: nat, nodeAvailable: bool)
      returns (found: bool, freed: bool, next: Option<nat>)
      requires i < |nodes| && numBlocknodeAllocated == |nodes| && newLow <= newHigh
      modifies this
      ensures found <==> Within(newLow, newHigh, old(nodes)[i])
      ensures freed <==> found && (nodeAvailable || old(nodes)[i].low == newLow || newHigh == old(nodes)[i].high)
      ensures nodes == if freed then Splice(old(nodes), i, i + 1, Pieces(old(nodes)[i], newLow, newHigh + 1 - newLow))
                       else old(nodes)
      ensures numFreeBlocks == old(numFreeBlocks) + if freed then newHigh + 1 - newLow else 0
      ensures numBlocknodeAllocated == |nodes|
      ensures freed ==> next == NextAfter(nodes, if newLow == old(nodes)[i].low then i else i + 1)
    {
      var node := nodes[i];
      found, freed, next := true, true, None;
      if newLow == node.low && newHigh == node.high {
        // fits the entire node: the next node moves to position i
        next := if NextNode(i).Some? then Some(i) else None;
        nodes := nodes[..i] + nodes[i + 1..];
        numBlocknodeAllocated := numBlocknodeAllocated - 1;
      } else if newLow == node.low && newHigh < node.high {
        // aligns left
        nodes := nodes[i := node.(low := newHigh + 1)];
        next := Some(i);
      } else if newLow > node.low && newHigh == node.high {
        // aligns right
        nodes := nodes[i := node.(high := newLow - 1)];
        next := NextNode(i);
      } else if newLow > node.low && newHigh < node.high {
        // aligns somewhere in the middle
        if nodeAvailable {
          var curr := Interval(newHigh + 1, node.high);
          numBlocknodeAllocated := numBlocknodeAllocated + 1;
          nodes := nodes[..i] + [node.(high := newLow - 1)] + [curr] + nodes[i + 1..];
          next := Some(i + 1);
        } else {
          freed := false;
        }
      } else {
        found, freed := false, false;
      }
      numFreeBlocks := numFreeBlocks + if freed then newHigh + 1 - newLow else 0;
    }

    /** list_for_each_entry_from: tries the nodes from position `first` on.  `k` is the
        position of the node that holds the run, or the length of the list. */
    method FreeFrom(first: nat, newLow: nat, newHigh: nat, nodeAvailable: bool)
      returns (freed: bool, next: Option<nat>, ghost k: nat)
      requires first <= |nodes| && numBlocknodeAllocated == |nodes|
      requires newLow <= newHigh || forall m :: 0 <= m < |nodes| ==> nodes[m].high < newLow
      modifies this
      ensures k <= |old(nodes)|
      ensures k < |old(nodes)| ==> Within(newLow, newHigh, old(nodes)[k])
      ensures k == |old(nodes)| ==> forall m :: first <= m < k ==> !Within(newLow, newHigh, old(nodes)[m])
      ensures freed <==>
          k < |old(nodes)| && (nodeAvailable || old(nodes)[k].low == newLow || newHigh == old(nodes)[k].high)
      ensures nodes == if freed then Splice(old(nodes), k, k + 1, Pieces(old(nodes)[k], newLow, newHigh + 1 - newLow))
                       else old(nodes)
      ensures numFreeBlocks == old(numFreeBlocks) + if freed then newHigh + 1 - newLow else 0
      ensures numBlocknodeAllocated == |nodes|
      ensures freed ==> next == NextAfter(nodes, if newLow == old(nodes)[k].low then k else k + 1)
    {
      freed, next, k := false, None, |nodes|;
      var i := first;
      while i < |nodes|
        invariant first <= i <= |nodes| && nodes == old(nodes) && !freed && k == |nodes|
        invariant forall m :: first <= m < i ==> !Within(newLow, newHigh, nodes[m])
        invariant numFreeBlocks == old(numFreeBlocks) && numBlocknodeAllocated == |nodes|
      {
        if newLow > nodes[i].high {
          i := i + 1;
          continue;
        }
        var found;
        found, freed, next := FreeInNode(i, newLow, newHigh, nodeAvailable);
        if found {
          k := i;
          return;
        }
        i := i + 1;
      }
    }

    /** blocknr + num_blocks - 1 in 64-bit arithmetic. */
    method LastBlock(blocknr: nat, n: nat) returns (high: nat)
      requires blocknr < ULONG && 0 < n < ULONG
      ensures if blocknr + n <= ULONG then high == blocknr + n - 1 else high < blocknr
    {
      high := (blocknr + n - 1) % ULONG;
    }

    /** The walk of __pmfs_free_block and what it does to list and counter. */
    method FreeRun(blocknr: nat, bt: BlockType, useHint: bool, startHint: Option<nat>, nodeAvailable: bool)
      returns (freed: bool, hint: Option<nat>)
      requires Valid() && blocknr < ULONG && IsNode(startHint)
      modifies this
      ensures Valid() && IsNode(hint)
      ensures UsedBlocks() == if freed then old(UsedBlocks()) - Run(blocknr, NumBlocks(bt)) else old(UsedBlocks())
      ensures freed <==> CanFree(old(UsedBlocks()), blocknr, NumBlocks(bt), nodeAvailable)
      ensures numFreeBlocks == old(numFreeBlocks) + if freed then NumBlocks(bt) else 0
      ensures !freed ==> nodes == old(nodes) && hint == startHint
      ensures freed && useHint ==> FirstNodeAbove(nodes, blocknr, hint)
    {
      var n := NumBlocks(bt);
      ghost var s := nodes;
      var first := 0;
      if useHint && startHint.Some? && blocknr >= nodes[startHint.value].low {
        first := startHint.value;
      }
      var newHigh := LastBlock(blocknr, n);
      var next;
      ghost var k;
      freed, next, k := FreeFrom(first, blocknr, newHigh, nodeAvailable);
      FreeOutcome(s, nodes, first, k, freed, next, blocknr, n, newHigh, blockStart, blockEnd, nodeAvailable);
      hint := if !freed then startHint else if useHint then next else None;
    }

    /** __pmfs_free_block.  `useHint` says whether a hint pointer was passed, `startHint` what
        it points to, `nodeAvailable` whether a node can be allocated. */
    method FreeBlock(blocknr: nat, bt: BlockType, useHint: bool, startHint: Option<nat>, nodeAvailable: bool)
      returns (freed: bool, hint: Option<nat>)
      requires Valid() && blocknr < ULONG
      requires nodes != []  // BUG_ON(list_empty(head))
      requires IsNode(startHint)
      modifies this
      ensures Valid() && IsNode(hint)
      ensures UsedBlocks() == if freed then old(UsedBlocks()) - Run(blocknr, NumBlocks(bt)) else old(UsedBlocks())
      ensures freed <==> CanFree(old(UsedBlocks()), blocknr, NumBlocks(bt), nodeAvailable)
      ensures !freed ==> nodes == old(nodes) && hint == startHint && numFreeBlocks == old(numFreeBlocks)
      ensures freed ==>
        IsRunApart(UsedBlocks(), old(UsedBlocks()), numFreeBlocks - old(numFreeBlocks), blocknr, RunBytes(bt))
      ensures freed && useHint ==> FirstNodeAbove(nodes, blocknr, hint)
    {
      ghost var used := UsedBlocks();
      freed, hint := FreeRun(blocknr, bt, useHint, startHint, nodeAvailable);
      if freed { FreedIsApart(used, blocknr, bt, nodeAvailable); }
    }

    /** A hint is NULL or a node of the list. */
    predicate IsNode(hint: Option<nat>)
      reads this
    {
      hint.Some? ==> hint.value < |nodes|
    }

    /** (block_high + num_blocks) & ~(num_blocks - 1) in 64-bit arithmetic. */
    method AlignedBase(high: nat, bt: BlockType) returns (low: nat)
      requires high < MAX_BLOCKS
      ensures NextAligned(high, NumBlocks(bt), low)
    {
      low := AlignAfter(high, NumBlocks(bt));
      AlignAfterIsNext(high, bt);
    }

    /** Takes [newLow, newHigh], which lies in the gap behind the node at position i. */
    method TakeInGap(i: nat, newLow: nat, newHigh: nat, nodeAvailable: bool) returns (found: bool)
      requires i < |nodes| == numBlocknodeAllocated && newLow <= newHigh
      requires nodes[i].high < newLow && newHigh < GapEnd(nodes, i, blockEnd)
      modifies this`nodes, this`numBlocknodeAllocated
      ensures numBlocknodeAllocated == |nodes|
      ensures found <==> (nodeAvailable || TouchesLeft(old(nodes), i, newLow)
                          || TouchesRight(old(nodes), i, newLow, newHigh + 1 - newLow))
      ensures nodes == if found then AllocUpdate(old(nodes), i, newLow, newHigh + 1 - newLow) else old(nodes)
    {
      var node, nextLow, isLast := nodes[i], GapEnd(nodes, i, blockEnd), i + 1 == |nodes|;
      found := true;
      if newLow == node.high + 1 && newHigh == nextLow - 1 {
        // fills the gap completely
        if !isLast {
          nodes := nodes[..i] + [node.(high := nodes[i + 1].high)] + nodes[i + 2..];
          numBlocknodeAllocated := numBlocknodeAllocated - 1;
        } else {
          nodes := nodes[i := node.(high := newHigh)];
        }
      } else if newLow == node.high + 1 && newHigh < nextLow - 1 {
        // aligns to left
        nodes := nodes[i := node.(high := newHigh)];
      } else if newLow > node.high + 1 && newHigh == nextLow - 1 && !isLast {
        // aligns to right, right node exists
        nodes := nodes[i + 1 := nodes[i + 1].(low := newLow)];
      } else if nodeAvailable {
        // aligns to right without a right node, or somewhere in the middle
        numBlocknodeAllocated := numBlocknodeAllocated + 1;
        nodes := nodes[..i + 1] + [Interval(newLow, newHigh)] + nodes[i + 1..];
      } else {
        found := false;
      }
    }

    /** The loop of pmfs_new_block.  `k` is the node behind which the run starts, or the length of the list. */
    method NewFrom(bt: BlockType, nodeAvailable: bool)
      returns (found: bool, base: nat, ghost k: nat)
      requires blockEnd <= MAX_BLOCKS && Canonical(nodes, blockStart, blockEnd) && numBlocknodeAllocated == |nodes|
      modifies this`nodes, this`numBlocknodeAllocated
      ensures numBlocknodeAllocated == |nodes| && k <= |old(nodes)|
      ensures forall m :: 0 <= m < k ==> NoRoom(old(nodes), m, blockEnd, NumBlocks(bt))
      ensures k < |old(nodes)| ==>
        NextAligned(old(nodes)[k].high, NumBlocks(bt), base) && base + NumBlocks(bt) <= GapEnd(old(nodes), k, blockEnd)
      ensures found <==>
          && k < |old(nodes)|
          && (nodeAvailable || TouchesLeft(old(nodes), k, base) || TouchesRight(old(nodes), k, base, NumBlocks(bt)))
      ensures nodes == if found then AllocUpdate(old(nodes), k, base, NumBlocks(bt)) else old(nodes)
    {
      var n := NumBlocks(bt);
      found, base, k := false, 0, |nodes|;
      var i := 0;
      while i < |nodes|
        invariant 0 <= i <= |nodes| == numBlocknodeAllocated && nodes == old(nodes) && !found && k == |nodes|
        invariant forall m :: 0 <= m < i ==> NoRoom(nodes, m, blockEnd, n)
      {
        var nextLow := GapEnd(nodes, i, blockEnd);
        var newLow := AlignedBase(nodes[i].high, bt);
        var newHigh := newLow + n - 1;
        if newHigh >= nextLow {
          // does not fit
          i := i + 1;
          continue;
        }
        k, base := i, newLow;
        found := TakeInGap(i, newLow, newHigh, nodeAvailable);
        return;
      }
    }

    /** The walk of pmfs_new_block and what it does to list and counter. */
    method NewRun(bt: BlockType, nodeAvailable: bool) returns (r: Option<nat>)
      requires Valid()
      modifies this
      ensures Valid()
      ensures r.Some? ==> CanAllocate(old(nodes), blockStart, blockEnd, NumBlocks(bt), nodeAvailable, r.value)
      ensures r.Some? ==> UsedBlocks() == old(UsedBlocks()) + Run(r.value, NumBlocks(bt))
      ensures numFreeBlocks == old(numFreeBlocks) - if r.Some? then NumBlocks(bt) else 0
      ensures r.None? ==> nodes == old(nodes)
      ensures r.None? ==> forall b :: !CanAllocate(nodes, blockStart, blockEnd, NumBlocks(bt), nodeAvailable, b)
    {
      ghost var s := nodes;
      var found, base;
      ghost var k;
      found, base, k := NewFrom(bt, nodeAvailable);
      AllocOutcome(s, nodes, k, found, base, blockStart, blockEnd, NumBlocks(bt), nodeAvailable);
      if found {
        numFreeBlocks := numFreeBlocks - NumBlocks(bt);
        r := Some(base);
      } else {
        r := None;
      }
    }

    /** pmfs_new_block: the base of the run, or None for -ENOSPC. */
    method NewBlock(bt: BlockType, nodeAvailable: bool) returns (r: Option<nat>)
      requires Valid()
      modifies this
      ensures Valid()
      ensures r.Some? ==> CanAllocate(old(nodes), blockStart, blockEnd, NumBlocks(bt), nodeAvailable, r.value)
      ensures r.Some? ==> UsedBlocks() == old(UsedBlocks()) + Run(r.value, NumBlocks(bt))
      ensures r.None? ==> nodes == old(nodes) && numFreeBlocks == old(numFreeBlocks)
      ensures r.None? ==> forall b :: !CanAllocate(nodes, blockStart, blockEnd, NumBlocks(bt), nodeAvailable, b)
      ensures nodeAvailable && r.None? ==>
        (SomeFit(UsedBlocks(), blockStart, blockEnd, NumBlocks(bt)) <==>
          !NoRoomInFront(nodes, blockStart, blockEnd, NumBlocks(bt)))
      ensures r.Some? && NoRoomInFront(old(nodes), blockStart, blockEnd, NumBlocks(bt)) ==>
        LeastFit(old(UsedBlocks()), blockStart, blockEnd, NumBlocks(bt), r.value)
      ensures r.Some? ==> r.value * BLOCK_BYTES % RunBytes(bt) == 0
      ensures r.Some? ==>
        IsRunApart(old(UsedBlocks()), UsedBlocks(), old(numFreeBlocks) - numFreeBlocks, r.value, RunBytes(bt))
    {
      ghost var s := nodes;
      r := NewRun(bt, nodeAvailable);
      if r.Some? {
        FirstFitIsGlobal(s, blockStart, blockEnd, NumBlocks(bt), r.value);
        GrantIsApart(s, blockStart, blockEnd, r.value, bt, nodeAvailable);
      } else if nodeAvailable {
        RefusalMeans(s, blockStart, blockEnd, NumBlocks(bt));
      }
    }

    /** A chain of frees under one lock, as inode truncation issues them; with useHint each
        call gets the hint the previous one left.  Nothing happens after the BUG at an empty list. */
    method FreeAll(reqs: seq<FreeRequest>, useHint: bool) returns (results: seq<bool>)
      requires Valid() && forall r :: r in reqs ==> r.blocknr < ULONG
      modifies this
      ensures Valid()
      ensures (UsedBlocks(), results) == FreeEach(old(UsedBlocks()), reqs)
    {
      results := [];
      var hint: Option<nat> := None;
      ghost var used := UsedBlocks();
      for k := 0 to |reqs|
        invariant Valid() && IsNode(hint)
        invariant (UsedBlocks(), results) == FreeEach(used, reqs[..k])
      {
        assert reqs[..k + 1][..k] == reqs[..k];
        NonEmptyIff(nodes, blockStart, blockEnd);
        if nodes != [] {
          var r, freed := reqs[k], false;
          freed, hint := FreeBlock(r.blocknr, r.bt, useHint, hint, r.nodeAvailable);
          results := results + [freed];
        }
      }
      assert reqs[..|reqs|] == reqs;
    }

    method ServeOne(req: Request, live: seq<(nat, BlockType)>, ghost used: set<nat>)
      returns (live': seq<(nat, BlockType)>)
      requires Valid() && Separate(live, used) && UsedBlocks() == used + Owned(live)
      modifies this
      ensures Valid() && Separate(live', used) && UsedBlocks() == used + Owned(live')
      ensures Answers(req, used + Owned(live), blockStart, blockEnd, live, live')
    {
      match req
      case Allocate(bt, nodeAvailable) =>
        live' := ServeAllocate(bt, nodeAvailable, live, used);
      case Release(i, nodeAvailable) =>
        if i < |live| {
          live' := ServeRelease(i, nodeAvailable, live, used);
        } else {
          live' := live;
        }
    }

    method ServeAllocate(bt: BlockType, nodeAvailable: bool, live: seq<(nat, BlockType)>, ghost used: set<nat>)
      returns (live': seq<(nat, BlockType)>)
      requires Valid() && Separate(live, used) && UsedBlocks() == used + Owned(live)
      modifies this
      ensures Valid() && Separate(live', used) && UsedBlocks() == used + Owned(live')
      ensures Answers(Allocate(bt, nodeAvailable), used + Owned(live), blockStart, blockEnd, live, live')
    {
      ghost var o, n, s := Owned(live), NumBlocks(bt), nodes;
      forall b {
        GrantsIsCanAllocate(s, blockStart, blockEnd, n, nodeAvailable, b);
      }
      var r := NewBlock(bt, nodeAvailable);
      if r.None? {
        return live;
      }
      var m := (r.value, bt);
      live' := live + [m];
      assert RunOf(m) !! used + o;
      OwnedAdd(live, m, used);
      AddRun(used, o, RunOf(m));
    }

    method ServeRelease(i: nat, nodeAvailable: bool, live: seq<(nat, BlockType)>, ghost used: set<nat>)
      returns (live': seq<(nat, BlockType)>)
      requires Valid() && Separate(live, used) && UsedBlocks() == used + Owned(live) && i < |live|
      modifies this
      ensures Valid() && Separate(live', used) && UsedBlocks() == used + Owned(live')
      ensures Answers(Release(i, nodeAvailable), used + Owned(live), blockStart, blockEnd, live, live')
    {
      Releasable(live, i, used);
      NonEmptyIff(nodes, blockStart, blockEnd);
      var freed, _ := FreeBlock(live[i].0, live[i].1, false, None, nodeAvailable);
      live' := Remaining(live, i, freed);
    }

    /** Serves allocations and releases of what was allocated, each as the used set at its time demands.
        The live runs never overlap each other or what was used before, and once all are released the
        list is the old one. */
    method Serve(reqs: seq<Request>) returns (live: seq<(nat, BlockType)>, ghost trace: seq<seq<(nat, BlockType)>>)
      requires Valid()
      modifies this
      ensures Follows(trace, reqs, old(UsedBlocks()), blockStart, blockEnd) && trace[|reqs|] == live
      ensures Valid() && Separate(live, old(UsedBlocks()))
      ensures UsedBlocks() == old(UsedBlocks()) + Owned(live)
      ensures live == [] ==> nodes == old(nodes) && numFreeBlocks == old(numFreeBlocks)
    {
      live, trace := [], [[]];
      ghost var used, s := UsedBlocks(), nodes;
      for k := 0 to |reqs|
        invariant Valid() && Separate(live, used) && UsedBlocks() == used + Owned(live)
        invariant Follows(trace, reqs[..k], used, blockStart, blockEnd) && trace[k] == live
      {
        live := ServeOne(reqs[k], live, used);
        TraceGrows(trace, reqs, k, used, blockStart, blockEnd, live);
        trace := trace + [live];
      }
      assert reqs[..|reqs|] == reqs;
      if live == [] {
        CanonicalIsUnique(s, nodes, blockStart, blockEnd);
      }
    }
  }

  /** The larger set has the blocks of that many bytes from a base on, which the smaller one has none of,
      and no other block more; the count differs by as much. */
  ghost predicate IsRunApart(less: set<nat>, more: set<nat>, count: int, base: nat, bytes: nat) {
    && (forall b :: b in more <==> b in less || (base <= b && (b - base) * BLOCK_BYTES < bytes))
    && (forall b :: b in less ==> !(base <= b && (b - base) * BLOCK_BYTES < bytes))
    && (|more| - |less|) * BLOCK_BYTES == bytes && count * BLOCK_BYTES == bytes
  }

  lemma RunApart(less: set<nat>, more: set<nat>, base: nat, bt: BlockType)
    requires more == less + Run(base, NumBlocks(bt)) && less !! Run(base, NumBlocks(bt))
    ensures IsRunApart(less, more, NumBlocks(bt), base, RunBytes(bt))
  {
    RunsHaveTheirBytes(bt, base);
    assert |more| == |less| + NumBlocks(bt);
    forall b ensures b in Run(base, NumBlocks(bt)) <==> base <= b && (b - base) * BLOCK_BYTES < RunBytes(bt) {
    }
  }

  lemma GrantIsApart(s: seq<Interval>, start: nat, end: nat, base: nat, bt: BlockType, avail: bool)
    requires Canonical(s, start, end) && CanAllocate(s, start, end, NumBlocks(bt), avail, base)
    ensures base * BLOCK_BYTES % RunBytes(bt) == 0
    ensures IsRunApart(Used(s, end), Used(s, end) + Run(base, NumBlocks(bt)), NumBlocks(bt), base, RunBytes(bt))
  {
    RunsHaveTheirBytes(bt, base);
    RunApart(Used(s, end), Used(s, end) + Run(base, NumBlocks(bt)), base, bt);
  }

  lemma FreedIsApart(used: set<nat>, base: nat, bt: BlockType, avail: bool)
    requires CanFree(used, base, NumBlocks(bt), avail)
    ensures IsRunApart(used - Run(base, NumBlocks(bt)), used, NumBlocks(bt), base, RunBytes(bt))
  {
    var less := used - Run(base, NumBlocks(bt));
    assert used == less + Run(base, NumBlocks(bt));
    RunApart(less, used, base, bt);
  }

  // ---------------------------------------------------------- runs of requests

  datatype FreeRequest = FreeRequest(blocknr: nat, bt: BlockType, nodeAvailable: bool)

  /** What a chain of frees does to the used set, and which of them succeed, up to the BUG. */
  ghost function FreeEach(used: set<nat>, reqs: seq<FreeRequest>): (set<nat>, seq<bool>) {
    if reqs == [] then (used, []) else
      var (now, results) := FreeEach(used, reqs[..|reqs| - 1]);
      if now == {} then (now, results) else
        var r := reqs[|reqs| - 1];
        var freed := CanFree(now, r.blocknr, NumBlocks(r.bt), r.nodeAvailable);
        (if freed then now - Run(r.blocknr, NumBlocks(r.bt)) else now, results + [freed])
  }

  /** Threading the hint through a chain of frees changes neither the list, nor the counter, nor any result. */
  method HintedFreesAgree(a: SuperBlock, b: SuperBlock, reqs: seq<FreeRequest>) returns (ra: seq<bool>, rb: seq<bool>)
    requires a != b && a.Valid() && b.Valid() && a.nodes == b.nodes
    requires a.blockStart == b.blockStart && a.blockEnd == b.blockEnd
    requires forall r :: r in reqs ==> r.blocknr < ULONG
    modifies a, b
    ensures ra == rb && a.nodes == b.nodes && a.numFreeBlocks == b.numFreeBlocks
  {
    ra := a.FreeAll(reqs, true);
    rb := b.FreeAll(reqs, false);
    CanonicalIsUnique(a.nodes, b.nodes, a.blockStart, a.blockEnd);
  }

  /** The run has used blocks on both sides, so that freeing it cuts an interval in two. */
  ghost predicate NeedsTwoPieces(used: set<nat>, base: nat, n: nat) {
    base - 1 in used && base + n in used
  }

  lemma FreeUndoesAllocation(used: set<nat>, base: nat, n: nat, avail: bool)
    requires n > 0 && Run(base, n) !! used
    ensures used + Run(base, n) - Run(base, n) == used
    ensures base in Run(base, n)
    ensures CanFree(used + Run(base, n), base, n, avail) <==> avail || !NeedsTwoPieces(used, base, n)
  {
  }

  /** Frees a run that was the last to be allocated in the list `before`. */
  method FreeLatest(sb: SuperBlock, base: nat, bt: BlockType, nodeAvailable: bool, ghost before: seq<Interval>)
    returns (freed: bool)
    requires sb.Valid() && Canonical(before, sb.blockStart, sb.blockEnd)
    requires Run(base, NumBlocks(bt)) !! Used(before, sb.blockEnd)
    requires sb.UsedBlocks() == Used(before, sb.blockEnd) + Run(base, NumBlocks(bt))
    modifies sb
    ensures sb.Valid()
    ensures freed <==> nodeAvailable || !NeedsTwoPieces(Used(before, sb.blockEnd), base, NumBlocks(bt))
    ensures freed ==> sb.nodes == before
  {
    FreeUndoesAllocation(Used(before, sb.blockEnd), base, NumBlocks(bt), nodeAvailable);
    NonEmptyIff(sb.nodes, sb.blockStart, sb.blockEnd);
    assert base in sb.UsedBlocks();
    var hint;
    freed, hint := sb.FreeBlock(base, bt, false, None, nodeAvailable);
    if freed {
      CanonicalIsUnique(before, sb.nodes, sb.blockStart, sb.blockEnd);
    }
  }

  /** An allocation undone by freeing its block leaves the identical list and counter. */
  method AllocateThenFree(sb: SuperBlock, bt: BlockType, nodeForNew: bool, nodeForFree: bool)
    returns (r: Option<nat>, freed: bool)
    requires sb.Valid()
    modifies sb
    ensures sb.Valid()
    ensures r.None? ==> sb.nodes == old(sb.nodes)
    ensures r.Some? ==>
      (freed <==> nodeForFree || !NeedsTwoPieces(old(sb.UsedBlocks()), r.value, NumBlocks(bt)))
    ensures r.Some? && freed ==> sb.nodes == old(sb.nodes) && sb.numFreeBlocks == old(sb.numFreeBlocks)
  {
    ghost var s := sb.nodes;
    freed := false;
    r := sb.NewBlock(bt, nodeForNew);
    if r.Some? {
      freed := FreeLatest(sb, r.value, bt, nodeForFree, s);
    }
  }

  // ---------------------------------------- runs in which first fit goes wrong

  /** A fresh region of one used block. */
  method OneBlockUsed(end: nat) returns (sb: SuperBlock)
    requires 0 < end <= MAX_BLOCKS
    ensures fresh(sb) && sb.Valid() && sb.blockStart == 0 && sb.blockEnd == end && sb.UsedBlocks() == Run(0, 1)
  {
    assert Pow2(0) == 1;
    sb := new SuperBlock(0, end, 1, 0);
  }

  /** Free the one used block of a region, and the next allocation is refused although all blocks are free. */
  method FreedRegionRefuses(end: nat) returns (sb: SuperBlock, r: Option<nat>)
    requires 0 < end <= MAX_BLOCKS
    ensures fresh(sb) && sb.Valid() && sb.blockStart == 0 && sb.blockEnd == end
    ensures sb.UsedBlocks() == {} && r.None? && SomeFit(sb.UsedBlocks(), 0, end, 1)
  {
    sb := OneBlockUsed(end);
    NonEmptyIff(sb.nodes, 0, end);
    assert 0 in sb.UsedBlocks();
    var freed, _ := sb.FreeBlock(0, Block4K, false, None, true);
    assert sb.UsedBlocks() == {};
    NonEmptyIff(sb.nodes, 0, end);
    assert Fits(sb.UsedBlocks(), 0, end, 1, 0);
    r := sb.NewBlock(Block4K, true);
  }

  /** With one block used an allocation of one gets the next. */
  lemma NextBlockIsGranted(s: seq<Interval>, f: nat, end: nat)
    requires Canonical(s, 0, end) && Used(s, end) == Run(f, 1) && f + 1 < end
    ensures forall b :: CanAllocate(s, 0, end, 1, true, b) <==> b == f + 1
  {
    NonEmptyIff(s, 0, end);
    assert f in Used(s, end);
    HeadIsLeast(s, 0, end);
    assert IsLeast(Used(s, end), f);
    assert Fits(Run(f, 1), 0, end, 1, f + 1);
  }

  method TakeNext(sb: SuperBlock, f: nat) returns (r: Option<nat>)
    requires sb.Valid() && sb.blockStart == 0 && sb.UsedBlocks() == Run(f, 1) && f + 1 < sb.blockEnd
    modifies sb
    ensures sb.Valid() && r == Some(f + 1) && sb.UsedBlocks() == Run(f, 1) + Run(f + 1, 1)
  {
    NextBlockIsGranted(sb.nodes, f, sb.blockEnd);
    assert CanAllocate(sb.nodes, 0, sb.blockEnd, NumBlocks(Block4K), true, f + 1);
    r := sb.NewBlock(Block4K, true);
  }

  /** Allocate a block behind the one used block and free that one: the next allocation passes over it. */
  method FreedFrontIsMissed(end: nat) returns (sb: SuperBlock, r: Option<nat>)
    requires 3 <= end <= MAX_BLOCKS
    ensures fresh(sb) && sb.Valid() && sb.blockStart == 0 && sb.blockEnd == end
    ensures r == Some(2) && 0 !in sb.UsedBlocks() && Fits(sb.UsedBlocks(), 0, end, 1, 0)
  {
    sb := OneBlockUsed(end);
    r := TakeNext(sb, 0);
    NonEmptyIff(sb.nodes, 0, end);
    assert 0 in sb.UsedBlocks();
    var freed, _ := sb.FreeBlock(0, Block4K, false, None, true);
    assert sb.UsedBlocks() == Run(1, 1);
    r := TakeNext(sb, 1);
  }

  datatype Request = Allocate(bt: BlockType, nodeAvailable: bool) | Release(index: nat, nodeAvailable: bool)

  function RunOf(a: (nat, BlockType)): set<nat> {
    Run(a.0, NumBlocks(a.1))
  }

  ghost function Owned(live: seq<(nat, BlockType)>): set<nat> {
    if live == [] then {} else RunOf(live[0]) + Owned(live[1..])
  }

  /** An allocation appends the run the used set grants, a release takes its run out, and either leaves
      the live runs alone exactly when it cannot. */
  ghost predicate Answers(req: Request, used: set<nat>, start: nat, end: nat,
                          live: seq<(nat, BlockType)>, live': seq<(nat, BlockType)>) {
    match req
    case Allocate(bt, avail) =>
      if live' == live then forall b :: !Grants(used, start, end, NumBlocks(bt), avail, b)
      else
        && |live'| == |live| + 1 && live'[..|live|] == live && live'[|live|].1 == bt
        && Grants(used, start, end, NumBlocks(bt), avail, live'[|live|].0)
    case Release(i, avail) =>
      live' == if i < |live| then Remaining(live, i, CanFree(used, live[i].0, NumBlocks(live[i].1), avail)) else live
  }

  /** The live runs once release i was tried. */
  function Remaining(live: seq<(nat, BlockType)>, i: nat, freed: bool): seq<(nat, BlockType)>
    requires i < |live|
  {
    if freed then live[..i] + live[i + 1..] else live
  }

  ghost predicate Follows(trace: seq<seq<(nat, BlockType)>>, reqs: seq<Request>, used: set<nat>, start: nat, end: nat) {
    && |trace| == |reqs| + 1 && trace[0] == []
    && forall k :: 0 <= k < |reqs| ==> Answers(reqs[k], used + Owned(trace[k]), start, end, trace[k], trace[k + 1])
  }

  /** Where the first block of the region is in use, what is granted is the least fit of the whole region. */
  lemma GrantsIsLeastFit(used: set<nat>, start: nat, end: nat, n: nat, b: nat)
    requires n > 0 && IsLeast(used, start)
    ensures Grants(used, start, end, n, true, b) <==> LeastFit(used, start, end, n, b)
  {
    forall c | Fits(used, start, end, n, c) ensures start < c {
      assert start == c ==> start in Run(c, n);
    }
    if LeastFit(used, start, end, n, b) {
      assert LeastFitAbove(used, start, start, end, n, b);
    }
    if Grants(used, start, end, n, true, b) {
      var f :| IsLeast(used, f) && LeastFitAbove(used, f, start, end, n, b);
      assert f == start;
    }
  }

  ghost predicate NoneBelow(blocks: set<nat>, start: nat) {
    forall b :: b in blocks ==> start <= b
  }

  lemma GrantedStaysAbove(live: seq<(nat, BlockType)>, m: (nat, BlockType), start: nat)
    requires NoneBelow(Owned(live), start) && start <= m.0
    ensures NoneBelow(Owned(live + [m]), start)
  {
    OwnedConcat(live, [m]);
    OwnedOne(m, {});
  }

  lemma RemainingStayAbove(live: seq<(nat, BlockType)>, i: nat, start: nat)
    requires i < |live| && NoneBelow(Owned(live), start)
    ensures NoneBelow(Owned(Remaining(live, i, true)), start)
  {
    CutAt(live, i);
    OwnedAround(live[..i], live[i], live[i + 1..]);
  }

  lemma AnswerStaysAbove(req: Request, used: set<nat>, start: nat, end: nat,
                         live: seq<(nat, BlockType)>, live': seq<(nat, BlockType)>)
    requires Answers(req, used, start, end, live, live') && NoneBelow(Owned(live), start)
    ensures NoneBelow(Owned(live'), start)
  {
    if live' != live {
      if req.Allocate? {
        assert live' == live + [live'[|live|]];
        GrantedStaysAbove(live, live'[|live|], start);
      } else {
        RemainingStayAbove(live, req.index, start);
      }
    }
  }

  lemma {:induction false} OwnedAboveStart(trace: seq<seq<(nat, BlockType)>>, reqs: seq<Request>, used: set<nat>,
                                           start: nat, end: nat, k: nat)
    requires Follows(trace, reqs, used, start, end) && k <= |reqs|
    ensures NoneBelow(Owned(trace[k]), start)
  {
    if k > 0 {
      OwnedAboveStart(trace, reqs, used, start, end, k - 1);
      AnswerStaysAbove(reqs[k - 1], used + Owned(trace[k - 1]), start, end, trace[k - 1], trace[k]);
    }
  }

  /** In every run that starts with the first block in use, as mount leaves it, an allocation with a node at hand
      gets the least free aligned run of the whole region, and is refused exactly when there is none. */
  lemma EveryRunIsFirstFit(trace: seq<seq<(nat, BlockType)>>, reqs: seq<Request>, used: set<nat>,
                           start: nat, end: nat, k: nat)
    requires Follows(trace, reqs, used, start, end) && IsLeast(used, start)
    requires k < |reqs| && reqs[k].Allocate? && reqs[k].nodeAvailable
    ensures trace[k + 1] == trace[k] <==> !SomeFit(used + Owned(trace[k]), start, end, NumBlocks(reqs[k].bt))
    ensures trace[k + 1] != trace[k] ==>
      && |trace[k + 1]| == |trace[k]| + 1 && trace[k + 1][..|trace[k]|] == trace[k]
      && trace[k + 1][|trace[k]|].1 == reqs[k].bt
      && LeastFit(used + Owned(trace[k]), start, end, NumBlocks(reqs[k].bt), trace[k + 1][|trace[k]|].0)
  {
    var now, n := used + Owned(trace[k]), NumBlocks(reqs[k].bt);
    OwnedAboveStart(trace, reqs, used, start, end, k);
    assert Answers(reqs[k], now, start, end, trace[k], trace[k + 1]);
    forall b ensures Grants(now, start, end, n, true, b) <==> LeastFit(now, start, end, n, b) {
      GrantsIsLeastFit(now, start, end, n, b);
    }
    if c :| Fits(now, start, end, n, c) {
      assert start == c ==> start in Run(c, n);
      var b := LeastFitExists(now, start, start, end, n, c);
      assert Grants(now, start, end, n, true, b);
    }
  }

  lemma TraceGrows(trace: seq<seq<(nat, BlockType)>>, reqs: seq<Request>, k: nat, used: set<nat>, start: nat, end: nat,
                   live: seq<(nat, BlockType)>)
    requires k < |reqs| && Follows(trace, reqs[..k], used, start, end)
    requires Answers(reqs[k], used + Owned(trace[k]), start, end, trace[k], live)
    ensures Follows(trace + [live], reqs[..k + 1], used, start, end)
  {
    var t, r := trace + [live], reqs[..k + 1];
    forall j | 0 <= j < k + 1
      ensures Answers(r[j], used + Owned(t[j]), start, end, t[j], t[j + 1])
    {
      if j < k { assert Answers(reqs[..k][j], used + Owned(trace[j]), start, end, trace[j], trace[j + 1]); }
    }
  }

  /** The live runs overlap neither each other nor the given set. */
  ghost predicate Separate(live: seq<(nat, BlockType)>, used: set<nat>) {
    live != [] ==> RunOf(live[0]) !! used && Separate(live[1..], used + RunOf(live[0]))
  }

  lemma {:induction false} OwnedConcat(a: seq<(nat, BlockType)>, b: seq<(nat, BlockType)>)
    ensures Owned(a + b) == Owned(a) + Owned(b)
  {
    if a == [] {
      assert a + b == b;
    } else {
      assert (a + b)[1..] == a[1..] + b;
      OwnedConcat(a[1..], b);
    }
  }

  lemma {:induction false} SeparateConcat(a: seq<(nat, BlockType)>, b: seq<(nat, BlockType)>, used: set<nat>)
    ensures Separate(a + b, used) <==> Separate(a, used) && Separate(b, used + Owned(a))
  {
    if a == [] {
      assert a + b == b && used + Owned(a) == used;
    } else {
      assert (a + b)[1..] == a[1..] + b;
      SeparateConcat(a[1..], b, used + RunOf(a[0]));
      assert used + RunOf(a[0]) + Owned(a[1..]) == used + Owned(a);
    }
  }

  lemma {:induction false} SeparateFromLess(live: seq<(nat, BlockType)>, small: set<nat>, big: set<nat>)
    requires small <= big && Separate(live, big)
    ensures Separate(live, small) && Owned(live) !! big
  {
    if live != [] {
      SeparateFromLess(live[1..], small + RunOf(live[0]), big + RunOf(live[0]));
    }
  }

  lemma OwnedOne(m: (nat, BlockType), used: set<nat>)
    ensures Owned([m]) == RunOf(m)
    ensures Separate([m], used) <==> RunOf(m) !! used
  {
    assert [m][1..] == [];
  }

  lemma OwnedAdd(live: seq<(nat, BlockType)>, m: (nat, BlockType), used: set<nat>)
    requires Separate(live, used) && RunOf(m) !! used + Owned(live)
    ensures Separate(live + [m], used) && Owned(live + [m]) == Owned(live) + RunOf(m)
  {
    OwnedConcat(live, [m]);
    SeparateConcat(live, [m], used);
    OwnedOne(m, used + Owned(live));
  }

  lemma AddRun(used: set<nat>, o: set<nat>, r: set<nat>)
    ensures used + o + r == used + (o + r)
    ensures r !! used ==> used + o - r == used + (o - r)
  {
  }

  lemma SeparateAround(a: seq<(nat, BlockType)>, m: (nat, BlockType), b: seq<(nat, BlockType)>, used: set<nat>)
    requires Separate(a + [m] + b, used)
    ensures Separate(a + b, used) && RunOf(m) !! used && RunOf(m) !! Owned(a) && RunOf(m) !! Owned(b)
  {
    SeparateConcat(a + [m], b, used);
    SeparateConcat(a, [m], used);
    SeparateConcat(a, b, used);
    OwnedConcat(a, [m]);
    OwnedOne(m, used + Owned(a));
    SeparateFromLess(b, used + Owned(a), used + Owned(a + [m]));
  }

  lemma OwnedAround(a: seq<(nat, BlockType)>, m: (nat, BlockType), b: seq<(nat, BlockType)>)
    ensures Owned(a + [m] + b) == Owned(a + b) + RunOf(m)
    ensures Owned(a + b) == Owned(a) + Owned(b)
  {
    OwnedConcat(a + [m], b);
    OwnedConcat(a, [m]);
    OwnedConcat(a, b);
    OwnedOne(m, {});
  }

  lemma CutAt<T>(s: seq<T>, i: nat)
    requires i < |s|
    ensures s == s[..i] + [s[i]] + s[i + 1..]
  {
  }

  lemma TakeOut(a: seq<(nat, BlockType)>, m: (nat, BlockType), b: seq<(nat, BlockType)>, used: set<nat>)
    requires Separate(a + [m] + b, used)
    ensures Separate(a + b, used) && RunOf(m) !! used
    ensures RunOf(m) <= Owned(a + [m] + b) && m.0 in RunOf(m)
    ensures Owned(a + b) == Owned(a + [m] + b) - RunOf(m)
  {
    SeparateAround(a, m, b, used);
    OwnedAround(a, m, b);
  }

  /** A live run can be taken out of the used blocks. */
  lemma Releasable(live: seq<(nat, BlockType)>, i: nat, used: set<nat>)
    requires i < |live| && Separate(live, used)
    ensures live[i].0 in used + Owned(live)
    ensures Separate(Remaining(live, i, true), used)
    ensures used + Owned(live) - Run(live[i].0, NumBlocks(live[i].1)) == used + Owned(Remaining(live, i, true))
  {
    CutAt(live, i);
    TakeOut(live[..i], live[i], live[i + 1..], used);
    AddRun(used, Owned(live), RunOf(live[i]));
  }
}
