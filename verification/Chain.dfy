/** The block index tree with its skip links, and the active chain as a vector over it. */
module Chain {
  import opened SkipList

  // ---------------------------------------------------------------- the tree

  class BlockIndex {
    const prev: BlockIndex?
    const height: nat
    var skip: BlockIndex?

    constructor (prev: BlockIndex?)
      requires prev != null ==> prev.Linked()
      ensures this.prev == prev && Linked() && skip == null
    {
      this.prev := prev;
      height := if prev == null then 0 else prev.height + 1;
      skip := null;
    }

    /** Heights count the blocks back to a first one. */
    ghost predicate Linked()
      decreases height
    {
      if prev == null then height == 0 else height == prev.height + 1 && prev.Linked()
    }

    /** The block at height `h` found by following parents. */
    ghost function Up(h: nat): (r: BlockIndex)
      requires Linked() && h <= height
      ensures r.Linked() && r.height == h && (h == height <==> r == this)
      decreases height
    {
      if h == height then this else prev.Up(h)
    }

    ghost predicate SkipOk()
      requires Linked()
      reads this
    {
      skip != null ==> height > 0 && skip == Up(GetSkipHeight(height))
    }

    lemma {:induction false} UpUp(k: nat, h: nat)
      requires Linked() && h <= k <= height
      ensures Up(k).Up(h) == Up(h)
      decreases height
    {
      if k < height { prev.UpUp(k, h); }
    }

    lemma {:induction false} UpIn(tree: set<BlockIndex>, k: nat)
      requires this in tree && TreeOk(tree) && k <= height
      ensures Linked() && Up(k) in tree
      decreases height
    {
      if k < height { prev.UpIn(tree, k); }
    }

    /** The ancestor at a height, by skip links where they help; the same block as following parents,
        or none outside the range. `steps` counts the blocks that were left on the way. */
    method GetAncestor(h: int, ghost tree: set<BlockIndex>) returns (r: BlockIndex?, ghost steps: nat)
      requires TreeOk(tree) && this in tree
      ensures r == if 0 <= h <= height then Up(h) else null
      ensures Full(tree) ==> steps == if 0 <= h <= height then Steps(height, h) else 0
      ensures Full(tree) && height < 0x4_0000 ==> steps <= 110
    {
      hide GetSkipHeight, Steps, Next, TreeOk, Full;
      InTree(tree, this);
      steps := 0;
      if h > height || h < 0 {
        return null, 0;
      }
      if height < 0x4_0000 { AtMost110(height, h); }
      var walk := this;
      var heightWalk := height;
      while heightWalk > h
        invariant h <= heightWalk <= height && walk == Up(heightWalk) && walk in tree
        invariant Full(tree) ==> steps + Steps(heightWalk, h) == Steps(height, h)
        decreases heightWalk
      {
        var heightSkip := GetSkipHeight(heightWalk);
        var heightSkipPrev := GetSkipHeight(heightWalk - 1);
        InTree(tree, walk);
        UpUp(heightWalk, heightSkip);
        UpUp(heightWalk, heightWalk - 1);
        UpIn(tree, heightSkip);
        UpIn(tree, heightWalk - 1);
        StepsNext(heightWalk, h);
        NextIs(heightWalk, h);
        steps := steps + 1;
        if walk.skip != null &&
           (heightSkip == h || (heightSkip > h && !(heightSkipPrev < heightSkip - 2 && heightSkipPrev >= h))) {
          walk := walk.skip;
          heightWalk := heightSkip;
        } else {
          assert walk.Up(heightWalk - 1) == walk.prev;
          walk := walk.prev;
          heightWalk := heightWalk - 1;
        }
      }
      StepsSelf(h);
      r := walk;
    }

    /** Sets the skip link of a block whose ancestors have theirs. */
    method BuildSkip(ghost tree: set<BlockIndex>)
      requires TreeOk(tree) && this in tree
      modifies this`skip
      ensures TreeOk(tree) && skip == if prev == null then null else Up(GetSkipHeight(height))
    {
      if prev != null {
        ghost var steps: nat;
        skip, steps := prev.GetAncestor(GetSkipHeight(height), tree);
      }
    }
  }

  ghost predicate Closed(tree: set<BlockIndex>) {
    forall b :: b in tree && b.prev != null ==> b.prev in tree
  }

  /** A tree of blocks in which every skip link is unset or leads to the ancestor it should. */
  ghost predicate TreeOk(tree: set<BlockIndex>)
    reads tree
  {
    Closed(tree) && forall b :: b in tree ==> b.Linked() && b.SkipOk()
  }

  /** Every block but the first ones has its skip link. */
  ghost predicate Full(tree: set<BlockIndex>)
    reads tree
  {
    forall b :: b in tree && b.prev != null ==> b.skip != null
  }

  lemma InTree(tree: set<BlockIndex>, b: BlockIndex)
    requires TreeOk(tree) && b in tree
    ensures b.Linked() && b.SkipOk() && (Full(tree) && b.height > 0 ==> b.skip != null)
  {
  }

  /** Growing the tree by a block on any of its blocks, or by a new first block. */
  method Grow(ghost tree: set<BlockIndex>, prev: BlockIndex?) returns (b: BlockIndex)
    requires TreeOk(tree) && (prev != null ==> prev in tree)
    ensures fresh(b) && b.prev == prev && TreeOk(tree + {b}) && (old(Full(tree)) ==> Full(tree + {b}))
    ensures b.skip == if prev == null then null else b.Up(GetSkipHeight(b.height))
  {
    b := new BlockIndex(prev);
    b.BuildSkip(tree + {b});
  }

  // ---------------------------------------------------------------- the active chain

  /** The vector holds a block and all its ancestors, each at its height. */
  ghost predicate IsChain(chain: seq<BlockIndex?>) {
    && (forall i :: 0 <= i < |chain| ==> chain[i] != null && chain[i].Linked() && chain[i].height == i)
    && (forall i :: 0 < i < |chain| ==> chain[i].prev == chain[i - 1])
  }

  lemma {:induction false} SlotIsAncestor(chain: seq<BlockIndex?>, i: nat, j: nat)
    requires IsChain(chain) && i <= j < |chain|
    ensures chain[j].Up(i) == chain[i]
  {
    if i < j { SlotIsAncestor(chain, i, j - 1); }
  }

  lemma PathIsChain(block: BlockIndex, chain: seq<BlockIndex?>)
    requires block.Linked() && |chain| == block.height + 1
    requires forall i :: 0 <= i < |chain| ==> chain[i] == block.Up(i)
    ensures IsChain(chain)
  {
    forall i | 0 < i < |chain| ensures chain[i].prev == chain[i - 1] {
      block.UpUp(i, i - 1);
      assert block.Up(i).Up(i - 1) == block.Up(i).prev;
    }
  }

  class ActiveChain {
    var vChain: seq<BlockIndex?>

    ghost predicate Valid()
      reads this
    {
      IsChain(vChain)
    }

    constructor ()
      ensures Valid() && vChain == []
    {
      vChain := [];
    }

    function Height(): int
      reads this
    {
      |vChain| - 1
    }

    function At(h: int): BlockIndex?
      reads this
    {
      if h < 0 || h >= |vChain| then null else vChain[h]
    }

    predicate Contains(b: BlockIndex)
      reads this
    {
      At(b.height) == b
    }

    /** Makes `block` the tip. It rewrites slots only down to the first that already holds the right block,
        and still every slot holds the ancestor at its height. */
    method SetTip(block: BlockIndex)
      requires Valid() && block.Linked()
      modifies this
      ensures Valid() && |vChain| == block.height + 1
      ensures forall i :: 0 <= i <= block.height ==> vChain[i] == block.Up(i)
    {
      ghost var was := vChain;
      var n := block.height + 1;
      vChain := if n <= |vChain| then vChain[..n] else vChain + seq(n - |vChain|, _ => null);
      var index: BlockIndex? := block;
      while index != null && vChain[index.height] != index
        invariant |vChain| == n && (index != null ==> index.height < n && index == block.Up(index.height))
        invariant forall j :: 0 <= j < n && (index == null || j > index.height) ==> vChain[j] == block.Up(j)
        invariant forall j :: 0 <= j < n && index != null && j <= index.height ==>
                    vChain[j] == if j < |was| then was[j] else null
        decreases if index == null then 0 else index.height + 1
      {
        if index.prev != null { block.UpUp(index.height, index.height - 1); }
        vChain := vChain[index.height := index];
        index := index.prev;
      }
      forall i | 0 <= i < n ensures vChain[i] == block.Up(i) {
        if index != null && i <= index.height {
          SlotIsAncestor(was, i, index.height);
          block.UpUp(index.height, i);
        }
      }
      PathIsChain(block, vChain);
    }

    /** The block after `b` in the chain: the one whose parent it is. */
    method Next(b: BlockIndex) returns (r: BlockIndex?)
      requires Valid()
      ensures r != null <==> b in vChain && b != vChain[|vChain| - 1]
      ensures r != null ==> r in vChain && r.prev == b
    {
      if Contains(b) {
        r := At(b.height + 1);
        if r != null { assert vChain[b.height + 1].prev == vChain[b.height]; }
      } else {
        r := null;
      }
    }

    /** The highest block that is in this chain and an ancestor of `b`, if there is one. */
    method FindFork(b: BlockIndex?, ghost tree: set<BlockIndex>) returns (r: BlockIndex?)
      requires Valid() && TreeOk(tree) && (b != null ==> b in tree)
      ensures b == null || vChain == [] ==> r == null
      ensures b != null && vChain != [] ==> HighestCommon(b, vChain[|vChain| - 1], r)
    {
      hide BlockIndex.Up, TreeOk;
      if b == null {
        return null;
      }
      b.UpIn(tree, b.height);
      var index := b;
      if index.height > Height() {
        ghost var steps: nat;
        index, steps := index.GetAncestor(Height(), tree);
      }
      if index == null {
        return null;
      }
      ghost var tip := vChain[|vChain| - 1];
      ghost var top := index.height;
      var walk: BlockIndex? := index;
      while walk != null && !Contains(walk)
        invariant walk != null ==> walk.Linked() && walk.height <= top && walk == b.Up(walk.height)
        invariant forall h :: 0 <= h <= top && (walk == null || h > walk.height) ==> !Meet(b, tip, h)
        decreases if walk == null then 0 else walk.height + 1
      {
        SlotIsAncestor(vChain, walk.height, |vChain| - 1);
        if walk.height > 0 { ParentUp(b, walk.height); }
        walk := walk.prev;
      }
      if walk != null { SlotIsAncestor(vChain, walk.height, |vChain| - 1); }
      r := walk;
    }
  }

  /** `r` is the highest block that is an ancestor of both, or they have none in common. */
  ghost predicate HighestCommon(a: BlockIndex, b: BlockIndex, r: BlockIndex?)
  {
    && a.Linked() && b.Linked()
    && (r != null ==> r.height <= a.height && r.height <= b.height && a.Up(r.height) == r == b.Up(r.height))
    && forall h :: 0 <= h <= a.height && h <= b.height && Meet(a, b, h) ==> r != null && h <= r.height
  }

  /** The two blocks have the same ancestor at a height. */
  ghost predicate Meet(a: BlockIndex, b: BlockIndex, h: nat)
    requires a.Linked() && b.Linked() && h <= a.height && h <= b.height
  {
    a.Up(h) == b.Up(h)
  }

  lemma ParentUp(a: BlockIndex, h: nat)
    requires a.Linked() && 0 < h <= a.height
    ensures a.Up(h).prev != null && a.Up(h).prev == a.Up(h - 1)
  {
    a.UpUp(h, h - 1);
    assert a.Up(h).Up(h - 1) == a.Up(h).prev;
  }

  /** The common ancestors are exactly the ancestors of the highest one. */
  lemma CommonBelow(a: BlockIndex, b: BlockIndex, r: BlockIndex, h: nat)
    requires HighestCommon(a, b, r) && h <= a.height && h <= b.height
    ensures Meet(a, b, h) <==> h <= r.height
  {
    if h <= r.height {
      a.UpUp(r.height, h);
      b.UpUp(r.height, h);
    }
  }

  method LastCommonAncestor(a: BlockIndex, b: BlockIndex, ghost tree: set<BlockIndex>) returns (r: BlockIndex?)
    requires TreeOk(tree) && a in tree && b in tree
    ensures HighestCommon(a, b, r)
  {
    hide BlockIndex.Up, TreeOk;
    var pa: BlockIndex? := a;
    var pb: BlockIndex? := b;
    a.UpIn(tree, a.height);
    b.UpIn(tree, b.height);
    ghost var steps: nat;
    if a.height > b.height {
      pa, steps := a.GetAncestor(b.height, tree);
    } else if b.height > a.height {
      pb, steps := b.GetAncestor(a.height, tree);
    }
    ghost var top := pa.height;
    while pa != pb && pa != null && pb != null
      invariant pa == null <==> pb == null
      invariant pa != null ==> pa.height == pb.height <= top && pa == a.Up(pa.height) && pb == b.Up(pb.height)
      invariant forall h :: 0 <= h <= top && (pa == null || h > pa.height) ==> !Meet(a, b, h)
      decreases if pa == null then 0 else pa.height + 1
    {
      if pa.height > 0 {
        ParentUp(a, pa.height);
        ParentUp(b, pb.height);
      }
      pa := pa.prev;
      pb := pb.prev;
    }
    assert pa == pb;
    r := pa;
  }

  // ---------------------------------------------------------------- locators

  /** How far back the entry after the first `n` lies: single steps for eleven entries, then doubling. */
  function Gap(n: nat): (r: nat)
    ensures r >= 1
  {
    if n <= 11 then 1 else 2 * Gap(n - 1)
  }

  /** The entries from height `h` on, when `n` came before: ancestors at growing distance. */
  ghost function LocatorFrom(index: BlockIndex, h: nat, n: nat): (r: seq<BlockIndex>)
    requires index.Linked() && h <= index.height
    ensures r != [] && r[0] == index.Up(h)
    decreases h
  {
    [index.Up(h)] + if h == 0 then [] else LocatorFrom(index, if h < Gap(n + 1) then 0 else h - Gap(n + 1), n + 1)
  }

  /** A locator ends at the first block, at heights that only fall. */
  lemma {:induction false} LocatorShape(index: BlockIndex, h: nat, n: nat)
    requires index.Linked() && h <= index.height
    ensures var r := LocatorFrom(index, h, n);
            && r[|r| - 1].height == 0
            && (forall k :: 0 <= k < |r| ==> r[k].height <= index.height && r[k] == index.Up(r[k].height))
            && forall k :: 0 < k < |r| ==> r[k].height < r[k - 1].height
    decreases h
  {
    hide BlockIndex.Up, LocatorFrom, Gap;
    LocatorNext(index, h, n);
    if h > 0 {
      var below := if h < Gap(n + 1) then 0 else h - Gap(n + 1);
      LocatorShape(index, below, n + 1);
      var r, tail := LocatorFrom(index, h, n), LocatorFrom(index, below, n + 1);
      assert r == [index.Up(h)] + tail;
      forall k | 0 < k < |r| ensures r[k].height < r[k - 1].height {
        if k > 1 { assert tail[k - 1].height < tail[k - 2].height; }
      }
    }
  }

  lemma {:induction false} GapGrows(n: nat, m: nat)
    requires n <= m
    ensures Gap(n) <= Gap(m)
  {
    if n < m { GapGrows(n, m - 1); }
  }

  /** How many entries a locator has from height `h` on, when `n` came before. */
  function LocatorLength(h: nat, n: nat): nat
    decreases h
  {
    if h == 0 then 1 else 1 + LocatorLength(if h < Gap(n + 1) then 0 else h - Gap(n + 1), n + 1)
  }

  lemma {:induction false} LengthIs(index: BlockIndex, h: nat, n: nat)
    requires index.Linked() && h <= index.height
    ensures |LocatorFrom(index, h, n)| == LocatorLength(h, n)
    decreases h
  {
    hide LocatorFrom;
    LocatorNext(index, h, n);
    if h > 0 { LengthIs(index, if h < Gap(n + 1) then 0 else h - Gap(n + 1), n + 1); }
  }

  /** Beyond what the doubled gaps cover a locator has more entries. */
  lemma {:induction false} LengthTail(h: nat, n: nat, m: nat)
    requires n >= 10
    ensures h <= Gap(n + 1 + m) - Gap(n + 1) <==> LocatorLength(h, n) <= m + 1
    decreases m
  {
    GapGrows(n + 1, n + 1 + m);
    if h > 0 && m > 0 {
      GapIs(n + 2);
      GapGrows(n + 2, n + 1 + m);
      LengthTail(if h < Gap(n + 1) then 0 else h - Gap(n + 1), n + 1, m - 1);
    } else if h > 0 {
      LengthPositive(if h < Gap(n + 1) then 0 else h - Gap(n + 1), n + 1);
    }
  }

  lemma LengthPositive(h: nat, n: nat)
    ensures LocatorLength(h, n) >= 1
  {
  }

  /** A locator has at most m + 11 entries exactly below height 2^m + 10. */
  lemma {:induction false} LengthExact(h: nat, n: nat, m: nat)
    requires n <= 10
    ensures h < Gap(11 + m) + 10 - n <==> LocatorLength(h, n) <= m + 11 - n
    decreases 10 - n
  {
    GapIs(n + 1);
    if n == 10 {
      GapIs(11);
      LengthTail(h, n, m);
    } else if h > 0 {
      LengthExact(h - 1, n + 1, m);
    }
  }

  lemma GapTen(n: nat)
    requires n >= 11
    ensures Gap(n + 10) == 1024 * Gap(n)
  {
    hide Gap;
    GapIs(n + 1);
    GapIs(n + 2);
    GapIs(n + 3);
    GapIs(n + 4);
    GapIs(n + 5);
    GapIs(n + 6);
    GapIs(n + 7);
    GapIs(n + 8);
    GapIs(n + 9);
    GapIs(n + 10);
  }

  /** How many entries a peer accepts in a locator. */
  const MAX_LOCATOR_SIZE: nat := 101

  /** No height that fits 32 bits gives a locator that a peer refuses. */
  lemma LocatorAccepted(index: BlockIndex)
    requires index.Linked() && index.height < 0x8000_0000
    ensures |LocatorFrom(index, index.height, 0)| <= 42 < MAX_LOCATOR_SIZE
  {
    hide Gap, LocatorFrom;
    ThirtyGaps();
    LengthIs(index, index.height, 0);
    LengthExact(index.height, 0, 31);
  }

  /** A locator of a block has at most m + 11 entries exactly below height 2^m + 10. */
  lemma LocatorShort(index: BlockIndex, m: nat)
    requires index.Linked()
    ensures |LocatorFrom(index, index.height, 0)| <= m + 11 <==> index.height < Gap(11 + m) + 10
  {
    hide LocatorFrom, Gap, LocatorLength;
    LengthIs(index, index.height, 0);
    LengthExact(index.height, 0, m);
  }

  /** The step of the last entry, the largest there is, fits 31 bits exactly below height 2^30 + 10. */
  lemma StepFits(h: nat)
    ensures Gap(LocatorLength(h, 0)) < 0x8000_0000 <==> h < 0x4000_000a
  {
    hide Gap, LocatorLength;
    ThirtyGaps();
    LengthExact(h, 0, 30);
    var n := LocatorLength(h, 0);
    if n <= 41 { GapGrows(n, 41); } else { GapGrows(42, n); }
  }

  lemma ThirtyGaps()
    ensures Gap(11) == 1 && Gap(41) == 0x4000_0000 && Gap(42) == 0x8000_0000
  {
    hide Gap;
    GapIs(11);
    GapTen(11);
    GapTen(21);
    GapTen(31);
    GapIs(42);
  }

  /** At height 2^30 + 10 the step reaches 2^31. */
  lemma StepOverflows()
    ensures Gap(LocatorLength(0x4000_000a, 0)) == 0x8000_0000
  {
    hide Gap, LocatorLength;
    ThirtyGaps();
    LengthExact(0x4000_000a, 0, 30);
    LengthExact(0x4000_000a, 0, 31);
  }

  lemma LocatorNext(index: BlockIndex, h: nat, n: nat)
    requires index.Linked() && h <= index.height
    ensures var r := LocatorFrom(index, h, n);
            && r == [index.Up(h)] + r[1..]
            && r[1..] == if h == 0 then [] else LocatorFrom(index, if h < Gap(n + 1) then 0 else h - Gap(n + 1), n + 1)
  {
  }

  lemma GapIs(n: nat)
    ensures Gap(n) == if n <= 11 then 1 else 2 * Gap(n - 1)
  {
  }

  lemma GapNext(n: nat)
    ensures Gap(n + 1) == if n > 10 then 2 * Gap(n) else Gap(n)
  {
  }

  /** The locator of a block, and the largest value that the step took. */
  method LocatorEntries(index: BlockIndex?, ghost tree: set<BlockIndex>)
    returns (have: seq<BlockIndex>, ghost largest: nat)
    requires TreeOk(tree) && (index != null ==> index in tree)
    ensures have == if index == null then [] else LocatorFrom(index, index.height, 0)
    ensures index != null ==> largest == Gap(LocatorLength(index.height, 0))
  {
    hide BlockIndex.Up, TreeOk, LocatorFrom, LocatorLength, Gap;
    var step := 1;
    have, largest := [], step;
    GapIs(1);
    if index == null {
      return;
    }
    index.UpIn(tree, index.height);
    var walk := index;
    while true
      invariant walk in tree && walk.height <= index.height && walk == index.Up(walk.height)
      invariant step == largest == Gap(|have| + 1)
      invariant have + LocatorFrom(index, walk.height, |have|) == LocatorFrom(index, index.height, 0)
      decreases walk.height
    {
      LocatorNext(index, walk.height, |have|);
      ghost var rest := LocatorFrom(index, walk.height, |have|);
      GapNext(|have| + 1);
      ghost var was := have;
      have := have + [walk];
      assert was + ([walk] + rest[1..]) == have + rest[1..];
      if walk.height == 0 { break; }
      var h := if walk.height - step > 0 then walk.height - step else 0;
      index.UpUp(walk.height, h);
      walk.UpIn(tree, h);
      ghost var steps: nat;
      walk, steps := walk.GetAncestor(h, tree);
      if |have| > 10 { step := step * 2; }
      largest := step;
    }
    LengthIs(index, index.height, 0);
  }
}
