/** What truncation takes away from a block tree (file.c:247-331). */
module Pruning {
  import opened Devices
  import opened DiskBlocks
  import opened Bitmap
  import opened BlockTree
  import opened FileBlocks
  import opened FileData

  type Paths = iset<seq<nat>>

  /** The paths that continue `p` with a step below `i`. */
  ghost function BelowTo(p: seq<nat>, i: nat): Paths {
    iset q: seq<nat> | |p| < |q| && q[..|p|] == p && q[|p|] < i
  }

  ghost function Below(p: seq<nat>): Paths {
    iset q: seq<nat> | |p| < |q| && q[..|p|] == p
  }

  /** Block `b` is a data block of file `f` at one of the paths `r`. */
  ghost predicate LeafIn(disk: seq<Block>, inos: Inodes, f: nat, r: Paths, b: nat) {
    b != 0 && exists q :: q in r && IsLeaf(q) && Ptr(disk, inos, f, q) == b
  }

  /** The slots of `f` at the paths `r` are empty now and their data blocks are free; nothing else has changed. */
  ghost predicate Pruned(d0: seq<Block>, i0: Inodes, d1: seq<Block>, i1: Inodes, sup: Super, f: nat, r: Paths) {
    && TreeOk(d1, i1, sup)
    && f in i0 && i1.Keys == i0.Keys && (forall g :: g in i0 && g != f ==> i1[g] == i0[g])
    && (forall g, q :: g in i0 && IsPath(q) ==> Ptr(d1, i1, g, q) == if g == f && q in r then 0 else Ptr(d0, i0, g, q))
    && (forall b: nat :: Used(d1, sup, b) <==> Used(d0, sup, b) && !LeafIn(d0, i0, f, r, b))
    && (forall g, q :: g in i0 && IsLeaf(q) && !(g == f && q in r) ==> LeafKept(d0, i0, d1, g, q))
  }

  lemma PrunedNothing(disk: seq<Block>, inos: Inodes, sup: Super, f: nat, r: Paths)
    requires TreeOk(disk, inos, sup) && f in inos
    requires forall q :: q in r && IsPath(q) ==> Ptr(disk, inos, f, q) == 0
    ensures Pruned(disk, inos, disk, inos, sup, f, r)
  {
    hide Ptr, Used, VolumeOk, OnePlace, BitAt, PtrOk;
  }

  lemma LeafInUnion(d0: seq<Block>, i0: Inodes, d1: seq<Block>, i1: Inodes, sup: Super, f: nat, r: Paths, s: Paths, b: nat)
    requires Pruned(d0, i0, d1, i1, sup, f, r)
    ensures LeafIn(d0, i0, f, r + s, b) <==> LeafIn(d0, i0, f, r, b) || LeafIn(d1, i1, f, s, b)
  {
    hide Ptr, Used, TreeOk, BitAt;
    if LeafIn(d0, i0, f, r + s, b) {
      var q :| q in r + s && IsLeaf(q) && Ptr(d0, i0, f, q) == b;
      assert Ptr(d1, i1, f, q) == if q in r then 0 else Ptr(d0, i0, f, q);
    }
    if LeafIn(d1, i1, f, s, b) {
      var q :| q in s && IsLeaf(q) && Ptr(d1, i1, f, q) == b;
      assert Ptr(d1, i1, f, q) == if q in r then 0 else Ptr(d0, i0, f, q);
      assert q in r + s;
    }
    if LeafIn(d0, i0, f, r, b) {
      var q :| q in r && IsLeaf(q) && Ptr(d0, i0, f, q) == b;
      assert q in r + s;
    }
  }

  lemma PrunedTwice(d0: seq<Block>, i0: Inodes, d1: seq<Block>, i1: Inodes, d2: seq<Block>, i2: Inodes, sup: Super, f: nat, r: Paths, s: Paths)
    requires TreeOk(d0, i0, sup)
    requires Pruned(d0, i0, d1, i1, sup, f, r) && Pruned(d1, i1, d2, i2, sup, f, s)
    ensures Pruned(d0, i0, d2, i2, sup, f, r + s)
  {
    hide Ptr, Used, TreeOk, LeafIn, LeafKept;
    forall b: nat
      ensures Used(d2, sup, b) <==> Used(d0, sup, b) && !LeafIn(d0, i0, f, r + s, b)
    {
      LeafInUnion(d0, i0, d1, i1, sup, f, r, s, b);
    }
    forall g, q | g in i0 && IsLeaf(q) && !(g == f && q in r + s)
      ensures LeafKept(d0, i0, d2, g, q)
    {
      LeafKeptTwice(d0, i0, d1, i1, d2, sup, g, q);
    }
  }

  lemma LeafKeptTwice(d0: seq<Block>, i0: Inodes, d1: seq<Block>, i1: Inodes, d2: seq<Block>, sup: Super, g: nat, q: seq<nat>)
    requires LeafKept(d0, i0, d1, g, q) && LeafKept(d1, i1, d2, g, q) && Ptr(d1, i1, g, q) == Ptr(d0, i0, g, q)
    ensures LeafKept(d0, i0, d2, g, q)
  {
  }

  /** Only the paths of a tree matter. */
  lemma PrunedSame(d0: seq<Block>, i0: Inodes, d1: seq<Block>, i1: Inodes, sup: Super, f: nat, r: Paths, s: Paths)
    requires Pruned(d0, i0, d1, i1, sup, f, r) && forall q :: IsPath(q) ==> (q in r <==> q in s)
    ensures Pruned(d0, i0, d1, i1, sup, f, s)
  {
    hide Ptr, Used, TreeOk, LeafKept;
    forall b: nat
      ensures LeafIn(d0, i0, f, r, b) <==> LeafIn(d0, i0, f, s, b)
    {
    }
  }

  lemma {:induction false} NothingBelowNothing(disk: seq<Block>, inos: Inodes, f: nat, p: seq<nat>, q: seq<nat>)
    requires |p| > 0 && Ptr(disk, inos, f, p) == 0 && |p| <= |q| && q[..|p|] == p
    ensures Ptr(disk, inos, f, q) == 0
    decreases |q|
  {
    if |q| == |p| {
      assert q == p;
    } else {
      assert Parent(q)[..|p|] == p;
      NothingBelowNothing(disk, inos, f, p, Parent(q));
    }
  }

  // ----- One slot -----

  /** Slot `p` of `f`, with nothing below it, is emptied; if it was a data block its bit is cleared. */
  ghost predicate Removed(disk: seq<Block>, inos: Inodes, disk': seq<Block>, inos': Inodes, sup: Super, f: nat, p: seq<nat>)
    requires TreeOk(disk, inos, sup)
  {
    && f in inos && IsPath(p) && Ptr(disk, inos, f, p) != 0 && (|p| > 1 ==> Ptr(disk, inos, f, Parent(p)) != 0)
    && (forall q :: IsPath(q) && q in Below(p) ==> Ptr(disk, inos, f, q) == 0)
    && |disk'| == |disk|
    && (forall b: nat :: InData(sup, b) && (|p| > 1 ==> b != Ptr(disk, inos, f, Parent(p))) ==> disk'[b] == disk[b])
    && (if |p| == 1 then inos' == inos[f := inos[f].(ptrs := inos[f].ptrs[p[0] := 0])]
        else
          && inos' == inos
          && var b := Ptr(disk, inos, f, Parent(p)); b < |disk| && disk'[b] == SetWord(disk[b], Last(p), 0))
    && (forall b: nat :: Used(disk', sup, b) <==> Used(disk, sup, b) && !(IsLeaf(p) && b == Ptr(disk, inos, f, p)))
  }

  lemma {:induction false} PtrAfterRemoved(disk: seq<Block>, inos: Inodes, disk': seq<Block>, inos': Inodes, sup: Super,
                                           f: nat, p: seq<nat>, g: nat, q: seq<nat>)
    requires TreeOk(disk, inos, sup) && Removed(disk, inos, disk', inos', sup, f, p)
    requires g in inos && IsPath(q)
    ensures Ptr(disk', inos', g, q) == if g == f && q == p then 0 else Ptr(disk, inos, g, q)
    decreases |q|
  {
    hide Used;
    if |q| > 1 {
      var r := Parent(q);
      ParentIsPath(q);
      PtrAfterRemoved(disk, inos, disk', inos', sup, f, p, g, r);
      assert PtrOk(disk, inos, sup, g, r);
      var b := Ptr(disk, inos, g, r);
      if g == f && r == p {
        assert q in Below(p);
      } else if b != 0 {
        if |p| > 1 && b == Ptr(disk, inos, f, Parent(p)) {
          ParentIsPath(p);
          assert OnePlace(disk, inos, g, r, f, Parent(p));
          WordAfterSet(disk[b], Last(p), 0, Last(q));
          if Last(q) == Last(p) { PathEnds(p, q); }
        }
      }
    }
  }

  lemma PtrOkAfterRemoved(disk: seq<Block>, inos: Inodes, disk': seq<Block>, inos': Inodes, sup: Super,
                          f: nat, p: seq<nat>, g: nat, q: seq<nat>, h: nat, r: seq<nat>)
    requires TreeOk(disk, inos, sup) && Removed(disk, inos, disk', inos', sup, f, p)
    requires g in inos && IsPath(q) && h in inos && IsPath(r)
    ensures PtrOk(disk', inos', sup, g, q) && OnePlace(disk', inos', g, q, h, r)
  {
    hide Ptr, Used;
    PtrAfterRemoved(disk, inos, disk', inos', sup, f, p, g, q);
    PtrAfterRemoved(disk, inos, disk', inos', sup, f, p, h, r);
    assert PtrOk(disk, inos, sup, g, q) && PtrOk(disk, inos, sup, h, r);
    assert OnePlace(disk, inos, g, q, h, r) && OnePlace(disk, inos, g, q, f, p);
  }

  lemma FactsOfRemoved(disk: seq<Block>, inos: Inodes, disk': seq<Block>, inos': Inodes, sup: Super, f: nat, p: seq<nat>)
    requires TreeOk(disk, inos, sup) && Removed(disk, inos, disk', inos', sup, f, p)
    ensures f in inos && IsPath(p) && inos'.Keys == inos.Keys && (forall g :: g in inos ==> |inos'[g].ptrs| == NR_PTRS)
    ensures forall g :: g in inos && g != f ==> inos'[g] == inos[g]
    ensures forall b: nat :: Used(disk', sup, b) <==> Used(disk, sup, b) && !LeafIn(disk, inos, f, iset{p}, b)
  {
    hide Ptr, Used;
    assert p in iset{p};
  }

  lemma LeafKeptWhenRemoved(disk: seq<Block>, inos: Inodes, disk': seq<Block>, inos': Inodes, sup: Super,
                            f: nat, p: seq<nat>, g: nat, q: seq<nat>)
    requires TreeOk(disk, inos, sup) && Removed(disk, inos, disk', inos', sup, f, p)
    requires g in inos && IsLeaf(q)
    ensures LeafKept(disk, inos, disk', g, q)
  {
    hide Used;
    assert PtrOk(disk, inos, sup, g, q);
    if |p| > 1 {
      ParentIsPath(p);
      assert OnePlace(disk, inos, g, q, f, Parent(p));
    }
  }

  lemma PrunedSlot(disk: seq<Block>, inos: Inodes, disk': seq<Block>, inos': Inodes, sup: Super, f: nat, p: seq<nat>)
    requires TreeOk(disk, inos, sup) && Removed(disk, inos, disk', inos', sup, f, p) && VolumeOk(disk', sup)
    ensures Pruned(disk, inos, disk', inos', sup, f, iset{p})
  {
    hide Ptr, Used, VolumeOk, PtrOk, OnePlace, IsPath, LeafKept, LeafIn, Removed;
    FactsOfRemoved(disk, inos, disk', inos', sup, f, p);
    forall g, q | g in inos && IsPath(q)
      ensures PtrOk(disk', inos', sup, g, q)
      ensures Ptr(disk', inos', g, q) == if g == f && q in iset{p} then 0 else Ptr(disk, inos, g, q)
    {
      PtrOkAfterRemoved(disk, inos, disk', inos', sup, f, p, g, q, g, q);
      PtrAfterRemoved(disk, inos, disk', inos', sup, f, p, g, q);
    }
    forall g, q, h, r | g in inos' && h in inos' && IsPath(q) && IsPath(r)
      ensures OnePlace(disk', inos', g, q, h, r)
    {
      PtrOkAfterRemoved(disk, inos, disk', inos', sup, f, p, g, q, h, r);
    }
    forall g, q | g in inos && IsLeaf(q) && !(g == f && q in iset{p})
      ensures LeafKept(disk, inos, disk', g, q)
    {
      LeafKeptWhenRemoved(disk, inos, disk', inos', sup, f, p, g, q);
    }
  }

  /** What freeing block `blk` does to the bitmap. */
  ghost predicate Freed(disk: seq<Block>, disk': seq<Block>, sup: Super, blk: nat) {
    && VolumeOk(disk', sup) && |disk'| == |disk|
    && (forall b: nat :: Used(disk', sup, b) <==> Used(disk, sup, b) && b != blk)
    && (forall b: nat :: sup.data <= b < |disk| ==> disk'[b] == disk[b])
  }

  lemma FreedByClearing(disk: seq<Block>, sup: Super, blk: nat)
    requires VolumeOk(disk, sup) && InData(sup, blk)
    ensures sup.dataBitmap + (blk - sup.data) / BITS_PER_BLOCK < sup.data
    ensures Freed(disk, WithBitAt(disk, sup.dataBitmap, blk - sup.data, false), sup, blk)
  {
    VolumeAfterSet(disk, sup, blk, false);
    forall b: nat
      ensures Used(WithBitAt(disk, sup.dataBitmap, blk - sup.data, false), sup, b) <==> Used(disk, sup, b) && b != blk
    {
      UsedAfterSet(disk, sup, blk, false, b);
    }
  }

  /** Emptying a word of an indirect block, after the bit of a data block in it is cleared. */
  lemma RemovedFromIndirect(disk: seq<Block>, mid: seq<Block>, inos: Inodes, sup: Super, f: nat, p: seq<nat>)
    requires TreeOk(disk, inos, sup) && f in inos && IsPath(p) && |p| > 1 && Ptr(disk, inos, f, p) != 0
    requires forall q :: IsPath(q) && q in Below(p) ==> Ptr(disk, inos, f, q) == 0
    requires if IsLeaf(p) then Freed(disk, mid, sup, Ptr(disk, inos, f, p)) else mid == disk
    ensures var ind := Ptr(disk, inos, f, Parent(p));
            && InData(sup, ind) && ind < |mid| && ind != 0
            && Pruned(disk, inos, mid[ind := SetWord(mid[ind], Last(p), 0)], inos, sup, f, iset{p})
  {
    var ind := Ptr(disk, inos, f, Parent(p));
    ParentIsPath(p);
    assert PtrOk(disk, inos, sup, f, Parent(p));
    var disk' := mid[ind := SetWord(mid[ind], Last(p), 0)];
    BitmapApart(mid, disk', sup);
    assert Removed(disk, inos, disk', inos, sup, f, p);
    PrunedSlot(disk, inos, disk', inos, sup, f, p);
  }

  /** Emptying a pointer of the inode. */
  lemma RemovedFromInode(disk: seq<Block>, mid: seq<Block>, inos: Inodes, sup: Super, f: nat, k: nat)
    requires TreeOk(disk, inos, sup) && f in inos && k < NR_PTRS && Ptr(disk, inos, f, [k]) != 0
    requires forall q :: IsPath(q) && q in Below([k]) ==> Ptr(disk, inos, f, q) == 0
    requires if k < SINGLE_INDIRECT then Freed(disk, mid, sup, Ptr(disk, inos, f, [k])) else mid == disk
    ensures Pruned(disk, inos, mid, inos[f := inos[f].(ptrs := inos[f].ptrs[k := 0])], sup, f, iset{[k]})
  {
    var inos' := inos[f := inos[f].(ptrs := inos[f].ptrs[k := 0])];
    assert IsLeaf([k]) <==> k < SINGLE_INDIRECT;
    assert Removed(disk, inos, mid, inos', sup, f, [k]);
    PrunedSlot(disk, inos, mid, inos', sup, f, [k]);
  }

  // ----- Ranges of slots -----

  /** The slots up to `i` below `p`, then slot `i` with all below it. */
  lemma PrunedNext(d0: seq<Block>, i0: Inodes, d1: seq<Block>, i1: Inodes, d2: seq<Block>, i2: Inodes, sup: Super,
                   f: nat, p: seq<nat>, i: nat)
    requires TreeOk(d0, i0, sup) && Pruned(d0, i0, d1, i1, sup, f, BelowTo(p, i))
    requires Pruned(d1, i1, d2, i2, sup, f, Below(p + [i]) + iset{p + [i]})
    ensures Pruned(d0, i0, d2, i2, sup, f, BelowTo(p, i + 1))
  {
    hide Ptr, Used, Pruned, IsPath;
    var s := Below(p + [i]) + iset{p + [i]};
    PrunedTwice(d0, i0, d1, i1, d2, i2, sup, f, BelowTo(p, i), s);
    forall q: seq<nat>
      ensures q in BelowTo(p, i) + s <==> q in BelowTo(p, i + 1)
    {
      RangeStep(p, i, q);
    }
    PrunedSame(d0, i0, d2, i2, sup, f, BelowTo(p, i) + s, BelowTo(p, i + 1));
  }

  lemma RangeStep(p: seq<nat>, i: nat, q: seq<nat>)
    ensures q in BelowTo(p, i) || q in Below(p + [i]) || q == p + [i] <==> q in BelowTo(p, i + 1)
  {
    if |p| < |q| {
      assert q[..|p| + 1] == q[..|p|] + [q[|p|]];
      assert (p + [i])[..|p|] == p && (p + [i])[|p|] == i;
    }
  }

  /** An empty slot has nothing below it. */
  lemma PrunedEmptySlot(disk: seq<Block>, inos: Inodes, sup: Super, f: nat, p: seq<nat>)
    requires TreeOk(disk, inos, sup) && f in inos && |p| > 0 && Ptr(disk, inos, f, p) == 0
    ensures Pruned(disk, inos, disk, inos, sup, f, Below(p) + iset{p})
  {
    forall q | q in Below(p) + iset{p}
      ensures Ptr(disk, inos, f, q) == 0
    {
      NothingBelowNothing(disk, inos, f, p, q);
    }
    PrunedNothing(disk, inos, sup, f, Below(p) + iset{p});
  }

  lemma NothingBelowLeaf(p: seq<nat>, q: seq<nat>)
    requires IsLeaf(p) && q in Below(p)
    ensures !IsPath(q)
  {
    assert q[0] == q[..|p|][0];
  }

  /** All steps of an indirect block, or all pointers of an inode. */
  lemma PrunedAll(d0: seq<Block>, i0: Inodes, d1: seq<Block>, i1: Inodes, sup: Super, f: nat, p: seq<nat>, n: nat)
    requires Pruned(d0, i0, d1, i1, sup, f, BelowTo(p, n))
    requires n == if p == [] then NR_PTRS else PTRS_PER_INDIRECT
    ensures Pruned(d0, i0, d1, i1, sup, f, Below(p))
  {
    hide Ptr, Used, Pruned;
    forall q | IsPath(q)
      ensures q in BelowTo(p, n) <==> q in Below(p)
    {
    }
    PrunedSame(d0, i0, d1, i1, sup, f, BelowTo(p, n), Below(p));
  }

  /** After the blocks below slot `p`, the slot itself. */
  lemma PrunedSlotToo(d0: seq<Block>, i0: Inodes, d1: seq<Block>, i1: Inodes, d2: seq<Block>, i2: Inodes, sup: Super, f: nat, p: seq<nat>)
    requires TreeOk(d0, i0, sup) && Pruned(d0, i0, d1, i1, sup, f, Below(p)) && Pruned(d1, i1, d2, i2, sup, f, iset{p})
    ensures Pruned(d0, i0, d2, i2, sup, f, Below(p) + iset{p})
  {
    PrunedTwice(d0, i0, d1, i1, d2, i2, sup, f, Below(p), iset{p});
  }

  lemma EmptyBelow(d0: seq<Block>, i0: Inodes, d1: seq<Block>, i1: Inodes, sup: Super, f: nat, p: seq<nat>)
    requires IsPath(p) && Pruned(d0, i0, d1, i1, sup, f, Below(p))
    ensures Ptr(d1, i1, f, p) == Ptr(d0, i0, f, p)
    ensures forall q :: IsPath(q) && q in Below(p) ==> Ptr(d1, i1, f, q) == 0
  {
    hide Ptr, Used;
    assert p !in Below(p);
  }

  // ----- The whole file -----

  /** Block `b` holds data of file `f`. */
  ghost predicate IsDataOf(disk: seq<Block>, inos: Inodes, f: nat, b: nat) {
    b != 0 && exists n: nat :: n < MAX_FILE_BLOCKS && BlockOf(disk, inos, f, n) == b
  }

  /** Every leaf path is that of a logical block. */
  lemma LeafPathOnto(p: seq<nat>) returns (n: nat)
    requires IsLeaf(p)
    ensures n < MAX_FILE_BLOCKS && LeafPath(n) == p
  {
    if |p| == 1 {
      n := p[0];
    } else if |p| == 2 {
      n := SINGLE_INDIRECT + p[1];
    } else if |p| == 3 {
      n := FIRST_DOUBLE + PTRS_PER_INDIRECT * p[1] + p[2];
      Digits(0, p[1], p[2]);
    } else {
      n := FIRST_TRIPLE + PTRS2 * p[1] + PTRS_PER_INDIRECT * p[2] + p[3];
      Digits(p[1], p[2], p[3]);
    }
    assert LeafPath(n) == p;
  }

  lemma Digits(a: nat, b: nat, c: nat)
    requires a < PTRS_PER_INDIRECT && b < PTRS_PER_INDIRECT && c < PTRS_PER_INDIRECT
    ensures var m := PTRS2 * a + PTRS_PER_INDIRECT * b + c;
            && m < PTRS3 && m / PTRS2 == a && m / PTRS_PER_INDIRECT % PTRS_PER_INDIRECT == b && m % PTRS_PER_INDIRECT == c
  {
    var m := PTRS2 * a + PTRS_PER_INDIRECT * b + c;
    var h := PTRS_PER_INDIRECT * a + b;
    Digit(h, c);
    Digit(a, b);
    DivideTwice(m);
  }

  lemma DivideTwice(m: nat)
    ensures m / PTRS2 == m / PTRS_PER_INDIRECT / PTRS_PER_INDIRECT
  {
  }

  lemma Digit(a: nat, b: nat)
    requires b < PTRS_PER_INDIRECT
    ensures (PTRS_PER_INDIRECT * a + b) / PTRS_PER_INDIRECT == a && (PTRS_PER_INDIRECT * a + b) % PTRS_PER_INDIRECT == b
  {
  }

  lemma DataIsLeaf(disk: seq<Block>, inos: Inodes, f: nat, b: nat)
    ensures IsDataOf(disk, inos, f, b) <==> LeafIn(disk, inos, f, Below([]), b)
  {
    hide Ptr;
    if IsDataOf(disk, inos, f, b) {
      var n: nat :| n < MAX_FILE_BLOCKS && BlockOf(disk, inos, f, n) == b;
      LeafPathIsLeaf(n);
      assert LeafPath(n) in Below([]);
    }
    if LeafIn(disk, inos, f, Below([]), b) {
      var q :| q in Below([]) && IsLeaf(q) && Ptr(disk, inos, f, q) == b;
      var n := LeafPathOnto(q);
      assert BlockOf(disk, inos, f, n) == b;
    }
  }

  /** File `f` is empty, its data blocks are free, and everything else is as before. */
  ghost predicate Truncated(d0: seq<Block>, i0: Inodes, d1: seq<Block>, i1: Inodes, sup: Super, f: nat) {
    && f in i0 && i1 == i0[f := Inode(0, seq(NR_PTRS, i => 0))]
    && (forall b: nat :: Used(d1, sup, b) <==> Used(d0, sup, b) && !IsDataOf(d0, i0, f, b))
    && (forall g, n: nat :: g in i0 && g != f && n < MAX_FILE_BLOCKS ==> BlockOf(d1, i1, g, n) == BlockOf(d0, i0, g, n))
    && (forall g :: g in i0 && g != f ==> Contents(d1, i1, g) == Contents(d0, i0, g))
  }

  lemma TruncatedWhenPruned(d0: seq<Block>, i0: Inodes, d1: seq<Block>, i1: Inodes, sup: Super, f: nat)
    requires TreeOk(d0, i0, sup) && Pruned(d0, i0, d1, i1, sup, f, Below([]))
    ensures var i2 := i1[f := i1[f].(size := 0)]; TreeOk(d1, i2, sup) && Truncated(d0, i0, d1, i2, sup, f)
  {
    hide Ptr, Used, LeafPath, PtrOk, OnePlace, IsDataOf, VolumeOk, LeafIn;
    var i2 := i1[f := i1[f].(size := 0)];
    TreeIgnoresSize(d1, i1, sup, f, 0);
    forall b: nat
      ensures Used(d1, sup, b) <==> Used(d0, sup, b) && !IsDataOf(d0, i0, f, b)
    {
      DataIsLeaf(d0, i0, f, b);
    }
    forall k | 0 <= k < NR_PTRS
      ensures i2[f].ptrs[k] == 0
    {
      InodeEmpty(d0, i0, d1, i1, sup, f, k);
    }
    assert i2[f].ptrs == seq(NR_PTRS, i => 0);
    assert i2 == i0[f := Inode(0, seq(NR_PTRS, i => 0))];
    forall g, n: nat | g in i0 && g != f && n < MAX_FILE_BLOCKS
      ensures BlockOf(d1, i2, g, n) == BlockOf(d0, i0, g, n)
    {
      LeafPathIsLeaf(n);
      PtrIgnoresSize(d1, i1, i2, f, g, LeafPath(n));
    }
    forall g | g in i0 && g != f
      ensures Contents(d1, i2, g) == Contents(d0, i0, g)
    {
      ContentsKept(d0, i0, d1, i1, i2, sup, f, g);
    }
  }

  lemma InodeEmpty(d0: seq<Block>, i0: Inodes, d1: seq<Block>, i1: Inodes, sup: Super, f: nat, k: nat)
    requires Pruned(d0, i0, d1, i1, sup, f, Below([])) && k < NR_PTRS
    ensures |i1[f].ptrs| == NR_PTRS && i1[f].ptrs[k] == 0
  {
    hide Used, OnePlace;
    assert IsPath([k]) && [k] in Below([]);
    assert Ptr(d1, i1, f, [k]) == 0;
  }

  lemma ByteStays(d0: seq<Block>, i0: Inodes, d1: seq<Block>, i1: Inodes, sup: Super, f: nat, g: nat, i: nat)
    requires TreeOk(d0, i0, sup) && Pruned(d0, i0, d1, i1, sup, f, Below([])) && g in i0 && g != f
    ensures ByteAt(d1, i1, g, i) == ByteAt(d0, i0, g, i)
  {
    hide Ptr, Used, LeafPath, OnePlace, VolumeOk, LeafIn;
    var n := i / FS_BLKSIZ;
    if n < MAX_FILE_BLOCKS {
      LeafPathIsLeaf(n);
      assert LeafKept(d0, i0, d1, g, LeafPath(n));
      if BlockOf(d0, i0, g, n) != 0 {
        BlockBounds(d0, i0, sup, g, n);
      }
    }
  }

  lemma ContentsKept(d0: seq<Block>, i0: Inodes, d1: seq<Block>, i1: Inodes, i2: Inodes, sup: Super, f: nat, g: nat)
    requires TreeOk(d0, i0, sup) && Pruned(d0, i0, d1, i1, sup, f, Below([])) && g in i0 && g != f && i2 == i1[f := i1[f].(size := 0)]
    ensures Contents(d1, i2, g) == Contents(d0, i0, g)
  {
    hide Ptr, Used, TreeOk, ByteAt, IsPath, LeafIn, LeafKept;
    forall i | 0 <= i < i0[g].size
      ensures ByteAt(d1, i2, g, i) == ByteAt(d0, i0, g, i)
    {
      ByteIgnoresSize(d1, i1, i2, f, g, i);
      ByteStays(d0, i0, d1, i1, sup, f, g, i);
    }
  }

  /** The indirect blocks of a truncated file stay marked although no file has them any more. */
  lemma IndirectBlocksLeak(d0: seq<Block>, i0: Inodes, d1: seq<Block>, i1: Inodes, sup: Super, f: nat, p: seq<nat>)
    requires TreeOk(d0, i0, sup) && Pruned(d0, i0, d1, i1, sup, f, Below([]))
    requires IsPath(p) && !IsLeaf(p) && Ptr(d0, i0, f, p) != 0
    ensures Used(d1, sup, Ptr(d0, i0, f, p))
    ensures forall g, q :: g in i1 && IsPath(q) ==> Ptr(d1, i1, g, q) != Ptr(d0, i0, f, p)
  {
    hide Ptr, Used, VolumeOk;
    var b := Ptr(d0, i0, f, p);
    assert PtrOk(d0, i0, sup, f, p);
    forall q | IsLeaf(q)
      ensures Ptr(d0, i0, f, q) != b
    {
      assert OnePlace(d0, i0, f, p, f, q);
    }
    forall g, q | g in i1 && IsPath(q)
      ensures Ptr(d1, i1, g, q) != b
    {
      assert OnePlace(d0, i0, f, p, g, q);
      assert q in Below([]);
    }
  }

  /** What `IndirectBlocksLeak` says of every indirect block of the file. */
  ghost predicate IndirectLeaked(d0: seq<Block>, i0: Inodes, d1: seq<Block>, i1: Inodes, sup: Super, f: nat) {
    forall p :: IsPath(p) && !IsLeaf(p) && Ptr(d0, i0, f, p) != 0 ==>
      Used(d1, sup, Ptr(d0, i0, f, p)) && forall g, q :: g in i1 && IsPath(q) ==> Ptr(d1, i1, g, q) != Ptr(d0, i0, f, p)
  }

  lemma LeakedWhenPruned(d0: seq<Block>, i0: Inodes, d1: seq<Block>, i1: Inodes, sup: Super, f: nat)
    requires TreeOk(d0, i0, sup) && Pruned(d0, i0, d1, i1, sup, f, Below([]))
    ensures IndirectLeaked(d0, i0, d1, i1[f := i1[f].(size := 0)], sup, f)
  {
    hide Ptr, Used, Pruned, IsPath, TreeOk;
    PrunedIsTree(d0, i0, d1, i1, sup, f, Below([]));
    var i2 := i1[f := i1[f].(size := 0)];
    forall p | IsPath(p) && !IsLeaf(p) && Ptr(d0, i0, f, p) != 0
      ensures Used(d1, sup, Ptr(d0, i0, f, p)) && forall g, q :: g in i2 && IsPath(q) ==> Ptr(d1, i2, g, q) != Ptr(d0, i0, f, p)
    {
      IndirectBlocksLeak(d0, i0, d1, i1, sup, f, p);
      forall g, q | g in i2 && IsPath(q)
        ensures Ptr(d1, i2, g, q) != Ptr(d0, i0, f, p)
      {
        PtrIgnoresSize(d1, i1, i2, f, g, q);
      }
    }
  }

  // ----- Facts for the loops -----

  lemma PrunedNone(disk: seq<Block>, inos: Inodes, sup: Super, f: nat, p: seq<nat>)
    requires TreeOk(disk, inos, sup) && f in inos
    ensures Pruned(disk, inos, disk, inos, sup, f, BelowTo(p, 0))
  {
    PrunedNothing(disk, inos, sup, f, BelowTo(p, 0));
  }

  lemma PrunedIsTree(d0: seq<Block>, i0: Inodes, d1: seq<Block>, i1: Inodes, sup: Super, f: nat, r: Paths)
    requires Pruned(d0, i0, d1, i1, sup, f, r)
    ensures TreeOk(d1, i1, sup) && f in i0 && f in i1 && VolumeOk(d1, sup)
  {
  }

  lemma PrunedBelowLeaf(disk: seq<Block>, inos: Inodes, sup: Super, f: nat, p: seq<nat>)
    requires TreeOk(disk, inos, sup) && f in inos && IsLeaf(p)
    ensures Pruned(disk, inos, disk, inos, sup, f, Below(p))
  {
    forall q | q in Below(p)
      ensures !IsPath(q)
    {
      NothingBelowLeaf(p, q);
    }
    PrunedNothing(disk, inos, sup, f, Below(p));
  }

  lemma InodeSlot(disk: seq<Block>, inos: Inodes, sup: Super, f: nat, i: nat)
    requires TreeOk(disk, inos, sup) && f in inos && i < NR_PTRS
    ensures |inos[f].ptrs| == NR_PTRS && inos[f].ptrs[i] == Ptr(disk, inos, f, [i])
    ensures VolumeOk(disk, sup) && IsPath([i])
    ensures inos[f].ptrs[i] != 0 ==> InData(sup, inos[f].ptrs[i]) && Used(disk, sup, inos[f].ptrs[i])
  {
    assert IsPath([i]) && PtrOk(disk, inos, sup, f, [i]);
  }

  /** Word `i` of the indirect block at `p`, once the words before it are gone. */
  lemma SlotBelow(d0: seq<Block>, disk: seq<Block>, inos: Inodes, sup: Super, f: nat, p: seq<nat>, i: nat)
    requires TreeOk(d0, inos, sup) && Pruned(d0, inos, disk, inos, sup, f, BelowTo(p, i)) && i < PTRS_PER_INDIRECT
    requires IsPath(p) && !IsLeaf(p) && Ptr(d0, inos, f, p) != 0
    ensures TreeOk(disk, inos, sup) && VolumeOk(disk, sup)
    ensures Ptr(disk, inos, f, p) == Ptr(d0, inos, f, p) < |disk|
    ensures var q := p + [i];
            && IsPath(q) && |q| > 1 && Parent(q) == p && Last(q) == i
            && Ptr(disk, inos, f, q) == Word(disk[Ptr(disk, inos, f, p)], i)
            && (Ptr(disk, inos, f, q) != 0 ==> InData(sup, Ptr(disk, inos, f, q)) && Used(disk, sup, Ptr(disk, inos, f, q)))
  {
    hide Used, VolumeOk;
    var q := p + [i];
    assert p !in BelowTo(p, i);
    assert IsPath(q) && Parent(q) == p && Last(q) == i;
    IndirectInRange(disk, inos, sup, f, q);
    assert PtrOk(disk, inos, sup, f, q);
  }

  /** Work below a slot leaves the block above in place. */
  lemma ParentSlot(d1: seq<Block>, d2: seq<Block>, inos: Inodes, sup: Super, f: nat, p: seq<nat>, i: nat)
    requires TreeOk(d1, inos, sup) && Pruned(d1, inos, d2, inos, sup, f, Below(p + [i])) && IsPath(p)
    ensures Ptr(d2, inos, f, p) == Ptr(d1, inos, f, p)
  {
    hide Ptr, Used, TreeOk;
    assert p !in Below(p + [i]);
  }
}
