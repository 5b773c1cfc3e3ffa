/** inode.c:261-428: from the logical blocks of a file to blocks of the device. */
module FileBlocks {
  import opened Bitmap
  import opened BlockTree
  import opened Devices
  import opened DiskBlocks
  import opened Words

  const PTRS2 := PTRS_PER_INDIRECT * PTRS_PER_INDIRECT
  const PTRS3 := PTRS_PER_INDIRECT * PTRS_PER_INDIRECT * PTRS_PER_INDIRECT
  const FIRST_DOUBLE := SINGLE_INDIRECT + PTRS_PER_INDIRECT
  const FIRST_TRIPLE := FIRST_DOUBLE + PTRS2
  /** The number of logical blocks that a file can have. */
  const MAX_FILE_BLOCKS := FIRST_TRIPLE + PTRS3

  /** The path to logical block `n`. */
  function LeafPath(n: nat): seq<nat>
    requires n < MAX_FILE_BLOCKS
  {
    if n < SINGLE_INDIRECT then [n]
    else if n < FIRST_DOUBLE then [SINGLE_INDIRECT, n - SINGLE_INDIRECT]
    else if n < FIRST_TRIPLE then [DOUBLE_INDIRECT, (n - FIRST_DOUBLE) / PTRS_PER_INDIRECT, (n - FIRST_DOUBLE) % PTRS_PER_INDIRECT]
    else [TRIPLE_INDIRECT, (n - FIRST_TRIPLE) / PTRS2, (n - FIRST_TRIPLE) / PTRS_PER_INDIRECT % PTRS_PER_INDIRECT, (n - FIRST_TRIPLE) % PTRS_PER_INDIRECT]
  }

  lemma LeafPathIsLeaf(n: nat)
    requires n < MAX_FILE_BLOCKS
    ensures IsLeaf(LeafPath(n))
  {
  }

  /** Distinct logical blocks have distinct paths, and every leaf path is that of a logical block. */
  lemma LeafPathInjective(m: nat, n: nat)
    requires m < MAX_FILE_BLOCKS && n < MAX_FILE_BLOCKS && LeafPath(m) == LeafPath(n)
    ensures m == n
  {
    var p, q := LeafPath(m), LeafPath(n);
    assert |p| == |q| && p[0] == q[0];
    if |p| > 1 { assert p[1] == q[1]; }
    if |p| > 2 { assert p[2] == q[2]; }
    if |p| > 3 {
      assert p[3] == q[3];
      DigitsAgree(m - FIRST_TRIPLE, n - FIRST_TRIPLE);
    }
  }

  lemma DigitsAgree(a: nat, b: nat)
    requires a / PTRS2 == b / PTRS2 && a / PTRS_PER_INDIRECT % PTRS_PER_INDIRECT == b / PTRS_PER_INDIRECT % PTRS_PER_INDIRECT
    requires a % PTRS_PER_INDIRECT == b % PTRS_PER_INDIRECT
    ensures a == b
  {
    assert a / PTRS2 == a / PTRS_PER_INDIRECT / PTRS_PER_INDIRECT;
    assert b / PTRS2 == b / PTRS_PER_INDIRECT / PTRS_PER_INDIRECT;
  }

  /** The device block of logical block `n`, zero for a hole. */
  ghost function BlockOf(disk: seq<Block>, inos: Inodes, f: nat, n: nat): nat
    requires n < MAX_FILE_BLOCKS
  {
    Ptr(disk, inos, f, LeafPath(n))
  }

  // ----- The bitmap and the trees -----

  lemma UsedAfterSet(disk: seq<Block>, sup: Super, b: nat, on: bool, c: nat)
    requires VolumeOk(disk, sup) && InData(sup, b)
    ensures sup.dataBitmap + (b - sup.data) / BITS_PER_BLOCK < sup.data
    ensures Used(WithBitAt(disk, sup.dataBitmap, b - sup.data, on), sup, c) <==> if c == b then on else Used(disk, sup, c)
  {
    BitInRange(disk, sup.dataBitmap, sup.dataSize, b - sup.data);
    hide WithBitAt, BitAt;
    if sup.data <= c {
      BitAtAfterSet(disk, sup.dataBitmap, b - sup.data, on, c - sup.data);
    }
  }

  lemma VolumeAfterSet(disk: seq<Block>, sup: Super, b: nat, on: bool)
    requires VolumeOk(disk, sup) && InData(sup, b)
    ensures sup.dataBitmap + (b - sup.data) / BITS_PER_BLOCK < sup.data
    ensures VolumeOk(WithBitAt(disk, sup.dataBitmap, b - sup.data, on), sup)
  {
    BitmapStaysOk(disk, sup.dataBitmap, sup.dataSize, b - sup.data, on);
  }

  /** Writing to data blocks does not touch the bitmap. */
  lemma BitmapApart(disk: seq<Block>, disk': seq<Block>, sup: Super)
    requires VolumeOk(disk, sup) && |disk'| == |disk| && forall b: nat :: b < sup.data ==> disk'[b] == disk[b]
    ensures VolumeOk(disk', sup)
    ensures forall b: nat :: Used(disk', sup, b) <==> Used(disk, sup, b)
  {
    forall b: nat | InData(sup, b)
      ensures Used(disk', sup, b) <==> Used(disk, sup, b)
    {
      BitInRange(disk, sup.dataBitmap, sup.dataSize, b - sup.data);
    }
    forall n | sup.dataSize <= n < RoundUp32(sup.dataSize)
      ensures BitAt(disk', sup.dataBitmap, n)
    {
      PaddingInRange(disk, sup, n);
    }
  }

  lemma PaddingInRange(disk: seq<Block>, sup: Super, n: nat)
    requires VolumeOk(disk, sup) && sup.dataSize <= n < RoundUp32(sup.dataSize)
    ensures BitAt(disk, sup.dataBitmap, n) && sup.dataBitmap + n / BITS_PER_BLOCK < sup.data
  {
  }

  // ----- One level of the tree -----

  /** A step of the walk: slot `p` of file `f` holds `blk` afterwards; the trees only grew, towards leaf `leaf`. */
  ghost predicate Resolved(disk: seq<Block>, inos: Inodes, disk': seq<Block>, inos': Inodes, sup: Super,
                           f: nat, p: seq<nat>, leaf: seq<nat>, create: bool, blk: nat) {
    && TreeOk(disk', inos', sup)
    && Grew(disk, inos, disk', inos', sup, f, leaf)
    && OnlySlot(disk, inos, disk', inos', f, p)
    && f in inos' && blk == Ptr(disk', inos', f, p)
    && (!create || Ptr(disk, inos, f, p) != 0 ==> disk' == disk && inos' == inos)
    && (create && Ptr(disk, inos, f, p) == 0 && blk != 0 ==> !Used(disk, sup, blk))
    && (create && blk == 0 ==> NoneFree(disk', sup))
  }

  /** No slot but `p` of file `f` holds a different block. */
  ghost predicate OnlySlot(disk: seq<Block>, inos: Inodes, disk': seq<Block>, inos': Inodes, f: nat, p: seq<nat>) {
    forall g, q :: g in inos && IsPath(q) && !(g == f && q == p) ==> Ptr(disk', inos', g, q) == Ptr(disk, inos, g, q)
  }

  lemma OnlySlotEntered(disk: seq<Block>, inos: Inodes, disk': seq<Block>, inos': Inodes, sup: Super, f: nat, p: seq<nat>, blk: nat)
    requires TreeOk(disk, inos, sup) && Entered(disk, inos, disk', inos', sup, f, p, blk)
    ensures OnlySlot(disk, inos, disk', inos', f, p)
  {
    hide Ptr, Entered, TreeOk, IsPath;
    forall g, q | g in inos && IsPath(q) && !(g == f && q == p)
      ensures Ptr(disk', inos', g, q) == Ptr(disk, inos, g, q)
    {
      PtrAfterEntered(disk, inos, disk', inos', sup, f, p, blk, g, q);
    }
  }

  /** Every data block is in use. */
  ghost predicate NoneFree(disk: seq<Block>, sup: Super) {
    forall b: nat :: InData(sup, b) ==> Used(disk, sup, b)
  }

  /** What a successful `alloc_block` does to the disk. */
  ghost predicate Allocated(disk: seq<Block>, disk': seq<Block>, sup: Super, blk: nat) {
    && VolumeOk(disk', sup) && InData(sup, blk) && blk != 0 && !Used(disk, sup, blk) && UsedPlus(disk, disk', sup, blk)
    && |disk'| == |disk| && (forall b: nat :: sup.data <= b < |disk| ==> disk'[b] == disk[b])
  }

  lemma AllocatedBySet(disk: seq<Block>, sup: Super, blk: nat)
    requires VolumeOk(disk, sup) && InData(sup, blk) && !Used(disk, sup, blk)
    ensures sup.dataBitmap + (blk - sup.data) / BITS_PER_BLOCK < sup.data
    ensures Allocated(disk, WithBitAt(disk, sup.dataBitmap, blk - sup.data, true), sup, blk)
  {
    VolumeAfterSet(disk, sup, blk, true);
    forall b: nat
      ensures Used(WithBitAt(disk, sup.dataBitmap, blk - sup.data, true), sup, b) <==> Used(disk, sup, b) || b == blk
    {
      UsedAfterSet(disk, sup, blk, true, b);
    }
  }

  lemma FullWhenAllSet(disk: seq<Block>, sup: Super)
    requires AllSet(disk, sup.dataBitmap, sup.dataSize)
    ensures NoneFree(disk, sup)
  {
  }

  /** Allocation, then writes to data blocks: the bitmap has gained `blk` and nothing else. */
  lemma AllocatedThenWritten(disk: seq<Block>, mid: seq<Block>, disk': seq<Block>, sup: Super, blk: nat)
    requires VolumeOk(disk, sup) && Allocated(disk, mid, sup, blk)
    requires |disk'| == |mid| && forall b: nat :: b < sup.data ==> disk'[b] == mid[b]
    ensures VolumeOk(disk', sup) && UsedPlus(disk, disk', sup, blk)
  {
    BitmapApart(mid, disk', sup);
  }

  /** A pointer of the inode is filled with a new block. */
  lemma EnteredInInode(disk: seq<Block>, mid: seq<Block>, disk': seq<Block>, inos: Inodes, sup: Super, f: nat, k: nat, blk: nat, leaf: seq<nat>)
    requires TreeOk(disk, inos, sup) && f in inos && k < NR_PTRS && inos[f].ptrs[k] == 0 && Allocated(disk, mid, sup, blk)
    requires disk' == if k < SINGLE_INDIRECT then mid else mid[blk := ZeroBlock()]
    requires k < SINGLE_INDIRECT ==> leaf == [k]
    ensures var inos' := inos[f := inos[f].(ptrs := inos[f].ptrs[k := blk])];
            Resolved(disk, inos, disk', inos', sup, f, [k], leaf, true, blk)
  {
    var inos' := inos[f := inos[f].(ptrs := inos[f].ptrs[k := blk])];
    EnteredIsInode(disk, mid, disk', inos, sup, f, k, blk);
    AllocatedThenWritten(disk, mid, disk', sup, blk);
    TreeAfterEntered(disk, inos, disk', inos', sup, f, [k], blk);
    OnlySlotEntered(disk, inos, disk', inos', sup, f, [k], blk);
    GrewByEntering(disk, inos, disk', inos', sup, f, [k], blk, leaf);
  }

  lemma EnteredIsInode(disk: seq<Block>, mid: seq<Block>, disk': seq<Block>, inos: Inodes, sup: Super, f: nat, k: nat, blk: nat)
    requires TreeOk(disk, inos, sup) && f in inos && k < NR_PTRS && inos[f].ptrs[k] == 0 && Allocated(disk, mid, sup, blk)
    requires disk' == if k < SINGLE_INDIRECT then mid else mid[blk := ZeroBlock()]
    ensures Entered(disk, inos, disk', inos[f := inos[f].(ptrs := inos[f].ptrs[k := blk])], sup, f, [k], blk)
  {
  }

  /** A word of an indirect block is filled with a new block. */
  lemma EnteredInIndirect(disk: seq<Block>, mid: seq<Block>, disk': seq<Block>, inos: Inodes, sup: Super, f: nat, p: seq<nat>, blk: nat, leaf: seq<nat>)
    requires TreeOk(disk, inos, sup) && f in inos && IsPath(p) && |p| > 1 && Allocated(disk, mid, sup, blk)
    requires var ind := Ptr(disk, inos, f, Parent(p));
             && 0 < ind < |disk| && Word(disk[ind], Last(p)) == 0
             && disk' == if IsLeaf(p) then mid[ind := SetWord(mid[ind], Last(p), blk)]
                         else mid[ind := SetWord(mid[ind], Last(p), blk)][blk := ZeroBlock()]
    requires IsLeaf(p) ==> leaf == p
    ensures Resolved(disk, inos, disk', inos, sup, f, p, leaf, true, blk)
  {
    hide Ptr, PtrOk, OnePlace, Entered, Used, UsedPlus, Grew, OnlySlot;
    EnteredIsIndirect(disk, mid, disk', inos, sup, f, p, blk);
    AllocatedThenWritten(disk, mid, disk', sup, blk);
    TreeAfterEntered(disk, inos, disk', inos, sup, f, p, blk);
    OnlySlotEntered(disk, inos, disk', inos, sup, f, p, blk);
    GrewByEntering(disk, inos, disk', inos, sup, f, p, blk, leaf);
    PtrAfterEntered(disk, inos, disk', inos, sup, f, p, blk, f, p);
    EmptyBeforeEntered(disk, inos, disk', inos, sup, f, p, blk);
    FactsOfEntered(disk, inos, disk', inos, sup, f, p, blk);
  }

  lemma EnteredIsIndirect(disk: seq<Block>, mid: seq<Block>, disk': seq<Block>, inos: Inodes, sup: Super, f: nat, p: seq<nat>, blk: nat)
    requires TreeOk(disk, inos, sup) && f in inos && IsPath(p) && |p| > 1 && Allocated(disk, mid, sup, blk)
    requires var ind := Ptr(disk, inos, f, Parent(p));
             && 0 < ind < |disk| && Word(disk[ind], Last(p)) == 0
             && disk' == if IsLeaf(p) then mid[ind := SetWord(mid[ind], Last(p), blk)]
                         else mid[ind := SetWord(mid[ind], Last(p), blk)][blk := ZeroBlock()]
    ensures Entered(disk, inos, disk', inos, sup, f, p, blk)
    ensures forall b: nat :: b < sup.data ==> disk'[b] == mid[b]
  {
    ParentIsPath(p);
    assert PtrOk(disk, inos, sup, f, Parent(p));
  }

  lemma BlockInRange(disk: seq<Block>, disk': seq<Block>, sup: Super, blk: nat)
    requires VolumeOk(disk, sup) && Allocated(disk, disk', sup, blk)
    ensures blk < |disk'| == |disk| && blk < WORD_LIMIT
  {
  }

  lemma IndirectInRange(disk: seq<Block>, inos: Inodes, sup: Super, f: nat, p: seq<nat>)
    requires TreeOk(disk, inos, sup) && f in inos && IsPath(p) && |p| > 1 && Ptr(disk, inos, f, Parent(p)) != 0
    ensures Ptr(disk, inos, f, Parent(p)) < |disk|
    ensures Ptr(disk, inos, f, p) == Word(disk[Ptr(disk, inos, f, Parent(p))], Last(p))
  {
    ParentIsPath(p);
    assert PtrOk(disk, inos, sup, f, Parent(p));
  }

  lemma PointsInRange(disk: seq<Block>, inos: Inodes, sup: Super, f: nat, p: seq<nat>)
    requires TreeOk(disk, inos, sup) && f in inos && IsPath(p) && Ptr(disk, inos, f, p) != 0
    ensures Ptr(disk, inos, f, p) < |disk|
  {
    assert PtrOk(disk, inos, sup, f, p);
  }

  // ----- Several levels -----

  /** The walk from `(disk, inos)` has got as far as path `p`, which holds `blk` in the present state. */
  ghost predicate Reached(disk: seq<Block>, inos: Inodes, disk': seq<Block>, inos': Inodes, sup: Super,
                          f: nat, p: seq<nat>, leaf: seq<nat>, create: bool, blk: nat) {
    && f in inos' && blk == Ptr(disk', inos', f, p)
    && Grew(disk, inos, disk', inos', sup, f, leaf)
    && (!create || Ptr(disk, inos, f, p) != 0 ==> disk' == disk && inos' == inos)
    && (Ptr(disk, inos, f, p) == 0 && blk != 0 ==> !Used(disk, sup, blk))
    && (create && blk == 0 ==> NoneFree(disk', sup))
    && BelowKept(disk, inos, disk', inos', f, p)
  }

  /** The slots of file `f` below path `p` are as before. */
  ghost predicate BelowKept(disk: seq<Block>, inos: Inodes, disk': seq<Block>, inos': Inodes, f: nat, p: seq<nat>) {
    forall q :: IsPath(q) && |p| < |q| && p == q[..|p|] ==> Ptr(disk', inos', f, q) == Ptr(disk, inos, f, q)
  }

  lemma BelowParent(p: seq<nat>, q: seq<nat>)
    requires |p| > 1 && |p| <= |q| && p == q[..|p|]
    ensures Parent(p) == q[..|p| - 1]
  {
  }

  lemma BelowStep(d0: seq<Block>, i0: Inodes, d1: seq<Block>, i1: Inodes, d2: seq<Block>, i2: Inodes, f: nat, p: seq<nat>)
    requires |p| > 1 && IsPath(p) && f in i1 && BelowKept(d0, i0, d1, i1, f, Parent(p)) && OnlySlot(d1, i1, d2, i2, f, p)
    ensures Ptr(d1, i1, f, p) == Ptr(d0, i0, f, p)
    ensures BelowKept(d0, i0, d2, i2, f, p)
  {
    hide Ptr;
    BelowParent(p, p);
    forall q | IsPath(q) && |p| < |q| && p == q[..|p|]
      ensures Ptr(d2, i2, f, q) == Ptr(d0, i0, f, q)
    {
      BelowParent(p, q);
    }
  }

  lemma BelowStays(d0: seq<Block>, i0: Inodes, d1: seq<Block>, i1: Inodes, f: nat, p: seq<nat>)
    requires |p| > 1 && BelowKept(d0, i0, d1, i1, f, Parent(p))
    ensures BelowKept(d0, i0, d1, i1, f, p)
  {
    hide Ptr;
    forall q | IsPath(q) && |p| < |q| && p == q[..|p|]
      ensures Ptr(d1, i1, f, q) == Ptr(d0, i0, f, q)
    {
      BelowParent(p, q);
    }
  }

  lemma ReachedFirst(disk: seq<Block>, inos: Inodes, disk': seq<Block>, inos': Inodes, sup: Super,
                     f: nat, p: seq<nat>, leaf: seq<nat>, create: bool, blk: nat)
    requires f in inos && Resolved(disk, inos, disk', inos', sup, f, p, leaf, create, blk)
    ensures Reached(disk, inos, disk', inos', sup, f, p, leaf, create, blk)
  {
  }

  lemma ReachedHasFile(disk: seq<Block>, inos: Inodes, disk': seq<Block>, inos': Inodes, sup: Super,
                       f: nat, p: seq<nat>, leaf: seq<nat>, create: bool, blk: nat)
    requires Reached(disk, inos, disk', inos', sup, f, p, leaf, create, blk)
    ensures f in inos'
  {
  }

  lemma NoBlockBelow(disk: seq<Block>, inos: Inodes, f: nat, p: seq<nat>)
    requires |p| > 1 && Ptr(disk, inos, f, Parent(p)) == 0
    ensures Ptr(disk, inos, f, p) == 0
  {
  }

  lemma ReachedNowhere(d0: seq<Block>, i0: Inodes, d1: seq<Block>, i1: Inodes, sup: Super,
                       f: nat, p: seq<nat>, leaf: seq<nat>, create: bool)
    requires |p| > 1 && Reached(d0, i0, d1, i1, sup, f, Parent(p), leaf, create, 0)
    ensures Reached(d0, i0, d1, i1, sup, f, p, leaf, create, 0)
  {
    hide Grew, BelowKept, NoneFree;
    BelowStays(d0, i0, d1, i1, f, p);
  }

  lemma ReachedFurther(d0: seq<Block>, i0: Inodes, d1: seq<Block>, i1: Inodes, d2: seq<Block>, i2: Inodes, sup: Super,
                       f: nat, p: seq<nat>, leaf: seq<nat>, create: bool, ind: nat, blk: nat)
    requires TreeOk(d0, i0, sup) && TreeOk(d1, i1, sup) && IsPath(p) && |p| > 1
    requires Reached(d0, i0, d1, i1, sup, f, Parent(p), leaf, create, ind)
    requires Resolved(d1, i1, d2, i2, sup, f, p, leaf, create, blk)
    ensures Reached(d0, i0, d2, i2, sup, f, p, leaf, create, blk)
  {
    hide OnePlace, PtrOk, LeafKept, VolumeOk, NoneFree, OnlySlot, BelowKept, Ptr;
    if Ptr(d0, i0, f, Parent(p)) == 0 {
      NoBlockBelow(d0, i0, f, p);
    }
    BelowStep(d0, i0, d1, i1, d2, i2, f, p);
    GrewTwice(d0, i0, d1, i1, d2, i2, sup, f, leaf);
  }
}
