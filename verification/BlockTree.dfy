/** The block pointers of inodes and indirect blocks, addressed uniformly by paths. */
module BlockTree {
  import opened Bitmap
  import opened Devices
  import opened DiskBlocks
  import opened Words

  /** The parts of an in-core inode that matter here: the file size and `data[12]`. */
  datatype Inode = Inode(size: nat, ptrs: seq<nat>)

  const NR_PTRS := 12
  const SINGLE_INDIRECT := 9
  const DOUBLE_INDIRECT := 10
  const TRIPLE_INDIRECT := 11

  /** The length of the paths from pointer `k` of an inode to its data blocks. */
  function Height(k: nat): nat {
    if k < SINGLE_INDIRECT then 1 else k - SINGLE_INDIRECT + 2
  }

  /** A path names a block: a pointer of the inode, then a word of each indirect block. */
  predicate IsPath(p: seq<nat>) {
    0 < |p| && p[0] < NR_PTRS && |p| <= Height(p[0]) && forall i :: 0 < i < |p| ==> p[i] < PTRS_PER_INDIRECT
  }

  predicate IsLeaf(p: seq<nat>) {
    IsPath(p) && |p| == Height(p[0])
  }

  function Parent(p: seq<nat>): seq<nat>
    requires |p| > 1
  {
    p[..|p| - 1]
  }

  function Last(p: seq<nat>): nat
    requires |p| > 0
  {
    p[|p| - 1]
  }

  type Inodes = map<nat, Inode>

  /** The block that file `f` has at path `p`, zero for none. */
  ghost function Ptr(disk: seq<Block>, inos: Inodes, f: nat, p: seq<nat>): nat
    decreases |p|
  {
    if p == [] || f !in inos then 0
    else if |p| == 1 then (if p[0] < |inos[f].ptrs| then inos[f].ptrs[p[0]] else 0)
    else
      var b := Ptr(disk, inos, f, Parent(p));
      if 0 < b < |disk| && Last(p) < PTRS_PER_INDIRECT then Word(disk[b], Last(p)) else 0
  }

  ghost predicate InData(sup: Super, b: nat) {
    sup.data <= b < sup.data + sup.dataSize
  }

  /** Data block `b` is marked in the bitmap. */
  ghost predicate Used(disk: seq<Block>, sup: Super, b: nat) {
    InData(sup, b) && BitAt(disk, sup.dataBitmap, b - sup.data)
  }

  ghost predicate VolumeOk(disk: seq<Block>, sup: Super) {
    && |disk| == sup.totalBlocks < WORD_LIMIT
    && 0 < sup.data && sup.data + sup.dataSize <= |disk|
    && sup.dataBitmap + (sup.dataSize + BITS_PER_BLOCK - 1) / BITS_PER_BLOCK <= sup.data
    && BitmapOk(disk, sup.dataBitmap, sup.dataSize)
  }

  ghost predicate PtrOk(disk: seq<Block>, inos: Inodes, sup: Super, f: nat, p: seq<nat>) {
    Ptr(disk, inos, f, p) != 0 ==> InData(sup, Ptr(disk, inos, f, p)) && Used(disk, sup, Ptr(disk, inos, f, p))
  }

  /** Every block in a tree is a used data block and has one place only. */
  ghost predicate TreeOk(disk: seq<Block>, inos: Inodes, sup: Super) {
    && VolumeOk(disk, sup)
    && (forall f :: f in inos ==> |inos[f].ptrs| == NR_PTRS)
    && (forall f, p :: f in inos && IsPath(p) ==> PtrOk(disk, inos, sup, f, p))
    && (forall f, p, g, q :: f in inos && g in inos && IsPath(p) && IsPath(q) ==> OnePlace(disk, inos, f, p, g, q))
  }

  ghost predicate OnePlace(disk: seq<Block>, inos: Inodes, f: nat, p: seq<nat>, g: nat, q: seq<nat>) {
    Ptr(disk, inos, f, p) != 0 && Ptr(disk, inos, f, p) == Ptr(disk, inos, g, q) ==> f == g && p == q
  }

  lemma ParentIsPath(p: seq<nat>)
    requires IsPath(p) && |p| > 1
    ensures IsPath(Parent(p)) && !IsLeaf(Parent(p)) && Last(p) < PTRS_PER_INDIRECT && Parent(p)[0] == p[0]
  {
  }

  lemma PathEnds(p: seq<nat>, q: seq<nat>)
    requires |p| > 1 && |q| > 1 && Parent(p) == Parent(q) && Last(p) == Last(q)
    ensures p == q
  {
    assert p == Parent(p) + [Last(p)] && q == Parent(q) + [Last(q)];
  }

  // ----- Filling one empty slot -----

  /** Block `blk`, in no tree before, is entered at the empty slot `p` of file `f`; cleared if it is to hold pointers. */
  ghost predicate Entered(disk: seq<Block>, inos: Inodes, disk': seq<Block>, inos': Inodes, sup: Super, f: nat, p: seq<nat>, blk: nat)
    requires TreeOk(disk, inos, sup)
  {
    && f in inos && IsPath(p) && Ptr(disk, inos, f, p) == 0 && (|p| > 1 ==> Ptr(disk, inos, f, Parent(p)) != 0)
    && InData(sup, blk) && !Used(disk, sup, blk) && blk != 0
    && |disk'| == |disk|
    && (forall b: nat :: InData(sup, b) && b != blk && (|p| > 1 ==> b != Ptr(disk, inos, f, Parent(p))) ==> disk'[b] == disk[b])
    && (if |p| == 1 then inos' == inos[f := inos[f].(ptrs := inos[f].ptrs[p[0] := blk])]
        else
          && inos' == inos
          && var b := Ptr(disk, inos, f, Parent(p)); b < |disk| && disk'[b] == SetWord(disk[b], Last(p), blk))
    && (!IsLeaf(p) ==> disk'[blk] == ZeroBlock())
  }

  lemma {:induction false} PtrAfterEntered(disk: seq<Block>, inos: Inodes, disk': seq<Block>, inos': Inodes, sup: Super,
                                           f: nat, p: seq<nat>, blk: nat, g: nat, q: seq<nat>)
    requires TreeOk(disk, inos, sup) && Entered(disk, inos, disk', inos', sup, f, p, blk)
    requires g in inos && IsPath(q)
    ensures Ptr(disk', inos', g, q) == if g == f && q == p then blk else Ptr(disk, inos, g, q)
    decreases |q|
  {
    if |q| > 1 {
      var r := Parent(q);
      ParentIsPath(q);
      PtrAfterEntered(disk, inos, disk', inos', sup, f, p, blk, g, r);
      assert PtrOk(disk, inos, sup, g, r);
      var b := Ptr(disk, inos, g, r);
      if g == f && r == p {
        ZeroWords(Last(q));
      } else if b != 0 {
        if |p| > 1 && b == Ptr(disk, inos, f, Parent(p)) {
          ParentIsPath(p);
          assert OnePlace(disk, inos, g, r, f, Parent(p));
          WordAfterSet(disk[b], Last(p), blk, Last(q));
          if Last(q) == Last(p) { PathEnds(p, q); }
        }
      }
    }
  }

  /** The bitmap bits after `blk` is taken. */
  ghost predicate UsedPlus(disk: seq<Block>, disk': seq<Block>, sup: Super, blk: nat) {
    forall b: nat :: Used(disk', sup, b) <==> Used(disk, sup, b) || b == blk
  }

  lemma PtrOkAfterEntered(disk: seq<Block>, inos: Inodes, disk': seq<Block>, inos': Inodes, sup: Super,
                          f: nat, p: seq<nat>, blk: nat, g: nat, q: seq<nat>, h: nat, r: seq<nat>)
    requires TreeOk(disk, inos, sup) && Entered(disk, inos, disk', inos', sup, f, p, blk) && UsedPlus(disk, disk', sup, blk)
    requires g in inos && IsPath(q) && h in inos && IsPath(r)
    ensures PtrOk(disk', inos', sup, g, q) && OnePlace(disk', inos', g, q, h, r)
  {
    hide Ptr, Used, Entered;
    PtrAfterEntered(disk, inos, disk', inos', sup, f, p, blk, g, q);
    PtrAfterEntered(disk, inos, disk', inos', sup, f, p, blk, h, r);
    assert PtrOk(disk, inos, sup, g, q) && PtrOk(disk, inos, sup, h, r) && OnePlace(disk, inos, g, q, h, r);
    assert !Used(disk, sup, blk) && InData(sup, blk) by { FactsOfEntered(disk, inos, disk', inos', sup, f, p, blk); }
  }

  lemma FactsOfEntered(disk: seq<Block>, inos: Inodes, disk': seq<Block>, inos': Inodes, sup: Super, f: nat, p: seq<nat>, blk: nat)
    requires TreeOk(disk, inos, sup) && Entered(disk, inos, disk', inos', sup, f, p, blk)
    ensures !Used(disk, sup, blk) && InData(sup, blk) && f in inos && IsPath(p)
    ensures inos'.Keys == inos.Keys
    ensures forall g :: g in inos ==> |inos'[g].ptrs| == NR_PTRS && inos'[g].size == inos[g].size
  {
  }

  lemma TreeAfterEntered(disk: seq<Block>, inos: Inodes, disk': seq<Block>, inos': Inodes, sup: Super, f: nat, p: seq<nat>, blk: nat)
    requires TreeOk(disk, inos, sup) && Entered(disk, inos, disk', inos', sup, f, p, blk) && UsedPlus(disk, disk', sup, blk)
    requires VolumeOk(disk', sup)
    ensures TreeOk(disk', inos', sup)
  {
    hide Ptr, Used, Entered, VolumeOk, PtrOk, OnePlace, UsedPlus, IsPath;
    FactsOfEntered(disk, inos, disk', inos', sup, f, p, blk);
    forall g, q | g in inos' && IsPath(q)
      ensures PtrOk(disk', inos', sup, g, q)
    {
      PtrOkAfterEntered(disk, inos, disk', inos', sup, f, p, blk, g, q, g, q);
    }
    forall g, q, h, r | g in inos' && h in inos' && IsPath(q) && IsPath(r)
      ensures OnePlace(disk', inos', g, q, h, r)
    {
      PtrOkAfterEntered(disk, inos, disk', inos', sup, f, p, blk, g, q, h, r);
    }
  }

  // ----- What growing a tree leaves alone -----

  /** Between two states trees only gained blocks, and no data block except that of `(f, p)`
      was mapped anew: the other data blocks keep their places and their contents. */
  ghost predicate Grew(disk: seq<Block>, inos: Inodes, disk': seq<Block>, inos': Inodes, sup: Super, f: nat, p: seq<nat>) {
    && inos'.Keys == inos.Keys
    && (forall g :: g in inos ==> inos'[g].size == inos[g].size)
    && (forall g, q :: g in inos && IsLeaf(q) && !(g == f && q == p) ==> Ptr(disk', inos', g, q) == Ptr(disk, inos, g, q))
    && (forall g, q :: g in inos && IsPath(q) && Ptr(disk, inos, g, q) != 0 ==> Ptr(disk', inos', g, q) == Ptr(disk, inos, g, q))
    && (forall g, q :: g in inos && IsLeaf(q) ==> LeafKept(disk, inos, disk', g, q))
    && (forall b: nat :: Used(disk, sup, b) ==> Used(disk', sup, b))
    && (forall b: nat :: Used(disk', sup, b) && !Used(disk, sup, b) ==> HeldBy(disk', inos', f, b))
  }

  /** Block `b` is somewhere in the tree of file `f`. */
  ghost predicate HeldBy(disk: seq<Block>, inos: Inodes, f: nat, b: nat) {
    b != 0 && exists q :: IsPath(q) && Ptr(disk, inos, f, q) == b
  }

  ghost predicate LeafKept(disk: seq<Block>, inos: Inodes, disk': seq<Block>, g: nat, q: seq<nat>) {
    var b := Ptr(disk, inos, g, q);
    b != 0 && b < |disk| ==> b < |disk'| && disk'[b] == disk[b]
  }

  lemma GrewNothing(disk: seq<Block>, inos: Inodes, sup: Super, f: nat, p: seq<nat>)
    ensures Grew(disk, inos, disk, inos, sup, f, p)
  {
  }

  lemma LeafKeptWhenEntered(disk: seq<Block>, inos: Inodes, disk': seq<Block>, inos': Inodes, sup: Super,
                            f: nat, p: seq<nat>, blk: nat, g: nat, q: seq<nat>)
    requires TreeOk(disk, inos, sup) && Entered(disk, inos, disk', inos', sup, f, p, blk)
    requires g in inos && IsLeaf(q)
    ensures LeafKept(disk, inos, disk', g, q)
  {
    assert PtrOk(disk, inos, sup, g, q);
    if |p| > 1 {
      ParentIsPath(p);
      assert OnePlace(disk, inos, g, q, f, Parent(p));
    }
  }

  /** Entering a block on the way to leaf `p`, or at the leaf itself, is a growth towards `p`. */
  lemma GrewByEntering(disk: seq<Block>, inos: Inodes, disk': seq<Block>, inos': Inodes, sup: Super, f: nat, prefix: seq<nat>, blk: nat, p: seq<nat>)
    requires TreeOk(disk, inos, sup) && Entered(disk, inos, disk', inos', sup, f, prefix, blk) && UsedPlus(disk, disk', sup, blk)
    requires IsLeaf(prefix) ==> prefix == p
    ensures Grew(disk, inos, disk', inos', sup, f, p)
  {
    hide Ptr, Used, Entered, VolumeOk, PtrOk, OnePlace, IsPath, LeafKept, TreeOk;
    FactsOfEntered(disk, inos, disk', inos', sup, f, prefix, blk);
    EmptyBeforeEntered(disk, inos, disk', inos', sup, f, prefix, blk);
    forall g, q | g in inos && IsPath(q)
      ensures Ptr(disk', inos', g, q) == if g == f && q == prefix then blk else Ptr(disk, inos, g, q)
    {
      PtrAfterEntered(disk, inos, disk', inos', sup, f, prefix, blk, g, q);
    }
    forall g, q | g in inos && IsLeaf(q)
      ensures LeafKept(disk, inos, disk', g, q)
    {
      LeafKeptWhenEntered(disk, inos, disk', inos', sup, f, prefix, blk, g, q);
    }
    assert HeldBy(disk', inos', f, blk) by {
      assert IsPath(prefix) && Ptr(disk', inos', f, prefix) == blk;
    }
  }

  lemma EmptyBeforeEntered(disk: seq<Block>, inos: Inodes, disk': seq<Block>, inos': Inodes, sup: Super, f: nat, p: seq<nat>, blk: nat)
    requires TreeOk(disk, inos, sup) && Entered(disk, inos, disk', inos', sup, f, p, blk)
    ensures Ptr(disk, inos, f, p) == 0 && IsPath(p) && f in inos && blk != 0
  {
  }

  lemma OnlyOfFiles(disk: seq<Block>, inos: Inodes, f: nat, q: seq<nat>)
    requires Ptr(disk, inos, f, q) != 0
    ensures f in inos
  {
  }

  /** No file has lost a block, and whatever came into use is in the tree of file `f`. */
  ghost predicate NoneLost(d0: seq<Block>, i0: Inodes, d1: seq<Block>, i1: Inodes, sup: Super, f: nat) {
    && (forall g, q :: IsPath(q) && Ptr(d0, i0, g, q) != 0 ==> Ptr(d1, i1, g, q) == Ptr(d0, i0, g, q))
    && (forall b: nat :: Used(d0, sup, b) ==> Used(d1, sup, b))
    && (forall b: nat :: Used(d1, sup, b) && !Used(d0, sup, b) ==> HeldBy(d1, i1, f, b))
  }

  lemma NoneLostGrowing(d0: seq<Block>, i0: Inodes, d1: seq<Block>, i1: Inodes, sup: Super, f: nat, p: seq<nat>)
    requires Grew(d0, i0, d1, i1, sup, f, p)
    ensures NoneLost(d0, i0, d1, i1, sup, f)
  {
    hide Used, IsPath, IsLeaf;
    forall g, q | IsPath(q) && Ptr(d0, i0, g, q) != 0
      ensures Ptr(d1, i1, g, q) == Ptr(d0, i0, g, q)
    {
      OnlyOfFiles(d0, i0, g, q);
    }
  }

  lemma NoneLostNothing(disk: seq<Block>, inos: Inodes, sup: Super, f: nat)
    ensures NoneLost(disk, inos, disk, inos, sup, f)
  {
  }

  lemma NoneLostTwice(d0: seq<Block>, i0: Inodes, d1: seq<Block>, i1: Inodes, d2: seq<Block>, i2: Inodes, sup: Super, f: nat)
    requires NoneLost(d0, i0, d1, i1, sup, f) && NoneLost(d1, i1, d2, i2, sup, f)
    ensures NoneLost(d0, i0, d2, i2, sup, f)
  {
    hide Ptr, Used, IsPath;
    forall b: nat | Used(d2, sup, b) && !Used(d0, sup, b)
      ensures HeldBy(d2, i2, f, b)
    {
      if Used(d1, sup, b) {
        var q :| IsPath(q) && Ptr(d1, i1, f, q) == b;
        assert Ptr(d2, i2, f, q) == b;
      }
    }
  }

  /** The same pointers and the same bitmap. */
  lemma NoneLostAlike(d0: seq<Block>, i0: Inodes, d1: seq<Block>, i1: Inodes, d2: seq<Block>, i2: Inodes, sup: Super, f: nat)
    requires NoneLost(d0, i0, d1, i1, sup, f)
    requires forall g, q :: IsPath(q) ==> Ptr(d2, i2, g, q) == Ptr(d1, i1, g, q)
    requires forall b: nat :: Used(d2, sup, b) <==> Used(d1, sup, b)
    ensures NoneLost(d0, i0, d2, i2, sup, f)
  {
    hide Ptr, Used, IsPath;
    forall b: nat | Used(d2, sup, b) && !Used(d0, sup, b)
      ensures HeldBy(d2, i2, f, b)
    {
      var q :| IsPath(q) && Ptr(d1, i1, f, q) == b;
      assert Ptr(d2, i2, f, q) == b;
    }
  }

  lemma GrewTwice(d0: seq<Block>, i0: Inodes, d1: seq<Block>, i1: Inodes, d2: seq<Block>, i2: Inodes, sup: Super, f: nat, p: seq<nat>)
    requires TreeOk(d0, i0, sup) && TreeOk(d1, i1, sup)
    requires Grew(d0, i0, d1, i1, sup, f, p) && Grew(d1, i1, d2, i2, sup, f, p)
    ensures Grew(d0, i0, d2, i2, sup, f, p)
  {
    hide Ptr, Used, VolumeOk, OnePlace, BitAt;
    forall g, q | g in i0 && IsLeaf(q)
      ensures LeafKept(d0, i0, d2, g, q)
    {
      assert LeafKept(d0, i0, d1, g, q) && LeafKept(d1, i1, d2, g, q);
      assert PtrOk(d0, i0, sup, g, q);
    }
    forall b: nat | Used(d2, sup, b) && !Used(d0, sup, b)
      ensures HeldBy(d2, i2, f, b)
    {
      if Used(d1, sup, b) {
        var q :| IsPath(q) && Ptr(d1, i1, f, q) == b;
        OnlyOfFiles(d1, i1, f, q);
        assert Ptr(d2, i2, f, q) == b;
      }
    }
  }
}
