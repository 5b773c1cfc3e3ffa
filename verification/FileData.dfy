/** The flat byte array that a file stands for, and what writing a data block does to it. */
module FileData {
  import opened BlockTree
  import opened Devices
  import opened DiskBlocks
  import opened FileBlocks
  import opened Words

  lemma SizesInRange(i: nat)
    requires i < WORD_LIMIT
    ensures i / FS_BLKSIZ < MAX_FILE_BLOCKS
  {
  }

  /** Byte `i` of file `f`; holes read as zero. */
  ghost function ByteAt(disk: seq<Block>, inos: Inodes, f: nat, i: nat): byte {
    if i / FS_BLKSIZ < MAX_FILE_BLOCKS then
      var b := BlockOf(disk, inos, f, i / FS_BLKSIZ);
      if 0 < b < |disk| then disk[b][i % FS_BLKSIZ] else 0
    else 0
  }

  /** The file as a flat byte array. */
  ghost function Contents(disk: seq<Block>, inos: Inodes, f: nat): (s: seq<byte>)
    requires f in inos
    ensures |s| == inos[f].size && forall i :: 0 <= i < |s| ==> s[i] == ByteAt(disk, inos, f, i)
  {
    seq(inos[f].size, i requires 0 <= i < inos[f].size => ByteAt(disk, inos, f, i))
  }

  /** Every block below the size exists. */
  ghost predicate HoleFree(disk: seq<Block>, inos: Inodes, f: nat) {
    f in inos && inos[f].size < WORD_LIMIT
    && forall n: nat :: n * FS_BLKSIZ < inos[f].size ==> n < MAX_FILE_BLOCKS && BlockOf(disk, inos, f, n) != 0
  }

  /** Distinct mapped logical blocks, of one file or of two, are distinct blocks of the device. */
  lemma BlocksInjective(disk: seq<Block>, inos: Inodes, sup: Super, f: nat, m: nat, g: nat, n: nat)
    requires TreeOk(disk, inos, sup) && f in inos && g in inos && m < MAX_FILE_BLOCKS && n < MAX_FILE_BLOCKS
    requires BlockOf(disk, inos, f, m) != 0 && BlockOf(disk, inos, f, m) == BlockOf(disk, inos, g, n)
    ensures f == g && m == n
    ensures Used(disk, sup, BlockOf(disk, inos, f, m))
  {
    LeafPathIsLeaf(m);
    LeafPathIsLeaf(n);
    assert OnePlace(disk, inos, f, LeafPath(m), g, LeafPath(n)) && PtrOk(disk, inos, sup, f, LeafPath(m));
    LeafPathInjective(m, n);
  }

  // ----- Writing a data block -----

  /** The trees do not run through data blocks. */
  lemma {:induction false} PtrAfterWrite(disk: seq<Block>, inos: Inodes, sup: Super, f: nat, p: seq<nat>, data: Block, g: nat, q: seq<nat>)
    requires TreeOk(disk, inos, sup) && f in inos && IsLeaf(p) && 0 < Ptr(disk, inos, f, p) < |disk|
    requires g in inos && IsPath(q)
    ensures Ptr(disk[Ptr(disk, inos, f, p) := data], inos, g, q) == Ptr(disk, inos, g, q)
    decreases |q|
  {
    if |q| > 1 {
      ParentIsPath(q);
      PtrAfterWrite(disk, inos, sup, f, p, data, g, Parent(q));
      assert OnePlace(disk, inos, f, p, g, Parent(q));
    }
  }

  lemma TreeAfterWrite(disk: seq<Block>, inos: Inodes, sup: Super, f: nat, p: seq<nat>, data: Block)
    requires TreeOk(disk, inos, sup) && f in inos && IsLeaf(p) && Ptr(disk, inos, f, p) != 0
    ensures sup.data <= Ptr(disk, inos, f, p) < |disk|
    ensures TreeOk(disk[Ptr(disk, inos, f, p) := data], inos, sup)
  {
    hide Ptr, IsPath, LeafPath;
    assert PtrOk(disk, inos, sup, f, p);
    var disk' := disk[Ptr(disk, inos, f, p) := data];
    BitmapApart(disk, disk', sup);
    forall g, q | g in inos && IsPath(q)
      ensures PtrOk(disk', inos, sup, g, q)
    {
      PtrAfterWrite(disk, inos, sup, f, p, data, g, q);
      assert PtrOk(disk, inos, sup, g, q);
    }
    forall g, q, h, r | g in inos && h in inos && IsPath(q) && IsPath(r)
      ensures OnePlace(disk', inos, g, q, h, r)
    {
      PtrAfterWrite(disk, inos, sup, f, p, data, g, q);
      PtrAfterWrite(disk, inos, sup, f, p, data, h, r);
      assert OnePlace(disk, inos, g, q, h, r);
    }
  }

  /** `memcpy(&data[off], chunk, |chunk|)` */
  function Splice(b: Block, off: nat, chunk: seq<byte>): Block
    requires off + |chunk| <= FS_BLKSIZ
  {
    b[..off] + chunk + b[off + |chunk|..]
  }

  /** Mapping a block, then writing `chunk` into it: every other byte of every file is as before,
      except in the rest of a block that is new. */
  lemma ByteAfterChunk(d0: seq<Block>, i0: Inodes, d1: seq<Block>, i1: Inodes, sup: Super, f: nat, n: nat,
                       off: nat, chunk: seq<byte>, g: nat, i: nat)
    requires TreeOk(d0, i0, sup) && TreeOk(d1, i1, sup) && f in i0 && g in i0 && n < MAX_FILE_BLOCKS
    requires Grew(d0, i0, d1, i1, sup, f, LeafPath(n)) && off + |chunk| <= FS_BLKSIZ
    requires 0 < BlockOf(d1, i1, f, n) < |d1|
    requires g == f && i / FS_BLKSIZ == n ==> BlockOf(d0, i0, f, n) != 0 || off <= i % FS_BLKSIZ < off + |chunk|
    ensures var b := BlockOf(d1, i1, f, n);
            ByteAt(d1[b := Splice(d1[b], off, chunk)], i1, g, i) ==
              if g == f && n * FS_BLKSIZ + off <= i < n * FS_BLKSIZ + off + |chunk| then chunk[i - n * FS_BLKSIZ - off]
              else ByteAt(d0, i0, g, i)
  {
    hide Ptr, Used, LeafPath;
    var m := i / FS_BLKSIZ;
    if m < MAX_FILE_BLOCKS {
      var b := BlockOf(d1, i1, f, n);
      LeafPathIsLeaf(n);
      LeafPathIsLeaf(m);
      PtrAfterWrite(d1, i1, sup, f, LeafPath(n), Splice(d1[b], off, chunk), g, LeafPath(m));
      assert LeafKept(d0, i0, d1, g, LeafPath(m));
      assert PtrOk(d0, i0, sup, g, LeafPath(m));
      if !(g == f && m == n) {
        if BlockOf(d1, i1, g, m) == b {
          BlocksInjective(d1, i1, sup, f, n, g, m);
        }
        DifferentLeaf(f, n, g, m);
      }
    }
  }

  lemma DifferentLeaf(f: nat, n: nat, g: nat, m: nat)
    requires n < MAX_FILE_BLOCKS && m < MAX_FILE_BLOCKS && !(g == f && m == n)
    ensures !(g == f && LeafPath(m) == LeafPath(n))
  {
    if LeafPath(m) == LeafPath(n) {
      LeafPathInjective(m, n);
    }
  }

  // ----- Runs of chunks -----

  /** All blocks of `f` below byte `limit` exist. */
  ghost predicate HoleFreeTo(disk: seq<Block>, inos: Inodes, f: nat, limit: nat) {
    f in inos && limit <= WORD_LIMIT
    && forall n: nat :: n * FS_BLKSIZ < limit ==> n < MAX_FILE_BLOCKS && BlockOf(disk, inos, f, n) != 0
  }

  /** Bytes `[lo, lo + |data|)` of `f` are `data`; every other byte of any file, those of `f` from `limit` on apart, is as before. */
  ghost predicate BytesWritten(d0: seq<Block>, i0: Inodes, d1: seq<Block>, i1: Inodes, f: nat, limit: nat, lo: nat, data: seq<byte>) {
    forall g, i: nat :: g in i0 && (g != f || i < limit || lo <= i < lo + |data|) ==>
      ByteAt(d1, i1, g, i) == if g == f && lo <= i < lo + |data| then data[i - lo] else ByteAt(d0, i0, g, i)
  }

  lemma NothingWritten(d0: seq<Block>, i0: Inodes, f: nat, limit: nat, lo: nat)
    ensures BytesWritten(d0, i0, d0, i0, f, limit, lo, [])
  {
  }

  /** Growing the trees without a write changes no byte, except inside new blocks. */
  lemma GrownBytes(d0: seq<Block>, i0: Inodes, d1: seq<Block>, i1: Inodes, sup: Super, f: nat, p: seq<nat>, limit: nat, lo: nat)
    requires TreeOk(d0, i0, sup) && TreeOk(d1, i1, sup) && Grew(d0, i0, d1, i1, sup, f, p) && HoleFreeTo(d0, i0, f, limit)
    ensures BytesWritten(d0, i0, d1, i1, f, limit, lo, [])
    ensures HoleFreeTo(d1, i1, f, limit) && NoneLost(d0, i0, d1, i1, sup, f)
    ensures Ptr(d1, i1, f, p) == Ptr(d0, i0, f, p) ==> forall g, i: nat :: g in i0 ==> ByteAt(d1, i1, g, i) == ByteAt(d0, i0, g, i)
  {
    hide Ptr, Used, LeafPath, VolumeOk, OnePlace, Grew, NoneLost;
    NoneLostGrowing(d0, i0, d1, i1, sup, f, p);
    forall g, i: nat | g in i0 && (g != f || i < limit || Ptr(d1, i1, f, p) == Ptr(d0, i0, f, p))
      ensures ByteAt(d1, i1, g, i) == ByteAt(d0, i0, g, i)
    {
      GrownByte(d0, i0, d1, i1, sup, f, p, g, i);
    }
    forall n: nat | n * FS_BLKSIZ < limit
      ensures n < MAX_FILE_BLOCKS && BlockOf(d1, i1, f, n) != 0
    {
      LeafPathIsLeaf(n);
      GrewKeepsMapped(d0, i0, d1, i1, sup, f, p, f, LeafPath(n));
    }
    GrewKeepsFiles(d0, i0, d1, i1, sup, f, p);
  }

  lemma GrewKeepsFiles(d0: seq<Block>, i0: Inodes, d1: seq<Block>, i1: Inodes, sup: Super, f: nat, p: seq<nat>)
    requires Grew(d0, i0, d1, i1, sup, f, p)
    ensures i1.Keys == i0.Keys && forall g :: g in i0 ==> i1[g].size == i0[g].size
  {
  }

  lemma GrewKeepsMapped(d0: seq<Block>, i0: Inodes, d1: seq<Block>, i1: Inodes, sup: Super, f: nat, p: seq<nat>, g: nat, q: seq<nat>)
    requires Grew(d0, i0, d1, i1, sup, f, p) && g in i0 && IsPath(q) && Ptr(d0, i0, g, q) != 0
    ensures g in i1 && Ptr(d1, i1, g, q) == Ptr(d0, i0, g, q)
  {
  }

  lemma GrownByte(d0: seq<Block>, i0: Inodes, d1: seq<Block>, i1: Inodes, sup: Super, f: nat, p: seq<nat>, g: nat, i: nat)
    requires TreeOk(d0, i0, sup) && Grew(d0, i0, d1, i1, sup, f, p) && g in i0
    requires i / FS_BLKSIZ < MAX_FILE_BLOCKS ==>
               BlockOf(d0, i0, g, i / FS_BLKSIZ) != 0 || g != f || Ptr(d1, i1, f, p) == Ptr(d0, i0, f, p)
    ensures ByteAt(d1, i1, g, i) == ByteAt(d0, i0, g, i)
  {
    hide Ptr, Used, LeafPath;
    var m := i / FS_BLKSIZ;
    if m < MAX_FILE_BLOCKS {
      LeafPathIsLeaf(m);
      assert LeafKept(d0, i0, d1, g, LeafPath(m));
      assert PtrOk(d0, i0, sup, g, LeafPath(m));
    }
  }

  lemma ChunkWritten(d0: seq<Block>, i0: Inodes, d1: seq<Block>, i1: Inodes, sup: Super, f: nat, pos: nat, chunk: seq<byte>, limit: nat)
    requires TreeOk(d0, i0, sup) && TreeOk(d1, i1, sup) && HoleFreeTo(d0, i0, f, limit)
    requires pos % FS_BLKSIZ + |chunk| <= FS_BLKSIZ && pos <= limit && 0 < |chunk| && pos + |chunk| <= WORD_LIMIT
    requires pos / FS_BLKSIZ < MAX_FILE_BLOCKS
    requires Grew(d0, i0, d1, i1, sup, f, LeafPath(pos / FS_BLKSIZ)) && 0 < BlockOf(d1, i1, f, pos / FS_BLKSIZ) < |d1|
    ensures var b := BlockOf(d1, i1, f, pos / FS_BLKSIZ);
            var d2 := d1[b := Splice(d1[b], pos % FS_BLKSIZ, chunk)];
            && TreeOk(d2, i1, sup)
            && BytesWritten(d0, i0, d2, i1, f, limit, pos, chunk)
            && NoneLost(d0, i0, d2, i1, sup, f)
            && HoleFreeTo(d2, i1, f, if limit < pos + |chunk| then pos + |chunk| else limit)
  {
    hide Ptr, Used, LeafPath, VolumeOk, OnePlace, PtrOk, Grew, NoneLost;
    var n, off := pos / FS_BLKSIZ, pos % FS_BLKSIZ;
    var b := BlockOf(d1, i1, f, n);
    var d2 := d1[b := Splice(d1[b], off, chunk)];
    LeafPathIsLeaf(n);
    GrewKeepsFiles(d0, i0, d1, i1, sup, f, LeafPath(n));
    TreeAfterWrite(d1, i1, sup, f, LeafPath(n), Splice(d1[b], off, chunk));
    NoneLostGrowing(d0, i0, d1, i1, sup, f, LeafPath(n));
    NoneLostByWriting(d0, i0, d1, i1, sup, f, LeafPath(n), Splice(d1[b], off, chunk));
    forall g, i: nat | g in i0 && (g != f || i < limit || pos <= i < pos + |chunk|)
      ensures ByteAt(d2, i1, g, i) == if g == f && pos <= i < pos + |chunk| then chunk[i - pos] else ByteAt(d0, i0, g, i)
    {
      ByteAfterChunk(d0, i0, d1, i1, sup, f, n, off, chunk, g, i);
    }
    forall m: nat | m * FS_BLKSIZ < limit || m * FS_BLKSIZ < pos + |chunk|
      ensures m < MAX_FILE_BLOCKS && BlockOf(d2, i1, f, m) != 0
    {
      if m * FS_BLKSIZ < limit {
        LeafPathIsLeaf(m);
        GrewKeepsMapped(d0, i0, d1, i1, sup, f, LeafPath(n), f, LeafPath(m));
      } else {
        assert m == n;
      }
      LeafPathIsLeaf(m);
      PtrAfterWrite(d1, i1, sup, f, LeafPath(n), Splice(d1[b], off, chunk), f, LeafPath(m));
    }
  }

  lemma NoneLostByWriting(d0: seq<Block>, i0: Inodes, d1: seq<Block>, i1: Inodes, sup: Super, f: nat, p: seq<nat>, data: Block)
    requires NoneLost(d0, i0, d1, i1, sup, f) && TreeOk(d1, i1, sup) && f in i1 && IsLeaf(p) && 0 < Ptr(d1, i1, f, p) < |d1|
    ensures NoneLost(d0, i0, d1[Ptr(d1, i1, f, p) := data], i1, sup, f)
  {
    hide Ptr, Used, OnePlace, PtrOk, NoneLost, IsPath;
    var d2 := d1[Ptr(d1, i1, f, p) := data];
    TreeAfterWrite(d1, i1, sup, f, p, data);
    forall g, q | IsPath(q)
      ensures Ptr(d2, i1, g, q) == Ptr(d1, i1, g, q)
    {
      if g in i1 {
        PtrAfterWrite(d1, i1, sup, f, p, data, g, q);
      } else {
        NoFileNoBlocks(d1, d2, i1, g, q);
      }
    }
    BitmapApart(d1, d2, sup);
    NoneLostAlike(d0, i0, d1, i1, d2, i1, sup, f);
  }

  lemma NoFileNoBlocks(d1: seq<Block>, d2: seq<Block>, inos: Inodes, g: nat, q: seq<nat>)
    requires g !in inos
    ensures Ptr(d1, inos, g, q) == Ptr(d2, inos, g, q) == 0
  {
  }

  lemma NoneLostSized(d0: seq<Block>, i0: Inodes, d1: seq<Block>, i1: Inodes, sup: Super, f: nat, size: nat)
    requires NoneLost(d0, i0, d1, i1, sup, f) && f in i1
    ensures NoneLost(d0, i0, d1, i1[f := i1[f].(size := size)], sup, f)
  {
    hide Ptr, Used, NoneLost, IsPath;
    var i2 := i1[f := i1[f].(size := size)];
    forall g, q | IsPath(q)
      ensures Ptr(d1, i2, g, q) == Ptr(d1, i1, g, q)
    {
      PtrIgnoresSize(d1, i1, i2, f, g, q);
    }
    NoneLostAlike(d0, i0, d1, i1, d1, i2, sup, f);
  }

  /** Two consecutive stretches make one. */
  lemma WrittenTwice(d0: seq<Block>, i0: Inodes, d1: seq<Block>, i1: Inodes, d2: seq<Block>, i2: Inodes, f: nat, limit: nat, lo: nat, a: seq<byte>, b: seq<byte>)
    requires i1.Keys == i0.Keys && lo <= limit
    requires BytesWritten(d0, i0, d1, i1, f, limit, lo, a)
    requires BytesWritten(d1, i1, d2, i2, f, if limit < lo + |a| then lo + |a| else limit, lo + |a|, b)
    ensures BytesWritten(d0, i0, d2, i2, f, limit, lo, a + b)
  {
    hide ByteAt;
  }

  /** The new contents of a file: `data` at `pos`, the rest as before. */
  function Overwrite(s: seq<byte>, pos: nat, data: seq<byte>): seq<byte>
    requires pos <= |s|
  {
    s[..pos] + data + (if pos + |data| < |s| then s[pos + |data|..] else [])
  }

  lemma ContentsWritten(d0: seq<Block>, i0: Inodes, d1: seq<Block>, i1: Inodes, i2: Inodes, f: nat, pos: nat, data: seq<byte>, g: nat)
    requires f in i0 && i1.Keys == i0.Keys && pos <= i0[f].size && (forall h :: h in i0 ==> i1[h].size == i0[h].size)
    requires BytesWritten(d0, i0, d1, i1, f, i0[f].size, pos, data)
    requires i2 == i1[f := i1[f].(size := if i0[f].size < pos + |data| then pos + |data| else i0[f].size)]
    requires g in i0
    ensures Contents(d1, i2, g) == if g == f then Overwrite(Contents(d0, i0, f), pos, data) else Contents(d0, i0, g)
  {
    hide ByteAt;
    var s0, s2 := Contents(d0, i0, g), Contents(d1, i2, g);
    forall i | 0 <= i < |s2|
      ensures s2[i] == if g == f && pos <= i < pos + |data| then data[i - pos] else ByteAt(d0, i0, g, i)
    {
      ByteIgnoresSize(d1, i1, i2, f, g, i);
    }
    if g == f {
      OverwriteAt(s0, pos, data);
    }
  }

  lemma OverwriteAt(s: seq<byte>, pos: nat, data: seq<byte>)
    requires pos <= |s|
    ensures var r := Overwrite(s, pos, data);
            && |r| == (if |s| < pos + |data| then pos + |data| else |s|)
            && forall i :: 0 <= i < |r| ==> r[i] == if pos <= i < pos + |data| then data[i - pos] else s[i]
  {
  }

  lemma ByteIgnoresSize(disk: seq<Block>, i1: Inodes, i2: Inodes, f: nat, g: nat, i: nat)
    requires f in i1 && exists n: nat :: i2 == i1[f := i1[f].(size := n)]
    ensures ByteAt(disk, i2, g, i) == ByteAt(disk, i1, g, i)
  {
    if i / FS_BLKSIZ < MAX_FILE_BLOCKS {
      PtrIgnoresSize(disk, i1, i2, f, g, LeafPath(i / FS_BLKSIZ));
    }
  }

  lemma {:induction false} PtrIgnoresSize(disk: seq<Block>, i1: Inodes, i2: Inodes, f: nat, g: nat, p: seq<nat>)
    requires f in i1 && exists n: nat :: i2 == i1[f := i1[f].(size := n)]
    ensures Ptr(disk, i2, g, p) == Ptr(disk, i1, g, p)
    decreases |p|
  {
    if |p| > 1 {
      PtrIgnoresSize(disk, i1, i2, f, g, Parent(p));
    }
  }

  lemma TreeIgnoresSize(disk: seq<Block>, i1: Inodes, sup: Super, f: nat, n: nat)
    requires TreeOk(disk, i1, sup) && f in i1
    ensures TreeOk(disk, i1[f := i1[f].(size := n)], sup)
  {
    hide Ptr, IsPath, VolumeOk, Used;
    var i2 := i1[f := i1[f].(size := n)];
    forall g, q | g in i2 && IsPath(q)
      ensures PtrOk(disk, i2, sup, g, q)
    {
      PtrIgnoresSize(disk, i1, i2, f, g, q);
      assert PtrOk(disk, i1, sup, g, q);
    }
    forall g, q, h, r | g in i2 && h in i2 && IsPath(q) && IsPath(r)
      ensures OnePlace(disk, i2, g, q, h, r)
    {
      PtrIgnoresSize(disk, i1, i2, f, g, q);
      PtrIgnoresSize(disk, i1, i2, f, h, r);
      assert OnePlace(disk, i1, g, q, h, r);
    }
  }

  // ----- Facts the file operations use -----

  lemma BlockBounds(disk: seq<Block>, inos: Inodes, sup: Super, f: nat, n: nat)
    requires TreeOk(disk, inos, sup) && f in inos && n < MAX_FILE_BLOCKS && BlockOf(disk, inos, f, n) != 0
    ensures BlockOf(disk, inos, f, n) < |disk|
  {
    LeafPathIsLeaf(n);
    assert PtrOk(disk, inos, sup, f, LeafPath(n));
  }

  lemma SameBlock(pos: nat, i: nat, n: nat)
    requires pos % FS_BLKSIZ + n <= FS_BLKSIZ && i < n
    ensures (pos + i) / FS_BLKSIZ == pos / FS_BLKSIZ && (pos + i) % FS_BLKSIZ == pos % FS_BLKSIZ + i
  {
  }

  lemma FileExists(disk: seq<Block>, inos: Inodes, f: nat, limit: nat)
    requires HoleFreeTo(disk, inos, f, limit)
    ensures f in inos
  {
  }

  lemma WholeSplice(b: Block, chunk: seq<byte>)
    requires |chunk| == FS_BLKSIZ
    ensures Splice(b, 0, chunk) == chunk
  {
  }

  lemma HoleFreeIs(disk: seq<Block>, inos: Inodes, f: nat)
    requires HoleFree(disk, inos, f)
    ensures HoleFreeTo(disk, inos, f, inos[f].size)
  {
  }

  lemma HoleFreeSized(disk: seq<Block>, inos: Inodes, f: nat, size: nat)
    requires HoleFreeTo(disk, inos, f, size) && size < WORD_LIMIT
    ensures HoleFree(disk, inos[f := inos[f].(size := size)], f)
  {
    var inos' := inos[f := inos[f].(size := size)];
    forall n: nat | n * FS_BLKSIZ < size
      ensures n < MAX_FILE_BLOCKS && BlockOf(disk, inos', f, n) != 0
    {
      PtrIgnoresSize(disk, inos, inos', f, f, LeafPath(n));
    }
  }
}
