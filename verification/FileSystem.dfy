/** inode.c and file.c on the blocks of one device: mapping, reading and writing, truncation. */
module FileSystem {
  import opened Bitmap
  import opened BlockTree
  import opened BufferCache
  import opened Devices
  import opened DiskBlocks
  import opened FileBlocks
  import opened FileData
  import opened Pruning
  import opened Words

  datatype Errno = E_PERM | E_BADARG | E_NOSPC

  /** A position or a count of bytes as a signed word, or the negated error code of the source. */
  datatype IoResult = Done(n: int) | Failed(error: Errno)

  datatype Whence = SEEK_ABS | SEEK_REL | SEEK_EOF

  // ----- 32-bit arithmetic -----

  /** Where a seek is meant to go. */
  function Target(pos: nat, size: nat, arg: int, whence: Whence): int {
    match whence case SEEK_ABS => arg case SEEK_REL => pos + arg case SEEK_EOF => size - arg
  }

  /** A position of the file that is negative as a signed word, or one far beyond that wraps round into the file. */
  predicate SeekWraps(target: int, size: nat) {
    SIGNED_LIMIT <= target <= size || (target >= WORD_LIMIT && target - WORD_LIMIT <= size)
  }

  lemma SeekArithmetic(pos: nat, size: nat, arg: int, whence: Whence)
    requires pos < WORD_LIMIT && size < WORD_LIMIT && IsSigned(arg)
    ensures var t := Target(pos, size, arg, whence);
            && (t < 0 ==> Signed(t) < 0) && (0 <= t < SIGNED_LIMIT ==> Signed(t) == t)
            && (SIGNED_LIMIT <= t < WORD_LIMIT ==> Signed(t) < 0) && (WORD_LIMIT <= t ==> Signed(t) == t - WORD_LIMIT)
  {
  }

  /** The outcome that is promised: the position moves to the target if and only if that is inside the file. */
  predicate Sought(target: int, size: nat, r: IoResult, pos0: nat, pos: nat) {
    if 0 <= target <= size then r == Done(target) && pos == target else r == Failed(E_BADARG) && pos == pos0
  }

  /** A read in the last block of the largest files that asks for more than there is up to the end of the 32 bits. */
  predicate ReadWraps(pos: nat, len: nat, size: nat) {
    WORD_LIMIT - FS_BLKSIZ < size && pos < size && WORD_LIMIT <= pos + len
  }

  /** At most `len` bytes from the position on. */
  function Slice(s: seq<byte>, pos: nat, len: nat): seq<byte> {
    if |s| <= pos then [] else s[pos..pos + Least(len, |s| - pos)]
  }

  // ----- Reading on -----

  /** How much of a read goes to the block of the position. */
  function ReadStep(pos: nat, left: nat, size: nat): nat
    requires pos < size
  {
    var n := Least(left, FS_BLKSIZ - pos % FS_BLKSIZ);
    if Wrapped(pos + n) > size then size - pos else n
  }

  /** `k` bytes have been read from position `p0` on, and `left` are to be read from `pos` on. */
  predicate Reading(p0: nat, len: nat, size: nat, k: nat, left: nat, pos: nat) {
    && p0 < WORD_LIMIT && size < WORD_LIMIT && k + left == len && pos == Wrapped(p0 + k)
    && (0 < k && p0 + k < WORD_LIMIT ==> pos <= size)
    && (ReadWraps(p0, len, size) && p0 + k < WORD_LIMIT ==> pos < size)
    && (WORD_LIMIT <= p0 + k ==> ReadWraps(p0, len, size))
  }

  lemma ReadingOn(p0: nat, len: nat, size: nat, k: nat, left: nat, pos: nat)
    requires Reading(p0, len, size, k, left, pos) && 0 < left && pos < size
    ensures var n := ReadStep(pos, left, size);
            && 0 < n <= left && pos % FS_BLKSIZ + n <= FS_BLKSIZ && pos + n <= WORD_LIMIT && pos == Wrapped(p0 + k)
            && Reading(p0, len, size, k + n, left - n, Wrapped(pos + n))
  {
    assert pos < WORD_LIMIT - FS_BLKSIZ ==> pos + (FS_BLKSIZ - pos % FS_BLKSIZ) <= WORD_LIMIT - FS_BLKSIZ;
    assert pos + (FS_BLKSIZ - pos % FS_BLKSIZ) <= WORD_LIMIT;
  }

  lemma ReadingBegins(disk: seq<Block>, inos: Inodes, f: nat, pos: nat, len: nat, size: nat)
    requires pos < WORD_LIMIT && size < WORD_LIMIT
    ensures Reading(pos, len, size, 0, len, pos) && ReadSoFar(disk, inos, f, pos, [])
  {
  }

  lemma ReadingDone(p0: nat, len: nat, size: nat, k: nat, left: nat, pos: nat)
    requires Reading(p0, len, size, k, left, pos) && (left == 0 || size <= pos)
    ensures k <= len && pos == Wrapped(p0 + k)
    ensures if ReadWraps(p0, len, size) then size - p0 < k else k == (if size <= p0 then 0 else Least(len, size - p0))
  {
  }

  ghost predicate ReadSoFar(disk: seq<Block>, inos: Inodes, f: nat, p0: nat, buf: seq<byte>) {
    forall i :: 0 <= i < |buf| ==> buf[i] == ByteAt(disk, inos, f, Wrapped(p0 + i))
  }

  lemma ReadMore(disk: seq<Block>, inos: Inodes, f: nat, p0: nat, buf: seq<byte>, chunk: seq<byte>)
    requires ReadSoFar(disk, inos, f, p0, buf) && Wrapped(p0 + |buf|) + |chunk| <= WORD_LIMIT
    requires forall i :: 0 <= i < |chunk| ==> chunk[i] == ByteAt(disk, inos, f, Wrapped(p0 + |buf|) + i)
    ensures ReadSoFar(disk, inos, f, p0, buf + chunk)
  {
    hide ByteAt;
    var all := buf + chunk;
    forall i | 0 <= i < |all|
      ensures all[i] == ByteAt(disk, inos, f, Wrapped(p0 + i))
    {
      if |buf| <= i {
        WrappedSum(p0 + |buf|, i - |buf|);
      }
    }
  }

  lemma WrappedSum(a: nat, b: nat)
    requires Wrapped(a) + b < WORD_LIMIT
    ensures Wrapped(a + b) == Wrapped(a) + b
  {
  }

  lemma WrappedSmall(a: nat)
    requires a < WORD_LIMIT
    ensures Wrapped(a) == a
  {
  }

  lemma ReadIsSlice(disk: seq<Block>, inos: Inodes, f: nat, p0: nat, len: nat, size: nat, left: nat, pos: nat, buf: seq<byte>)
    requires f in inos && inos[f].size == size < WORD_LIMIT && ReadSoFar(disk, inos, f, p0, buf)
    requires Reading(p0, len, size, |buf|, left, pos) && (left == 0 || size <= pos)
    ensures |buf| <= len && pos == Wrapped(p0 + |buf|)
    ensures buf == Slice(Contents(disk, inos, f), p0, len) <==> !ReadWraps(p0, len, size)
    ensures ReadWraps(p0, len, size) ==> size - p0 < |buf|
  {
    hide ByteAt, Wrapped, Reading;
    ReadingDone(p0, len, size, |buf|, left, pos);
    var s := Contents(disk, inos, f);
    if ReadWraps(p0, len, size) {
      assert |Slice(s, p0, len)| < |buf|;
    } else {
      forall i | 0 <= i < |buf|
        ensures buf[i] == s[p0 + i]
      {
        WrappedSmall(p0 + i);
      }
    }
  }

  /** An open file: inode number, access mode and position. */
  class Handle {
    const inum: nat
    const canRead: bool
    const canWrite: bool
    var pos: nat

    constructor (inum: nat, canRead: bool, canWrite: bool)
      ensures this.inum == inum && this.canRead == canRead && this.canWrite == canWrite && pos == 0
    {
      this.inum := inum;
      this.canRead := canRead;
      this.canWrite := canWrite;
      pos := 0;
    }
  }

  class Volume {
    const dev: Device
    /** The in-core inodes, by inode number. */
    var inodes: Inodes

    ghost predicate Valid()
      reads this, dev, dev.cache
    {
      TreeOk(dev.disk, inodes, dev.sup) && dev.Ready()
    }

    /** So many more buffers can be held at once. */
    ghost predicate Room(n: nat)
      reads dev
    {
      |dev.held| + n <= dev.budget
    }

    constructor (dev: Device, inodes: Inodes)
      requires TreeOk(dev.disk, inodes, dev.sup) && dev.Ready()
      ensures Valid() && this.dev == dev && this.inodes == inodes
    {
      this.dev := dev;
      this.inodes := inodes;
    }

    /** `alloc_block` */
    method AllocBlock() returns (blk: nat)
      requires VolumeOk(dev.disk, dev.sup) && dev.Ready() && Room(1)
      modifies dev, dev.cache
      ensures dev.Ready() && dev.held == old(dev.held)
      ensures blk == 0 ==> dev.disk == old(dev.disk) && NoneFree(dev.disk, dev.sup)
      ensures blk != 0 ==> Allocated(old(dev.disk), dev.disk, dev.sup, blk)
    {
      hide AllSet, BitmapOk, Device.Ready;
      var r := BmapAlloc(dev, dev.sup.dataBitmap, dev.sup.dataSize);
      if r.None? {
        FullWhenAllSet(dev.disk, dev.sup);
        return 0;
      }
      blk := dev.sup.data + r.value;
      AllocatedBySet(old(dev.disk), dev.sup, blk);
    }

    /** `get_inode_blkno`, and `get_inode_blk` for the pointers to indirect blocks, which clears a new block. */
    method GetInodeBlkno(f: nat, offset: nat, create: bool, ghost leaf: seq<nat>) returns (blk: nat)
      requires Valid() && f in inodes && offset < NR_PTRS && Room(1)
      requires offset < SINGLE_INDIRECT ==> leaf == [offset]
      modifies this, dev, dev.cache
      ensures Valid() && dev.held == old(dev.held)
      ensures Resolved(old(dev.disk), old(inodes), dev.disk, inodes, dev.sup, f, [offset], leaf, create, blk)
    {
      hide Grew, PtrOk, OnePlace, Used, Entered, Allocated, UsedPlus, BitmapOk, Device.Ready;
      GrewNothing(dev.disk, inodes, dev.sup, f, leaf);
      blk := inodes[f].ptrs[offset];
      if blk == 0 && create {
        blk := AllocBlock();
        if blk != 0 {
          BlockInRange(old(dev.disk), dev.disk, dev.sup, blk);
          ghost var mid := dev.disk;
          inodes := inodes[f := inodes[f].(ptrs := inodes[f].ptrs[offset := blk])];
          if offset >= SINGLE_INDIRECT {
            ClearBlock(blk);
          }
          EnteredInInode(old(dev.disk), mid, dev.disk, old(inodes), dev.sup, f, offset, blk, leaf);
        }
      }
    }

    /** A new indirect block is cleared. */
    method ClearBlock(blk: nat)
      requires dev.Ready() && blk < |dev.disk| && Room(1)
      modifies dev, dev.cache
      ensures dev.Ready() && dev.held == old(dev.held) && dev.disk == old(dev.disk)[blk := ZeroBlock()]
    {
      hide Device.Ready;
      var buf := dev.Take(blk);
      dev.Change(buf, ZeroBlock(), false, |dev.held| - 1);
      dev.Drop(buf);
    }

    /** `get_indirect_blkno`, which releases the buffer of the indirect block, and `get_indirect_blk` on the way to a lower
        level, which clears a new block. */
    method GetIndirectBlkno(f: nat, buf: Slot, offset: nat, create: bool, clr: bool, ghost p: seq<nat>, ghost leaf: seq<nat>) returns (blk: nat)
      requires Valid() && f in inodes && offset < PTRS_PER_INDIRECT
      requires IsPath(p) && |p| > 1 && Last(p) == offset && dev.held != [] && Room(1)
      requires var ind := Ptr(dev.disk, inodes, f, Parent(p)); ind != 0 && dev.held[|dev.held| - 1] == Hold(buf, ind)
      requires clr <==> !IsLeaf(p)
      requires IsLeaf(p) ==> leaf == p
      modifies this, dev, dev.cache
      ensures Valid() && dev.held == old(dev.held)[..|old(dev.held)| - 1]
      ensures Resolved(old(dev.disk), old(inodes), dev.disk, inodes, dev.sup, f, p, leaf, create, blk)
    {
      hide Grew, OnePlace, Used, Entered, Allocated, UsedPlus, BitmapOk, Word, SetWord, Device.Ready;
      ghost var ind, top := dev.held[|dev.held| - 1].blkno, |dev.held| - 1;
      GrewNothing(dev.disk, inodes, dev.sup, f, leaf);
      IndirectInRange(dev.disk, inodes, dev.sup, f, p);
      var words := dev.Data(buf, top);
      blk := Word(words, offset);
      if blk == 0 && create {
        blk := AllocBlock();
        if blk != 0 {
          BlockInRange(old(dev.disk), dev.disk, dev.sup, blk);
          ghost var mid := dev.disk;
          words := dev.Data(buf, top);
          dev.Change(buf, SetWord(words, offset, blk), true, top);
          dev.Drop(buf);
          if clr {
            ClearBlock(blk);
          }
          EnteredInIndirect(old(dev.disk), mid, dev.disk, inodes, dev.sup, f, p, blk, leaf);
          return;
        }
      }
      dev.Drop(buf);
    }

    /** One more level: nothing happens when the level above has no block. */
    method Descend(f: nat, ind: nat, offset: nat, create: bool, clr: bool, ghost p: seq<nat>, ghost leaf: seq<nat>,
                   ghost d0: seq<Block>, ghost i0: Inodes) returns (blk: nat)
      requires Valid() && f in inodes && offset < PTRS_PER_INDIRECT && TreeOk(d0, i0, dev.sup) && Room(2)
      requires IsPath(p) && |p| > 1 && Last(p) == offset && (clr <==> !IsLeaf(p)) && (IsLeaf(p) ==> leaf == p)
      requires Reached(d0, i0, dev.disk, inodes, dev.sup, f, Parent(p), leaf, create, ind)
      modifies this, dev, dev.cache
      ensures Valid() && dev.held == old(dev.held) && Reached(d0, i0, dev.disk, inodes, dev.sup, f, p, leaf, create, blk)
    {
      hide Grew, PtrOk, OnePlace, Used, Ptr, BitmapOk, IsPath, VolumeOk, Device.Ready;
      if ind == 0 {
        ReachedNowhere(d0, i0, dev.disk, inodes, dev.sup, f, p, leaf, create);
        return 0;
      }
      IndirectInRange(dev.disk, inodes, dev.sup, f, p);
      var buf := dev.Take(ind);
      blk := GetIndirectBlkno(f, buf, offset, create, clr, p, leaf);
      ReachedFurther(d0, i0, old(dev.disk), old(inodes), dev.disk, inodes, dev.sup, f, p, leaf, create, ind, blk);
    }

    /** `get_data_blkno`; blocks beyond the triple indirect range are refused. */
    method GetDataBlkno(f: nat, n: nat, create: bool) returns (blk: nat)
      requires Valid() && f in inodes && Room(2)
      modifies this, dev, dev.cache
      ensures Valid() && dev.held == old(dev.held)
      ensures n >= MAX_FILE_BLOCKS ==> blk == 0 && dev.disk == old(dev.disk) && inodes == old(inodes)
      ensures n < MAX_FILE_BLOCKS ==> Reached(old(dev.disk), old(inodes), dev.disk, inodes, dev.sup, f, LeafPath(n), LeafPath(n), create, blk)
    {
      hide TreeOk, Grew, Ptr, Resolved, Device.Ready, BelowKept, NoneFree, Used;
      if n >= MAX_FILE_BLOCKS {
        return 0;
      }
      ghost var d0, i0, leaf := dev.disk, inodes, LeafPath(n);
      LeafPathIsLeaf(n);
      if n < SINGLE_INDIRECT {
        blk := GetInodeBlkno(f, n, create, leaf);
        ReachedFirst(d0, i0, dev.disk, inodes, dev.sup, f, leaf, leaf, create, blk);
        return;
      }
      var top := if n < FIRST_DOUBLE then SINGLE_INDIRECT else if n < FIRST_TRIPLE then DOUBLE_INDIRECT else TRIPLE_INDIRECT;
      blk := GetInodeBlkno(f, top, create, leaf);
      ReachedFirst(d0, i0, dev.disk, inodes, dev.sup, f, [top], leaf, create, blk);
      if n < FIRST_DOUBLE {
        assert Parent(leaf) == [top];
        blk := Descend(f, blk, n - SINGLE_INDIRECT, create, false, leaf, leaf, d0, i0);
      } else if n < FIRST_TRIPLE {
        blk := WalkDouble(f, blk, n - FIRST_DOUBLE, create, leaf, d0, i0);
      } else {
        blk := WalkTriple(f, blk, n - FIRST_TRIPLE, create, leaf, d0, i0);
      }
    }

    method WalkDouble(f: nat, ind: nat, n: nat, create: bool, ghost leaf: seq<nat>, ghost d0: seq<Block>, ghost i0: Inodes) returns (blk: nat)
      requires Valid() && f in inodes && TreeOk(d0, i0, dev.sup) && n < PTRS2 && Room(2)
      requires leaf == [DOUBLE_INDIRECT, n / PTRS_PER_INDIRECT, n % PTRS_PER_INDIRECT]
      requires Reached(d0, i0, dev.disk, inodes, dev.sup, f, [DOUBLE_INDIRECT], leaf, create, ind)
      modifies this, dev, dev.cache
      ensures Valid() && dev.held == old(dev.held) && Reached(d0, i0, dev.disk, inodes, dev.sup, f, leaf, leaf, create, blk)
    {
      hide TreeOk, Grew, Ptr, Reached, Device.Ready;
      ghost var p := [DOUBLE_INDIRECT, n / PTRS_PER_INDIRECT];
      assert Parent(p) == [DOUBLE_INDIRECT] && Parent(leaf) == p;
      blk := Descend(f, ind, n / PTRS_PER_INDIRECT, create, true, p, leaf, d0, i0);
      ReachedHasFile(d0, i0, dev.disk, inodes, dev.sup, f, p, leaf, create, blk);
      blk := Descend(f, blk, n % PTRS_PER_INDIRECT, create, false, leaf, leaf, d0, i0);
    }

    method WalkTriple(f: nat, ind: nat, n: nat, create: bool, ghost leaf: seq<nat>, ghost d0: seq<Block>, ghost i0: Inodes) returns (blk: nat)
      requires Valid() && f in inodes && TreeOk(d0, i0, dev.sup) && n < PTRS3 && Room(2)
      requires leaf == [TRIPLE_INDIRECT, n / PTRS2, n / PTRS_PER_INDIRECT % PTRS_PER_INDIRECT, n % PTRS_PER_INDIRECT]
      requires Reached(d0, i0, dev.disk, inodes, dev.sup, f, [TRIPLE_INDIRECT], leaf, create, ind)
      modifies this, dev, dev.cache
      ensures Valid() && dev.held == old(dev.held) && Reached(d0, i0, dev.disk, inodes, dev.sup, f, leaf, leaf, create, blk)
    {
      hide TreeOk, Grew, Ptr, Reached, Device.Ready;
      ghost var p := [TRIPLE_INDIRECT, n / PTRS2];
      ghost var q := [TRIPLE_INDIRECT, n / PTRS2, n / PTRS_PER_INDIRECT % PTRS_PER_INDIRECT];
      assert Parent(p) == [TRIPLE_INDIRECT] && Parent(q) == p && Parent(leaf) == q;
      blk := Descend(f, ind, n / PTRS2, create, true, p, leaf, d0, i0);
      ReachedHasFile(d0, i0, dev.disk, inodes, dev.sup, f, p, leaf, create, blk);
      blk := Descend(f, blk, n / PTRS_PER_INDIRECT % PTRS_PER_INDIRECT, create, true, q, leaf, d0, i0);
      ReachedHasFile(d0, i0, dev.disk, inodes, dev.sup, f, q, leaf, create, blk);
      blk := Descend(f, blk, n % PTRS_PER_INDIRECT, create, false, leaf, leaf, d0, i0);
    }

    // ----- file.c -----

    /** `seek_file`: the position moves to the place asked for if and only if that is inside the file, unless the
        signed sum wraps. */
    method SeekFile(h: Handle, arg: int, whence: Whence) returns (r: IoResult)
      requires Valid() && h.inum in inodes && inodes[h.inum].size < WORD_LIMIT && h.pos < WORD_LIMIT && IsSigned(arg)
      modifies h
      ensures var size := inodes[h.inum].size;
              var target := Target(old(h.pos), size, arg, whence);
              && (Sought(target, size, r, old(h.pos), h.pos) <==> !SeekWraps(target, size))
              && (SIGNED_LIMIT <= target <= size ==> r == Failed(E_BADARG) && h.pos == old(h.pos))
              && (target >= WORD_LIMIT && target - WORD_LIMIT <= size ==> r == Done(target - WORD_LIMIT) && h.pos == target - WORD_LIMIT)
    {
      hide TreeOk, Signed, Device.Ready;
      SeekArithmetic(h.pos, inodes[h.inum].size, arg, whence);
      var newPos := match whence
        case SEEK_ABS => Signed(arg)
        case SEEK_REL => Signed(h.pos + arg)
        case SEEK_EOF => Signed(inodes[h.inum].size - arg);
      if newPos < 0 || newPos > inodes[h.inum].size {
        return Failed(E_BADARG);
      }
      h.pos := newPos;
      r := Done(newPos);
    }

    /** `read_file`: the bytes of the flat file from the position on, as many as asked for and present; it reads on from
        the beginning of the file if and only if the position wraps. */
    method ReadFile(h: Handle, len: nat) returns (buf: seq<byte>, r: IoResult)
      requires Valid() && h.inum in inodes && inodes[h.inum].size < WORD_LIMIT && h.pos < WORD_LIMIT && len < WORD_LIMIT && Room(2)
      modifies this, dev, dev.cache, h
      ensures Valid() && dev.disk == old(dev.disk) && inodes == old(inodes) && dev.held == old(dev.held)
      ensures !h.canRead ==> r == Failed(E_PERM) && buf == [] && h.pos == old(h.pos)
      ensures h.canRead ==>
                && r == Done(Signed(|buf|)) && h.pos == Wrapped(old(h.pos) + |buf|)
                && var s := Contents(dev.disk, inodes, h.inum);
                && (buf == Slice(s, old(h.pos), len) <==> !ReadWraps(old(h.pos), len, |s|))
                && (ReadWraps(old(h.pos), len, |s|) ==> |s| - old(h.pos) < |buf| <= len)
    {
      hide TreeOk, ByteAt, ReadWraps, ReadSoFar, Reading, Wrapped, Signed, Slice, Contents, Device.Ready;
      buf := [];
      if !h.canRead {
        return [], Failed(E_PERM);
      }
      var left := len;
      var size := inodes[h.inum].size;
      ghost var p0 := h.pos;
      ReadingBegins(dev.disk, inodes, h.inum, p0, len, size);
      while left > 0 && h.pos < size
        invariant Valid() && dev.disk == old(dev.disk) && inodes == old(inodes) && dev.held == old(dev.held) && 0 <= left
        invariant Reading(p0, len, size, |buf|, left, h.pos) && ReadSoFar(dev.disk, inodes, h.inum, p0, buf)
      {
        ReadingOn(p0, len, size, |buf|, left, h.pos);
        var n := Least(left, FS_BLKSIZ - h.pos % FS_BLKSIZ);
        if Wrapped(h.pos + n) > size {
          n := size - h.pos;
        }
        assert n == ReadStep(h.pos, left, size);
        var chunk := ReadChunk(h.inum, h.pos, n);
        ReadMore(dev.disk, inodes, h.inum, p0, buf, chunk);
        buf := buf + chunk;
        left := left - n;
        h.pos := Wrapped(h.pos + n);
      }
      ReadIsSlice(dev.disk, inodes, h.inum, p0, len, size, left, h.pos, buf);
      r := Done(Signed(|buf|));
    }

    /** The part of a read that lies in one block; a hole reads as zeros (file.c:155-171). */
    method ReadChunk(f: nat, pos: nat, n: nat) returns (chunk: seq<byte>)
      requires Valid() && f in inodes && pos < WORD_LIMIT && pos % FS_BLKSIZ + n <= FS_BLKSIZ && Room(2)
      modifies this, dev, dev.cache
      ensures Valid() && dev.disk == old(dev.disk) && inodes == old(inodes) && dev.held == old(dev.held)
      ensures |chunk| == n && forall i :: 0 <= i < n ==> chunk[i] == ByteAt(dev.disk, inodes, f, pos + i)
    {
      hide TreeOk, Grew, BelowKept, NoneFree, LeafPath, Ptr, Device.Ready;
      SizesInRange(pos);
      var blk := GetDataBlkno(f, pos / FS_BLKSIZ, false);
      if blk == 0 {
        chunk := seq(n, i => 0);
      } else {
        BlockBounds(dev.disk, inodes, dev.sup, f, pos / FS_BLKSIZ);
        var buf := dev.Take(blk);
        var data := dev.Data(buf, |dev.held| - 1);
        chunk := data[pos % FS_BLKSIZ..pos % FS_BLKSIZ + n];
        dev.Drop(buf);
      }
      forall i | 0 <= i < n
        ensures chunk[i] == ByteAt(dev.disk, inodes, f, pos + i)
      {
        SameBlock(pos, i, n);
      }
    }

    /** The part of a write that lies in one block (file.c:198-221). */
    method WriteChunk(f: nat, pos: nat, chunk: seq<byte>, ghost limit: nat) returns (ok: bool)
      requires Valid() && HoleFreeTo(dev.disk, inodes, f, limit) && pos <= limit && Room(2)
      requires 0 < |chunk| && pos % FS_BLKSIZ + |chunk| <= FS_BLKSIZ && pos + |chunk| <= WORD_LIMIT
      modifies this, dev, dev.cache
      ensures Valid() && dev.held == old(dev.held) && inodes.Keys == old(inodes).Keys && forall g :: g in inodes ==> inodes[g].size == old(inodes)[g].size
      ensures ok ==> BytesWritten(old(dev.disk), old(inodes), dev.disk, inodes, f, limit, pos, chunk)
                     && HoleFreeTo(dev.disk, inodes, f, Greatest(limit, pos + |chunk|))
      ensures NoneLost(old(dev.disk), old(inodes), dev.disk, inodes, dev.sup, f)
      ensures !ok ==> BytesWritten(old(dev.disk), old(inodes), dev.disk, inodes, f, limit, pos, [])
                      && HoleFreeTo(dev.disk, inodes, f, limit) && NoneFree(dev.disk, dev.sup)
    {
      hide TreeOk, Grew, BelowKept, NoneFree, LeafPath, Ptr, BytesWritten, HoleFreeTo, NoneLost, Device.Ready;
      SizesInRange(pos);
      FileExists(dev.disk, inodes, f, limit);
      ghost var n := pos / FS_BLKSIZ;
      var blk := GetDataBlkno(f, pos / FS_BLKSIZ, true);
      GrewKeepsFiles(old(dev.disk), old(inodes), dev.disk, inodes, dev.sup, f, LeafPath(n));
      if blk == 0 {
        GrownBytes(old(dev.disk), old(inodes), dev.disk, inodes, dev.sup, f, LeafPath(n), limit, pos);
        return false;
      }
      BlockBounds(dev.disk, inodes, dev.sup, f, n);
      ChunkWritten(old(dev.disk), old(inodes), dev.disk, inodes, dev.sup, f, pos, chunk, limit);
      if |chunk| == FS_BLKSIZ {
        WholeSplice(dev.disk[blk], chunk);
        dev.Write(blk, chunk);
      } else {
        var buf := dev.Take(blk);
        var data := dev.Data(buf, |dev.held| - 1);
        dev.Change(buf, Splice(data, pos % FS_BLKSIZ, chunk), false, |dev.held| - 1);
        dev.Drop(buf);
      }
      ok := true;
    }

    /** `write_file`: the flat file is overwritten from the position on by as much of the buffer as
        there was room for, and no other file changes. */
    method WriteFile(h: Handle, data: seq<byte>) returns (r: IoResult)
      requires Valid() && HoleFree(dev.disk, inodes, h.inum) && h.pos <= inodes[h.inum].size && h.pos + |data| < WORD_LIMIT && Room(2)
      modifies this, dev, dev.cache, h
      ensures Valid() && dev.held == old(dev.held) && inodes.Keys == old(inodes).Keys && HoleFree(dev.disk, inodes, h.inum)
      ensures !h.canWrite ==> r == Failed(E_PERM) && dev.disk == old(dev.disk) && inodes == old(inodes) && h.pos == old(h.pos)
      ensures h.canWrite ==>
                var k := h.pos - old(h.pos);
                && 0 <= k <= |data| && r == (if k == 0 && 0 < |data| then Failed(E_NOSPC) else Done(Signed(k)))
                && (k < |data| ==> NoneFree(dev.disk, dev.sup))
                && Contents(dev.disk, inodes, h.inum) == Overwrite(old(Contents(dev.disk, inodes, h.inum)), old(h.pos), data[..k])
                && forall g :: g in inodes && g != h.inum ==> Contents(dev.disk, inodes, g) == old(Contents(dev.disk, inodes, g))
      ensures NoneLost(old(dev.disk), old(inodes), dev.disk, inodes, dev.sup, h.inum)
    {
      hide TreeOk, ByteAt, BytesWritten, HoleFreeTo, NoneFree, NoneLost, Overwrite, Device.Ready;
      NoneLostNothing(dev.disk, inodes, dev.sup, h.inum);
      if !h.canWrite {
        return Failed(E_PERM);
      }
      var f := h.inum;
      ghost var size := inodes[f].size;
      var actual := 0;
      var full := false;
      NothingWritten(dev.disk, inodes, f, size, h.pos);
      HoleFreeIs(dev.disk, inodes, f);
      assert data[..0] == [];
      while actual < |data| && !full
        invariant Valid() && dev.held == old(dev.held) && 0 <= actual <= |data| && h.pos == old(h.pos) + actual
        invariant inodes.Keys == old(inodes).Keys && forall g :: g in inodes ==> inodes[g].size == old(inodes)[g].size
        invariant BytesWritten(old(dev.disk), old(inodes), dev.disk, inodes, f, size, old(h.pos), data[..actual])
        invariant HoleFreeTo(dev.disk, inodes, f, Greatest(size, h.pos))
        invariant NoneLost(old(dev.disk), old(inodes), dev.disk, inodes, dev.sup, f)
        invariant full ==> NoneFree(dev.disk, dev.sup) && 0 < |data|
        decreases |data| - actual, !full
      {
        var n := Least(|data| - actual, FS_BLKSIZ - h.pos % FS_BLKSIZ);
        ghost var d1, i1 := dev.disk, inodes;
        var ok := WriteChunk(f, h.pos, data[actual..actual + n], Greatest(size, h.pos));
        NoneLostTwice(old(dev.disk), old(inodes), d1, i1, dev.disk, inodes, dev.sup, f);
        if ok {
          WrittenTwice(old(dev.disk), old(inodes), d1, i1, dev.disk, inodes, f, size, old(h.pos), data[..actual], data[actual..actual + n]);
          assert data[..actual] + data[actual..actual + n] == data[..actual + n];
          actual := actual + n;
          h.pos := h.pos + n;
        } else {
          WrittenTwice(old(dev.disk), old(inodes), d1, i1, dev.disk, inodes, f, size, old(h.pos), data[..actual], []);
          assert data[..actual] + [] == data[..actual];
          full := true;
        }
      }
      SizeUpdate(f, h.pos, actual, data, old(dev.disk), old(inodes), old(h.pos));
      r := if full && actual == 0 then Failed(E_NOSPC) else Done(Signed(actual));
    }

    /** file.c:231-235: the size follows the position. */
    method SizeUpdate(f: nat, pos: nat, actual: nat, data: seq<byte>, ghost d0: seq<Block>, ghost i0: Inodes, ghost start: nat)
      requires Valid() && f in i0 && inodes.Keys == i0.Keys && (forall g :: g in inodes ==> inodes[g].size == i0[g].size)
      requires actual <= |data| && pos == start + actual && start <= i0[f].size < WORD_LIMIT && pos < WORD_LIMIT
      requires BytesWritten(d0, i0, dev.disk, inodes, f, i0[f].size, start, data[..actual])
      requires HoleFreeTo(dev.disk, inodes, f, Greatest(i0[f].size, pos)) && NoneLost(d0, i0, dev.disk, inodes, dev.sup, f)
      modifies this`inodes
      ensures NoneLost(d0, i0, dev.disk, inodes, dev.sup, f)
      ensures Valid() && inodes.Keys == i0.Keys && HoleFree(dev.disk, inodes, f)
      ensures Contents(dev.disk, inodes, f) == Overwrite(Contents(d0, i0, f), start, data[..actual])
      ensures forall g :: g in inodes && g != f ==> Contents(dev.disk, inodes, g) == Contents(d0, i0, g)
    {
      hide TreeOk, ByteAt, BytesWritten, HoleFreeTo, NoneLost, Overwrite, Contents, Device.Ready;
      ghost var i1 := inodes;
      ghost var size := Greatest(i0[f].size, pos);
      ghost var i2 := i1[f := i1[f].(size := size)];
      TreeIgnoresSize(dev.disk, inodes, dev.sup, f, size);
      HoleFreeSized(dev.disk, i1, f, size);
      NoneLostSized(d0, i0, dev.disk, i1, dev.sup, f, size);
      forall g | g in i0
        ensures Contents(dev.disk, i2, g) == if g == f then Overwrite(Contents(d0, i0, f), start, data[..actual]) else Contents(d0, i0, g)
      {
        ContentsWritten(d0, i0, dev.disk, i1, i2, f, start, data[..actual], g);
      }
      if pos > inodes[f].size {
        inodes := inodes[f := inodes[f].(size := pos)];
      }
      assert inodes == i2;
    }

    /** `free_block`; the result tells whether the bitmap code complained that the block was free already. */
    method FreeBlock(blk: nat) returns (complained: bool)
      requires VolumeOk(dev.disk, dev.sup) && InData(dev.sup, blk) && dev.Ready() && Room(1)
      modifies dev, dev.cache
      ensures dev.Ready() && dev.held == old(dev.held)
      ensures complained <==> !Used(old(dev.disk), dev.sup, blk)
      ensures complained ==> dev.disk == old(dev.disk)
      ensures !complained ==> Freed(old(dev.disk), dev.disk, dev.sup, blk)
    {
      hide BitmapOk, Device.Ready;
      var wasSet := BmapFree(dev, dev.sup.dataBitmap, dev.sup.dataSize, blk - dev.sup.data);
      FreedByClearing(old(dev.disk), dev.sup, blk);
      complained := !wasSet;
    }

    /** `delete_indirect_blocks`, for the indirect block at path `p`. */
    method DeleteIndirectBlocks(f: nat, blk: nat, depth: nat, ghost p: seq<nat>) returns (complaints: nat)
      requires Valid() && f in inodes && IsPath(p) && depth == Height(p[0]) - |p| - 1 && Room(depth + 2)
      requires blk != 0 && blk == Ptr(dev.disk, inodes, f, p)
      modifies dev, dev.cache
      ensures Valid() && dev.held == old(dev.held)
      ensures Pruned(old(dev.disk), inodes, dev.disk, inodes, dev.sup, f, Below(p)) && complaints == 0
      decreases depth
    {
      hide TreeOk, Ptr, Used, Pruned, Freed, BelowTo, Below, VolumeOk, Word, SetWord, Device.Ready;
      complaints := 0;
      ghost var d0 := dev.disk;
      PrunedNone(d0, inodes, dev.sup, f, p);
      PointsInRange(d0, inodes, dev.sup, f, p);
      ghost var top := |dev.held|;
      var buf := dev.Take(blk);
      var i := 0;
      while i < PTRS_PER_INDIRECT
        invariant 0 <= i <= PTRS_PER_INDIRECT && complaints == 0 && dev.Ready() && dev.held == old(dev.held) + [Hold(buf, blk)]
        invariant Pruned(d0, inodes, dev.disk, inodes, dev.sup, f, BelowTo(p, i))
      {
        ghost var d1, q := dev.disk, p + [i];
        SlotBelow(d0, dev.disk, inodes, dev.sup, f, p, i);
        var words := dev.Data(buf, top);
        var word := Word(words, i);
        if word != 0 {
          if depth == 0 {
            var c := FreeBlock(word);
            complaints := complaints + if c then 1 else 0;
            PrunedBelowLeaf(d1, inodes, dev.sup, f, q);
            EmptyBelow(d1, inodes, d1, inodes, dev.sup, f, q);
            RemovedFromIndirect(d1, dev.disk, inodes, dev.sup, f, q);
            words := dev.Data(buf, top);
            dev.Change(buf, SetWord(words, i, 0), false, top);
            PrunedSlotToo(d1, inodes, d1, inodes, dev.disk, inodes, dev.sup, f, q);
          } else {
            var c := DeleteIndirectBlocks(f, word, depth - 1, q);
            complaints := complaints + c;
            ghost var d2 := dev.disk;
            EmptyBelow(d1, inodes, d2, inodes, dev.sup, f, q);
            ParentSlot(d1, d2, inodes, dev.sup, f, p, i);
            RemovedFromIndirect(d2, d2, inodes, dev.sup, f, q);
            words := dev.Data(buf, top);
            dev.Change(buf, SetWord(words, i, 0), false, top);
            PrunedSlotToo(d1, inodes, d2, inodes, dev.disk, inodes, dev.sup, f, q);
          }
        } else {
          PrunedEmptySlot(d1, inodes, dev.sup, f, q);
        }
        PrunedNext(d0, inodes, d1, inodes, dev.disk, inodes, dev.sup, f, p, i);
        i := i + 1;
      }
      dev.Drop(buf);
      PrunedAll(d0, inodes, dev.disk, inodes, dev.sup, f, p, i);
      PrunedIsTree(d0, inodes, dev.disk, inodes, dev.sup, f, Below(p));
    }

    /** `delete_inode_data` */
    method DeleteInodeData(f: nat) returns (complaints: nat)
      requires Valid() && f in inodes && Room(4)
      modifies this, dev, dev.cache
      ensures Valid() && dev.held == old(dev.held) && complaints == 0
      ensures Truncated(old(dev.disk), old(inodes), dev.disk, inodes, dev.sup, f)
      ensures IndirectLeaked(old(dev.disk), old(inodes), dev.disk, inodes, dev.sup, f)
    {
      hide TreeOk, Ptr, Used, Pruned, Freed, BelowTo, Below, VolumeOk, Truncated, Device.Ready;
      complaints := 0;
      ghost var d0, i0 := dev.disk, inodes;
      PrunedNone(d0, i0, dev.sup, f, []);
      var i := 0;
      while i < NR_PTRS
        invariant 0 <= i <= NR_PTRS && complaints == 0 && dev.Ready() && dev.held == old(dev.held)
        invariant Pruned(d0, i0, dev.disk, inodes, dev.sup, f, BelowTo([], i))
      {
        ghost var d1, i1 := dev.disk, inodes;
        var c := DeletePointer(f, i, d0, i0);
        complaints := complaints + c;
        PrunedNext(d0, i0, d1, i1, dev.disk, inodes, dev.sup, f, [], i);
        i := i + 1;
      }
      PrunedAll(d0, i0, dev.disk, inodes, dev.sup, f, [], i);
      PrunedIsTree(d0, i0, dev.disk, inodes, dev.sup, f, Below([]));
      TruncatedWhenPruned(d0, i0, dev.disk, inodes, dev.sup, f);
      LeakedWhenPruned(d0, i0, dev.disk, inodes, dev.sup, f);
      inodes := inodes[f := inodes[f].(size := 0)];
    }

    /** One pointer of the inode: a data block is freed, an indirect block is emptied first (file.c:297-323). */
    method DeletePointer(f: nat, i: nat, ghost d0: seq<Block>, ghost i0: Inodes) returns (complaints: nat)
      requires Pruned(d0, i0, dev.disk, inodes, dev.sup, f, BelowTo([], i)) && i < NR_PTRS && dev.Ready() && Room(4)
      modifies this, dev, dev.cache
      ensures dev.Ready() && dev.held == old(dev.held)
      ensures Pruned(old(dev.disk), old(inodes), dev.disk, inodes, dev.sup, f, Below([] + [i]) + iset{[] + [i]}) && complaints == 0
    {
      hide TreeOk, Ptr, Used, Pruned, Freed, BelowTo, Below, VolumeOk, Device.Ready;
      ghost var d1, i1, q := dev.disk, inodes, [i];
      assert [] + [i] == q;
      PrunedIsTree(d0, i0, dev.disk, inodes, dev.sup, f, BelowTo([], i));
      InodeSlot(dev.disk, inodes, dev.sup, f, i);
      complaints := 0;
      var blk := inodes[f].ptrs[i];
      if blk == 0 {
        PrunedEmptySlot(d1, i1, dev.sup, f, q);
      } else {
        if i < SINGLE_INDIRECT {
          var c := FreeBlock(blk);
          complaints := complaints + if c then 1 else 0;
          PrunedBelowLeaf(d1, i1, dev.sup, f, q);
          EmptyBelow(d1, i1, d1, i1, dev.sup, f, q);
          RemovedFromInode(d1, dev.disk, i1, dev.sup, f, i);
          inodes := inodes[f := inodes[f].(ptrs := inodes[f].ptrs[i := 0])];
          PrunedSlotToo(d1, i1, d1, i1, dev.disk, inodes, dev.sup, f, q);
        } else {
          complaints := DeleteIndirectBlocks(f, blk, i - SINGLE_INDIRECT, q);
          EmptyBelow(d1, i1, dev.disk, inodes, dev.sup, f, q);
          RemovedFromInode(dev.disk, dev.disk, inodes, dev.sup, f, i);
          ghost var i2 := inodes;
          inodes := inodes[f := inodes[f].(ptrs := inodes[f].ptrs[i := 0])];
          PrunedSlotToo(d1, i1, dev.disk, i2, dev.disk, inodes, dev.sup, f, q);
        }
      }
    }
  }

  /** A file of the largest size: seeking to its end is refused, and of the 511 bytes behind the position 512 are read. */
  method LargestFile(v: Volume, f: nat) returns (end: IoResult, buf: seq<byte>)
    requires v.Valid() && f in v.inodes && v.Room(2)
    modifies v, v.dev, v.dev.cache
    ensures v.Valid() && f in v.inodes && v.inodes[f].size == WORD_LIMIT - 1
    ensures end == Failed(E_BADARG) && |buf| == 512
  {
    hide TreeOk;
    TreeIgnoresSize(v.dev.disk, v.inodes, v.dev.sup, f, WORD_LIMIT - 1);
    v.inodes := v.inodes[f := v.inodes[f].(size := WORD_LIMIT - 1)];
    var h := new Handle(f, true, true);
    end := v.SeekFile(h, 0, SEEK_EOF);
    h.pos := WORD_LIMIT - 512;
    var r;
    buf, r := v.ReadFile(h, 512);
  }
}
