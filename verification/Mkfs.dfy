/** mkfs.c: laying out and initialising a file system on a device. */
module Mkfs {
  import opened Bitmap
  import opened BlockTree
  import opened Devices
  import opened DiskBlocks
  import opened FileData
  import opened Words

  const INODES_PER_BLOCK := 16
  const WORDS_PER_INODE := 16
  const ATTR_DIRECTORY := 0x10000
  const DIR_ENTRY_SIZE := 32
  const FS_BOOT_MAGIC := 0xAA554d57
  const FS_NOBOOT_MAGIC := 0x00004d57
  const BOOT_CODE_SIZE := 480

  // ----- Layout -----

  /** `round_to(val, 16)` */
  function RoundTo16(x: nat): nat {
    Wrapped(x + 15) / 16 * 16
  }

  /** mkfs.c:37-51 */
  function Layout(blocks: nat, reserved: nat): Super
    requires blocks < WORD_LIMIT && reserved < WORD_LIMIT
  {
    var n := Wrapped(blocks - 1 - reserved);
    var inodeBitmap := Wrapped(1 + reserved);
    var numInodes := RoundTo16(n / 10);
    var inodes := Wrapped(inodeBitmap + numInodes / BITS_PER_BLOCK + 1);
    var rest := Wrapped(n - (numInodes / BITS_PER_BLOCK + 1 + numInodes / INODES_PER_BLOCK));
    var dataBitmap := Wrapped(inodes + numInodes / INODES_PER_BLOCK);
    var tmp := rest / BITS_PER_BLOCK + 1;
    Super(blocks, inodeBitmap, inodes, numInodes, dataBitmap, Wrapped(dataBitmap + tmp), Wrapped(rest - tmp))
  }

  function BitmapBlocks(len: nat): nat {
    (len + BITS_PER_BLOCK - 1) / BITS_PER_BLOCK
  }

  /** The regions follow each other without gap or overlap up to the end of the device, each holds what it
      must, and there is a root inode with a data block. */
  ghost predicate Partitions(sup: Super, blocks: nat, reserved: nat) {
    && sup.totalBlocks == blocks
    && sup.inodeBitmap == 1 + reserved
    && 0 < sup.numInodes && sup.inodeBitmap + BitmapBlocks(sup.numInodes) <= sup.inodes
    && sup.inodes + sup.numInodes / INODES_PER_BLOCK == sup.dataBitmap && sup.numInodes % INODES_PER_BLOCK == 0
    && 0 < sup.dataSize && sup.dataBitmap + BitmapBlocks(sup.dataSize) <= sup.data
    && sup.data + sup.dataSize == blocks
  }

  /** The layout works exactly for devices of at least eleven blocks beside the reserved ones. */
  lemma LayoutPartitions(blocks: nat, reserved: nat)
    requires blocks < WORD_LIMIT && reserved < WORD_LIMIT
    ensures Partitions(Layout(blocks, reserved), blocks, reserved) <==> blocks >= reserved + 11
  {
    if blocks >= reserved + 11 {
      LargeEnough(blocks, reserved);
    } else {
      TooSmall(blocks, reserved);
    }
  }

  lemma WrapSmall(x: int)
    requires 0 <= x < WORD_LIMIT
    ensures Wrapped(x) == x
  {
  }

  /** The number of inodes for `n` blocks, one for ten rounded up to whole blocks. */
  function Inodes(n: nat): nat {
    (n / 10 + 15) / 16 * 16
  }

  lemma InodesFit(n: nat)
    requires 10 <= n
    ensures 16 <= Inodes(n) <= n / 10 + 15 && Inodes(n) % INODES_PER_BLOCK == 0
  {
  }

  lemma InodesRounded(n: nat)
    requires n < WORD_LIMIT
    ensures RoundTo16(n / 10) == Inodes(n)
  {
    WrapSmall(n / 10 + 15);
  }

  /** The blocks for inodes and their bitmap. */
  function Before(n: nat): nat {
    Inodes(n) / BITS_PER_BLOCK + 1 + Inodes(n) / INODES_PER_BLOCK
  }

  lemma RoomForData(n: nat)
    requires 10 <= n
    ensures Before(n) + 2 <= n
  {
    hide Inodes;
    InodesFit(n);
  }

  /** The blocks of the bitmap for `rest` blocks. */
  function Mapping(rest: nat): nat {
    rest / BITS_PER_BLOCK + 1
  }

  lemma MappingIs(rest: nat)
    ensures Mapping(rest) == rest / BITS_PER_BLOCK + 1
  {
  }

  lemma MappingFits(rest: nat)
    requires 2 <= rest
    ensures Mapping(rest) < rest
  {
  }

  lemma MappingCovers(len: nat, rest: nat)
    requires len <= rest
    ensures BitmapBlocks(len) <= Mapping(rest)
  {
    assert (len + BITS_PER_BLOCK - 1) / BITS_PER_BLOCK <= (rest + BITS_PER_BLOCK) / BITS_PER_BLOCK;
  }

  /** On a device that is large enough nothing wraps. */
  lemma LayoutIs(blocks: nat, reserved: nat)
    requires reserved + 11 <= blocks < WORD_LIMIT
    ensures var n := blocks - 1 - reserved;
            && Before(n) + 2 <= n
            && var rest := n - Before(n);
            && Mapping(rest) < rest
            && Layout(blocks, reserved)
               == Super(blocks, 1 + reserved, 1 + reserved + Inodes(n) / BITS_PER_BLOCK + 1, Inodes(n),
                        1 + reserved + Before(n), 1 + reserved + Before(n) + Mapping(rest), rest - Mapping(rest))
  {
    hide Wrapped, Inodes, RoundTo16;
    var n := blocks - 1 - reserved;
    InodesRounded(n);
    RoomForData(n);
    var rest := n - Before(n);
    MappingFits(rest);
    WrapSmall(n);
    WrapSmall(1 + reserved);
    WrapSmall(1 + reserved + Inodes(n) / BITS_PER_BLOCK + 1);
    WrapSmall(rest);
    WrapSmall(1 + reserved + Before(n));
    WrapSmall(1 + reserved + Before(n) + Mapping(rest));
    WrapSmall(rest - Mapping(rest));
  }

  lemma LargeEnough(blocks: nat, reserved: nat)
    requires reserved + 11 <= blocks < WORD_LIMIT
    ensures Partitions(Layout(blocks, reserved), blocks, reserved)
  {
    hide Layout, Inodes, Mapping, BitmapBlocks;
    var n := blocks - 1 - reserved;
    LayoutIs(blocks, reserved);
    InodesFit(n);
    var rest := n - Before(n);
    MappingCovers(Inodes(n), Inodes(n));
    MappingCovers(rest - Mapping(rest), rest);
    MappingIs(Inodes(n));
  }

  lemma TooSmall(blocks: nat, reserved: nat)
    requires blocks < WORD_LIMIT && reserved < WORD_LIMIT && blocks < reserved + 11
    ensures !Partitions(Layout(blocks, reserved), blocks, reserved)
  {
    hide Layout;
    if reserved < blocks {
      NoInodes(blocks, reserved);
    }
  }

  lemma NoInodes(blocks: nat, reserved: nat)
    requires reserved < blocks < WORD_LIMIT && blocks < reserved + 11
    ensures Layout(blocks, reserved).numInodes == 0
  {
    hide Wrapped;
    WrapSmall(blocks - 1 - reserved);
    WrapSmall((blocks - 1 - reserved) / 10 + 15);
  }

  // ----- What is written -----

  /** Bits `[0, n)` of the bitmap at `start` are as mkfs leaves them: the first is set, and those from `len` on. */
  ghost predicate FreshTo(disk: seq<Block>, start: nat, len: nat, n: nat) {
    forall m :: 0 <= m < n ==> (BitAt(disk, start, m) <==> m == 0 || len <= m)
  }

  ghost predicate OnlyBit(b: Block, k: int, from: nat) {
    forall j :: 0 <= j < BITS_PER_BLOCK ==> (Bit(b, j) <==> j == k || from <= j)
  }

  lemma {:induction false} NoBits(k: nat)
    ensures !BitOf(0, k)
  {
    if k > 0 { NoBits(k - 1); }
  }

  lemma ZeroBits()
    ensures OnlyBit(ZeroBlock(), -1, BITS_PER_BLOCK)
  {
    forall j | 0 <= j < BITS_PER_BLOCK
      ensures !Bit(ZeroBlock(), j)
    {
      NoBits(j % 8);
    }
  }

  /** `set_bit(blk, 0)` */
  lemma FirstBitSet(b: Block, from: nat)
    requires OnlyBit(b, -1, from) && 0 < from
    ensures OnlyBit(SetBit(b, 0, true), 0, from) && OnlyBit(SetBit(SetBit(b, 0, true), 0, false), -1, from)
  {
    forall j | 0 <= j < BITS_PER_BLOCK
      ensures Bit(SetBit(b, 0, true), j) <==> j == 0 || from <= j
      ensures Bit(SetBit(SetBit(b, 0, true), 0, false), j) <==> j != 0 && Bit(b, j)
    {
      BitAfterSet(b, 0, true, j);
      BitAfterSet(SetBit(b, 0, true), 0, false, j);
    }
  }

  lemma PaddingBitSet(b: Block, k: int, len: nat, from: nat, end: nat)
    requires len <= from < BITS_PER_BLOCK && k < len
    requires forall j :: 0 <= j < BITS_PER_BLOCK ==> (Bit(b, j) <==> j == k || len <= j < from)
    ensures forall j :: 0 <= j < BITS_PER_BLOCK ==> (Bit(SetBit(b, from, true), j) <==> j == k || len <= j < from + 1)
  {
    forall j | 0 <= j < BITS_PER_BLOCK
      ensures Bit(SetBit(b, from, true), j) <==> j == k || len <= j < from + 1
    {
      BitAfterSet(b, from, true, j);
    }
  }

  /** One more bitmap block is on the disk. */
  lemma BitmapBlockWritten(disk: seq<Block>, start: nat, len: nat, i: nat, b: Block)
    requires start + i < |disk| && FreshTo(disk, start, len, i * BITS_PER_BLOCK) && i * BITS_PER_BLOCK < len
    requires OnlyBit(b, if i == 0 then 0 else -1, len - i * BITS_PER_BLOCK)
    ensures FreshTo(disk[start + i := b], start, len, (i + 1) * BITS_PER_BLOCK)
  {
    var disk' := disk[start + i := b];
    forall m | 0 <= m < (i + 1) * BITS_PER_BLOCK
      ensures BitAt(disk', start, m) <==> m == 0 || len <= m
    {
      if m < i * BITS_PER_BLOCK {
        assert m / BITS_PER_BLOCK < i;
        assert BitAt(disk', start, m) == BitAt(disk, start, m);
      } else {
        BlockOfBit(i, m - i * BITS_PER_BLOCK);
        assert Bit(b, m - i * BITS_PER_BLOCK) <==> m == 0 || len <= m;
      }
    }
  }

  lemma FreshIsOk(disk: seq<Block>, start: nat, len: nat)
    requires start + BitmapBlocks(len) <= |disk| && FreshTo(disk, start, len, BitmapBlocks(len) * BITS_PER_BLOCK)
    ensures BitmapOk(disk, start, len)
    ensures forall n :: 0 <= n < len ==> (BitAt(disk, start, n) <==> n == 0)
  {
    hide RoundUp32, BitAt, BitmapBlocks;
    RoundWithin(len);
    forall n | len <= n < RoundUp32(len)
      ensures BitAt(disk, start, n)
    {
    }
    forall n | 0 <= n < len
      ensures BitAt(disk, start, n) <==> n == 0
    {
    }
  }

  lemma RoundWithin(len: nat)
    ensures len <= BitmapBlocks(len) * BITS_PER_BLOCK
    ensures RoundUp32(len) <= BitmapBlocks(len) * BITS_PER_BLOCK
    ensures BitmapBlocks(len) == (len + BITS_PER_BLOCK - 1) / BITS_PER_BLOCK
  {
    var q := BitmapBlocks(len);
    assert len <= 32 * (256 * q);
    assert (len + 31) / 32 <= 256 * q;
  }

  lemma FreshKept(d0: seq<Block>, d1: seq<Block>, start: nat, len: nat)
    requires FreshTo(d0, start, len, BitmapBlocks(len) * BITS_PER_BLOCK) && start + BitmapBlocks(len) <= |d0| == |d1|
    requires forall b :: start <= b < start + BitmapBlocks(len) ==> d1[b] == d0[b]
    ensures FreshTo(d1, start, len, BitmapBlocks(len) * BITS_PER_BLOCK)
  {
    forall m | 0 <= m < BitmapBlocks(len) * BITS_PER_BLOCK
      ensures BitAt(d1, start, m) <==> BitAt(d0, start, m)
    {
      assert m / BITS_PER_BLOCK < BitmapBlocks(len);
    }
  }

  /** mkfs.c:55-88 and, for the other bitmap, mkfs.c:111-141: `tmp` bits are left for `block` and those after it.
      The block after the last one written is returned. */
  method WriteBitmap(disk: array<Block>, start: nat, len: nat) returns (block: nat)
    requires 0 < len && start + BitmapBlocks(len) <= disk.Length
    modifies disk
    ensures block == start + BitmapBlocks(len)
    ensures FreshTo(disk[..], start, len, BitmapBlocks(len) * BITS_PER_BLOCK)
    ensures forall b :: 0 <= b < disk.Length && !(start <= b < block) ==> disk[b] == old(disk[b])
  {
    hide OnlyBit, Bit, SetBit, ZeroBlock, FreshTo;
    var tmp := len;
    block := start;
    var blk := ZeroBlock();
    ZeroBits();
    NothingFresh(disk[..], start, len);
    while tmp > BITS_PER_BLOCK
      invariant start <= block && 0 < tmp && tmp + (block - start) * BITS_PER_BLOCK == len
      invariant OnlyBit(blk, -1, BITS_PER_BLOCK)
      invariant FreshTo(disk[..], start, len, (block - start) * BITS_PER_BLOCK)
      invariant forall b :: 0 <= b < disk.Length && !(start <= b < block) ==> disk[b] == old(disk[b])
    {
      ghost var d0, empty := disk[..], blk;
      FirstBitSet(blk, BITS_PER_BLOCK);
      if block == start {
        blk := SetBit(blk, 0, true);
      }
      BitsBeyond(blk, if block == start then 0 else -1, tmp);
      disk[block] := blk;
      assert disk[..] == d0[block := blk];
      BitmapBlockWritten(d0, start, len, block - start, blk);
      if block == start {
        blk := SetBit(blk, 0, false);
      }
      tmp := tmp - BITS_PER_BLOCK;
      block := block + 1;
    }
    blk := PadBlock(blk, tmp);
    FirstBitSet(blk, tmp);
    if block == start {
      blk := SetBit(blk, 0, true);
    }
    ghost var d0 := disk[..];
    disk[block] := blk;
    assert disk[..] == d0[block := blk];
    BitmapBlockWritten(d0, start, len, block - start, blk);
    block := block + 1;
    assert block - start == BitmapBlocks(len);
  }

  /** mkfs.c:77-81 */
  method PadBlock(b: Block, len: nat) returns (blk: Block)
    requires 0 < len <= BITS_PER_BLOCK && OnlyBit(b, -1, BITS_PER_BLOCK)
    ensures OnlyBit(blk, -1, len)
  {
    hide Bit, SetBit;
    blk := b;
    var tmp := len;
    while tmp < BITS_PER_BLOCK
      invariant len <= tmp <= BITS_PER_BLOCK
      invariant forall j :: 0 <= j < BITS_PER_BLOCK ==> (Bit(blk, j) <==> j == -1 || len <= j < tmp)
    {
      PaddingBitSet(blk, -1, len, tmp, BITS_PER_BLOCK);
      blk := SetBit(blk, tmp, true);
      tmp := tmp + 1;
    }
  }

  lemma NothingFresh(disk: seq<Block>, start: nat, len: nat)
    ensures FreshTo(disk, start, len, 0)
  {
  }

  lemma BitsBeyond(b: Block, k: int, from: nat)
    requires OnlyBit(b, k, BITS_PER_BLOCK) && from >= BITS_PER_BLOCK
    ensures OnlyBit(b, k, from)
  {
  }

  // ----- Super block and inodes on the disk -----

  /** The super block as read from the boot block. */
  function ReadSuper(b: Block): Super {
    Super(Word(b, 120), Word(b, 121), Word(b, 122), Word(b, 123), Word(b, 124), Word(b, 125), Word(b, 126))
  }

  function WriteSuper(b: Block, s: Super): Block
    requires SuperFits(s)
  {
    SetWord(SetWord(SetWord(SetWord(SetWord(SetWord(SetWord(b, 120, s.totalBlocks), 121, s.inodeBitmap), 122, s.inodes),
                                    123, s.numInodes), 124, s.dataBitmap), 125, s.data), 126, s.dataSize)
  }

  predicate SuperFits(s: Super) {
    && s.totalBlocks < WORD_LIMIT && s.inodeBitmap < WORD_LIMIT && s.inodes < WORD_LIMIT && s.numInodes < WORD_LIMIT
    && s.dataBitmap < WORD_LIMIT && s.data < WORD_LIMIT && s.dataSize < WORD_LIMIT
  }

  lemma LayoutFits(blocks: nat, reserved: nat)
    requires blocks < WORD_LIMIT && reserved < WORD_LIMIT
    ensures SuperFits(Layout(blocks, reserved))
  {
  }

  lemma WordsAfter(b: Block, i: nat, v: nat)
    requires i < PTRS_PER_INDIRECT && v < WORD_LIMIT
    ensures forall k: nat :: k < PTRS_PER_INDIRECT ==> Word(SetWord(b, i, v), k) == if k == i then v else Word(b, k)
  {
    hide Word, SetWord;
    forall k: nat | k < PTRS_PER_INDIRECT
      ensures Word(SetWord(b, i, v), k) == if k == i then v else Word(b, k)
    {
      WordAfterSet(b, i, v, k);
    }
  }

  lemma SuperRoundTrip(b: Block, s: Super)
    requires SuperFits(s)
    ensures ReadSuper(WriteSuper(b, s)) == s
  {
    hide Word, SetWord;
    var b0 := SetWord(b, 120, s.totalBlocks);
    var b1 := SetWord(b0, 121, s.inodeBitmap);
    var b2 := SetWord(b1, 122, s.inodes);
    var b3 := SetWord(b2, 123, s.numInodes);
    var b4 := SetWord(b3, 124, s.dataBitmap);
    var b5 := SetWord(b4, 125, s.data);
    WordsAfter(b, 120, s.totalBlocks);
    WordsAfter(b0, 121, s.inodeBitmap);
    WordsAfter(b1, 122, s.inodes);
    WordsAfter(b2, 123, s.numInodes);
    WordsAfter(b3, 124, s.dataBitmap);
    WordsAfter(b4, 125, s.data);
    WordsAfter(b5, 126, s.dataSize);
  }

  /** mkfs.c:157-160 */
  function BootBlock(b: Block, s: Super, code: seq<byte>): Block
    requires SuperFits(s) && |code| == BOOT_CODE_SIZE
  {
    Splice(SetWord(WriteSuper(b, s), 127, FS_BOOT_MAGIC), 0, code)
  }

  /** The boot code, the super block and the magic number have their own places (fs.h:53-58), and the rest of the block
      is as it was. */
  lemma BootBlockIs(b: Block, s: Super, code: seq<byte>)
    requires SuperFits(s) && |code| == BOOT_CODE_SIZE
    ensures var r := BootBlock(b, s, code);
            && r[..480] == code && r[512..] == b[512..]
            && Word(r, 120) == s.totalBlocks && Word(r, 121) == s.inodeBitmap && Word(r, 122) == s.inodes && Word(r, 123) == s.numInodes
            && Word(r, 124) == s.dataBitmap && Word(r, 125) == s.data && Word(r, 126) == s.dataSize
            && Word(r, 127) == 0xAA554d57 && ReadSuper(r) == s
  {
    hide SetWord, Word;
    var b0 := WriteSuper(b, s);
    var b1 := SetWord(b0, 127, FS_BOOT_MAGIC);
    SuperRoundTrip(b, s);
    WordsAfter(b0, 127, FS_BOOT_MAGIC);
    SpliceKeeps(b1, code);
    SuperRest(b, s);
  }

  lemma SpliceKeeps(b: Block, code: seq<byte>)
    requires |code| == BOOT_CODE_SIZE
    ensures Splice(b, 0, code)[..480] == code && Splice(b, 0, code)[512..] == b[512..]
    ensures forall k: nat :: 120 <= k < PTRS_PER_INDIRECT ==> Word(Splice(b, 0, code), k) == Word(b, k)
  {
    forall k: nat | 120 <= k < PTRS_PER_INDIRECT
      ensures Word(Splice(b, 0, code), k) == Word(b, k)
    {
    }
  }

  lemma SuperRest(b: Block, s: Super)
    requires SuperFits(s)
    ensures SetWord(WriteSuper(b, s), 127, FS_BOOT_MAGIC)[512..] == b[512..]
  {
  }

  /** `read_inode`: inode `i` of a block of inodes. */
  function ReadInode(b: Block, i: nat): Inode
    requires i < INODES_PER_BLOCK
  {
    Inode(Word(b, WORDS_PER_INODE * i + 1), seq<nat>(NR_PTRS, k requires 0 <= k < NR_PTRS => Word(b, WORDS_PER_INODE * i + 4 + k)))
  }

  /** mkfs.c:94-102 */
  function RootBlock(modtime: nat, data: nat): Block
    requires modtime < WORD_LIMIT && data < WORD_LIMIT
  {
    var b0 := SetWord(ZeroBlock(), 0, ATTR_DIRECTORY);
    var b1 := SetWord(b0, 2, modtime);
    var b2 := SetWord(b1, 1, DIR_ENTRY_SIZE * 2);
    var b3 := SetWord(b2, 3, 2);
    SetWord(b3, 4, data)
  }

  function RootInode(data: nat): Inode {
    Inode(DIR_ENTRY_SIZE * 2, seq(NR_PTRS, k => if k == 0 then data else 0))
  }

  lemma RootRoundTrip(modtime: nat, data: nat)
    requires modtime < WORD_LIMIT && data < WORD_LIMIT
    ensures ReadInode(RootBlock(modtime, data), 0) == RootInode(data)
    ensures forall k: nat :: k < PTRS_PER_INDIRECT ==>
              Word(RootBlock(modtime, data), k) == [0x10000, 64, modtime, 2, data, 0][Least(k, 5)]
  {
    hide Word, SetWord;
    var b0 := SetWord(ZeroBlock(), 0, ATTR_DIRECTORY);
    var b1 := SetWord(b0, 2, modtime);
    var b2 := SetWord(b1, 1, DIR_ENTRY_SIZE * 2);
    var b3 := SetWord(b2, 3, 2);
    WordsAfter(ZeroBlock(), 0, ATTR_DIRECTORY);
    WordsAfter(b0, 2, modtime);
    WordsAfter(b1, 1, DIR_ENTRY_SIZE * 2);
    WordsAfter(b2, 3, 2);
    WordsAfter(b3, 4, data);
    forall k: nat | k < PTRS_PER_INDIRECT
      ensures Word(ZeroBlock(), k) == 0
    {
      ZeroWords(k);
    }
  }

  /** The root directory: the names "." and "..", both for inode zero. */
  function RootDirectory(): Block {
    ZeroBlock()[0 := 46][DIR_ENTRY_SIZE := 46][DIR_ENTRY_SIZE + 1 := 46]
  }

  lemma RootDirectoryIs()
    ensures forall i :: 0 <= i < FS_BLKSIZ ==> RootDirectory()[i] == if i == 0 || i == 32 || i == 33 then 46 else 0
  {
  }

  // ----- The result -----

  /** A new volume: the root directory is the only file, and its block the only one in use. */
  ghost predicate FreshVolume(disk: seq<Block>, sup: Super) {
    && 0 < |disk| && Word(disk[0], 127) == FS_BOOT_MAGIC && ReadSuper(disk[0]) == sup
    && BitmapOk(disk, sup.inodeBitmap, sup.numInodes)
    && (forall n :: 0 <= n < sup.numInodes ==> (BitAt(disk, sup.inodeBitmap, n) <==> n == 0))
    && sup.inodes < sup.dataBitmap <= |disk|
    && (forall b :: sup.inodes < b < sup.dataBitmap ==> disk[b] == ZeroBlock())
    && TreeOk(disk, map[0 := ReadInode(disk[sup.inodes], 0)], sup)
    && (forall b: nat :: Used(disk, sup, b) <==> b == sup.data)
    && ReadInode(disk[sup.inodes], 0) == RootInode(sup.data)
    && sup.data < |disk| && disk[sup.data] == RootDirectory()
  }

  lemma {:induction false} RootPtr(disk: seq<Block>, data: nat, p: seq<nat>)
    requires IsPath(p)
    ensures Ptr(disk, map[0 := RootInode(data)], 0, p) == if p == [0] then data else 0
    decreases |p|
  {
    if |p| > 1 {
      ParentIsPath(p);
      RootPtr(disk, data, Parent(p));
    } else {
      assert p == [p[0]];
    }
  }

  lemma RootTree(disk: seq<Block>, sup: Super)
    requires VolumeOk(disk, sup) && 0 < sup.dataSize && Used(disk, sup, sup.data)
    ensures TreeOk(disk, map[0 := RootInode(sup.data)], sup)
  {
    hide Ptr, VolumeOk, IsPath, Used;
    var inos := map[0 := RootInode(sup.data)];
    assert InData(sup, sup.data);
    forall f, p | f in inos && IsPath(p)
      ensures PtrOk(disk, inos, sup, f, p)
    {
      RootPtr(disk, sup.data, p);
    }
    forall f, p, g, q | f in inos && g in inos && IsPath(p) && IsPath(q)
      ensures OnePlace(disk, inos, f, p, g, q)
    {
      RootPtr(disk, sup.data, p);
      RootPtr(disk, sup.data, q);
    }
  }

  lemma UsedWhenFresh(disk: seq<Block>, sup: Super)
    requires forall n :: 0 <= n < sup.dataSize ==> (BitAt(disk, sup.dataBitmap, n) <==> n == 0)
    requires 0 < sup.dataSize
    ensures forall b: nat :: Used(disk, sup, b) <==> b == sup.data
  {
    forall b: nat
      ensures Used(disk, sup, b) <==> b == sup.data
    {
      if InData(sup, b) {
        assert BitAt(disk, sup.dataBitmap, b - sup.data) <==> b - sup.data == 0;
      }
    }
  }

  /** How often the loop at mkfs.c:58 or 114 writes a full block of the bitmap. */
  function FullBlocks(tmp: int): nat
    decreases if tmp > 0 then tmp else 0
  {
    if tmp > BITS_PER_BLOCK then 1 + FullBlocks(tmp - BITS_PER_BLOCK) else 0
  }

  lemma {:induction false} FullBlocksAre(len: nat)
    requires 0 < len
    ensures FullBlocks(len) + 1 == BitmapBlocks(len)
  {
    if len > BITS_PER_BLOCK {
      FullBlocksAre(len - BITS_PER_BLOCK);
    }
  }

  /** The counter is signed: the loop, with the block after it, covers the bitmap if and only if its length is below
      2^31. Beyond that one block is written, and bits in front of it are set in memory. */
  lemma CounterFits(len: nat)
    requires 0 < len < WORD_LIMIT
    ensures FullBlocks(Signed(len)) + 1 == BitmapBlocks(len) <==> len < SIGNED_LIMIT
  {
    if len < SIGNED_LIMIT {
      FullBlocksAre(len);
    }
  }

  /** `mkfs` */
  method Mkfs(disk: array<Block>, reserved: nat, modtime: nat, bootCode: seq<byte>) returns (ghost sup: Super)
    requires reserved + 11 <= disk.Length < WORD_LIMIT && Layout(disk.Length, reserved).dataSize < SIGNED_LIMIT
    requires modtime < WORD_LIMIT && |bootCode| == BOOT_CODE_SIZE
    modifies disk
    ensures sup == Layout(disk.Length, reserved) && Partitions(sup, disk.Length, reserved)
    ensures FreshVolume(disk[..], sup)
    ensures disk[0][..480] == bootCode && disk[0][512..] == old(disk[0])[512..] && Word(disk[0], 127) == 0xAA554d57
    ensures Word(disk[0], 120) == disk.Length && Word(disk[0], 121) == reserved + 1 && Word(disk[0], 122) == sup.inodes
    ensures Word(disk[0], 123) == sup.numInodes && Word(disk[0], 124) == sup.dataBitmap
    ensures Word(disk[0], 125) == sup.data && Word(disk[0], 126) == disk.Length - sup.data
    ensures forall k: nat :: k < PTRS_PER_INDIRECT ==>
              Word(disk[sup.inodes], k) == [0x10000, 64, modtime, 2, sup.data, 0][Least(k, 5)]
    ensures forall i :: 0 <= i < FS_BLKSIZ ==> disk[sup.data][i] == if i == 0 || i == 32 || i == 33 then 46 else 0
    ensures forall b :: 1 <= b < 1 + reserved ==> disk[b] == old(disk[b])
  {
    hide Word, SetWord, Layout, FreshTo, BitmapBlocks, TreeOk, BitmapOk, RootBlock, RootDirectory, RootInode, BootBlock, ReadSuper;
    LayoutPartitions(disk.Length, reserved);
    LayoutFits(disk.Length, reserved);
    var s := Layout(disk.Length, reserved);
    sup := s;
    var block := WriteBitmap(disk, s.inodeBitmap, s.numInodes);
    ghost var d1 := disk[..];
    block := WriteInodes(disk, block, s, modtime);
    ghost var d2 := disk[..];
    block := WriteBitmap(disk, s.dataBitmap, s.dataSize);
    ghost var d3 := disk[..];
    disk[s.data] := RootDirectory();
    BootBlockIs(disk[0], s, bootCode);
    disk[0] := BootBlock(disk[0], s, bootCode);
    RootDirectoryIs();
    ghost var d4 := disk[..];
    FreshKept(d1, d4, s.inodeBitmap, s.numInodes);
    FreshKept(d3, d4, s.dataBitmap, s.dataSize);
    RootRoundTrip(modtime, s.data);
    BitmapsWhenFresh(d4, s);
  }

  lemma BitmapsWhenFresh(disk: seq<Block>, sup: Super)
    requires 1 <= sup.inodeBitmap && Partitions(sup, |disk|, sup.inodeBitmap - 1) && |disk| < WORD_LIMIT
    requires FreshTo(disk, sup.inodeBitmap, sup.numInodes, BitmapBlocks(sup.numInodes) * BITS_PER_BLOCK)
    requires FreshTo(disk, sup.dataBitmap, sup.dataSize, BitmapBlocks(sup.dataSize) * BITS_PER_BLOCK)
    ensures BitmapOk(disk, sup.inodeBitmap, sup.numInodes)
    ensures forall n :: 0 <= n < sup.numInodes ==> (BitAt(disk, sup.inodeBitmap, n) <==> n == 0)
    ensures forall b: nat :: Used(disk, sup, b) <==> b == sup.data
    ensures TreeOk(disk, map[0 := RootInode(sup.data)], sup)
  {
    hide FreshTo, TreeOk, RootInode, BitmapOk, BitAt;
    FreshIsOk(disk, sup.inodeBitmap, sup.numInodes);
    FreshIsOk(disk, sup.dataBitmap, sup.dataSize);
    UsedWhenFresh(disk, sup);
    VolumeWhenFresh(disk, sup);
    RootTree(disk, sup);
  }

  lemma VolumeWhenFresh(disk: seq<Block>, sup: Super)
    requires 1 <= sup.inodeBitmap && Partitions(sup, |disk|, sup.inodeBitmap - 1)
    requires |disk| < WORD_LIMIT && BitmapOk(disk, sup.dataBitmap, sup.dataSize)
    ensures VolumeOk(disk, sup)
  {
  }

  /** mkfs.c:90-109 */
  method WriteInodes(disk: array<Block>, from: nat, s: Super, modtime: nat) returns (block: nat)
    requires from <= s.inodes < s.dataBitmap <= disk.Length && s.data < WORD_LIMIT && modtime < WORD_LIMIT
    modifies disk
    ensures block == s.dataBitmap
    ensures disk[s.inodes] == RootBlock(modtime, s.data)
    ensures forall b :: from <= b < s.dataBitmap && b != s.inodes ==> disk[b] == ZeroBlock()
    ensures forall b :: 0 <= b < disk.Length && !(from <= b < s.dataBitmap) ==> disk[b] == old(disk[b])
  {
    var blk := ZeroBlock();
    block := from;
    while block < s.dataBitmap
      invariant from <= block <= s.dataBitmap && blk == ZeroBlock()
      invariant s.inodes < block ==> disk[s.inodes] == RootBlock(modtime, s.data)
      invariant forall b :: from <= b < block && b != s.inodes ==> disk[b] == ZeroBlock()
      invariant forall b :: 0 <= b < disk.Length && !(from <= b < block) ==> disk[b] == old(disk[b])
    {
      if block == s.inodes {
        blk := RootBlock(modtime, s.data);
      }
      disk[block] := blk;
      if block == s.inodes {
        RootBlockCleared(modtime, s.data);
        blk := seq(4 * WORDS_PER_INODE, i => 0) + blk[4 * WORDS_PER_INODE..];
      }
      block := block + 1;
    }
  }

  lemma RootBlockCleared(modtime: nat, data: nat)
    requires modtime < WORD_LIMIT && data < WORD_LIMIT
    ensures seq(4 * WORDS_PER_INODE, i => 0) + RootBlock(modtime, data)[4 * WORDS_PER_INODE..] == ZeroBlock()
  {
  }
}
