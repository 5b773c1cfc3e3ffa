/** Bitmaps kept in disk blocks (bitmap.c), over the flat array of blocks that the
    buffer cache provides. */
module Bitmap {
  import opened Options
  import opened Devices
  import opened DiskBlocks

  /** Bit `n` of the bitmap whose first block is `start`. */
  ghost predicate BitAt(disk: seq<Block>, start: nat, n: nat) {
    start + n / BITS_PER_BLOCK < |disk| && Bit(disk[start + n / BITS_PER_BLOCK], n % BITS_PER_BLOCK)
  }

  ghost predicate AllSet(disk: seq<Block>, start: nat, n: nat) {
    forall m :: 0 <= m < n ==> BitAt(disk, start, m)
  }

  /** The bitmap of `len` bits lies on the disk, and the bits that fill up its last word are set. */
  ghost predicate BitmapOk(disk: seq<Block>, start: nat, len: nat) {
    && start + (len + BITS_PER_BLOCK - 1) / BITS_PER_BLOCK <= |disk|
    && forall n :: len <= n < RoundUp32(len) ==> BitAt(disk, start, n)
  }

  lemma BitInRange(disk: seq<Block>, start: nat, len: nat, n: nat)
    requires BitmapOk(disk, start, len) && n < len
    ensures start + n / BITS_PER_BLOCK < |disk|
  {
  }

  /** The disk after bit `n` is set or cleared. */
  ghost function WithBitAt(disk: seq<Block>, start: nat, n: nat, on: bool): seq<Block>
    requires start + n / BITS_PER_BLOCK < |disk|
  {
    var k := start + n / BITS_PER_BLOCK;
    disk[k := SetBit(disk[k], n % BITS_PER_BLOCK, on)]
  }

  lemma BitAtAfterSet(disk: seq<Block>, start: nat, n: nat, on: bool, m: nat)
    requires start + n / BITS_PER_BLOCK < |disk|
    ensures BitAt(WithBitAt(disk, start, n, on), start, m) <==> if m == n then on else BitAt(disk, start, m)
  {
    if m / BITS_PER_BLOCK == n / BITS_PER_BLOCK {
      BitAfterSet(disk[start + n / BITS_PER_BLOCK], n % BITS_PER_BLOCK, on, m % BITS_PER_BLOCK);
    }
  }

  lemma BitmapStaysOk(disk: seq<Block>, start: nat, len: nat, n: nat, on: bool)
    requires BitmapOk(disk, start, len) && n < len
    ensures start + n / BITS_PER_BLOCK < |disk| && BitmapOk(WithBitAt(disk, start, n, on), start, len)
  {
    BitInRange(disk, start, len, n);
    var disk' := WithBitAt(disk, start, n, on);
    forall m | len <= m < RoundUp32(len)
      ensures BitAt(disk', start, m)
    {
      BitAtAfterSet(disk, start, n, on, m);
    }
  }

  lemma BlockOfBit(i: nat, j: nat)
    requires j < BITS_PER_BLOCK
    ensures (i * BITS_PER_BLOCK + j) / BITS_PER_BLOCK == i && (i * BITS_PER_BLOCK + j) % BITS_PER_BLOCK == j
  {
  }

  lemma NoneSet(disk: seq<Block>, start: nat)
    ensures AllSet(disk, start, 0)
  {
  }

  /** The first `n` bits of block `i` extend the run of set bits. */
  lemma MoreSet(disk: seq<Block>, start: nat, i: nat, n: nat)
    requires AllSet(disk, start, i * BITS_PER_BLOCK) && n <= BITS_PER_BLOCK
    requires start + i < |disk| && PrefixSet(disk[start + i], RoundUp32(n))
    ensures AllSet(disk, start, i * BITS_PER_BLOCK + n)
  {
    var c := i * BITS_PER_BLOCK;
    forall m | c <= m < c + n
      ensures BitAt(disk, start, m)
    {
      BlockOfBit(i, m - c);
      assert Bit(disk[start + i], m - c);
    }
  }

  /** A clear bit found in block `i` of the bitmap is the first of the bitmap and below its length. */
  lemma FoundBelowLength(disk: seq<Block>, start: nat, len: nat, i: nat, n: nat, bit: nat)
    requires BitmapOk(disk, start, len) && i * BITS_PER_BLOCK + n <= len && 0 < n <= BITS_PER_BLOCK
    requires n < BITS_PER_BLOCK ==> i * BITS_PER_BLOCK + n == len
    requires bit < RoundUp32(n) <= BITS_PER_BLOCK && start + i < |disk| && !Bit(disk[start + i], bit)
    requires PrefixSet(disk[start + i], bit) && AllSet(disk, start, i * BITS_PER_BLOCK)
    ensures i * BITS_PER_BLOCK + bit < len
    ensures !BitAt(disk, start, i * BITS_PER_BLOCK + bit) && AllSet(disk, start, i * BITS_PER_BLOCK + bit)
  {
    hide RoundUp32;
    var c := i * BITS_PER_BLOCK;
    BlockOfBit(i, bit);
    RoundUpAdd(i, n);
    assert !BitAt(disk, start, c + bit);
    forall m | c <= m < c + bit
      ensures BitAt(disk, start, m)
    {
      BlockOfBit(i, m - c);
      assert Bit(disk[start + i], m - c);
    }
  }

  lemma RoundUpAdd(i: nat, n: nat)
    ensures RoundUp32(i * BITS_PER_BLOCK + n) == i * BITS_PER_BLOCK + RoundUp32(n)
    ensures RoundUp32(BITS_PER_BLOCK) == BITS_PER_BLOCK
  {
    Div32(256 * i, n + 31);
  }

  lemma Div32(a: nat, b: nat)
    ensures (32 * a + b) / 32 == a + b / 32
  {
  }

  // ----- bitmap.c -----

  /** `bmap_alloc` */
  method BmapAlloc(dev: Device, start: nat, len: nat) returns (r: Option<nat>)
    requires dev.Ready() && BitmapOk(dev.disk, start, len) && |dev.held| < dev.budget
    modifies dev`disk, dev`held, dev.cache
    ensures dev.Ready() && dev.held == old(dev.held)
    ensures r.None? ==> dev.disk == old(dev.disk) && AllSet(dev.disk, start, len)
    ensures r.Some? ==>
              && r.value < len
              && !BitAt(old(dev.disk), start, r.value) && AllSet(old(dev.disk), start, r.value)
              && dev.disk == WithBitAt(old(dev.disk), start, r.value, true)
  {
    hide AllSet, PrefixSet, BitmapOk, RoundUp32, Device.Ready;
    var remaining := len;
    var blk := start;
    NoneSet(dev.disk, start);
    while remaining > 0
      invariant start <= blk && 0 <= remaining <= len
      invariant remaining > 0 ==> len - remaining == (blk - start) * BITS_PER_BLOCK
      invariant dev.Ready() && dev.held == old(dev.held)
      invariant dev.disk == old(dev.disk) && AllSet(dev.disk, start, len - remaining)
    {
      ghost var i := blk - start;
      var n := if remaining < BITS_PER_BLOCK then remaining else BITS_PER_BLOCK;
      BitInRange(dev.disk, start, len, len - remaining);
      BlockOfBit(i, 0);
      ghost var top := |dev.held|;
      var buf := dev.Take(blk);
      var bits := dev.Data(buf, top);
      var bit := FindZeroBit(bits, n);
      if bit.Some? {
        FoundBelowLength(dev.disk, start, len, i, n, bit.value);
        BlockOfBit(i, bit.value);
        dev.Change(buf, SetBit(bits, bit.value, true), true, top);
        dev.Drop(buf);
        return Some((blk - start) * BITS_PER_BLOCK + bit.value);
      }
      MoreSet(dev.disk, start, i, n);
      dev.Drop(buf);
      remaining := remaining - n;
      blk := blk + 1;
    }
    assert len - remaining == len;
    r := None;
  }

  /** `bmap_free`; the result tells whether the bit was set, which the source reports otherwise. */
  method BmapFree(dev: Device, start: nat, len: nat, n: nat) returns (wasSet: bool)
    requires dev.Ready() && BitmapOk(dev.disk, start, len) && n < len && |dev.held| < dev.budget
    modifies dev`disk, dev`held, dev.cache
    ensures dev.Ready() && dev.held == old(dev.held)
    ensures BitAt(old(dev.disk), start, n) <==> wasSet
    ensures dev.disk == if wasSet then WithBitAt(old(dev.disk), start, n, false) else old(dev.disk)
  {
    hide Device.Ready;
    BitInRange(dev.disk, start, len, n);
    var blk := n / BITS_PER_BLOCK + start;
    var bit := n % BITS_PER_BLOCK;
    var buf := dev.Take(blk);
    var bits := dev.Data(buf, |dev.held| - 1);
    wasSet := Bit(bits, bit);
    if wasSet {
      dev.Change(buf, SetBit(bits, bit, false), true, |dev.held| - 1);
    }
    dev.Drop(buf);
  }
}
