/** A disk block as bytes, as bits (bits.h) and as little-endian 32-bit words. */
module DiskBlocks {
  import opened Options
  import opened Words

  const FS_BLKSIZ := 1024
  const BITS_PER_BLOCK := 8192
  const PTRS_PER_INDIRECT := 256

  type byte = x: nat | x < 256

  type Block = b: seq<byte> | |b| == FS_BLKSIZ witness seq(FS_BLKSIZ, _ => 0)

  function ZeroBlock(): Block {
    seq(FS_BLKSIZ, _ => 0)
  }

  // ----- Bits -----

  /** Bit `k` of a number. */
  predicate BitOf(x: nat, k: nat) {
    if k == 0 then x % 2 == 1 else BitOf(x / 2, k - 1)
  }

  function WithBit(x: nat, k: nat, on: bool): nat {
    if k == 0 then x - x % 2 + (if on then 1 else 0) else 2 * WithBit(x / 2, k - 1, on) + x % 2
  }

  lemma {:induction false} BitOfWithBit(x: nat, k: nat, on: bool, m: nat)
    ensures BitOf(WithBit(x, k, on), m) <==> if m == k then on else BitOf(x, m)
  {
    if k > 0 && m > 0 {
      assert WithBit(x, k, on) / 2 == WithBit(x / 2, k - 1, on);
      BitOfWithBit(x / 2, k - 1, on, m - 1);
    }
  }

  lemma {:induction false} WithBitFits(x: nat, k: nat, on: bool, n: nat)
    requires k < n && x < Pow2(n)
    ensures WithBit(x, k, on) < Pow2(n)
  {
    if k > 0 {
      assert x / 2 < Pow2(n - 1);
      WithBitFits(x / 2, k - 1, on, n - 1);
      assert WithBit(x, k, on) == 2 * WithBit(x / 2, k - 1, on) + x % 2;
    }
  }

  function WithBitByte(x: byte, k: nat, on: bool): byte
    requires k < 8
  {
    assert Pow2(8) == 256;
    WithBitFits(x, k, on, 8);
    WithBit(x, k, on)
  }

  /** `test_bit` */
  predicate Bit(b: Block, j: nat)
    requires j < BITS_PER_BLOCK
  {
    BitOf(b[j / 8], j % 8)
  }

  /** `set_bit` and `clear_bit` */
  function SetBit(b: Block, j: nat, on: bool): Block
    requires j < BITS_PER_BLOCK
  {
    b[j / 8 := WithBitByte(b[j / 8], j % 8, on)]
  }

  lemma BitAfterSet(b: Block, j: nat, on: bool, m: nat)
    requires j < BITS_PER_BLOCK && m < BITS_PER_BLOCK
    ensures Bit(SetBit(b, j, on), m) <==> if m == j then on else Bit(b, m)
  {
    BitOfWithBit(b[j / 8], j % 8, on, m % 8);
  }

  // ----- find_zero_bit -----

  /** All 32 bits of word `w` are set. */
  predicate FullWord(b: Block, w: nat)
    requires w < PTRS_PER_INDIRECT
  {
    b[4 * w] == 255 && b[4 * w + 1] == 255 && b[4 * w + 2] == 255 && b[4 * w + 3] == 255
  }

  lemma {:induction false} AllOnes(n: nat, k: nat)
    requires k < n
    ensures BitOf(Pow2(n) - 1, k)
  {
    if k > 0 {
      assert (Pow2(n) - 1) / 2 == Pow2(n - 1) - 1;
      AllOnes(n - 1, k - 1);
    }
  }

  lemma {:induction false} SomeZero(x: nat, n: nat) returns (k: nat)
    requires x < Pow2(n) - 1
    ensures k < n && !BitOf(x, k)
  {
    if x % 2 == 0 {
      k := 0;
    } else {
      k := SomeZero(x / 2, n - 1);
      k := k + 1;
    }
  }

  lemma FullWordBits(b: Block, w: nat)
    requires w < PTRS_PER_INDIRECT
    ensures FullWord(b, w) <==> forall j :: 32 * w <= j < 32 * w + 32 ==> Bit(b, j)
  {
    assert Pow2(8) == 256;
    ByteBits(b, 4 * w);
    ByteBits(b, 4 * w + 1);
    ByteBits(b, 4 * w + 2);
    ByteBits(b, 4 * w + 3);
  }

  lemma ByteBits(b: Block, i: nat)
    requires i < FS_BLKSIZ
    ensures b[i] == 255 <==> forall j :: 8 * i <= j < 8 * i + 8 ==> Bit(b, j)
  {
    assert Pow2(8) == 256;
    if b[i] == 255 {
      forall j | 8 * i <= j < 8 * i + 8
        ensures Bit(b, j)
      {
        AllOnes(8, j % 8);
      }
    } else {
      var k := SomeZero(b[i], 8);
      assert !Bit(b, 8 * i + k);
    }
  }

  /** The number of bits in the words that hold the first `n` bits. */
  function RoundUp32(n: nat): nat {
    (n + 31) / 32 * 32
  }

  ghost predicate PrefixSet(b: Block, n: nat)
    requires n <= BITS_PER_BLOCK
  {
    forall j :: 0 <= j < n ==> Bit(b, j)
  }

  /** bits.h:29-49: the first clear bit in the words that hold the first `len` bits. The scan runs
      to the end of the last word, so the result may be `len` or more. */
  method FindZeroBit(b: Block, len: nat) returns (r: Option<nat>)
    requires len <= BITS_PER_BLOCK
    ensures r.Some? ==> r.value < RoundUp32(len) <= BITS_PER_BLOCK && !Bit(b, r.value) && PrefixSet(b, r.value)
    ensures r.None? ==> RoundUp32(len) <= BITS_PER_BLOCK && PrefixSet(b, RoundUp32(len))
  {
    var w := 0;
    while w < (len + 31) / 32 && FullWord(b, w)
      invariant w <= (len + 31) / 32
      invariant forall j :: 0 <= j < 32 * w ==> Bit(b, j)
    {
      FullWordBits(b, w);
      w := w + 1;
    }
    if w == (len + 31) / 32 {
      return None;
    }
    FullWordBits(b, w);
    var j := 32 * w;
    while Bit(b, j)
      invariant 32 * w <= j < 32 * w + 32
      invariant forall i :: 0 <= i < j ==> Bit(b, i)
      invariant exists i :: j <= i < 32 * w + 32 && !Bit(b, i)
      decreases 32 * w + 32 - j
    {
      j := j + 1;
    }
    r := Some(j);
  }

  // ----- Words -----

  function FromBytes(b0: byte, b1: byte, b2: byte, b3: byte): (v: nat)
    ensures v < WORD_LIMIT
  {
    var i0: int, i1: int, i2: int, i3: int := b0, b1, b2, b3;
    i0 + 256 * i1 + 65536 * i2 + 16777216 * i3
  }

  lemma BytesOfWord(v: nat)
    requires v < WORD_LIMIT
    ensures v / 16777216 < 256
    ensures FromBytes(v % 256, v / 256 % 256, v / 65536 % 256, v / 16777216) == v
  {
    assert v / 65536 == v / 256 / 256 && v / 16777216 == v / 256 / 256 / 256;
  }

  /** Word `i` of an indirect block. */
  function Word(b: Block, i: nat): nat
    requires i < PTRS_PER_INDIRECT
  {
    FromBytes(b[4 * i], b[4 * i + 1], b[4 * i + 2], b[4 * i + 3])
  }

  function SetWord(b: Block, i: nat, v: nat): Block
    requires i < PTRS_PER_INDIRECT && v < WORD_LIMIT
  {
    b[4 * i := v % 256][4 * i + 1 := v / 256 % 256][4 * i + 2 := v / 65536 % 256][4 * i + 3 := v / 16777216]
  }

  lemma WordAfterSet(b: Block, i: nat, v: nat, k: nat)
    requires i < PTRS_PER_INDIRECT && v < WORD_LIMIT && k < PTRS_PER_INDIRECT
    ensures Word(SetWord(b, i, v), k) == if k == i then v else Word(b, k)
  {
    hide FromBytes;
    BytesOfWord(v);
    var r := SetWord(b, i, v);
    if k != i {
      assert r[4 * k] == b[4 * k] && r[4 * k + 1] == b[4 * k + 1] && r[4 * k + 2] == b[4 * k + 2] && r[4 * k + 3] == b[4 * k + 3];
    }
  }

  lemma ZeroWords(k: nat)
    requires k < PTRS_PER_INDIRECT
    ensures Word(ZeroBlock(), k) == 0
  {
  }
}
