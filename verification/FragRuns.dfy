/** Blocks cut into fragments: for each fragment size, the list of free fragments
    is a concatenation of runs, one per block. */
module FragRuns {
  import opened FragLists
  import opened HeapRing
  import opened Sequences

  const MIN_LOG := 3
  const MAX_LOG := 11

  /** `i << n` */
  function Shl(i: nat, n: nat): nat {
    if n == 0 then i else 2 * Shl(i, n - 1)
  }

  /** `x >> n` */
  function Shr(x: nat, n: nat): nat {
    if n == 0 then x else Shr(x / 2, n - 1)
  }

  lemma {:induction false} ShrShl(i: nat, n: nat)
    ensures Shr(Shl(i, n), n) == i
  {
    if n > 0 {
      ShrShl(i, n - 1);
    }
  }

  lemma {:induction false} ShlMonotone(i: nat, j: nat, n: nat)
    requires i < j
    ensures Shl(i, n) + Shl(1, n) <= Shl(j, n)
  {
    if n > 0 {
      ShlMonotone(i, j, n - 1);
    }
  }

  lemma {:induction false} ShlShl(i: nat, m: nat, n: nat)
    ensures Shl(Shl(i, m), n) == Shl(i, m + n)
  {
    if n > 0 {
      ShlShl(i, m, n - 1);
    }
  }

  predicate IsLog(log: nat) {
    MIN_LOG <= log <= MAX_LOG
  }

  /** `BLOCKSIZE >> log`: fragments of size `1 << log` in a block. */
  function PerBlock(log: nat): nat {
    Shr(BLOCKSIZE, log)
  }

  lemma BlockSizeIsShift()
    ensures Shl(1, 12) == BLOCKSIZE
  {
    assert Shl(1, 4) == 16;
    ShlShl(1, 4, 4);
    assert Shl(16, 4) == 256;
    ShlShl(1, 8, 4);
    assert Shl(256, 4) == 4096;
  }

  lemma FragmentsFillBlock(log: nat)
    requires IsLog(log)
    ensures Shl(PerBlock(log), log) == BLOCKSIZE && PerBlock(log) == Shl(1, 12 - log)
    ensures PerBlock(log) >= 2 && Shl(1, log) >= 8
  {
    BlockSizeIsShift();
    ShlShl(1, 12 - log, log);
    ShrShl(Shl(1, 12 - log), log);
    ShlAtLeast(1, 12 - log);
    ShlAtLeast(3, log);
  }

  lemma {:induction false} ShlAtLeast(m: nat, n: nat)
    requires m <= n
    ensures Shl(1, n) >= Shl(1, m)
    ensures Shl(1, 1) == 2 && Shl(1, 3) == 8
  {
    if m < n {
      ShlAtLeast(m, n - 1);
    }
  }

  /** The fragment with index `i` of block `b`. */
  function FragAt(log: nat, b: nat, i: nat): Ptr {
    At(b, Shl(i, log))
  }

  /** An offset at which a fragment of size `1 << log` starts. */
  predicate IsFragOffset(log: nat, off: nat) {
    Shr(off, log) < PerBlock(log) && Shl(Shr(off, log), log) == off
  }

  lemma IndexOfFrag(log: nat, i: nat)
    requires IsLog(log) && i < PerBlock(log)
    ensures Shr(Shl(i, log), log) == i && Shl(i, log) + Shl(1, log) <= BLOCKSIZE && IsFragOffset(log, Shl(i, log))
  {
    ShrShl(i, log);
    FragmentsFillBlock(log);
    ShlMonotone(i, PerBlock(log), log);
  }

  /** The free fragments of one block, in list order. */
  datatype Run = Run(block: nat, idx: seq<nat>)

  ghost function RunPtrs(log: nat, r: Run): (L: seq<Ptr>)
    ensures |L| == |r.idx| && forall j :: 0 <= j < |L| ==> L[j] == FragAt(log, r.block, r.idx[j])
  {
    seq(|r.idx|, j requires 0 <= j < |r.idx| => FragAt(log, r.block, r.idx[j]))
  }

  ghost function Flat(log: nat, rs: seq<Run>): seq<Ptr> {
    if rs == [] then [] else RunPtrs(log, rs[0]) + Flat(log, rs[1..])
  }

  lemma {:induction false} FlatAppend(log: nat, a: seq<Run>, b: seq<Run>)
    ensures Flat(log, a + b) == Flat(log, a) + Flat(log, b)
  {
    if a == [] {
      assert a + b == b;
    } else {
      assert (a + b)[1..] == a[1..] + b;
      FlatAppend(log, a[1..], b);
    }
  }

  /** Run `k` occupies one stretch of the list. */
  lemma FlatAround(log: nat, rs: seq<Run>, k: nat)
    requires k < |rs|
    ensures Flat(log, rs) == Flat(log, rs[..k]) + RunPtrs(log, rs[k]) + Flat(log, rs[k + 1..])
  {
    assert rs == rs[..k] + rs[k..];
    FlatAppend(log, rs[..k], rs[k..]);
    assert rs[k..][0] == rs[k] && rs[k..][1..] == rs[k + 1..];
  }

  ghost predicate RunOk(info: seq<Info>, log: nat, r: Run) {
    && |r.idx| > 0
    && Distinct(r.idx)
    && (forall j :: 0 <= j < |r.idx| ==> r.idx[j] < PerBlock(log))
    && r.block < |info| && info[r.block] == Frag(log, |r.idx|, r.idx[0])
  }

  /** Every free fragment of a block is in the block's run, and the table entry describes the run. */
  ghost predicate RunsOk(info: seq<Info>, log: nat, rs: seq<Run>) {
    && (forall k :: 0 <= k < |rs| ==> RunOk(info, log, rs[k]))
    && (forall k, m :: 0 <= k < m < |rs| ==> rs[k].block != rs[m].block)
  }

  ghost predicate InRuns(rs: seq<Run>, b: nat, i: nat) {
    exists k :: 0 <= k < |rs| && rs[k].block == b && i in rs[k].idx
  }

  lemma {:induction false} InFlat(log: nat, rs: seq<Run>, p: Ptr)
    requires p in Flat(log, rs)
    ensures exists k, j :: 0 <= k < |rs| && 0 <= j < |rs[k].idx| && p == FragAt(log, rs[k].block, rs[k].idx[j])
  {
    if p in RunPtrs(log, rs[0]) {
      var j :| 0 <= j < |RunPtrs(log, rs[0])| && RunPtrs(log, rs[0])[j] == p;
      assert p == FragAt(log, rs[0].block, rs[0].idx[j]);
    } else {
      InFlat(log, rs[1..], p);
      var k, j :| 0 <= k < |rs[1..]| && 0 <= j < |rs[1..][k].idx| && p == FragAt(log, rs[1..][k].block, rs[1..][k].idx[j]);
      assert p == FragAt(log, rs[k + 1].block, rs[k + 1].idx[j]);
    }
  }

  /** A fragment that is in no run is not on the list. */
  lemma NotInFlat(info: seq<Info>, log: nat, rs: seq<Run>, b: nat, i: nat)
    requires IsLog(log) && RunsOk(info, log, rs) && i < PerBlock(log) && !InRuns(rs, b, i)
    ensures FragAt(log, b, i) !in Flat(log, rs)
  {
    if FragAt(log, b, i) in Flat(log, rs) {
      InFlat(log, rs, FragAt(log, b, i));
      var k, j :| 0 <= k < |rs| && 0 <= j < |rs[k].idx| && FragAt(log, b, i) == FragAt(log, rs[k].block, rs[k].idx[j]);
      assert RunOk(info, log, rs[k]);
      IndexOfFrag(log, i);
      IndexOfFrag(log, rs[k].idx[j]);
      assert false;
    }
  }
}
