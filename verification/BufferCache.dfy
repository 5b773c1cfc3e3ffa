/** buffer.c: the cache of disk blocks, built without LAZY_WRITES, over devices that do not fail. */
module BufferCache {
  import opened DiskBlocks
  import opened Options
  import opened Sequences

  const NR_BUFFERS := 20
  const BUFFER_BUCKETS := 4

  datatype Key = Key(dev: nat, blkno: nat)

  type Disk = map<Key, Block>

  datatype Buf = Buf(dev: nat, blkno: nat, useCount: nat, dirty: bool, invalid: bool, data: Block)

  /** A buffer is named by its index in the pool. */
  type Slot = i: nat | i < NR_BUFFERS

  type Pool = p: seq<Buf> | |p| == NR_BUFFERS witness seq(NR_BUFFERS, _ => Buf(0, 0, 0, false, false, ZeroBlock()))

  type Buckets = b: seq<seq<Slot>> | |b| == BUFFER_BUCKETS witness [[], [], [], []]

  function KeyOf(b: Buf): Key {
    Key(b.dev, b.blkno)
  }

  /** `BUFFER_HASH` */
  function Hash(blkno: nat): (h: nat)
    ensures h < BUFFER_BUCKETS
  {
    blkno % BUFFER_BUCKETS
  }

  // ----- The invariant -----

  /** The buffers `on` are on the list of their hash value, the others on the free list, each once. */
  ghost predicate Placed(pool: Pool, buckets: Buckets, free: seq<Slot>, on: set<Slot>) {
    && (forall h :: 0 <= h < BUFFER_BUCKETS ==> Distinct(buckets[h]))
    && (forall h, i: Slot :: 0 <= h < BUFFER_BUCKETS ==> (i in buckets[h] <==> i in on && Hash(pool[i].blkno) == h))
    && Distinct(free)
    && (forall i: Slot :: i in free <==> i !in on)
  }

  /** Buffer `i` is the valid copy of block `k`. */
  ghost predicate Holds(pool: Pool, on: set<Slot>, i: Slot, k: Key) {
    i in on && !pool[i].invalid && KeyOf(pool[i]) == k
  }

  /** A valid cached buffer has what readers are to see; a dirty one counts as not saved. */
  ghost predicate BufOk(pool: Pool, on: set<Slot>, view: Disk, unsaved: map<Key, Slot>, i: Slot) {
    && (i in on && !pool[i].invalid ==> KeyOf(pool[i]) in view && pool[i].data == view[KeyOf(pool[i])])
    && (pool[i].dirty ==> i in on && !pool[i].invalid && KeyOf(pool[i]) in unsaved)
  }

  /** The device has what readers are to see, except for blocks whose newer contents are in a buffer somebody holds. */
  ghost predicate BlockOk(pool: Pool, on: set<Slot>, disk: Disk, view: Disk, unsaved: map<Key, Slot>, k: Key) {
    && (k in disk <==> k in view)
    && (k in disk && k !in unsaved ==> disk[k] == view[k])
    && (k in unsaved ==> k in disk && Holds(pool, on, unsaved[k], k) && pool[unsaved[k]].useCount > 0)
  }

  ghost predicate OneHolder(pool: Pool, on: set<Slot>, i: Slot, j: Slot, k: Key) {
    Holds(pool, on, i, k) && Holds(pool, on, j, k) ==> i == j
  }

  ghost predicate CacheOk(pool: Pool, on: set<Slot>, disk: Disk, view: Disk, unsaved: map<Key, Slot>) {
    && (forall i: Slot :: BufOk(pool, on, view, unsaved, i))
    && (forall k :: BlockOk(pool, on, disk, view, unsaved, k))
    && (forall i: Slot, j: Slot, k :: OneHolder(pool, on, i, j, k))
  }

  /** An unreferenced buffer equals its disk block. */
  lemma UnreferencedIsSaved(pool: Pool, on: set<Slot>, disk: Disk, view: Disk, unsaved: map<Key, Slot>, i: Slot, k: Key)
    requires CacheOk(pool, on, disk, view, unsaved)
    requires Holds(pool, on, i, k) && pool[i].useCount == 0
    ensures k in disk && !pool[i].dirty && k !in unsaved && pool[i].data == disk[k]
  {
    assert BufOk(pool, on, view, unsaved, i) && BlockOk(pool, on, disk, view, unsaved, k);
    assert k in unsaved ==> OneHolder(pool, on, i, unsaved[k], k);
  }

  /** With no buffer in use the device holds everything that was ever written. */
  lemma NothingHeldNothingUnsaved(pool: Pool, on: set<Slot>, disk: Disk, view: Disk, unsaved: map<Key, Slot>)
    requires CacheOk(pool, on, disk, view, unsaved)
    requires forall i: Slot :: i in on ==> pool[i].useCount == 0
    ensures disk == view
  {
    forall k
      ensures k in disk <==> k in view
      ensures k in disk ==> disk[k] == view[k]
    {
      assert BlockOk(pool, on, disk, view, unsaved, k);
    }
  }

  // ----- Steps of the lists -----

  /** The lists after `x` is put at the head of list `h`. */
  function Pushed(buckets: Buckets, h: nat, x: Slot): Buckets
    requires h < BUFFER_BUCKETS
  {
    buckets[h := [x] + Without(buckets[h], x)]
  }

  lemma Moved(s: seq<Slot>, x: Slot)
    requires Distinct(s)
    ensures Distinct(Without(s, x)) && Distinct([x] + Without(s, x))
    ensures forall y: Slot :: y in Without(s, x) <==> y in s && y != x
    ensures forall y: Slot :: y in [x] + Without(s, x) <==> y in s || y == x
    ensures x !in s ==> Without(s, x) == s
  {
    WithoutIsDistinct(s, x);
    forall y: Slot
      ensures y in Without(s, x) <==> y in s && y != x
    {
      WithoutMember(s, x, y);
    }
    PushedDistinct(Without(s, x), x);
    if x !in s {
      WithoutNothing(s, x);
    }
  }

  lemma {:induction false} WithoutNothing(s: seq<Slot>, x: Slot)
    requires x !in s
    ensures Without(s, x) == s
  {
    if s != [] { WithoutNothing(s[1..], x); }
  }

  lemma PlacedFront(pool: Pool, buckets: Buckets, free: seq<Slot>, on: set<Slot>, x: Slot, b: Buf)
    requires Placed(pool, buckets, free, on) && x in on && KeyOf(b) == KeyOf(pool[x])
    ensures Placed(pool[x := b], Pushed(buckets, Hash(b.blkno), x), free, on)
    ensures Placed(pool[x := b], buckets, free, on)
  {
    hide Distinct, Without;
    Moved(buckets[Hash(b.blkno)], x);
  }

  lemma PlacedFreed(pool: Pool, buckets: Buckets, free: seq<Slot>, on: set<Slot>, x: Slot)
    requires Placed(pool, buckets, free, on) && x in on
    ensures var h := Hash(pool[x].blkno); Placed(pool, buckets[h := Without(buckets[h], x)], [x] + free, on - {x})
  {
    hide Distinct, Without;
    Moved(buckets[Hash(pool[x].blkno)], x);
    PushedDistinct(free, x);
  }

  lemma PlacedTaken(pool: Pool, buckets: Buckets, free: seq<Slot>, on: set<Slot>, b: Buf)
    requires Placed(pool, buckets, free, on) && free != []
    ensures free[0] !in on
    ensures var h, x := Hash(b.blkno), free[0]; Placed(pool[x := b], buckets[h := [x] + buckets[h]], free[1..], on + {x})
  {
    hide Without;
    var h, x := Hash(b.blkno), free[0];
    assert x in free && x !in buckets[h];
    Moved(buckets[h], x);
    forall i: Slot
      ensures i in free[1..] <==> i in free && i != x
    {
    }
  }

  // ----- Steps of the contents -----

  /** The buffers in use, `x` apart, are as they were. */
  ghost predicate OthersKept(p0: Pool, on0: set<Slot>, p1: Pool, on1: set<Slot>, x: Slot) {
    forall i: Slot :: i != x && i in on0 && p0[i].useCount > 0 ==> i in on1 && p1[i] == p0[i]
  }

  /** No buffer but `x` has changed or come into use; it was not in use for any block but `k`. */
  ghost predicate OnlyChanged(p0: Pool, on0: set<Slot>, p1: Pool, on1: set<Slot>, x: Slot, k: Key) {
    p1 == p0[x := p1[x]] && on1 <= on0 + {x} && (x in on0 && p0[x].useCount > 0 ==> Holds(p0, on0, x, k))
  }

  /** Buffer `x`, which holds block `k` or is new to it, has these contents and is held by no more than before. */
  ghost predicate Rewritten(p0: Pool, on0: set<Slot>, p1: Pool, on1: set<Slot>, x: Slot, k: Key, data: Block) {
    && p1[x].data == data && OthersKept(p0, on0, p1, on1, x) && OnlyChanged(p0, on0, p1, on1, x, k)
    && if Holds(p0, on0, x, k) then p1[x].useCount == p0[x].useCount
       else p1[x].useCount == 0 && forall i: Slot :: !Holds(p0, on0, i, k)
  }

  /** What is known of a buffer's new contents `b`, for the view and the record of unsaved blocks after the step. */
  ghost predicate Fits(disk: Disk, view: Disk, unsaved: map<Key, Slot>, x: Slot, b: Buf, view': Disk, unsaved': map<Key, Slot>) {
    var k := KeyOf(b);
    && !b.invalid && b.useCount > 0 && k in disk
    && view' == view[k := b.data]
    && if k in unsaved' then unsaved' == unsaved[k := x] else unsaved' == unsaved && !b.dirty && b.data == disk[k]
  }

  /** Buffer `x`, free or the holder of its block already, is given contents. */
  lemma ContentsSet(pool: Pool, on: set<Slot>, disk: Disk, view: Disk, unsaved: map<Key, Slot>,
                    x: Slot, b: Buf, view': Disk, unsaved': map<Key, Slot>)
    requires CacheOk(pool, on, disk, view, unsaved) && Fits(disk, view, unsaved, x, b, view', unsaved')
    requires Holds(pool, on, x, KeyOf(b)) || (x !in on && forall i: Slot :: !Holds(pool, on, i, KeyOf(b)))
    ensures CacheOk(pool[x := b], on + {x}, disk, view', unsaved')
    ensures OthersKept(pool, on, pool[x := b], on + {x}, x)
  {
    hide KeyOf;
    var pool', on' := pool[x := b], on + {x};
    forall i: Slot | i != x
      ensures !Holds(pool, on, i, KeyOf(b))
    {
      assert OneHolder(pool, on, x, i, KeyOf(b));
    }
    forall i: Slot
      ensures BufOk(pool', on', view', unsaved', i)
    {
      assert BufOk(pool, on, view, unsaved, i);
      assert i != x ==> !Holds(pool, on, i, KeyOf(b));
    }
    assert BlockOk(pool, on, disk, view, unsaved, KeyOf(b));
    forall k
      ensures BlockOk(pool', on', disk, view', unsaved', k)
    {
      assert BlockOk(pool, on, disk, view, unsaved, k);
    }
    forall i: Slot, j: Slot, k
      ensures OneHolder(pool', on', i, j, k)
    {
      assert OneHolder(pool, on, i, j, k);
      assert i != x ==> !Holds(pool, on, i, KeyOf(b));
      assert j != x ==> !Holds(pool, on, j, KeyOf(b));
    }
  }

  /** A buffer that nobody holds, or that is no longer valid, goes to the free list. */
  lemma ContentsDropped(pool: Pool, on: set<Slot>, disk: Disk, view: Disk, unsaved: map<Key, Slot>, x: Slot)
    requires CacheOk(pool, on, disk, view, unsaved) && x in on && (pool[x].useCount == 0 || pool[x].invalid)
    ensures !pool[x].dirty
    ensures CacheOk(pool, on - {x}, disk, view, unsaved)
    ensures OthersKept(pool, on, pool, on - {x}, x)
  {
    assert BufOk(pool, on, view, unsaved, x);
    if !pool[x].invalid {
      UnreferencedIsSaved(pool, on, disk, view, unsaved, x, KeyOf(pool[x]));
    }
    forall i: Slot
      ensures BufOk(pool, on - {x}, view, unsaved, i)
    {
      assert BufOk(pool, on, view, unsaved, i);
    }
    forall k
      ensures BlockOk(pool, on - {x}, disk, view, unsaved, k)
    {
      assert BlockOk(pool, on, disk, view, unsaved, k);
    }
    forall i: Slot, j: Slot, k
      ensures OneHolder(pool, on - {x}, i, j, k)
    {
      assert OneHolder(pool, on, i, j, k);
    }
  }

  /** The contents of a buffer go to the device. */
  lemma WrittenOut(pool: Pool, on: set<Slot>, disk: Disk, view: Disk, unsaved: map<Key, Slot>, x: Slot, useCount: nat, invalid: bool)
    requires CacheOk(pool, on, disk, view, unsaved) && Holds(pool, on, x, KeyOf(pool[x]))
    ensures KeyOf(pool[x]) in disk && view[KeyOf(pool[x]) := pool[x].data] == view
    ensures CacheOk(pool[x := pool[x].(dirty := false, useCount := useCount, invalid := invalid)], on,
                    disk[KeyOf(pool[x]) := pool[x].data], view, unsaved - {KeyOf(pool[x])})
  {
    hide KeyOf;
    var k0, b := KeyOf(pool[x]), pool[x].(dirty := false, useCount := useCount, invalid := invalid);
    assert KeyOf(b) == k0 by { SameKey(pool[x], useCount, invalid); }
    var pool', disk', unsaved' := pool[x := b], disk[k0 := pool[x].data], unsaved - {k0};
    assert BufOk(pool, on, view, unsaved, x) && BlockOk(pool, on, disk, view, unsaved, k0);
    forall i: Slot
      ensures BufOk(pool', on, view, unsaved', i)
    {
      assert BufOk(pool, on, view, unsaved, i) && OneHolder(pool, on, x, i, k0);
    }
    forall k
      ensures BlockOk(pool', on, disk', view, unsaved', k)
    {
      assert BlockOk(pool, on, disk, view, unsaved, k);
    }
    forall i: Slot, j: Slot, k
      ensures OneHolder(pool', on, i, j, k)
    {
      assert OneHolder(pool, on, i, j, k);
    }
  }

  lemma SameKey(b: Buf, useCount: nat, invalid: bool)
    ensures KeyOf(b.(dirty := false, useCount := useCount, invalid := invalid)) == KeyOf(b)
  {
  }

  /** The number of holders changes in a buffer whose block is saved, or that is still held. */
  lemma CountSet(pool: Pool, on: set<Slot>, disk: Disk, view: Disk, unsaved: map<Key, Slot>, x: Slot, useCount: nat)
    requires CacheOk(pool, on, disk, view, unsaved) && x in on
    requires useCount > 0 || (!pool[x].dirty && (pool[x].invalid || KeyOf(pool[x]) !in unsaved))
    ensures CacheOk(pool[x := pool[x].(useCount := useCount)], on, disk, view, unsaved)
  {
    var pool' := pool[x := pool[x].(useCount := useCount)];
    forall i: Slot
      ensures BufOk(pool', on, view, unsaved, i)
    {
      assert BufOk(pool, on, view, unsaved, i);
    }
    forall k
      ensures BlockOk(pool', on, disk, view, unsaved, k)
    {
      assert BlockOk(pool, on, disk, view, unsaved, k);
    }
    forall i: Slot, j: Slot, k
      ensures OneHolder(pool', on, i, j, k)
    {
      assert OneHolder(pool, on, i, j, k);
    }
  }

  /** The last holder has changed the buffer and said nothing. */
  ghost predicate Unannounced(pool: Pool, unsaved: map<Key, Slot>, x: Slot) {
    pool[x].useCount == 1 && !pool[x].invalid && !pool[x].dirty && KeyOf(pool[x]) in unsaved
  }

  /** Newer contents in a buffer that nobody holds can be lost. */
  lemma ChangeForgotten(pool: Pool, on: set<Slot>, disk: Disk, view: Disk, unsaved: map<Key, Slot>, x: Slot)
    requires pool[x].useCount == 0 && KeyOf(pool[x]) in unsaved && unsaved[KeyOf(pool[x])] == x
    ensures !CacheOk(pool, on, disk, view, unsaved)
  {
    assert !BlockOk(pool, on, disk, view, unsaved, KeyOf(pool[x]));
  }

  /** What happens to a buffer that is free or no longer valid does not matter. */
  lemma WorthlessSet(pool: Pool, on: set<Slot>, disk: Disk, view: Disk, unsaved: map<Key, Slot>, x: Slot, b: Buf)
    requires CacheOk(pool, on, disk, view, unsaved) && !b.dirty
    requires x !in on || (b.invalid && (Holds(pool, on, x, KeyOf(pool[x])) ==> KeyOf(pool[x]) !in unsaved))
    ensures CacheOk(pool[x := b], on, disk, view, unsaved)
  {
    var pool' := pool[x := b];
    forall i: Slot
      ensures BufOk(pool', on, view, unsaved, i)
    {
      assert BufOk(pool, on, view, unsaved, i);
    }
    forall k
      ensures BlockOk(pool', on, disk, view, unsaved, k)
    {
      assert BlockOk(pool, on, disk, view, unsaved, k);
    }
    forall i: Slot, j: Slot, k
      ensures OneHolder(pool', on, i, j, k)
    {
      assert OneHolder(pool, on, i, j, k);
    }
  }

  /** A clean buffer has no newer contents than the device, unless a holder has changed it. */
  lemma WorthlessIsClean(pool: Pool, on: set<Slot>, disk: Disk, view: Disk, unsaved: map<Key, Slot>, x: Slot)
    requires CacheOk(pool, on, disk, view, unsaved)
    ensures x !in on || pool[x].invalid ==> !pool[x].dirty
    ensures x in on && !pool[x].invalid ==> KeyOf(pool[x]) in disk && KeyOf(pool[x]) in view && pool[x].data == view[KeyOf(pool[x])]
    ensures x in on && !pool[x].invalid && KeyOf(pool[x]) in unsaved ==> unsaved[KeyOf(pool[x])] == x
    ensures x in on && !pool[x].invalid && KeyOf(pool[x]) !in unsaved ==> pool[x].data == disk[KeyOf(pool[x])]
    ensures pool[x].dirty ==> KeyOf(pool[x]) in unsaved
  {
    assert BufOk(pool, on, view, unsaved, x);
    var k := KeyOf(pool[x]);
    assert BlockOk(pool, on, disk, view, unsaved, k);
    assert k in unsaved ==> OneHolder(pool, on, x, unsaved[k], k);
  }

  lemma UnheldIsSaved(pool: Pool, on: set<Slot>, disk: Disk, view: Disk, unsaved: map<Key, Slot>, k: Key)
    requires CacheOk(pool, on, disk, view, unsaved) && k in disk && forall i: Slot :: !Holds(pool, on, i, k)
    ensures k !in unsaved && k in view && disk[k] == view[k]
  {
    assert BlockOk(pool, on, disk, view, unsaved, k);
  }

  ghost predicate AllInUse(pool: Pool, s: seq<Slot>) {
    forall i :: i in s ==> pool[i].useCount > 0
  }

  /** The bucket that is looked at after `last` and `d` others. */
  function Turn(last: nat, d: nat): (h: nat)
    ensures h < BUFFER_BUCKETS
  {
    (last + 1 + d) % BUFFER_BUCKETS
  }

  /** The four buckets after `last`, in turn, are all of them. */
  lemma AllBucketsSeen(last: nat, h: nat) returns (d: nat)
    requires last < BUFFER_BUCKETS && h < BUFFER_BUCKETS
    ensures d < BUFFER_BUCKETS && Turn(last, d) == h
  {
    d := (h + 7 - last) % BUFFER_BUCKETS;
  }

  /** Every buffer is referenced. */
  ghost predicate Exhausted(pool: Pool, on: set<Slot>) {
    forall i: Slot :: i in on && pool[i].useCount > 0
  }

  /** Buffer `x` is unreferenced, behind it in its bucket there is no such buffer, and in the buckets whose turn is
      before its own there is none at all. */
  ghost predicate LeastRecent(pool: Pool, buckets: Buckets, last: nat, x: Slot, d: nat, n: nat) {
    && d < 4 && n < |buckets[Turn(last, d)]| && buckets[Turn(last, d)][n] == x && pool[x].useCount == 0
    && (forall m :: n < m < |buckets[Turn(last, d)]| ==> pool[buckets[Turn(last, d)][m]].useCount > 0)
    && (forall c: nat, m :: c < d && 0 <= m < |buckets[Turn(last, c)]| ==> pool[buckets[Turn(last, c)][m]].useCount > 0)
  }

  /** It is the first to be given up. */
  ghost predicate GivenUpFirst(pool: Pool, buckets: Buckets, last: nat, x: Slot) {
    exists d: nat, n: nat :: LeastRecent(pool, buckets, last, x, d, n)
  }

  class Cache {
    var pool: Pool
    var buckets: Buckets
    var free: seq<Slot>
    var lastBucket: nat
    /** The blocks on the devices. */
    var disk: Disk
    /** The buffers on hash lists. */
    ghost var on: set<Slot>
    /** The blocks as their readers are to see them. */
    ghost var view: Disk
    /** The blocks with newer contents in a buffer than on the device. */
    ghost var unsaved: map<Key, Slot>

    ghost predicate Valid()
      reads this
    {
      Placed(pool, buckets, free, on) && CacheOk(pool, on, disk, view, unsaved) && lastBucket < BUFFER_BUCKETS
    }

    /** `init_buffers` */
    constructor (disk: Disk)
      ensures Valid() && this.disk == disk && view == disk && on == {}
    {
      pool := seq(NR_BUFFERS, _ => Buf(0, 0, 0, false, false, ZeroBlock()));
      buckets := [[], [], [], []];
      free := seq(NR_BUFFERS, i => i);
      lastBucket := 0;
      this.disk := disk;
      on, view, unsaved := {}, disk, map[];
      new;
      forall i: Slot
        ensures i in free
      {
        assert free[i] == i;
      }
    }

    /** `find_buffer` */
    method FindBuffer(k: Key) returns (r: Option<Slot>)
      requires Valid()
      ensures r.Some? ==> Holds(pool, on, r.value, k)
      ensures r.None? ==> forall i: Slot :: !Holds(pool, on, i, k)
    {
      hide Distinct, CacheOk;
      var list := buckets[Hash(k.blkno)];
      for n := 0 to |list|
        invariant forall m :: 0 <= m < n ==> !Holds(pool, on, list[m], k)
      {
        var x := list[n];
        if pool[x].blkno == k.blkno && pool[x].dev == k.dev && !pool[x].invalid {
          return Some(x);
        }
      }
      forall i: Slot | i in on && KeyOf(pool[i]) == k
        ensures !Holds(pool, on, i, k)
      {
        assert i in list;
      }
      r := None;
    }

    /** The buckets are looked at in turn; of the first that has an unreferenced buffer, the one nearest its end, least
        recently used, is free now and nothing else has moved. */
    ghost predicate Evicted(buckets0: Buckets, free0: seq<Slot>, on0: set<Slot>, last: nat, d: nat, n: nat)
      reads this
    {
      var h := Turn(last, d);
      && d < BUFFER_BUCKETS && n < |buckets0[h]|
      && (forall c: nat :: c < d ==> AllInUse(pool, buckets0[Turn(last, c)]))
      && AllInUse(pool, buckets0[h][n + 1..])
      && var x := buckets0[h][n];
      && pool[x].useCount == 0 && x in on0 && on == on0 - {x} && free == [x] + free0
      && buckets == buckets0[h := Without(buckets0[h], x)] && lastBucket == h
    }

    /** `make_free_buffer`: the buckets in turn, each from its least recently used end. */
    method MakeFreeBuffer() returns (ok: bool)
      requires Valid()
      modifies this
      ensures Valid() && pool == old(pool) && disk == old(disk) && view == old(view) && unsaved == old(unsaved)
      ensures ok ==> exists d: nat, n: nat :: Evicted(old(buckets), old(free), old(on), old(lastBucket), d, n)
      ensures !ok ==> buckets == old(buckets) && free == old(free) && on == old(on) && forall i: Slot :: i in on ==> pool[i].useCount > 0
    {
      hide Distinct, CacheOk, Without;
      var tries := 0;
      while tries < BUFFER_BUCKETS
        invariant 0 <= tries <= BUFFER_BUCKETS && lastBucket == (old(lastBucket) + tries) % BUFFER_BUCKETS
        invariant lastBucket < BUFFER_BUCKETS
        invariant pool == old(pool) && disk == old(disk) && buckets == old(buckets) && free == old(free)
        invariant on == old(on) && view == old(view) && unsaved == old(unsaved)
        invariant forall d :: 0 <= d < tries ==> AllInUse(pool, buckets[Turn(old(lastBucket), d)])
      {
        lastBucket := (lastBucket + 1) % BUFFER_BUCKETS;
        assert lastBucket == Turn(old(lastBucket), tries);
        var list := buckets[lastBucket];
        var n := |list|;
        while n > 0
          invariant 0 <= n <= |list|
          invariant forall m :: n <= m < |list| ==> pool[list[m]].useCount > 0
        {
          var x := list[n - 1];
          if pool[x].useCount == 0 {
            assert x in on;
            PlacedFreed(pool, buckets, free, on, x);
            buckets := buckets[lastBucket := Without(list, x)];
            if pool[x].dirty {
              disk := disk[KeyOf(pool[x]) := pool[x].data];
            }
            ContentsDropped(pool, on, old(disk), view, unsaved, x);
            free := [x] + free;
            on := on - {x};
            assert Evicted(old(buckets), old(free), old(on), old(lastBucket), tries, n - 1);
            return true;
          }
          n := n - 1;
        }
        tries := tries + 1;
      }
      forall i: Slot | i in on
        ensures pool[i].useCount > 0
      {
        var d := AllBucketsSeen(old(lastBucket), Hash(pool[i].blkno));
        assert AllInUse(pool, buckets[Turn(old(lastBucket), d)]);
        assert i in buckets[Hash(pool[i].blkno)];
      }
      ok := false;
    }

    /** The search that `bread` and `bwrite` begin with: the holder of block `k`, or else a free buffer. */
    method FindOrMakeFree(k: Key) returns (r: Option<Slot>, ok: bool)
      requires Valid()
      modifies this
      ensures Valid() && pool == old(pool) && disk == old(disk) && view == old(view) && unsaved == old(unsaved)
      ensures !ok ==> r.None? && old(Exhausted(pool, on))
      ensures !ok || r.Some? || old(free) != [] ==> buckets == old(buckets) && free == old(free) && on == old(on)
      ensures ok && r.None? && old(free) == [] ==> free != [] && GivenUpFirst(old(pool), old(buckets), old(lastBucket), free[0])
      ensures r.Some? ==> Holds(pool, on, r.value, k) && old(Holds(pool, on, r.value, k))
      ensures r.None? ==> (ok ==> free != []) && (forall i: Slot :: !Holds(pool, on, i, k)) && old(forall i: Slot :: !Holds(pool, on, i, k))
      ensures on <= old(on) && forall i: Slot :: i in old(on) && pool[i].useCount > 0 ==> i in on
    {
      hide Distinct, CacheOk, Placed, Without;
      r := FindBuffer(k);
      ok := true;
      if r.None? && free == [] {
        ok := MakeFreeBuffer();
        if !ok {
          AllPlaced(pool, buckets, free, on);
          return;
        }
        ghost var d: nat, n: nat :| Evicted(old(buckets), old(free), old(on), old(lastBucket), d, n);
        assert LeastRecent(old(pool), old(buckets), old(lastBucket), free[0], d, n);
        r := FindBuffer(k);
        assert r.Some? ==> Holds(old(pool), old(on), r.value, k);
      }
    }

    /** `bread`: a buffer with the contents of block `k`, kept from being reused until it is released. */
    method BRead(k: Key) returns (r: Option<Slot>)
      requires Valid() && k in disk
      modifies this
      ensures Valid() && disk == old(disk) && view == old(view) && unsaved == old(unsaved)
      ensures r.None? ==> old(Exhausted(pool, on)) && pool == old(pool) && buckets == old(buckets) && free == old(free) && on == old(on)
      ensures r.Some? ==>
                var x := r.value;
                && Holds(pool, on, x, k) && k in view && pool[x].data == view[k]
                && (if old(Holds(pool, on, x, k)) then pool[x] == old(pool[x]).(useCount := old(pool[x]).useCount + 1)
                    else pool[x].useCount == 1 && old(forall i: Slot :: !Holds(pool, on, i, k)))
                && OthersKept(old(pool), old(on), pool, on, x) && OnlyChanged(old(pool), old(on), pool, on, x, k)
                && (if old(Holds(pool, on, x, k)) then free == old(free) && on == old(on)
                    else if old(free) != [] then x == old(free)[0] && free == old(free)[1..] && on == old(on) + {x}
                    else GivenUpFirst(old(pool), old(buckets), old(lastBucket), x))
                && buckets[Hash(k.blkno)] != [] && buckets[Hash(k.blkno)][0] == x
    {
      hide Distinct, CacheOk, Placed, Without;
      var ok;
      r, ok := FindOrMakeFree(k);
      if !ok {
        return None;
      }
      if r.Some? {
        var x := r.value;
        Reference(x, k);
      } else {
        UnheldIsSaved(pool, on, disk, view, unsaved, k);
        var x := free[0];
        var b := Buf(k.dev, k.blkno, 1, false, false, disk[k]);
        PlacedTaken(pool, buckets, free, on, b);
        assert view[k := b.data] == view;
        ContentsSet(pool, on, disk, view, unsaved, x, b, view, unsaved);
        free := free[1..];
        buckets := buckets[Hash(k.blkno) := [x] + buckets[Hash(k.blkno)]];
        pool := pool[x := b];
        on := on + {x};
        r := Some(x);
      }
    }

    /** One more holder, who has used the buffer most recently. */
    method Reference(x: Slot, k: Key)
      requires Valid() && Holds(pool, on, x, k)
      modifies this
      ensures Valid() && disk == old(disk) && view == old(view) && unsaved == old(unsaved) && free == old(free) && on == old(on)
      ensures pool == old(pool)[x := old(pool)[x].(useCount := old(pool)[x].useCount + 1)]
      ensures buckets == Pushed(old(buckets), Hash(k.blkno), x)
      ensures k in view && pool[x].data == view[k]
    {
      hide Distinct, CacheOk, Placed, Without;
      WorthlessIsClean(pool, on, disk, view, unsaved, x);
      var b := pool[x].(useCount := pool[x].useCount + 1);
      PlacedFront(pool, buckets, free, on, x, b);
      CountSet(pool, on, disk, view, unsaved, x, b.useCount);
      pool := pool[x := b];
      buckets := Pushed(buckets, Hash(k.blkno), x);
    }

    /** A holder changes the contents of a buffer, and owes a `BDirty`. */
    method Modify(x: Slot, data: Block)
      requires Valid() && x in on && pool[x].useCount > 0
      modifies this
      ensures Valid() && disk == old(disk) && pool == old(pool)[x := old(pool)[x].(data := data)] && on == old(on)
      ensures buckets == old(buckets) && free == old(free)
      ensures view == if pool[x].invalid then old(view) else old(view)[KeyOf(pool[x]) := data]
      ensures unsaved == if pool[x].invalid then old(unsaved) else old(unsaved)[KeyOf(pool[x]) := x]
    {
      hide Distinct, CacheOk, Placed, Without;
      WorthlessIsClean(pool, on, disk, view, unsaved, x);
      var b := pool[x].(data := data);
      PlacedFront(pool, buckets, free, on, x, b);
      if b.invalid {
        WorthlessSet(pool, on, disk, view, unsaved, x, b);
      } else {
        ContentsSet(pool, on, disk, view, unsaved, x, b, view[KeyOf(b) := data], unsaved[KeyOf(b) := x]);
        view, unsaved := view[KeyOf(b) := data], unsaved[KeyOf(b) := x];
        assert on + {x} == on;
      }
      pool := pool[x := b];
    }

    /** `bdirty` */
    method BDirty(x: Slot, writeNow: bool)
      requires Valid() && x in on && pool[x].useCount > 0
      modifies this
      ensures Valid() && view == old(view) && on == old(on) && buckets == old(buckets) && free == old(free)
      ensures pool[x].invalid ==> pool == old(pool) && disk == old(disk) && unsaved == old(unsaved)
      ensures !pool[x].invalid ==>
                var k := KeyOf(pool[x]);
                && k in view && pool == old(pool)[x := old(pool)[x].(dirty := !writeNow)]
                && disk == (if writeNow then old(disk)[k := view[k]] else old(disk))
                && unsaved == (if writeNow then old(unsaved) - {k} else old(unsaved)[k := x])
    {
      hide Distinct, CacheOk, Placed, Without;
      if pool[x].invalid {
        return;
      }
      WorthlessIsClean(pool, on, disk, view, unsaved, x);
      var b := pool[x].(dirty := true);
      ghost var k := KeyOf(b);
      PlacedFront(pool, buckets, free, on, x, b);
      assert view[k := b.data] == view && on + {x} == on;
      ContentsSet(pool, on, disk, view, unsaved, x, b, view, unsaved[k := x]);
      pool := pool[x := b];
      unsaved := unsaved[k := x];
      if writeNow {
        WriteOut(x, pool[x].useCount);
      }
    }

    /** The buffer is written to its device, and is then held by so many. */
    method WriteOut(x: Slot, useCount: nat)
      requires Valid() && Holds(pool, on, x, KeyOf(pool[x]))
      modifies this
      ensures Valid() && view == old(view) && on == old(on) && buckets == old(buckets) && free == old(free)
      ensures KeyOf(pool[x]) in view && disk == old(disk)[KeyOf(pool[x]) := view[KeyOf(pool[x])]]
      ensures unsaved == old(unsaved) - {KeyOf(pool[x])}
      ensures pool == old(pool)[x := old(pool)[x].(dirty := false, useCount := useCount)]
    {
      hide Distinct, CacheOk, Placed, Without;
      var b := pool[x].(dirty := false, useCount := useCount);
      WorthlessIsClean(pool, on, disk, view, unsaved, x);
      WrittenOut(pool, on, disk, view, unsaved, x, useCount, false);
      PlacedFront(pool, buckets, free, on, x, b);
      assert b == pool[x].(dirty := false, useCount := useCount, invalid := false);
      disk := disk[KeyOf(pool[x]) := pool[x].data];
      unsaved := unsaved - {KeyOf(pool[x])};
      pool := pool[x := b];
    }

    /** `brelse`: the last holder leaves the buffer equal to its block if and only if whoever changed it has said so. */
    method BRelse(x: Slot)
      requires Valid() && x in on && pool[x].useCount > 0
      modifies this
      ensures Valid() <==> !old(Unannounced(pool, unsaved, x))
      ensures view == old(view) && OthersKept(old(pool), old(on), pool, on, x)
      ensures disk == old(if pool[x].dirty then disk[KeyOf(pool[x]) := pool[x].data] else disk)
      ensures unsaved == old(if pool[x].dirty then unsaved - {KeyOf(pool[x])} else unsaved)
      ensures if old(pool)[x].invalid && old(pool)[x].useCount == 1 then pool == old(pool) && on == old(on) - {x} && free == [x] + old(free)
              else
                && on == old(on) && buckets == old(buckets) && free == old(free)
                && pool == old(pool)[x := old(pool)[x].(dirty := false, useCount := old(pool)[x].useCount - 1)]
    {
      hide Distinct, CacheOk, Placed, Without;
      WorthlessIsClean(pool, on, disk, view, unsaved, x);
      if pool[x].useCount == 1 {
        if pool[x].invalid {
          var h := Hash(pool[x].blkno);
          PlacedFreed(pool, buckets, free, on, x);
          ContentsDropped(pool, on, disk, view, unsaved, x);
          buckets := buckets[h := Without(buckets[h], x)];
          free := [x] + free;
          on := on - {x};
          return;
        }
      }
      if pool[x].dirty {
        WriteOut(x, pool[x].useCount);
      }
      var b := pool[x].(useCount := pool[x].useCount - 1);
      PlacedFront(pool, buckets, free, on, x, b);
      if old(Unannounced(pool, unsaved, x)) {
        ChangeForgotten(pool[x := b], on, disk, view, unsaved, x);
      } else {
        CountSet(pool, on, disk, view, unsaved, x, b.useCount);
      }
      pool := pool[x := b];
    }

    /** The buffer for block `k` with new contents, held (buffer.c:194-244). */
    method Fill(k: Key, data: Block) returns (r: Option<Slot>)
      requires Valid() && k in disk
      modifies this
      ensures Valid() && disk == old(disk)
      ensures r.None? ==> old(Exhausted(pool, on)) && pool == old(pool) && on == old(on) && view == old(view) && unsaved == old(unsaved)
      ensures r.Some? ==>
                var x := r.value;
                && Holds(pool, on, x, k) && pool[x].data == data && pool[x].dirty && pool[x].useCount > 0
                && view == old(view)[k := data] && unsaved == old(unsaved)[k := x]
                && OthersKept(old(pool), old(on), pool, on, x) && OnlyChanged(old(pool), old(on), pool, on, x, k)
                && (if old(Holds(pool, on, x, k)) then free == old(free) && on == old(on)
                    else if old(free) != [] then x == old(free)[0] && free == old(free)[1..] && on == old(on) + {x}
                    else GivenUpFirst(old(pool), old(buckets), old(lastBucket), x))
                && (if old(Holds(pool, on, x, k)) then pool[x].useCount == old(pool)[x].useCount + 1
                    else pool[x].useCount == 1 && old(forall i: Slot :: !Holds(pool, on, i, k)))
    {
      hide Distinct, CacheOk, Placed, Without;
      var ok;
      r, ok := FindOrMakeFree(k);
      if !ok {
        return None;
      }
      var x: Slot;
      if r.Some? {
        x := r.value;
        Reference(x, k);
        var b := pool[x].(data := data, dirty := true);
        PlacedFront(pool, buckets, free, on, x, b);
        ContentsSet(pool, on, disk, view, unsaved, x, b, view[k := data], unsaved[k := x]);
        pool := pool[x := b];
        assert on + {x} == on;
      } else {
        x := free[0];
        var b := Buf(k.dev, k.blkno, 1, true, false, data);
        PlacedTaken(pool, buckets, free, on, b);
        ContentsSet(pool, on, disk, view, unsaved, x, b, view[k := data], unsaved[k := x]);
        free := free[1..];
        buckets := buckets[Hash(k.blkno) := [x] + buckets[Hash(k.blkno)]];
        pool := pool[x := b];
        on := on + {x};
      }
      view, unsaved := view[k := data], unsaved[k := x];
      r := Some(x);
    }

    /** `bwrite`: the block has the given contents from now on, for readers and on the device. */
    method BWrite(k: Key, data: Block) returns (ok: bool)
      requires Valid() && k in disk
      modifies this
      ensures Valid()
      ensures !ok ==> old(Exhausted(pool, on)) && pool == old(pool) && on == old(on) && disk == old(disk) && view == old(view) && unsaved == old(unsaved)
      ensures ok ==> disk == old(disk)[k := data] && view == old(view)[k := data] && unsaved == old(unsaved) - {k}
      ensures ok ==> exists x: Slot :: Holds(pool, on, x, k) && Rewritten(old(pool), old(on), pool, on, x, k, data)
    {
      hide Distinct, CacheOk, Placed, Without;
      var r := Fill(k, data);
      if r.None? {
        return false;
      }
      BRelse(r.value);
      assert Holds(pool, on, r.value, k) && Rewritten(old(pool), old(on), pool, on, r.value, k, data);
      ok := true;
    }

    /** `flush_device_cache`, allowed to write: every buffer of the device becomes worthless, and the device has all
        that readers are to see, provided that every change was announced by `bdirty`. */
    method FlushDeviceCache(dev: nat)
      requires Valid()
      requires forall k :: k in unsaved && k.dev == dev ==> pool[unsaved[k]].dirty
      modifies this
      ensures Valid() && view == old(view) && on == old(on)
      ensures forall i: Slot :: pool[i].dev == dev ==> pool[i].invalid
      ensures forall k :: k in disk && k.dev == dev ==> k in view && disk[k] == view[k]
      ensures forall k :: k in disk && k.dev != dev ==> k in old(disk) && disk[k] == old(disk)[k]
    {
      hide Distinct, CacheOk, Placed, Without;
      for n := 0 to NR_BUFFERS
        invariant Valid() && view == old(view) && on == old(on) && disk.Keys == old(disk).Keys
        invariant forall i: Slot :: i < n && pool[i].dev == dev ==> pool[i].invalid
        invariant forall k :: k in unsaved && k.dev == dev ==> pool[unsaved[k]].dirty
        invariant forall k :: k in disk && k.dev != dev ==> disk[k] == old(disk)[k]
      {
        UnsavedHolders(pool, on, disk, view, unsaved);
        if pool[n].dev == dev {
          Invalidate(n);
        }
      }
      NothingOfDevice(pool, on, disk, view, unsaved, dev);
    }

    method Invalidate(x: Slot)
      requires Valid()
      requires KeyOf(pool[x]) in unsaved ==> pool[unsaved[KeyOf(pool[x])]].dirty
      modifies this
      ensures Valid() && view == old(view) && on == old(on) && disk.Keys == old(disk).Keys
      ensures pool == old(pool)[x := old(pool)[x].(invalid := true, dirty := false)]
      ensures unsaved == if old(pool)[x].dirty then old(unsaved) - {KeyOf(pool[x])} else old(unsaved)
      ensures forall k :: k in disk && k != KeyOf(pool[x]) ==> disk[k] == old(disk)[k]
    {
      hide Distinct, CacheOk, Without;
      WorthlessIsClean(pool, on, disk, view, unsaved, x);
      var b := pool[x].(invalid := true, dirty := false);
      if pool[x].dirty {
        WrittenOut(pool, on, disk, view, unsaved, x, pool[x].useCount, true);
        disk := disk[KeyOf(pool[x]) := pool[x].data];
        unsaved := unsaved - {KeyOf(pool[x])};
      } else {
        WorthlessSet(pool, on, disk, view, unsaved, x, b);
      }
      pool := pool[x := b];
    }
  }

  lemma AllPlaced(pool: Pool, buckets: Buckets, free: seq<Slot>, on: set<Slot>)
    requires Placed(pool, buckets, free, on) && free == []
    ensures forall i: Slot :: i in on
  {
    forall i: Slot
      ensures i in on
    {
      assert i !in free;
    }
  }

  lemma UnsavedHolders(pool: Pool, on: set<Slot>, disk: Disk, view: Disk, unsaved: map<Key, Slot>)
    requires CacheOk(pool, on, disk, view, unsaved)
    ensures forall k :: k in unsaved ==> KeyOf(pool[unsaved[k]]) == k
  {
    forall k | k in unsaved
      ensures KeyOf(pool[unsaved[k]]) == k
    {
      assert BlockOk(pool, on, disk, view, unsaved, k);
    }
  }

  lemma NothingOfDevice(pool: Pool, on: set<Slot>, disk: Disk, view: Disk, unsaved: map<Key, Slot>, dev: nat)
    requires CacheOk(pool, on, disk, view, unsaved) && forall i: Slot :: pool[i].dev == dev ==> pool[i].invalid
    ensures forall k :: k in disk && k.dev == dev ==> k in view && disk[k] == view[k]
  {
    forall k | k in disk && k.dev == dev
      ensures k in view && disk[k] == view[k]
    {
      assert BlockOk(pool, on, disk, view, unsaved, k);
      assert forall i: Slot :: !Holds(pool, on, i, k);
    }
  }
}
