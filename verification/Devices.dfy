/** A device as the file system sees it: an array of blocks, every access to which goes through the buffer cache. */
module Devices {
  import opened BufferCache
  import opened DiskBlocks
  import opened Options

  /** The super block (fs.h:43-51). */
  datatype Super = Super(totalBlocks: nat, inodeBitmap: nat, inodes: nat, numInodes: nat,
                         dataBitmap: nat, data: nat, dataSize: nat)

  /** Somebody holds a buffer, for one of the device's blocks. */
  datatype Hold = Hold(slot: Slot, blkno: nat)

  // ----- Holding buffers -----

  function Times(s: seq<Hold>, i: Slot): nat {
    if s == [] then 0 else Times(s[..|s| - 1], i) + if s[|s| - 1].slot == i then 1 else 0
  }

  lemma TimesMore(s: seq<Hold>, h: Hold, i: Slot)
    ensures Times(s + [h], i) == Times(s, i) + if h.slot == i then 1 else 0
  {
    assert (s + [h])[..|s|] == s;
  }

  lemma {:induction false} TimesTogether(s: seq<Hold>, t: seq<Hold>, i: Slot)
    ensures Times(s + t, i) == Times(s, i) + Times(t, i)
    decreases |t|
  {
    if t == [] {
      assert s + t == s;
    } else {
      TimesTogether(s, t[..|t| - 1], i);
      assert (s + t)[..|s + t| - 1] == s + t[..|t| - 1];
    }
  }

  /** Without the hold at `j`. */
  function Less(s: seq<Hold>, j: nat): seq<Hold>
    requires j < |s|
  {
    s[..j] + s[j + 1..]
  }

  lemma TimesLess(s: seq<Hold>, j: nat, i: Slot)
    requires j < |s|
    ensures Times(s, i) == Times(Less(s, j), i) + if s[j].slot == i then 1 else 0
  {
    assert s == (s[..j] + [s[j]]) + s[j + 1..];
    TimesTogether(s[..j] + [s[j]], s[j + 1..], i);
    TimesMore(s[..j], s[j], i);
    TimesTogether(s[..j], s[j + 1..], i);
  }

  lemma {:induction false} TimesAt(s: seq<Hold>, j: nat)
    requires j < |s|
    ensures Times(s, s[j].slot) > 0
  {
    if j < |s| - 1 { TimesAt(s[..|s| - 1], j); }
  }

  /** The buffers held, which are no more than the holds. */
  ghost function SlotsIn(s: seq<Hold>): (r: set<Slot>)
    ensures |r| <= |s|
    ensures forall i: Slot :: i in r <==> Times(s, i) > 0
  {
    if s == [] then {} else SlotsIn(s[..|s| - 1]) + {s[|s| - 1].slot}
  }

  lemma {:induction false} SlotsCounted(s: set<Slot>, n: nat)
    requires n <= NR_BUFFERS && forall i: Slot :: i in s <==> i < n
    ensures |s| == n
  {
    if n == 0 {
      assert s == {};
    } else {
      assert n - 1 in s;
      SlotsCounted(s - {n - 1}, n - 1);
    }
  }

  lemma Pigeonhole(s: seq<Hold>, t: seq<Hold>)
    requires forall i: Slot :: Times(s, i) + Times(t, i) > 0
    ensures NR_BUFFERS <= |s| + |t|
  {
    SlotsCounted(SlotsIn(s) + SlotsIn(t), NR_BUFFERS);
  }

  // ----- The device on the cache -----

  /** The state of the cache. */
  datatype Cached = Cached(pool: Pool, on: set<Slot>, disk: Disk, view: Disk, unsaved: map<Key, Slot>)

  /** A task's side of it: the contents of device `num`, the buffers that the task and others hold, and how many of all
      buffers the task can count on. */
  datatype Share = Share(num: nat, disk: seq<Block>, held: seq<Hold>, others: seq<Hold>, budget: nat)

  ghost predicate Consistent(c: Cached) {
    CacheOk(c.pool, c.on, c.disk, c.view, c.unsaved)
  }

  ghost predicate Shows(cdisk: Disk, view: Disk, num: nat, disk: seq<Block>, b: nat)
    requires b < |disk|
  {
    Key(num, b) in cdisk && Key(num, b) in view && view[Key(num, b)] == disk[b]
  }

  ghost predicate HoldOk(c: Cached, s: Share, h: Hold) {
    h.blkno < |s.disk| && Holds(c.pool, c.on, h.slot, Key(s.num, h.blkno))
  }

  /** A buffer is held as often as its use count says. */
  ghost predicate Counted(c: Cached, s: Share, i: Slot) {
    Times(s.held, i) + Times(s.others, i) == if i in c.on then c.pool[i].useCount else 0
  }

  /** The array is what the cache lets readers see; the task holds buffers of valid copies, others hold some too, and
      there are enough buffers for all; changes have been announced. */
  ghost predicate DeviceOk(c: Cached, s: Share) {
    && |s.others| + s.budget <= NR_BUFFERS
    && (forall b: nat :: b < |s.disk| ==> Shows(c.disk, c.view, s.num, s.disk, b))
    && (forall j :: 0 <= j < |s.held| ==> HoldOk(c, s, s.held[j]))
    && (forall i: Slot :: Counted(c, s, i))
    && (forall k :: k in c.unsaved ==> c.pool[c.unsaved[k]].dirty)
  }

  /** While fewer buffers are held than there are, one can be had. */
  lemma NotExhausted(c: Cached, s: Share)
    requires DeviceOk(c, s) && |s.held| + |s.others| < NR_BUFFERS
    ensures !Exhausted(c.pool, c.on)
  {
    if Exhausted(c.pool, c.on) {
      forall i: Slot
        ensures Times(s.held, i) + Times(s.others, i) > 0
      {
        assert Counted(c, s, i);
      }
      Pigeonhole(s.held, s.others);
    }
  }

  /** Where the contents of a block wait to be written is a buffer that is held. */
  lemma UnsavedIsHeld(c: Cached, k: Key)
    requires Consistent(c) && k in c.unsaved
    ensures Holds(c.pool, c.on, c.unsaved[k], k) && c.pool[c.unsaved[k]].useCount > 0
  {
    assert BlockOk(c.pool, c.on, c.disk, c.view, c.unsaved, k);
  }

  lemma HeldIsInUse(c: Cached, s: Share, j: nat)
    requires j < |s.held| && Counted(c, s, s.held[j].slot)
    ensures s.held[j].slot in c.on && c.pool[s.held[j].slot].useCount > 0
  {
    TimesAt(s.held, j);
  }

  /** The same holds, and one more of buffer `x`. */
  ghost predicate OneMore(s0: Share, s1: Share, x: Slot) {
    forall i: Slot :: Times(s1.held, i) + Times(s1.others, i) == Times(s0.held, i) + Times(s0.others, i) + if i == x then 1 else 0
  }

  /** One more hold, by the task or by another, on a buffer of block `k`. */
  lemma Taken(c0: Cached, s0: Share, c1: Cached, s1: Share, x: Slot, k: Key)
    requires Consistent(c0) && DeviceOk(c0, s0) && c1.disk == c0.disk && c1.view == c0.view && c1.unsaved == c0.unsaved
    requires Holds(c1.pool, c1.on, x, k) && OthersKept(c0.pool, c0.on, c1.pool, c1.on, x) && OnlyChanged(c0.pool, c0.on, c1.pool, c1.on, x, k)
    requires if Holds(c0.pool, c0.on, x, k) then c1.pool[x] == c0.pool[x].(useCount := c0.pool[x].useCount + 1)
             else c1.pool[x].useCount == 1 && forall i: Slot :: !Holds(c0.pool, c0.on, i, k)
    requires s1.num == s0.num && s1.disk == s0.disk && s1.budget == s0.budget && |s1.others| + s1.budget <= NR_BUFFERS && OneMore(s0, s1, x)
    requires s1.held == s0.held || exists b: nat :: b < |s0.disk| && k == Key(s0.num, b) && s1.held == s0.held + [Hold(x, b)]
    ensures DeviceOk(c1, s1)
  {
    hide Holds, CacheOk;
    HoldsOn(c0.pool, c0.on, x, k);
    HoldsOn(c1.pool, c1.on, x, k);
    forall i: Slot
      ensures Counted(c1, s1, i)
    {
      assert Counted(c0, s0, i);
    }
    forall j | 0 <= j < |s1.held|
      ensures HoldOk(c1, s1, s1.held[j])
    {
      if j < |s0.held| {
        assert HoldOk(c0, s0, s0.held[j]) && Counted(c0, s0, s0.held[j].slot);
        HeldIsInUse(c0, s0, j);
        StillHolds(c0.pool, c0.on, c1.pool, c1.on, s0.held[j].slot, Key(s0.num, s0.held[j].blkno));
      }
    }
    forall l | l in c0.unsaved
      ensures c1.pool[c0.unsaved[l]].dirty
    {
      UnsavedIsHeld(c0, l);
      HoldsOn(c0.pool, c0.on, c0.unsaved[l], l);
    }
    forall b: nat | b < |s1.disk|
      ensures Shows(c1.disk, c1.view, s1.num, s1.disk, b)
    {
      assert Shows(c0.disk, c0.view, s0.num, s0.disk, b);
    }
  }

  lemma HoldsOn(pool: Pool, on: set<Slot>, x: Slot, k: Key)
    ensures Holds(pool, on, x, k) ==> x in on && !pool[x].invalid
  {
  }

  lemma StillHolds(p0: Pool, on0: set<Slot>, p1: Pool, on1: set<Slot>, i: Slot, k: Key)
    requires Holds(p0, on0, i, k) && i in on1 && KeyOf(p1[i]) == KeyOf(p0[i]) && p1[i].invalid == p0[i].invalid
    ensures Holds(p1, on1, i, k)
  {
  }

  /** What a held buffer has is what readers are to see. */
  lemma HeldShows(c: Cached, s: Share, j: nat)
    requires Consistent(c) && DeviceOk(c, s) && j < |s.held|
    ensures var x := s.held[j].slot;
            && x in c.on && c.pool[x].useCount > 0 && !c.pool[x].invalid && KeyOf(c.pool[x]) == Key(s.num, s.held[j].blkno)
            && s.held[j].blkno < |s.disk| && c.pool[x].data == s.disk[s.held[j].blkno]
  {
    var x := s.held[j].slot;
    assert HoldOk(c, s, s.held[j]) && Counted(c, s, x);
    HeldIsInUse(c, s, j);
    assert BufOk(c.pool, c.on, c.view, c.unsaved, x) && Shows(c.disk, c.view, s.num, s.disk, s.held[j].blkno);
  }

  /** A held buffer was changed, and the change announced or written. */
  lemma Changed(c0: Cached, s: Share, c1: Cached, j: nat, data: Block, dirty: bool)
    requires Consistent(c0) && DeviceOk(c0, s) && j < |s.held| && s.held[j].blkno < |s.disk|
    requires var x, k := s.held[j].slot, Key(s.num, s.held[j].blkno);
             && c1.pool == c0.pool[x := c0.pool[x].(data := data, dirty := dirty)] && c1.on == c0.on
             && c1.disk.Keys == c0.disk.Keys && c1.view == c0.view[k := data]
             && c1.unsaved == if dirty then c0.unsaved[k := x] else c0.unsaved - {k}
    ensures DeviceOk(c1, s.(disk := s.disk[s.held[j].blkno := data]))
  {
    var s1 := s.(disk := s.disk[s.held[j].blkno := data]);
    var k := Key(s.num, s.held[j].blkno);
    forall i: Slot
      ensures Counted(c1, s1, i)
    {
      assert Counted(c0, s, i);
    }
    forall l | 0 <= l < |s.held|
      ensures HoldOk(c1, s1, s.held[l])
    {
      assert HoldOk(c0, s, s.held[l]);
    }
    forall b: nat | b < |s.disk|
      ensures Shows(c1.disk, c1.view, s1.num, s1.disk, b)
    {
      assert Shows(c0.disk, c0.view, s.num, s.disk, b);
    }
    forall l | l in c1.unsaved
      ensures c1.pool[c1.unsaved[l]].dirty
    {
      if l != k {
        UnsavedIsHeld(c0, l);
        assert HoldOk(c0, s, s.held[j]);
      }
    }
  }

  /** What `brelse` does to buffer `x`. */
  ghost predicate LetGo(c0: Cached, c1: Cached, x: Slot) {
    && c0.pool[x].useCount > 0 && c1.view == c0.view && c1.disk.Keys == c0.disk.Keys
    && c1.unsaved == (if c0.pool[x].dirty then c0.unsaved - {KeyOf(c0.pool[x])} else c0.unsaved)
    && if c0.pool[x].invalid && c0.pool[x].useCount == 1 then c1.pool == c0.pool && c1.on == c0.on - {x}
       else c1.on == c0.on && c1.pool == c0.pool[x := c0.pool[x].(dirty := false, useCount := c0.pool[x].useCount - 1)]
  }

  /** One hold less, of the task or of another. */
  lemma Dropped(c0: Cached, s0: Share, c1: Cached, s1: Share, x: Slot)
    requires Consistent(c0) && DeviceOk(c0, s0) && x in c0.on && LetGo(c0, c1, x)
    requires s1.num == s0.num && s1.disk == s0.disk && s1.budget == s0.budget && |s1.others| <= |s0.others| && OneMore(s1, s0, x)
    requires s1.held <= s0.held
    ensures DeviceOk(c1, s1)
  {
    forall i: Slot
      ensures Counted(c1, s1, i)
    {
      assert Counted(c0, s0, i);
    }
    forall l | 0 <= l < |s1.held|
      ensures HoldOk(c1, s1, s1.held[l])
    {
      assert HoldOk(c0, s0, s0.held[l]);
    }
    forall b: nat | b < |s1.disk|
      ensures Shows(c1.disk, c1.view, s1.num, s1.disk, b)
    {
      assert Shows(c0.disk, c0.view, s0.num, s0.disk, b);
    }
    forall l | l in c1.unsaved
      ensures c1.pool[c1.unsaved[l]].dirty
    {
      UnsavedIsHeld(c0, l);
    }
  }

  /** A block was written through a buffer that is held by nobody new. */
  lemma Written(c0: Cached, s: Share, c1: Cached, x: Slot, blk: nat, data: Block)
    requires Consistent(c0) && DeviceOk(c0, s) && blk < |s.disk|
    requires var k := Key(s.num, blk);
             && Holds(c1.pool, c1.on, x, k) && Rewritten(c0.pool, c0.on, c1.pool, c1.on, x, k, data)
             && c1.disk.Keys == c0.disk.Keys && c1.view == c0.view[k := data] && c1.unsaved == c0.unsaved - {k}
    ensures DeviceOk(c1, s.(disk := s.disk[blk := data]))
  {
    hide CacheOk, Holds;
    var k := Key(s.num, blk);
    var s1 := s.(disk := s.disk[blk := data]);
    HoldsOn(c0.pool, c0.on, x, k);
    HoldsOn(c1.pool, c1.on, x, k);
    forall i: Slot
      ensures Counted(c1, s1, i)
    {
      assert Counted(c0, s, i);
    }
    forall l | 0 <= l < |s.held|
      ensures HoldOk(c1, s1, s.held[l])
    {
      assert HoldOk(c0, s, s.held[l]) && Counted(c0, s, s.held[l].slot);
      HeldIsInUse(c0, s, l);
      SameHold(c0.pool, c0.on, c1.pool, c1.on, s.held[l].slot, x, Key(s.num, s.held[l].blkno), k);
    }
    forall b: nat | b < |s.disk|
      ensures Shows(c1.disk, c1.view, s1.num, s1.disk, b)
    {
      assert Shows(c0.disk, c0.view, s.num, s.disk, b);
    }
    forall l | l in c1.unsaved
      ensures c1.pool[c1.unsaved[l]].dirty
    {
      UnsavedIsHeld(c0, l);
      NotBoth(c0.pool, c0.on, c0.unsaved[l], l, k);
    }
  }

  lemma NotBoth(pool: Pool, on: set<Slot>, i: Slot, k: Key, l: Key)
    requires Holds(pool, on, i, k) && k != l
    ensures !Holds(pool, on, i, l) && i in on
  {
  }

  lemma SameHold(p0: Pool, on0: set<Slot>, p1: Pool, on1: set<Slot>, i: Slot, x: Slot, k: Key, kx: Key)
    requires Holds(p0, on0, i, k) && OthersKept(p0, on0, p1, on1, x) && p0[i].useCount > 0
    requires i == x ==> Holds(p0, on0, x, kx) && Holds(p1, on1, x, kx)
    ensures Holds(p1, on1, i, k)
  {
  }

  /** A hold of another task is of a buffer in use. */
  lemma OtherInUse(c: Cached, s: Share, j: nat)
    requires DeviceOk(c, s) && j < |s.others|
    ensures s.others[j].slot in c.on && c.pool[s.others[j].slot].useCount > 0
  {
    TimesAt(s.others, j);
    assert Counted(c, s, s.others[j].slot);
  }

  // ----- The source's form -----

  class Device {
    const sup: Super
    const cache: Cache
    /** Which of the devices in the cache this is. */
    const num: nat
    /** The buffers that there are for the task, at least; the others may be held by other tasks. */
    const budget: nat
    ghost var others: seq<Hold>
    /** The contents of every block. */
    ghost var disk: seq<Block>
    /** The buffers that the task holds, most recent last. */
    ghost var held: seq<Hold>

    ghost function Cache(): Cached
      reads cache
    {
      Cached(cache.pool, cache.on, cache.disk, cache.view, cache.unsaved)
    }

    ghost function Mine(): Share
      reads this
    {
      Share(num, disk, held, others, budget)
    }

    ghost predicate Ready()
      reads this, cache
    {
      cache.Valid() && DeviceOk(Cache(), Mine())
    }

    /** A device whose blocks are in a cache of which nothing is in use yet; other tasks may come to hold all buffers
        but `budget`. */
    constructor (sup: Super, cache: Cache, num: nat, ghost disk: seq<Block>, budget: nat)
      requires cache.Valid() && forall i: Slot :: i in cache.on ==> cache.pool[i].useCount == 0
      requires forall b: nat :: b < |disk| ==> Shows(cache.disk, cache.view, num, disk, b)
      requires budget <= NR_BUFFERS
      ensures Ready() && this.sup == sup && this.cache == cache && this.num == num && this.disk == disk
      ensures held == [] && others == [] && this.budget == budget
    {
      this.sup := sup;
      this.cache := cache;
      this.num := num;
      this.disk := disk;
      this.budget := budget;
      others, held := [], [];
      new;
      forall k | k in cache.unsaved
        ensures false
      {
        UnsavedIsHeld(Cache(), k);
      }
    }

    /** `bread`, which cannot fail within the budget. */
    method Take(blk: nat) returns (x: Slot)
      requires Ready() && blk < |disk| && |held| < budget
      modifies this`held, cache
      ensures Ready() && held == old(held) + [Hold(x, blk)]
    {
      hide CacheOk, Placed, Holds, OthersKept, OnlyChanged, Counted, HoldOk;
      assert Shows(cache.disk, cache.view, num, disk, blk);
      NotExhausted(Cache(), Mine());
      var r := cache.BRead(Key(num, blk));
      x := r.value;
      HeldMore(Mine(), x, blk);
      Taken(old(Cache()), old(Mine()), Cache(), Mine().(held := held + [Hold(x, blk)]), x, Key(num, blk));
      held := held + [Hold(x, blk)];
    }

    /** The data of a held buffer. */
    method Data(x: Slot, ghost j: nat) returns (data: Block)
      requires Ready() && j < |held| && held[j].slot == x
      ensures held[j].blkno < |disk| && data == disk[held[j].blkno]
    {
      HeldShows(Cache(), Mine(), j);
      data := cache.pool[x].data;
    }

    /** A change of the data of a held buffer, and `bdirty`. */
    method Change(x: Slot, data: Block, writeNow: bool, ghost j: nat)
      requires Ready() && j < |held| && held[j].slot == x
      modifies this`disk, cache
      ensures Ready() && held[j].blkno < |old(disk)| && disk == old(disk)[held[j].blkno := data]
    {
      hide CacheOk, Placed, DeviceOk;
      HeldShows(Cache(), Mine(), j);
      ghost var k := Key(num, held[j].blkno);
      KnownBlock(Cache(), Mine(), held[j].blkno);
      cache.Modify(x, data);
      cache.BDirty(x, writeNow);
      assert old(cache.unsaved)[k := x] - {k} == old(cache.unsaved) - {k};
      Changed(old(Cache()), old(Mine()), Cache(), j, data, !writeNow);
      disk := disk[held[j].blkno := data];
    }

    /** `brelse` of the buffer that was taken last. */
    method Drop(x: Slot)
      requires Ready() && held != [] && held[|held| - 1].slot == x
      modifies this`held, cache
      ensures Ready() && held == old(held)[..|old(held)| - 1]
    {
      hide CacheOk, Placed, Counted, HoldOk, DeviceOk;
      HeldShows(Cache(), Mine(), |held| - 1);
      HeldLess(Mine());
      Release(x);
      Dropped(old(Cache()), old(Mine()), Cache(), Mine().(held := held[..|held| - 1]), x);
      held := held[..|held| - 1];
    }

    /** `brelse` of a buffer in use, whoever holds it. */
    method Release(x: Slot)
      requires Ready() && x in cache.on && cache.pool[x].useCount > 0
      modifies cache
      ensures cache.Valid() && LetGo(old(Cache()), Cache(), x)
    {
      hide CacheOk, Placed;
      if !cache.pool[x].invalid {
        UnsavedByHolder(Cache(), x);
      }
      if cache.pool[x].dirty {
        DirtyIsKnown(Cache(), x);
      }
      cache.BRelse(x);
    }

    /** `bwrite` */
    method Write(blk: nat, data: Block)
      requires Ready() && blk < |disk| && |held| < budget
      modifies this`disk, cache
      ensures Ready() && disk == old(disk)[blk := data]
    {
      hide CacheOk, Placed, Holds, Rewritten, Counted, HoldOk;
      assert Shows(cache.disk, cache.view, num, disk, blk);
      NotExhausted(Cache(), Mine());
      var ok := cache.BWrite(Key(num, blk), data);
      ghost var x: Slot :| Holds(cache.pool, cache.on, x, Key(num, blk))
                           && Rewritten(old(cache.pool), old(cache.on), cache.pool, cache.on, x, Key(num, blk), data);
      Written(old(Cache()), old(Mine()), Cache(), x, blk, data);
      disk := disk[blk := data];
    }

    /** Another task reads a block of any device, while that leaves this task its buffers. */
    method OtherTakes(k: Key) returns (r: Option<Slot>)
      requires Ready() && k in cache.disk && |others| + budget < NR_BUFFERS
      modifies this`others, cache
      ensures Ready()
      ensures r.None? ==> others == old(others) && |held| + |others| >= NR_BUFFERS
      ensures r.Some? ==> others == old(others) + [Hold(r.value, k.blkno)]
    {
      hide CacheOk, Placed, Holds, OthersKept, OnlyChanged, Counted, HoldOk;
      if |held| + |others| < NR_BUFFERS {
        NotExhausted(Cache(), Mine());
      }
      r := cache.BRead(k);
      if r.None? {
        return;
      }
      OthersMore(Mine(), r.value, k.blkno);
      Taken(old(Cache()), old(Mine()), Cache(), Mine().(others := others + [Hold(r.value, k.blkno)]), r.value, k);
      others := others + [Hold(r.value, k.blkno)];
    }

    /** Another task gives one of its buffers up. */
    method OtherDrops(x: Slot, ghost j: nat)
      requires Ready() && j < |others| && others[j].slot == x
      modifies this`others, cache
      ensures Ready() && others == Less(old(others), j)
    {
      hide CacheOk, Placed, Counted, HoldOk, DeviceOk;
      OtherInUse(Cache(), Mine(), j);
      OthersLess(Mine(), j);
      Release(x);
      Dropped(old(Cache()), old(Mine()), Cache(), Mine().(others := Less(others, j)), x);
      others := Less(others, j);
    }
  }

  lemma HeldMore(s: Share, x: Slot, b: nat)
    ensures OneMore(s, s.(held := s.held + [Hold(x, b)]), x)
  {
    forall i: Slot { TimesMore(s.held, Hold(x, b), i); }
  }

  lemma OthersMore(s: Share, x: Slot, b: nat)
    ensures OneMore(s, s.(others := s.others + [Hold(x, b)]), x)
  {
    forall i: Slot { TimesMore(s.others, Hold(x, b), i); }
  }

  lemma HeldLess(s: Share)
    requires s.held != []
    ensures OneMore(s.(held := s.held[..|s.held| - 1]), s, s.held[|s.held| - 1].slot)
  {
  }

  lemma OthersLess(s: Share, j: nat)
    requires j < |s.others|
    ensures OneMore(s.(others := Less(s.others, j)), s, s.others[j].slot)
  {
    forall i: Slot { TimesLess(s.others, j, i); }
  }

  lemma DirtyIsKnown(c: Cached, x: Slot)
    requires Consistent(c) && c.pool[x].dirty
    ensures KeyOf(c.pool[x]) in c.disk
  {
    assert BufOk(c.pool, c.on, c.view, c.unsaved, x) && BlockOk(c.pool, c.on, c.disk, c.view, c.unsaved, KeyOf(c.pool[x]));
  }

  lemma KnownBlock(c: Cached, s: Share, b: nat)
    requires DeviceOk(c, s) && b < |s.disk|
    ensures Key(s.num, b) in c.disk && Key(s.num, b) in c.view
  {
    assert Shows(c.disk, c.view, s.num, s.disk, b);
  }

  /** When nobody holds a buffer, the device itself has every block as it was last written. */
  lemma SavedWhenReleased(c: Cached, s: Share, b: nat)
    requires Consistent(c) && DeviceOk(c, s) && s.held == [] && s.others == [] && b < |s.disk|
    ensures Key(s.num, b) in c.disk && c.disk[Key(s.num, b)] == s.disk[b]
  {
    forall i: Slot | i in c.on
      ensures c.pool[i].useCount == 0
    {
      assert Counted(c, s, i);
    }
    NothingHeldNothingUnsaved(c.pool, c.on, c.disk, c.view, c.unsaved);
    assert Shows(c.disk, c.view, s.num, s.disk, b);
  }

  /** Contents that are not saved are in the buffer that holds the block. */
  lemma UnsavedByHolder(c: Cached, x: Slot)
    requires Consistent(c) && x in c.on && !c.pool[x].invalid
    ensures KeyOf(c.pool[x]) in c.unsaved ==> c.unsaved[KeyOf(c.pool[x])] == x
  {
    var k := KeyOf(c.pool[x]);
    if k in c.unsaved {
      assert BlockOk(c.pool, c.on, c.disk, c.view, c.unsaved, k) && OneHolder(c.pool, c.on, x, c.unsaved[k], k);
    }
  }
}
