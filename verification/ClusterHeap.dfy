/** Whole-block allocation of the kernel heap: the large-request half of
    malloc.c, and free.c on clusters. */
module ClusterHeap {
  import opened Options
  import opened HeapRing

  /** The region of a busy cluster. */
  function Region(busy: map<nat, nat>, b: nat): Cluster
    requires b in busy
  {
    Cluster(b, busy[b])
  }

  /** The table entry of a busy cluster: a whole-block allocation or one block cut into fragments. */
  predicate BusyEntry(e: Info, blocks: nat) {
    e == Busy(blocks) || (e.Frag? && blocks == 1)
  }

  /** Every busy cluster lies below the break and inside the table. */
  ghost predicate BusyOk(info: seq<Info>, busy: map<nat, nat>, brk: nat) {
    forall b :: b in busy ==>
      && b > 0 && busy[b] > 0 && b + busy[b] <= brk && b + busy[b] <= |info|
      && BusyEntry(info[b], busy[b])
  }

  ghost predicate BusyApart(busy: map<nat, nat>) {
    forall a, b :: a in busy && b in busy && a != b ==> Apart(Region(busy, a), Region(busy, b))
  }

  ghost predicate FreeBounded(fl: seq<Cluster>, top: nat) {
    forall k :: 0 <= k < |fl| ==> fl[k].start + fl[k].size <= top
  }

  /** Region `c` meets no free cluster. */
  ghost predicate ApartFromFree(fl: seq<Cluster>, c: Cluster) {
    forall k :: 0 <= k < |fl| ==> Apart(fl[k], c)
  }

  ghost predicate ApartFromBusy(busy: map<nat, nat>, c: Cluster) {
    forall b :: b in busy ==> Apart(Region(busy, b), c)
  }

  ghost predicate FreeBusyApart(fl: seq<Cluster>, busy: map<nat, nat>) {
    forall b :: b in busy ==> ApartFromFree(fl, Region(busy, b))
  }

  /** The region holding the table itself meets neither free nor busy clusters. */
  ghost predicate TableOk(fl: seq<Cluster>, busy: map<nat, nat>, table: Cluster, brk: nat) {
    && table.start > 0 && table.size > 0 && table.start + table.size <= brk
    && ApartFromFree(fl, table)
    && ApartFromBusy(busy, table)
  }

  /** The heap invariant, apart from neighbours not touching and the search index. */
  ghost predicate Sound(info: seq<Info>, fl: seq<Cluster>, busy: map<nat, nat>, table: Cluster, brk: nat) {
    && IsOrdered(fl)
    && Rep(info, fl)
    && FreeBounded(fl, brk) && FreeBounded(fl, |info|)
    && BusyOk(info, busy, brk)
    && BusyApart(busy)
    && FreeBusyApart(fl, busy)
    && TableOk(fl, busy, table, brk)
  }

  ghost predicate OnRing(fl: seq<Cluster>, i: nat) {
    exists k :: 0 <= k < |fl| && fl[k].start == i
  }

  /** Apart from the entries of free clusters and those listed, two tables agree. */
  ghost predicate BusyEntriesKept(info: seq<Info>, info': seq<Info>, busy: map<nat, nat>) {
    |info| <= |info'| && forall b :: b in busy && b < |info| ==> info'[b] == info[b]
  }

  // ----- Steps on the free list keep the heap sound -----

  lemma NotAStart(info: seq<Info>, fl: seq<Cluster>, busy: map<nat, nat>, brk: nat, block: nat)
    requires IsOrdered(fl) && BusyOk(info, busy, brk) && FreeBusyApart(fl, busy)
    requires block in busy
    ensures forall k :: 0 <= k < |fl| ==> fl[k].start != block
  {
    assert ApartFromFree(fl, Region(busy, block));
    forall k | 0 <= k < |fl|
      ensures fl[k].start != block
    {
      assert Apart(fl[k], Region(busy, block));
    }
  }

  lemma FitsAfter(info: seq<Info>, fl: seq<Cluster>, busy: map<nat, nat>, table: Cluster, brk: nat, block: nat, p: nat)
    requires Sound(info, fl, busy, table, brk) && block in busy && p < |fl|
    requires fl[p].start < block && (p + 1 < |fl| ==> block < fl[p + 1].start)
    ensures Fits(fl, p, Region(busy, block))
  {
    assert ApartFromFree(fl, Region(busy, block));
    assert Apart(fl[p], Region(busy, block));
    if p + 1 < |fl| {
      assert Apart(fl[p + 1], Region(busy, block));
    }
  }

  lemma ApartFromInsert(fl: seq<Cluster>, k: nat, c: Cluster, d: Cluster)
    requires k < |fl| && ApartFromFree(fl, d) && Apart(c, d)
    ensures ApartFromFree(Insert(fl, k, c), d)
  {
    var fl' := Insert(fl, k, c);
    forall m | 0 <= m < |fl'|
      ensures Apart(fl'[m], d)
    {
      if m != k + 1 {
        assert fl'[m] == fl[if m <= k then m else m - 1];
      }
    }
  }

  lemma ApartFromRemove(fl: seq<Cluster>, k: nat, d: Cluster)
    requires k < |fl| && ApartFromFree(fl, d)
    ensures ApartFromFree(Remove(fl, k), d)
  {
    var fl' := Remove(fl, k);
    forall m | 0 <= m < |fl'|
      ensures Apart(fl'[m], d)
    {
      assert fl'[m] == fl[if m < k then m else m + 1];
    }
  }

  /** Freeing `block` by a new list member. */
  lemma SoundInsert(info: seq<Info>, fl: seq<Cluster>, busy: map<nat, nat>, table: Cluster, brk: nat, p: nat, block: nat)
    requires Sound(info, fl, busy, table, brk) && block in busy && p < |fl|
    requires Fits(fl, p, Region(busy, block))
    ensures block < |info|
    ensures var c := Region(busy, block);
            var info' := InsertInfo(info, fl, p, c);
            && Sound(info', Insert(fl, p, c), busy - {block}, table, brk)
            && BusyEntriesKept(info, info', busy - {block})
  {
    var c := Region(busy, block);
    var busy' := busy - {block};
    var fl' := Insert(fl, p, c);
    var info' := InsertInfo(info, fl, p, c);
    RepInsert(info, fl, p, c);
    assert FreeBounded(fl', brk) && FreeBounded(fl', |info|) by { BoundedInsert(fl, p, c, brk); BoundedInsert(fl, p, c, |info|); }
    assert BusyEntriesKept(info, info', busy') by {
      forall b | b in busy'
        ensures info'[b] == info[b]
      {
        NotAStart(info, fl, busy, brk, b);
      }
    }
    assert TableOk(fl', busy', table, brk) by {
      ApartFromInsert(fl, p, c, table);
    }
    forall b | b in busy'
      ensures ApartFromFree(fl', Region(busy', b))
    {
      assert Apart(Region(busy, block), Region(busy, b));
      ApartFromInsert(fl, p, c, Region(busy, b));
    }
  }

  lemma BoundedInsert(fl: seq<Cluster>, p: nat, c: Cluster, top: nat)
    requires p < |fl| && FreeBounded(fl, top) && c.start + c.size <= top
    ensures FreeBounded(Insert(fl, p, c), top)
  {
    var fl' := Insert(fl, p, c);
    forall m | 0 <= m < |fl'|
      ensures fl'[m].start + fl'[m].size <= top
    {
      if m != p + 1 {
        assert fl'[m] == fl[if m <= p then m else m - 1];
      }
    }
  }

  lemma ApartFromReplace(fl: seq<Cluster>, k: nat, c: Cluster, d: Cluster)
    requires k < |fl| && ApartFromFree(fl, d) && Apart(c, d)
    ensures ApartFromFree(fl[k := c], d)
  {
  }

  /** Member `p` of the list takes in the `n` blocks that follow it. */
  ghost function Grown(fl: seq<Cluster>, p: nat, n: nat): seq<Cluster>
    requires p < |fl|
  {
    fl[p := Cluster(fl[p].start, fl[p].size + n)]
  }

  /** Freeing `block` by growing the cluster that ends where it starts. */
  lemma SoundGrow(info: seq<Info>, fl: seq<Cluster>, busy: map<nat, nat>, table: Cluster, brk: nat, p: nat, block: nat)
    requires Sound(info, fl, busy, table, brk) && block in busy && 0 < p < |fl|
    requires Fits(fl, p, Region(busy, block)) && fl[p].start + fl[p].size == block
    ensures Linked(info, fl, p)
    ensures var info' := SetSize(info, fl[p].start, fl[p].size + busy[block]);
            && Sound(info', Grown(fl, p, busy[block]), busy - {block}, table, brk)
            && BusyEntriesKept(info, info', busy - {block})
  {
    hide IsOrdered, FreeBusyApart, ApartFromFree, FreeBounded;
    assert Linked(info, fl, p);
    var size := fl[p].size + busy[block];
    var info' := SetSize(info, fl[p].start, size);
    assert IsOrdered(Grown(fl, p, busy[block])) && Rep(info', Grown(fl, p, busy[block])) by {
      RepResize(info, fl, p, size);
    }
    assert BusyEntriesKept(info, info', busy - {block}) by { SetSizeKeepsBusy(info, fl, busy, brk, p, size); }
    assert BusyOk(info', busy - {block}, brk);
    assert FreeBusyApart(Grown(fl, p, busy[block]), busy - {block}) by { GrownApart(fl, busy, p, block); }
    assert ApartFromFree(Grown(fl, p, busy[block]), table) by { ApartFromGrown(fl, p, Region(busy, block), table); }
    assert FreeBounded(Grown(fl, p, busy[block]), brk) by { BoundedGrown(fl, p, Region(busy, block), brk); }
    assert FreeBounded(Grown(fl, p, busy[block]), |info|) by { BoundedGrown(fl, p, Region(busy, block), |info|); }
  }

  lemma BoundedGrown(fl: seq<Cluster>, p: nat, c: Cluster, top: nat)
    requires p < |fl| && fl[p].start + fl[p].size == c.start
    requires FreeBounded(fl, top) && c.start + c.size <= top
    ensures FreeBounded(Grown(fl, p, c.size), top)
  {
  }

  lemma SetSizeKeepsBusy(info: seq<Info>, fl: seq<Cluster>, busy: map<nat, nat>, brk: nat, p: nat, size: nat)
    requires IsOrdered(fl) && Rep(info, fl) && BusyOk(info, busy, brk) && FreeBusyApart(fl, busy) && p < |fl|
    ensures Linked(info, fl, p)
    ensures BusyEntriesKept(info, SetSize(info, fl[p].start, size), busy)
  {
    forall b | b in busy
      ensures fl[p].start != b
    {
      NotAStart(info, fl, busy, brk, b);
    }
  }

  lemma GrownApart(fl: seq<Cluster>, busy: map<nat, nat>, p: nat, block: nat)
    requires FreeBusyApart(fl, busy) && BusyApart(busy)
    requires block in busy && (forall b :: b in busy ==> busy[b] > 0)
    requires p < |fl| && fl[p].start + fl[p].size == block
    ensures FreeBusyApart(Grown(fl, p, busy[block]), busy - {block})
  {
    forall b | b in busy - {block}
      ensures ApartFromFree(Grown(fl, p, busy[block]), Region(busy - {block}, b))
    {
      assert Apart(Region(busy, block), Region(busy, b));
      ApartFromGrown(fl, p, Region(busy, block), Region(busy, b));
    }
  }

  lemma ApartFromGrown(fl: seq<Cluster>, p: nat, c: Cluster, d: Cluster)
    requires p < |fl| && fl[p].start + fl[p].size == c.start
    requires ApartFromFree(fl, d) && Apart(c, d) && d.size > 0 && c.size > 0
    ensures ApartFromFree(Grown(fl, p, c.size), d)
  {
    assert Apart(fl[p], d);
  }

  /** Members `q` and `q + 1`, which touch, become one. */
  ghost function Merged(fl: seq<Cluster>, q: nat): seq<Cluster>
    requires q + 1 < |fl|
  {
    Remove(fl, q + 1)[q := Cluster(fl[q].start, fl[q].size + fl[q + 1].size)]
  }

  /** free.c:63-67 as one update of the table. */
  ghost function MergeInfo(info: seq<Info>, fl: seq<Cluster>, q: nat): (r: seq<Info>)
    requires IsOrdered(fl) && Rep(info, fl) && 0 < q && q + 1 < |fl|
    ensures Rep(RemoveInfo(info, fl, q + 1), Remove(fl, q + 1))
    ensures fl[q].start < |RemoveInfo(info, fl, q + 1)| && RemoveInfo(info, fl, q + 1)[fl[q].start].Free?
    ensures r == SetSize(RemoveInfo(info, fl, q + 1), fl[q].start, fl[q].size + fl[q + 1].size)
    ensures |r| == |info|
    ensures forall b :: 0 <= b < |info| && b != fl[q].start && b != Next(fl, q + 1) ==> r[b] == info[b]
  {
    assert Linked(info, fl, q) && Linked(info, fl, q + 1);
    var nk := if q + 2 < |fl| then q + 2 else 0;
    assert Linked(info, fl, nk);
    StartsDiffer(fl, q, nk);
    RepRemove(info, fl, q + 1);
    var info1 := SetSize(info, fl[q].start, fl[q].size + fl[q + 1].size);
    var info2 := SetNext(info1, fl[q].start, Next(fl, q + 1));
    SetPrev(info2, Next(fl, q + 1), fl[q].start)
  }

  lemma SoundMerge(info: seq<Info>, fl: seq<Cluster>, busy: map<nat, nat>, table: Cluster, brk: nat, q: nat)
    requires Sound(info, fl, busy, table, brk) && 0 < q && q + 1 < |fl|
    requires fl[q].start + fl[q].size == fl[q + 1].start
    ensures Sound(MergeInfo(info, fl, q), Merged(fl, q), busy, table, brk)
    ensures BusyEntriesKept(info, MergeInfo(info, fl, q), busy)
  {
    hide IsOrdered, FreeBusyApart, ApartFromFree, FreeBounded, BusyApart, Rep, Merged;
    RepMerged(info, fl, q);
    MergeKeepsBusy(info, fl, busy, brk, q);
    MergedApart(fl, busy, q);
    ApartFromMerged(fl, q, table);
    BoundedMerged(fl, q, brk);
    BoundedMerged(fl, q, |info|);
  }

  lemma RepMerged(info: seq<Info>, fl: seq<Cluster>, q: nat)
    requires IsOrdered(fl) && Rep(info, fl) && 0 < q && q + 1 < |fl|
    requires fl[q].start + fl[q].size == fl[q + 1].start
    ensures IsOrdered(Merged(fl, q)) && Rep(MergeInfo(info, fl, q), Merged(fl, q))
  {
    hide IsOrdered, Rep;
    RepRemove(info, fl, q + 1);
    MergedFits(fl, q);
    RepResize(RemoveInfo(info, fl, q + 1), Remove(fl, q + 1), q, fl[q].size + fl[q + 1].size);
  }

  lemma MergedFits(fl: seq<Cluster>, q: nat)
    requires IsOrdered(fl) && q + 1 < |fl|
    requires fl[q].start + fl[q].size == fl[q + 1].start
    ensures var fl1 := Remove(fl, q + 1);
            && fl1[q] == fl[q] && fl[q + 1].size > 0
            && (q + 1 < |fl1| ==> fl[q].start + fl[q].size + fl[q + 1].size <= fl1[q + 1].start)
  {
    if q + 2 < |fl| {
      assert fl[q + 1].start + fl[q + 1].size <= fl[q + 2].start;
    }
  }

  lemma MergeKeepsBusy(info: seq<Info>, fl: seq<Cluster>, busy: map<nat, nat>, brk: nat, q: nat)
    requires IsOrdered(fl) && Rep(info, fl) && BusyOk(info, busy, brk) && FreeBusyApart(fl, busy) && 0 < q && q + 1 < |fl|
    ensures BusyEntriesKept(info, MergeInfo(info, fl, q), busy)
  {
    forall b | b in busy
      ensures MergeInfo(info, fl, q)[b] == info[b]
    {
      NotAStart(info, fl, busy, brk, b);
    }
  }

  lemma MergedApart(fl: seq<Cluster>, busy: map<nat, nat>, q: nat)
    requires FreeBusyApart(fl, busy) && (forall b :: b in busy ==> busy[b] > 0) && q + 1 < |fl|
    requires fl[q].start + fl[q].size == fl[q + 1].start
    ensures FreeBusyApart(Merged(fl, q), busy)
  {
    forall b | b in busy
      ensures ApartFromFree(Merged(fl, q), Region(busy, b))
    {
      assert ApartFromFree(fl, Region(busy, b));
      ApartFromMerged(fl, q, Region(busy, b));
    }
  }

  lemma ApartFromMerged(fl: seq<Cluster>, q: nat, d: Cluster)
    requires q + 1 < |fl| && ApartFromFree(fl, d) && d.size > 0
    requires fl[q].start + fl[q].size == fl[q + 1].start
    ensures ApartFromFree(Merged(fl, q), d)
  {
    assert Apart(fl[q], d) && Apart(fl[q + 1], d);
    ApartFromRemove(fl, q + 1, d);
    ApartFromReplace(Remove(fl, q + 1), q, Cluster(fl[q].start, fl[q].size + fl[q + 1].size), d);
  }

  lemma BoundedMerged(fl: seq<Cluster>, q: nat, top: nat)
    requires q + 1 < |fl| && FreeBounded(fl, top)
    requires fl[q].start + fl[q].size == fl[q + 1].start
    ensures FreeBounded(Merged(fl, q), top)
  {
    var fl' := Merged(fl, q);
    forall m | 0 <= m < |fl'|
      ensures fl'[m].start + fl'[m].size <= top
    {
      assert fl[q + 1].start + fl[q + 1].size <= top;
      if m != q {
        assert fl'[m] == fl[if m <= q then m else m + 1];
      }
    }
  }

  // ----- Returning the end of the heap to the system -----

  /** The last free cluster ends at the break; the break moves down to its start. */
  lemma SoundDrop(info: seq<Info>, fl: seq<Cluster>, busy: map<nat, nat>, table: Cluster, brk: nat, k: nat)
    requires Sound(info, fl, busy, table, brk) && 0 < k < |fl|
    requires fl[k].start + fl[k].size == brk
    ensures Sound(RemoveInfo(info, fl, k), Remove(fl, k), busy, table, fl[k].start)
    ensures BusyEntriesKept(info, RemoveInfo(info, fl, k), busy)
  {
    hide IsOrdered, FreeBusyApart, ApartFromFree, FreeBounded, BusyApart;
    RepRemove(info, fl, k);
    RemoveKeepsBusy(info, fl, busy, brk, k);
    assert BusyOk(RemoveInfo(info, fl, k), busy, fl[k].start) by { BusyBelowDropped(info, fl, busy, brk, k); }
    assert FreeBounded(Remove(fl, k), fl[k].start) && FreeBounded(Remove(fl, k), |info|) by { FreeBelowDropped(fl, brk, k, |info|); }
    assert FreeBusyApart(Remove(fl, k), busy) by { RemoveApart(fl, busy, k); }
    assert TableOk(Remove(fl, k), busy, table, fl[k].start) by {
      ApartFromRemove(fl, k, table);
      PickFree(fl, table, k);
    }
  }

  lemma PickFree(fl: seq<Cluster>, d: Cluster, k: nat)
    requires ApartFromFree(fl, d) && k < |fl|
    ensures Apart(fl[k], d)
  {
  }

  lemma RemoveKeepsBusy(info: seq<Info>, fl: seq<Cluster>, busy: map<nat, nat>, brk: nat, k: nat)
    requires IsOrdered(fl) && Rep(info, fl) && BusyOk(info, busy, brk) && FreeBusyApart(fl, busy) && 0 < k < |fl|
    ensures BusyEntriesKept(info, RemoveInfo(info, fl, k), busy)
  {
    forall b | b in busy
      ensures RemoveInfo(info, fl, k)[b] == info[b]
    {
      NotAStart(info, fl, busy, brk, b);
    }
  }

  lemma BusyBelowDropped(info: seq<Info>, fl: seq<Cluster>, busy: map<nat, nat>, brk: nat, k: nat)
    requires IsOrdered(fl) && BusyOk(info, busy, brk) && FreeBusyApart(fl, busy) && k < |fl|
    requires fl[k].start + fl[k].size == brk
    ensures forall b :: b in busy ==> b + busy[b] <= fl[k].start
  {
    forall b | b in busy
      ensures b + busy[b] <= fl[k].start
    {
      assert ApartFromFree(fl, Region(busy, b));
      PickFree(fl, Region(busy, b), k);
    }
  }

  lemma FreeBelowDropped(fl: seq<Cluster>, brk: nat, k: nat, top: nat)
    requires IsOrdered(fl) && FreeBounded(fl, brk) && FreeBounded(fl, top) && 0 < k < |fl|
    requires fl[k].start + fl[k].size == brk
    ensures FreeBounded(Remove(fl, k), fl[k].start) && FreeBounded(Remove(fl, k), top)
  {
    var fl' := Remove(fl, k);
    forall m | 0 <= m < |fl'|
      ensures fl'[m].start + fl'[m].size <= fl[k].start && fl'[m].start + fl'[m].size <= top
    {
      var m0 := if m < k then m else m + 1;
      var c, d := fl[m0], fl[k];
      assert c.start + c.size <= brk && c.start + c.size <= top;
      assert if m0 < k then c.start + c.size <= d.start else d.start + d.size <= c.start && c.size > 0;
    }
  }

  lemma RemoveApart(fl: seq<Cluster>, busy: map<nat, nat>, k: nat)
    requires FreeBusyApart(fl, busy) && k < |fl|
    ensures FreeBusyApart(Remove(fl, k), busy)
  {
    forall b | b in busy
      ensures ApartFromFree(Remove(fl, k), Region(busy, b))
    {
      ApartFromRemove(fl, k, Region(busy, b));
    }
  }

  // ----- Taking blocks from a free cluster -----

  /** The list after the first `n` blocks of member `k` are taken. */
  ghost function Taken(fl: seq<Cluster>, k: nat, n: nat): seq<Cluster>
    requires k < |fl| && n <= fl[k].size
  {
    if n < fl[k].size then fl[k := Cluster(fl[k].start + n, fl[k].size - n)] else Remove(fl, k)
  }

  /** malloc.c:226-248 as one update of the table. */
  ghost function TakeInfo(info: seq<Info>, fl: seq<Cluster>, k: nat, n: nat): (r: seq<Info>)
    requires Rep(info, fl) && 0 < k < |fl| && 0 < n <= fl[k].size && fl[k].start + fl[k].size <= |info|
    ensures |r| == |info|
  {
    (if n < fl[k].size then ReplaceInfo(info, fl, k, Cluster(fl[k].start + n, fl[k].size - n)) else RemoveInfo(info, fl, k))
    [fl[k].start := Busy(n)]
  }

  lemma SoundTake(info: seq<Info>, fl: seq<Cluster>, busy: map<nat, nat>, table: Cluster, brk: nat, k: nat, n: nat)
    requires Sound(info, fl, busy, table, brk) && 0 < k < |fl| && 0 < n <= fl[k].size
    ensures fl[k].start !in busy && fl[k].start + fl[k].size <= |info|
    ensures Sound(TakeInfo(info, fl, k, n), Taken(fl, k, n), busy[fl[k].start := n], table, brk)
    ensures BusyEntriesKept(info, TakeInfo(info, fl, k, n), busy)
  {
    hide IsOrdered, FreeBusyApart, ApartFromFree, FreeBounded, BusyApart, Taken, TakeInfo, Rep;
    var c := Cluster(fl[k].start, n);
    var fl' := Taken(fl, k, n);
    var busy' := busy[fl[k].start := n];
    TakeStart(info, fl, busy, brk, k);
    RepTaken(info, fl, k, n);
    TakeKeepsBusy(info, fl, busy, brk, k, n);
    assert BusyOk(TakeInfo(info, fl, k, n), busy', brk) by { TakenBusyOk(info, fl, busy, brk, k, n); }
    assert BusyApart(busy') by { TakenBusyApart(fl, busy, k, n); }
    assert FreeBusyApart(fl', busy') by { TakenFreeBusyApart(fl, busy, k, n); }
    assert FreeBounded(fl', brk) && FreeBounded(fl', |info|) by { TakenBounded(fl, k, n, brk); TakenBounded(fl, k, n, |info|); }
    assert TableOk(fl', busy', table, brk) by {
      ApartFromTaken(fl, k, n, table);
      PickFree(fl, table, k);
    }
  }

  lemma TakeStart(info: seq<Info>, fl: seq<Cluster>, busy: map<nat, nat>, brk: nat, k: nat)
    requires IsOrdered(fl) && BusyOk(info, busy, brk) && FreeBusyApart(fl, busy) && FreeBounded(fl, |info|) && FreeBounded(fl, brk)
    requires 0 < k < |fl|
    ensures fl[k].start !in busy && 0 < fl[k].start && fl[k].start + fl[k].size <= |info| && fl[k].start + fl[k].size <= brk
  {
    if fl[k].start in busy {
      NotAStart(info, fl, busy, brk, fl[k].start);
      assert false;
    }
  }

  lemma RepTaken(info: seq<Info>, fl: seq<Cluster>, k: nat, n: nat)
    requires IsOrdered(fl) && Rep(info, fl) && 0 < k < |fl| && 0 < n <= fl[k].size && fl[k].start + fl[k].size <= |info|
    ensures IsOrdered(Taken(fl, k, n)) && Rep(TakeInfo(info, fl, k, n), Taken(fl, k, n))
  {
    var fl' := Taken(fl, k, n);
    ghost var info1: seq<Info>;
    if n < fl[k].size {
      RepReplace(info, fl, k, Cluster(fl[k].start + n, fl[k].size - n));
      info1 := ReplaceInfo(info, fl, k, Cluster(fl[k].start + n, fl[k].size - n));
    } else {
      RepRemove(info, fl, k);
      info1 := RemoveInfo(info, fl, k);
    }
    assert IsOrdered(fl') && Rep(info1, fl');
    assert TakeInfo(info, fl, k, n) == info1[fl[k].start := Busy(n)];
    RepElsewhere(info1, fl', fl[k].start, Busy(n)) by {
      forall m | 0 <= m < |fl'|
        ensures fl'[m].start != fl[k].start
      {
        TakenElsewhere(fl, k, n, m);
      }
    }
  }

  lemma RepElsewhere(info: seq<Info>, fl: seq<Cluster>, b: nat, e: Info)
    requires Rep(info, fl) && b < |info|
    requires forall m :: 0 <= m < |fl| ==> fl[m].start != b
    ensures Rep(info[b := e], fl)
  {
    var info' := info[b := e];
    forall m | 0 <= m < |fl|
      ensures Linked(info', fl, m)
    {
      assert Linked(info, fl, m);
    }
  }

  lemma TakenElsewhere(fl: seq<Cluster>, k: nat, n: nat, m: nat)
    requires IsOrdered(fl) && 0 < k < |fl| && 0 < n <= fl[k].size && m < |Taken(fl, k, n)|
    ensures Taken(fl, k, n)[m].start != fl[k].start
  {
    var m0 := if n < fl[k].size || m < k then m else m + 1;
    StartsDiffer(fl, m0, k);
  }

  lemma TakeKeepsBusy(info: seq<Info>, fl: seq<Cluster>, busy: map<nat, nat>, brk: nat, k: nat, n: nat)
    requires IsOrdered(fl) && Rep(info, fl) && BusyOk(info, busy, brk) && FreeBusyApart(fl, busy) && FreeBounded(fl, |info|)
    requires 0 < k < |fl| && 0 < n <= fl[k].size
    ensures BusyEntriesKept(info, TakeInfo(info, fl, k, n), busy)
  {
    forall b | b in busy
      ensures TakeInfo(info, fl, k, n)[b] == info[b]
    {
      NotAStart(info, fl, busy, brk, b);
      assert ApartFromFree(fl, Region(busy, b));
      PickFree(fl, Region(busy, b), k);
    }
  }

  lemma TakenBusyOk(info: seq<Info>, fl: seq<Cluster>, busy: map<nat, nat>, brk: nat, k: nat, n: nat)
    requires Rep(info, fl) && 0 < k < |fl| && 0 < n <= fl[k].size && fl[k].start + fl[k].size <= |info|
    requires BusyOk(info, busy, brk) && fl[k].start + fl[k].size <= brk && fl[k].start > 0 && fl[k].start !in busy
    requires BusyEntriesKept(info, TakeInfo(info, fl, k, n), busy)
    ensures BusyOk(TakeInfo(info, fl, k, n), busy[fl[k].start := n], brk)
  {
  }

  lemma TakenBusyApart(fl: seq<Cluster>, busy: map<nat, nat>, k: nat, n: nat)
    requires FreeBusyApart(fl, busy) && BusyApart(busy) && k < |fl| && n <= fl[k].size
    ensures BusyApart(busy[fl[k].start := n])
  {
    forall b | b in busy
      ensures Apart(fl[k], Region(busy, b))
    {
      assert ApartFromFree(fl, Region(busy, b));
      PickFree(fl, Region(busy, b), k);
    }
  }

  lemma ApartFromTaken(fl: seq<Cluster>, k: nat, n: nat, d: Cluster)
    requires k < |fl| && n <= fl[k].size && ApartFromFree(fl, d)
    ensures ApartFromFree(Taken(fl, k, n), d)
  {
    if n < fl[k].size {
      PickFree(fl, d, k);
      ApartFromReplace(fl, k, Cluster(fl[k].start + n, fl[k].size - n), d);
    } else {
      ApartFromRemove(fl, k, d);
    }
  }

  lemma TakenApartFromTaken(fl: seq<Cluster>, k: nat, n: nat)
    requires IsOrdered(fl) && 0 < k < |fl| && 0 < n <= fl[k].size
    ensures ApartFromFree(Taken(fl, k, n), Cluster(fl[k].start, n))
  {
    var fl' := Taken(fl, k, n);
    forall m | 0 <= m < |fl'|
      ensures Apart(fl'[m], Cluster(fl[k].start, n))
    {
      var m0 := if n < fl[k].size || m < k then m else m + 1;
      assert m0 < k ==> fl[m0].start + fl[m0].size <= fl[k].start;
      assert k < m0 ==> fl[k].start + fl[k].size <= fl[m0].start;
    }
  }

  lemma TakenFreeBusyApart(fl: seq<Cluster>, busy: map<nat, nat>, k: nat, n: nat)
    requires IsOrdered(fl) && FreeBusyApart(fl, busy) && 0 < k < |fl| && 0 < n <= fl[k].size && fl[k].start !in busy
    ensures FreeBusyApart(Taken(fl, k, n), busy[fl[k].start := n])
  {
    var busy' := busy[fl[k].start := n];
    forall b | b in busy'
      ensures ApartFromFree(Taken(fl, k, n), Region(busy', b))
    {
      if b == fl[k].start {
        TakenApartFromTaken(fl, k, n);
      } else {
        assert ApartFromFree(fl, Region(busy, b));
        ApartFromTaken(fl, k, n, Region(busy, b));
      }
    }
  }

  lemma TakenBounded(fl: seq<Cluster>, k: nat, n: nat, top: nat)
    requires k < |fl| && n <= fl[k].size && FreeBounded(fl, top)
    ensures FreeBounded(Taken(fl, k, n), top)
  {
    var fl' := Taken(fl, k, n);
    forall m | 0 <= m < |fl'|
      ensures fl'[m].start + fl'[m].size <= top
    {
      var m0 := if n < fl[k].size || m < k then m else m + 1;
      assert fl[m0].start + fl[m0].size <= top;
    }
  }

  // ----- Coalescing restores the ring -----

  lemma TightAfterGrow(fl: seq<Cluster>, p: nat, c: Cluster)
    requires TightBut(fl, -1) && 0 < p < |fl| && Fits(fl, p, c) && fl[p].start + fl[p].size == c.start
    ensures TightBut(Grown(fl, p, c.size), p)
  {
    var fl' := Grown(fl, p, c.size);
    forall j | 0 <= j < |fl'| - 1 && j != p
      ensures fl'[j].start + fl'[j].size < fl'[j + 1].start
    {
      assert fl[j].start + fl[j].size < fl[j + 1].start;
    }
  }

  lemma TightAfterInsert(fl: seq<Cluster>, p: nat, c: Cluster)
    requires TightBut(fl, -1) && p < |fl| && Fits(fl, p, c) && fl[p].start + fl[p].size != c.start
    ensures TightBut(Insert(fl, p, c), p + 1)
  {
    var fl' := Insert(fl, p, c);
    forall j | 0 <= j < |fl'| - 1 && j != p + 1
      ensures fl'[j].start + fl'[j].size < fl'[j + 1].start
    {
      if j < p {
        assert fl[j].start + fl[j].size < fl[j + 1].start;
      } else if p + 1 < j {
        assert fl[j - 1].start + fl[j - 1].size < fl[j].start;
      }
    }
  }

  lemma TightAfterMerge(fl: seq<Cluster>, q: nat)
    requires IsOrdered(fl) && TightBut(fl, q) && q + 1 < |fl|
    ensures TightBut(Merged(fl, q), -1)
  {
    var fl' := Merged(fl, q);
    forall j | 0 <= j < |fl'| - 1
      ensures fl'[j].start + fl'[j].size < fl'[j + 1].start
    {
      if j < q {
        assert fl[j].start + fl[j].size < fl[j + 1].start;
      } else {
        assert fl[j + 1].start + fl[j + 1].size < fl[j + 2].start;
        assert fl[q].start + fl[q].size <= fl[q + 1].start;
      }
    }
  }

  lemma RingAfterRemove(fl: seq<Cluster>, k: nat)
    requires IsRing(fl) && 0 < k < |fl|
    ensures IsRing(Remove(fl, k))
  {
    var fl' := Remove(fl, k);
    forall i, j | 0 <= i < j < |fl'|
      ensures fl'[i].start + fl'[i].size < fl'[j].start
    {
      var i0 := if i < k then i else i + 1;
      var j0 := if j < k then j else j + 1;
      assert fl[i0].start + fl[i0].size < fl[j0].start;
    }
  }

  // ----- What freeing does to the set of free blocks -----

  lemma FreeAfterGrow(fl: seq<Cluster>, p: nat, c: Cluster)
    requires IsOrdered(fl) && p < |fl| && fl[p].start + fl[p].size == c.start
    ensures forall x :: IsFree(Grown(fl, p, c.size), x) <==> IsFree(fl, x) || Has(c, x)
  {
    forall x
      ensures IsFree(Grown(fl, p, c.size), x) <==> IsFree(fl, x) || Has(c, x)
    {
      FreeAfterReplace(fl, p, Cluster(fl[p].start, fl[p].size + c.size), x);
      if Has(fl[p], x) {
        assert IsFree(fl, x);
      }
    }
  }

  lemma FreeAfterMerge(fl: seq<Cluster>, q: nat)
    requires q + 1 < |fl| && IsOrdered(fl) && IsOrdered(Remove(fl, q + 1))
    requires fl[q].start + fl[q].size == fl[q + 1].start
    ensures forall x :: IsFree(Merged(fl, q), x) <==> IsFree(fl, x)
  {
    var fl1 := Remove(fl, q + 1);
    assert fl1[q] == fl[q];
    forall x
      ensures IsFree(Merged(fl, q), x) <==> IsFree(fl, x)
    {
      FreeAfterRemove(fl, q + 1, x);
      FreeAfterReplace(fl1, q, Cluster(fl[q].start, fl[q].size + fl[q + 1].size), x);
      assert Has(fl[q], x) ==> IsFree(fl, x);
      assert Has(fl[q + 1], x) ==> IsFree(fl, x);
    }
  }

  // ----- New memory -----

  lemma SoundRaise(info: seq<Info>, fl: seq<Cluster>, busy: map<nat, nat>, table: Cluster, brk: nat, brk': nat)
    requires Sound(info, fl, busy, table, brk) && brk <= brk'
    ensures Sound(info, fl, busy, table, brk')
  {
  }

  /** The table moves to blocks `[t, t + blocks)` above the break and grows; its old region becomes busy. */
  lemma SoundMoveTable(info: seq<Info>, fl: seq<Cluster>, busy: map<nat, nat>, table: Cluster, brk: nat,
                       pad: seq<Info>, t: nat, blocks: nat)
    requires Sound(info, fl, busy, table, brk) && brk <= t && 0 < t && 0 < blocks && brk <= |info| + |pad|
    ensures table.start !in busy
    ensures var info' := (info + pad)[table.start := Busy(table.size)];
            && Sound(info', fl, busy[table.start := table.size], Cluster(t, blocks), t + blocks)
            && BusyEntriesKept(info, info', busy)
  {
    hide IsOrdered, FreeBusyApart, ApartFromFree;
    var info' := (info + pad)[table.start := Busy(table.size)];
    var busy' := busy[table.start := table.size];
    forall b | b in busy
      ensures b != table.start
    {
      assert Apart(Region(busy, b), table);
    }
    assert Rep(info', fl) by { MoveTableRep(info, fl, pad, table); }
    assert FreeBusyApart(fl, busy') by { MoveTableFree(fl, busy, table); }
    assert ApartFromFree(fl, Cluster(t, blocks)) by { BoundedApart(fl, t, blocks); }
  }

  lemma MoveTableRep(info: seq<Info>, fl: seq<Cluster>, pad: seq<Info>, table: Cluster)
    requires IsOrdered(fl) && Rep(info, fl) && ApartFromFree(fl, table) && table.start > 0 && table.size > 0
    requires table.start < |info| + |pad|
    ensures Rep((info + pad)[table.start := Busy(table.size)], fl)
  {
    var info' := (info + pad)[table.start := Busy(table.size)];
    forall k | 0 <= k < |fl|
      ensures Linked(info', fl, k)
    {
      assert Linked(info, fl, k);
      assert Apart(fl[k], table);
    }
  }

  lemma MoveTableFree(fl: seq<Cluster>, busy: map<nat, nat>, table: Cluster)
    requires FreeBusyApart(fl, busy) && ApartFromFree(fl, table)
    ensures FreeBusyApart(fl, busy[table.start := table.size])
  {
    var busy' := busy[table.start := table.size];
    forall b | b in busy'
      ensures ApartFromFree(fl, Region(busy', b))
    {
      assert b != table.start ==> Region(busy', b) == Region(busy, b);
    }
  }

  lemma BoundedApart(fl: seq<Cluster>, t: nat, blocks: nat)
    requires FreeBounded(fl, t)
    ensures ApartFromFree(fl, Cluster(t, blocks))
  {
  }

  lemma FreeBelowIsBounded(fl: seq<Cluster>, top: nat)
    requires IsOrdered(fl) && forall x :: IsFree(fl, x) ==> x < top
    ensures FreeBounded(fl, top)
  {
    forall k | 0 <= k < |fl|
      ensures fl[k].start + fl[k].size <= top
    {
      if fl[k].size > 0 {
        assert Has(fl[k], fl[k].start + fl[k].size - 1);
        assert IsFree(fl, fl[k].start + fl[k].size - 1);
      }
    }
  }

  const FINAL_FREE_BLOCKS := 8
  const INFO_BYTES := 12
  const HEAP_ENTRIES := 1024

  /** The whole blocks that a table of `entries` entries occupies. */
  function TableBlocks(entries: nat): nat {
    (entries * INFO_BYTES + BLOCKSIZE - 1) / BLOCKSIZE
  }

  /** Region `c` is held by nobody. */
  ghost predicate Unheld(fl: seq<Cluster>, busy: map<nat, nat>, table: Cluster, c: Cluster) {
    ApartFromFree(fl, c) && ApartFromBusy(busy, c) && Apart(table, c)
  }

  lemma LastThroughSentinel(info: seq<Info>, fl: seq<Cluster>)
    requires IsOrdered(fl) && Rep(info, fl)
    ensures |fl| > 0 && |info| > 0 && info[0].Free?
    ensures var last := fl[|fl| - 1];
            info[0].prev == last.start && last.start < |info| && info[last.start].Free? && info[last.start].size == last.size
  {
    assert Linked(info, fl, 0) && Linked(info, fl, |fl| - 1);
  }

  lemma LastIsFree(fl: seq<Cluster>, top: nat)
    requires IsRing(fl) && top > 0 && fl[|fl| - 1].start + fl[|fl| - 1].size == top
    ensures |fl| > 1 && forall x :: fl[|fl| - 1].start <= x < top ==> IsFree(fl, x)
  {
    AllFree(fl, |fl| - 1);
  }

  /** The table's old blocks may have joined the last cluster, but it still ends at `top` and has not shrunk. */
  lemma LastStillEndsAt(fl: seq<Cluster>, fl': seq<Cluster>, top: nat)
    requires IsRing(fl) && IsRing(fl') && |fl| > 1 && fl[|fl| - 1].start + fl[|fl| - 1].size == top
    requires FreeBounded(fl', top) && forall x :: IsFree(fl, x) ==> IsFree(fl', x)
    ensures |fl'| > 1
    ensures fl'[|fl'| - 1].start + fl'[|fl'| - 1].size == top && fl'[|fl'| - 1].size >= fl[|fl| - 1].size
  {
    NonemptyRing(fl);
    assert IsFree(fl', top - 1);
    NothingAfterLast(fl', top - 1);
    GapBeforeLast(fl');
    AllFree(fl, |fl| - 1);
  }

  /** The fresh blocks `[top, top + extra)` join the last free cluster. */
  lemma SoundExtend(info: seq<Info>, fl: seq<Cluster>, busy: map<nat, nat>, table: Cluster, brk: nat, top: nat, extra: nat)
    requires Sound(info, fl, busy, table, brk) && |fl| > 1 && extra > 0
    requires fl[|fl| - 1].start + fl[|fl| - 1].size == top && top + extra <= brk && top + extra <= |info|
    requires Unheld(fl, busy, table, Cluster(top, extra))
    ensures Linked(info, fl, |fl| - 1)
    ensures var info' := SetSize(info, fl[|fl| - 1].start, fl[|fl| - 1].size + extra);
            && Sound(info', Grown(fl, |fl| - 1, extra), busy, table, brk)
            && BusyEntriesKept(info, info', busy)
  {
    hide IsOrdered, FreeBusyApart, ApartFromFree, BusyApart, FreeBounded;
    var k := |fl| - 1;
    var c := Cluster(top, extra);
    RepResize(info, fl, k, fl[k].size + extra);
    SetSizeKeepsBusy(info, fl, busy, brk, k, fl[k].size + extra);
    assert FreeBusyApart(Grown(fl, k, extra), busy) by { GrownApartFresh(fl, busy, k, c); }
    assert ApartFromFree(Grown(fl, k, extra), table) by { ApartFromGrown(fl, k, c, table); }
    BoundedGrown(fl, k, c, brk);
    BoundedGrown(fl, k, c, |info|);
  }

  lemma GrownApartFresh(fl: seq<Cluster>, busy: map<nat, nat>, k: nat, c: Cluster)
    requires FreeBusyApart(fl, busy) && ApartFromBusy(busy, c) && c.size > 0
    requires forall b :: b in busy ==> busy[b] > 0
    requires k < |fl| && fl[k].start + fl[k].size == c.start
    ensures FreeBusyApart(Grown(fl, k, c.size), busy)
  {
    forall b | b in busy
      ensures ApartFromFree(Grown(fl, k, c.size), Region(busy, b))
    {
      ApartFromGrown(fl, k, c, Region(busy, b));
    }
  }

  lemma RingAfterExtend(fl: seq<Cluster>, extra: nat)
    requires IsRing(fl) && |fl| > 1
    ensures IsRing(Grown(fl, |fl| - 1, extra))
  {
    var fl' := Grown(fl, |fl| - 1, extra);
    forall i, j | 0 <= i < j < |fl'|
      ensures fl'[i].start + fl'[i].size < fl'[j].start
    {
      assert fl[i].start + fl[i].size < fl[j].start;
    }
  }

  lemma IndexStaysOnRing(fl: seq<Cluster>, k: nat, extra: nat, i: nat)
    requires OnRing(fl, i) && k < |fl|
    ensures OnRing(Grown(fl, k, extra), i)
  {
    var j :| 0 <= j < |fl| && fl[j].start == i;
    assert Grown(fl, k, extra)[j].start == i;
  }

  /** Between two states no block is lost and none counted twice: blocks that were free, the old
      table if it was replaced, and the blocks gained from the system outside the new table are
      now free or belong to the allocated region, never both. */
  ghost predicate Conserved(fl: seq<Cluster>, fl': seq<Cluster>, table: Cluster, table': Cluster, brk: nat, brk': nat, got: Cluster) {
    forall x: int ::
      && !(IsFree(fl', x) && Has(got, x))
      && (IsFree(fl', x) || Has(got, x) <==>
            || IsFree(fl, x)
            || (table' != table && Has(table, x))
            || (brk <= x < brk' && (table' != table ==> !Has(table', x))))
  }

  /** The same when cluster `freed` was given up first. */
  ghost predicate Reconserved(fl: seq<Cluster>, freed: Cluster, fl': seq<Cluster>, table: Cluster, table': Cluster, brk: nat, brk': nat, got: Cluster) {
    forall x: int ::
      && !(IsFree(fl', x) && Has(got, x))
      && (IsFree(fl', x) || Has(got, x) <==>
            || IsFree(fl, x)
            || Has(freed, x)
            || (table' != table && Has(table, x))
            || (brk <= x < brk' && (table' != table ==> !Has(table', x))))
  }

  lemma ConservedAfterFree(fl: seq<Cluster>, freed: Cluster, mid: seq<Cluster>, fl': seq<Cluster>,
      table: Cluster, table': Cluster, brk: nat, brk': nat, got: Cluster)
    requires forall x :: IsFree(mid, x) <==> IsFree(fl, x) || Has(freed, x)
    requires Conserved(mid, fl', table, table', brk, brk', got)
    ensures Reconserved(fl, freed, fl', table, table', brk, brk', got)
  {
    hide IsFree, Has;
  }

  lemma ConservedFresh(fl: seq<Cluster>, fl': seq<Cluster>, table: Cluster, table': Cluster, brk: nat, brk': nat, n: nat)
    requires forall x :: IsFree(fl', x) <==> IsFree(fl, x) || (table' != table && Has(table, x))
    requires FreeBounded(fl', brk)
    requires if table' == table then brk' == brk + n else table'.start == brk + n && table'.start + table'.size == brk'
    ensures Conserved(fl, fl', table, table', brk, brk', Cluster(brk, n))
  {
    FreeBelowBreak(fl', brk);
  }

  lemma ConservedTake(fl: seq<Cluster>, mid: seq<Cluster>, table: Cluster, table': Cluster, brk: nat, brk': nat, k: nat, n: nat)
    requires forall x :: IsFree(mid, x) <==>
               || IsFree(fl, x)
               || (table' != table && Has(table, x))
               || (brk <= x < brk' && (table' != table ==> !Has(table', x)))
    requires IsOrdered(mid) && 0 < k < |mid| && 0 < n <= mid[k].size
    ensures Conserved(fl, Taken(mid, k, n), table, table', brk, brk', Cluster(mid[k].start, n))
  {
    var got := Cluster(mid[k].start, n);
    forall x: int
      ensures !(IsFree(Taken(mid, k, n), x) && Has(got, x))
      ensures IsFree(Taken(mid, k, n), x) || Has(got, x) <==> IsFree(mid, x)
    {
      FreeAfterTake(mid, k, n, x);
    }
  }

  lemma FreeAfterTake(fl: seq<Cluster>, k: nat, n: nat, x: int)
    requires IsOrdered(fl) && 0 < k < |fl| && 0 < n <= fl[k].size
    ensures IsFree(Taken(fl, k, n), x) <==> IsFree(fl, x) && !Has(Cluster(fl[k].start, n), x)
    ensures Has(Cluster(fl[k].start, n), x) ==> IsFree(fl, x)
  {
    assert Has(fl[k], x) ==> IsFree(fl, x);
    if n < fl[k].size {
      FreeAfterReplace(fl, k, Cluster(fl[k].start + n, fl[k].size - n), x);
    } else {
      FreeAfterRemove(fl, k, x);
    }
  }

  lemma StartsAllDiffer(fl: seq<Cluster>, h: nat)
    requires IsOrdered(fl) && h < |fl|
    ensures forall j :: 0 <= j < |fl| && fl[j].start == fl[h].start ==> j == h
  {
    forall j | 0 <= j < |fl| && fl[j].start == fl[h].start
      ensures j == h
    {
      StartsDiffer(fl, j, h);
    }
  }

  /** The `n` blocks from `at` on are free once `freed` is. */
  ghost predicate FreeRun(fl: seq<Cluster>, freed: Cluster, at: int, n: int) {
    forall x :: at <= x < at + n ==> IsFree(fl, x) || Has(freed, x)
  }

  /** Blocks in a row that are free belong to one cluster. */
  lemma RunInCluster(fl: seq<Cluster>, at: int, n: nat) returns (k: nat)
    requires IsRing(fl) && n > 0 && forall x :: at <= x < at + n ==> IsFree(fl, x)
    ensures k < |fl| && fl[k].size >= n && fl[k].start <= at && at + n <= fl[k].start + fl[k].size
  {
    assert IsFree(fl, at);
    k :| 0 <= k < |fl| && Has(fl[k], at);
    if fl[k].start + fl[k].size < at + n {
      EndsNotFree(fl, k);
    }
  }

  lemma EndsNotFree(fl: seq<Cluster>, k: nat)
    requires IsRing(fl) && 0 < k < |fl|
    ensures !IsFree(fl, fl[k].start - 1) && !IsFree(fl, fl[k].start + fl[k].size)
  {
    forall j | 0 <= j < |fl|
      ensures !Has(fl[j], fl[k].start - 1) && !Has(fl[j], fl[k].start + fl[k].size)
    {
    }
  }

  lemma RoomIsSeen(fl: seq<Cluster>, freed: Cluster, mid: seq<Cluster>, n: nat)
    requires IsRing(mid) && n > 0 && forall x :: IsFree(mid, x) <==> IsFree(fl, x) || Has(freed, x)
    ensures forall at: int :: FreeRun(fl, freed, at, n) ==> exists k :: 0 <= k < |mid| && mid[k].size >= n
  {
    forall at: int | FreeRun(fl, freed, at, n)
      ensures exists k :: 0 <= k < |mid| && mid[k].size >= n
    {
      var k := RunInCluster(mid, at, n);
    }
  }

  /** The cluster around `block` is long and ends at the break. */
  lemma TrimWhen(fl: seq<Cluster>, q: nat, block: nat, brk: nat)
    requires IsRing(fl) && 0 < q < |fl| && fl[q].start <= block < fl[q].start + fl[q].size <= brk
    ensures fl[q].size >= FINAL_FREE_BLOCKS && fl[q].start + fl[q].size == brk
            <==> (forall x :: brk - 8 <= x < brk ==> IsFree(fl, x)) && (forall x :: block <= x < brk ==> IsFree(fl, x))
  {
    EndsNotFree(fl, q);
    if fl[q].start + fl[q].size < brk {
      assert block <= fl[q].start + fl[q].size;
    } else if fl[q].size < 8 {
      assert brk - 8 <= fl[q].start - 1 < brk;
    } else {
      assert forall x :: fl[q].start <= x < brk ==> Has(fl[q], x);
    }
  }

  lemma LargerTable(a: nat, b: nat)
    requires a <= b
    ensures TableBlocks(a) <= TableBlocks(b)
  {
  }

  /** Fewer blocks need no more memory, the table included. */
  lemma MoreIsAmple(entries: nat, brk: nat, n: nat, m: nat)
    requires n <= m
    ensures n + (if brk + n <= entries then 0 else TableBlocks(2 * (brk + n))) <= m + if brk + m <= entries then 0 else TableBlocks(2 * (brk + m))
  {
    LargerTable(2 * (brk + n), 2 * (brk + m));
  }

  lemma SoundClaim(info: seq<Info>, fl: seq<Cluster>, busy: map<nat, nat>, table: Cluster, brk: nat, r: nat, n: nat)
    requires Sound(info, fl, busy, table, brk) && r > 0 && n > 0 && r + n <= brk && r + n <= |info|
    requires Unheld(fl, busy, table, Cluster(r, n)) && FreeBounded(fl, r)
    ensures r !in busy
    ensures Sound(info[r := Busy(n)], fl, busy[r := n], table, brk)
    ensures BusyEntriesKept(info, info[r := Busy(n)], busy)
  {
    var busy' := busy[r := n];
    forall b | b in busy
      ensures b != r
    {
      assert Apart(Region(busy, b), Cluster(r, n));
    }
    assert Rep(info[r := Busy(n)], fl) by {
      forall k | 0 <= k < |fl|
        ensures fl[k].start != r
      {
        assert Apart(fl[k], Cluster(r, n));
      }
      RepElsewhere(info, fl, r, Busy(n));
    }
    assert FreeBusyApart(fl, busy') by { MoveTableFree(fl, busy, Cluster(r, n)); }
  }

  /** Walking round the ring from `h`, member `j` comes before member `k`. */
  predicate InArc(h: nat, j: nat, k: nat) {
    if h <= k then h <= j < k else h <= j || j < k
  }

  /** Cluster `k` is the first that is large enough, in the order in which they are linked from `at` on. */
  ghost predicate NextFit(fl: seq<Cluster>, at: nat, k: nat, n: nat) {
    && k < |fl| && fl[k].size >= n
    && exists h: nat :: h < |fl| && fl[h].start == at && forall j: nat :: j < |fl| && InArc(h, j, k) ==> fl[j].size < n
  }

  lemma NextFitIs(fl: seq<Cluster>, h: nat, k: nat, n: nat)
    requires IsOrdered(fl) && n > 0 && h < |fl| && k < |fl| && fl[k].size >= n
    requires forall j :: 0 <= j < |fl| && InArc(h, j, k) ==> fl[j].size < n
    ensures forall m: nat :: NextFit(fl, fl[h].start, m, n) ==> m == k
  {
    forall m: nat | NextFit(fl, fl[h].start, m, n)
      ensures m == k
    {
      var g: nat :| g < |fl| && fl[g].start == fl[h].start && forall j: nat :: j < |fl| && InArc(g, j, m) ==> fl[j].size < n;
      StartsDiffer(fl, g, h);
      assert InArc(h, m, k) || InArc(h, k, m) || m == k;
    }
  }

  lemma NextFitHere(fl: seq<Cluster>, k: nat, n: nat)
    requires k < |fl| && fl[k].size >= n
    ensures NextFit(fl, fl[k].start, k, n)
  {
    assert forall j: nat :: !InArc(k, j, k);
  }

  lemma NoneFits(fl: seq<Cluster>, at: nat, n: nat)
    requires forall j :: 0 <= j < |fl| ==> fl[j].size < n
    ensures forall m: nat :: !NextFit(fl, at, m, n)
  {
  }

  lemma LinkedAt(info: seq<Info>, fl: seq<Cluster>, k: nat)
    requires Rep(info, fl) && k < |fl|
    ensures Linked(info, fl, k)
  {
  }

  lemma NextStaysOnRing(fl: seq<Cluster>, k: nat)
    requires 0 < k < |fl|
    ensures OnRing(Remove(fl, k), Next(fl, k))
  {
    var fl' := Remove(fl, k);
    assert fl'[if k + 1 < |fl| then k else 0].start == Next(fl, k);
  }

  lemma RingAfterTake(fl: seq<Cluster>, k: nat, n: nat)
    requires IsRing(fl) && 0 < k < |fl| && 0 < n <= fl[k].size
    ensures IsRing(Taken(fl, k, n))
  {
    var fl' := Taken(fl, k, n);
    if n < fl[k].size {
      forall i, j | 0 <= i < j < |fl'|
        ensures fl'[i].start + fl'[i].size < fl'[j].start
      {
        assert fl[i].start + fl[i].size < fl[j].start;
      }
    } else {
      RingAfterRemove(fl, k);
    }
  }

  /** After the old table is freed the fresh blocks `[r, r + n)` are still held by nobody. */
  lemma StillUnheld(info: seq<Info>, fl: seq<Cluster>, fl': seq<Cluster>, busy: map<nat, nat>,
                    oldTable: Cluster, table: Cluster, brk: nat, r: nat, n: nat)
    requires Sound(info, fl', busy, table, brk)
    requires Unheld(fl, busy, oldTable, Cluster(r, n)) && FreeBounded(fl, r)
    requires oldTable.start + oldTable.size <= r && r + n <= table.start
    requires forall x :: IsFree(fl', x) ==> IsFree(fl, x) || Has(oldTable, x)
    ensures Unheld(fl', busy, table, Cluster(r, n)) && FreeBounded(fl', r)
  {
    FreeBelowBreak(fl, r);
    FreeBelowIsBounded(fl', r);
    BoundedApart(fl', r, n);
  }

  lemma NotTrimmed(fl: seq<Cluster>, c: Cluster, top: nat, brk': nat, brk: nat)
    requires FreeBounded(fl, top) && c.start + c.size <= top < brk
    requires brk' < brk ==> forall x :: brk' <= x < brk ==> IsFree(fl, x) || Has(c, x)
    ensures brk' >= brk
  {
    FreeBelowBreak(fl, top);
    assert !IsFree(fl, brk - 1) && !Has(c, brk - 1);
  }

  lemma TableNonempty(info: seq<Info>, fl: seq<Cluster>, busy: map<nat, nat>, table: Cluster, brk: nat)
    requires Sound(info, fl, busy, table, brk)
    ensures |info| > 0 && 0 < table.start && table.start + table.size <= brk && brk > 0
  {
    assert Linked(info, fl, 0);
  }

  lemma FreshIsUnheld(info: seq<Info>, fl: seq<Cluster>, busy: map<nat, nat>, table: Cluster, brk: nat, n: nat)
    requires Sound(info, fl, busy, table, brk)
    ensures Unheld(fl, busy, table, Cluster(brk, n)) && FreeBounded(fl, brk)
  {
  }

  lemma AllFree(fl: seq<Cluster>, q: nat)
    requires q < |fl|
    ensures forall x :: Has(fl[q], x) ==> IsFree(fl, x)
  {
  }

  lemma NextTouches(fl: seq<Cluster>, q: nat)
    requires IsOrdered(fl) && 0 < q < |fl| && fl[q].start + fl[q].size == Next(fl, q)
    ensures q + 1 < |fl|
  {
  }

  lemma TightAt(fl: seq<Cluster>, q: nat)
    requires IsOrdered(fl) && TightBut(fl, q) && 0 < q < |fl| && fl[q].start + fl[q].size != Next(fl, q)
    ensures TightBut(fl, -1)
  {
  }

  lemma NeighboursOfMerge(info: seq<Info>, fl: seq<Cluster>, q: nat)
    requires IsOrdered(fl) && Rep(info, fl) && 0 < q && q + 1 < |fl|
    ensures fl[q].start != fl[q + 1].start && Next(fl, q + 1) != fl[q].start
    ensures Next(fl, q + 1) < |info| && info[Next(fl, q + 1)].Free?
  {
    var nk := if q + 2 < |fl| then q + 2 else 0;
    StartsDiffer(fl, q, q + 1);
    StartsDiffer(fl, q, nk);
    assert Linked(info, fl, nk);
  }

  lemma NeighboursOfRemove(info: seq<Info>, fl: seq<Cluster>, q: nat)
    requires IsOrdered(fl) && Rep(info, fl) && 0 < q < |fl|
    ensures fl[q].start != Prev(fl, q) && Next(fl, q) != fl[q].start
    ensures Next(fl, q) < |info| && info[Next(fl, q)].Free?
    ensures Prev(fl, q) < |info| && info[Prev(fl, q)].Free?
  {
    var nk := if q + 1 < |fl| then q + 1 else 0;
    StartsDiffer(fl, q, q - 1);
    StartsDiffer(fl, q, nk);
    assert Linked(info, fl, nk) && Linked(info, fl, q - 1);
  }

  lemma FreeBelowBreak(fl: seq<Cluster>, brk: nat)
    requires FreeBounded(fl, brk)
    ensures forall x :: IsFree(fl, x) ==> x < brk
  {
  }

  lemma FreeAfterDrop(fl: seq<Cluster>, q: nat, brk: nat)
    requires IsOrdered(fl) && FreeBounded(fl, brk) && q < |fl| && fl[q].start + fl[q].size == brk
    ensures forall x :: IsFree(Remove(fl, q), x) <==> IsFree(fl, x) && x < fl[q].start
  {
    forall x
      ensures IsFree(Remove(fl, q), x) <==> IsFree(fl, x) && x < fl[q].start
    {
      FreeAfterRemove(fl, q, x);
    }
  }

  lemma NeighboursOfFit(info: seq<Info>, fl: seq<Cluster>, p: nat, c: Cluster)
    requires IsOrdered(fl) && Rep(info, fl) && p < |fl| && Fits(fl, p, c)
    ensures fl[p].start != c.start && Next(fl, p) != c.start
    ensures Next(fl, p) < |info| && info[Next(fl, p)].Free?
  {
    var nk := if p + 1 < |fl| then p + 1 else 0;
    FitsApart(fl, p, c, p);
    FitsApart(fl, p, c, nk);
    assert Linked(info, fl, nk);
  }

  lemma SentinelApart(fl: seq<Cluster>, p: nat, c: Cluster)
    requires IsOrdered(fl) && p < |fl| && Fits(fl, p, c)
    ensures p == 0 ==> fl[p].start + fl[p].size < c.start
  {
  }

  lemma FreeAfterInsertAll(fl: seq<Cluster>, k: nat, c: Cluster)
    requires k < |fl|
    ensures forall x :: IsFree(Insert(fl, k, c), x) <==> IsFree(fl, x) || Has(c, x)
  {
    forall x
      ensures IsFree(Insert(fl, k, c), x) <==> IsFree(fl, x) || Has(c, x)
    {
      FreeAfterInsert(fl, k, c, x);
    }
  }

  /** Rewriting the entry of an allocation makes no difference to the heap. */
  lemma SoundSetEntry(info: seq<Info>, fl: seq<Cluster>, busy: map<nat, nat>, table: Cluster, brk: nat, b: nat, e: Info)
    requires BusyOk(info, busy, brk) && b in busy && BusyEntry(e, busy[b])
    ensures b < |info| && BusyOk(info[b := e], busy, brk)
    ensures Sound(info[b := e], fl, busy, table, brk) <==> Sound(info, fl, busy, table, brk)
  {
    var info' := info[b := e];
    if Sound(info, fl, busy, table, brk) {
      NotAStart(info, fl, busy, brk, b);
      RepElsewhere(info, fl, b, e);
    }
    if Sound(info', fl, busy, table, brk) {
      NotAStart(info', fl, busy, brk, b);
      RepElsewhere(info', fl, b, info[b]);
      assert info'[b := info[b]] == info;
    }
  }

  lemma SoundBusyOk(info: seq<Info>, fl: seq<Cluster>, busy: map<nat, nat>, table: Cluster, brk: nat)
    requires Sound(info, fl, busy, table, brk)
    ensures BusyOk(info, busy, brk) && |fl| > 0
  {
  }

  lemma SoundSplit(info: seq<Info>, fl: seq<Cluster>, busy: map<nat, nat>, table: Cluster, brk: nat, b: nat, n: nat)
    requires Sound(info, fl, busy, table, brk) && b in busy && 0 < n < busy[b]
    ensures b + n < |info| && b + n !in busy
    ensures var info' := info[b + n := Busy(busy[b] - n)][b := Busy(n)];
            && Sound(info', fl, busy[b := n][b + n := busy[b] - n], table, brk)
            && BusyEntriesKept(info, info', busy - {b})
  {
    hide IsOrdered, FreeBusyApart, ApartFromFree, FreeBounded, Rep, BusyApart;
    var info' := info[b + n := Busy(busy[b] - n)][b := Busy(n)];
    var busy' := busy[b := n][b + n := busy[b] - n];
    NotInside(busy, b, n);
    SplitParts(fl, busy, b, n);
    RepElsewhere(info, fl, b + n, Busy(busy[b] - n));
    RepElsewhere(info[b + n := Busy(busy[b] - n)], fl, b, Busy(n));
    assert BusyApart(busy') by { SplitBusyApart(busy, b, n); }
  }

  lemma NotInside(busy: map<nat, nat>, b: nat, n: nat)
    requires BusyApart(busy) && b in busy && 0 < n < busy[b] && forall c :: c in busy ==> busy[c] > 0
    ensures b + n !in busy
  {
    forall c | c in busy
      ensures c != b + n
    {
      assert c != b ==> Apart(Region(busy, b), Region(busy, c));
    }
  }

  lemma SplitParts(fl: seq<Cluster>, busy: map<nat, nat>, b: nat, n: nat)
    requires IsOrdered(fl) && FreeBusyApart(fl, busy) && b in busy && b > 0 && 0 < n < busy[b]
    ensures FreeBusyApart(fl, busy[b := n][b + n := busy[b] - n])
    ensures forall k :: 0 <= k < |fl| ==> fl[k].start != b && fl[k].start != b + n
  {
    var busy' := busy[b := n][b + n := busy[b] - n];
    assert ApartFromFree(fl, Region(busy, b));
    forall c | c in busy'
      ensures ApartFromFree(fl, Region(busy', c))
    {
      if c != b && c != b + n {
        assert ApartFromFree(fl, Region(busy, c));
      }
    }
    forall k | 0 <= k < |fl|
      ensures fl[k].start != b && fl[k].start != b + n
    {
      PickFree(fl, Region(busy, b), k);
    }
  }

  lemma SplitBusyApart(busy: map<nat, nat>, b: nat, n: nat)
    requires BusyApart(busy) && b in busy && 0 < n < busy[b] && b + n !in busy
    ensures BusyApart(busy[b := n][b + n := busy[b] - n])
  {
    var busy' := busy[b := n][b + n := busy[b] - n];
    forall a, c | a in busy' && c in busy' && a != c
      ensures Apart(Region(busy', a), Region(busy', c))
    {
      var a0 := if a == b + n then b else a;
      var c0 := if c == b + n then b else c;
      assert a0 != c0 ==> Apart(Region(busy, a0), Region(busy, c0));
    }
  }

  // ----- Undoing a free -----

  lemma FreedDisjoint(info: seq<Info>, fl: seq<Cluster>, busy: map<nat, nat>, table: Cluster, brk: nat, block: nat)
    requires Sound(info, fl, busy, table, brk) && block in busy
    ensures forall x :: IsFree(fl, x) ==> !Has(Region(busy, block), x)
    ensures forall x :: IsFree(fl, x) || Has(Region(busy, block), x) ==> x < brk
  {
    assert ApartFromFree(fl, Region(busy, block));
    FreeBelowBreak(fl, brk);
  }

  lemma BusyEntryIs(info: seq<Info>, fl: seq<Cluster>, busy: map<nat, nat>, table: Cluster, brk: nat, block: nat)
    requires Sound(info, fl, busy, table, brk) && block in busy
    ensures block < |info| && BusyEntry(info[block], busy[block]) && busy[block] > 0
  {
  }

  lemma BusyNotFree(info: seq<Info>, fl: seq<Cluster>, busy: map<nat, nat>, table: Cluster, brk: nat, block: nat)
    requires Sound(info, fl, busy, table, brk) && block in busy
    ensures !IsFree(fl, block) && block + busy[block] <= brk && busy[block] > 0
  {
    FreedDisjoint(info, fl, busy, table, brk, block);
    assert Has(Region(busy, block), block);
  }

  lemma TakenBack(fl: seq<Cluster>, q: nat, blocks: nat, F: seq<Cluster>)
    requires IsRing(fl) && IsRing(F) && q < |fl| && 0 < blocks <= fl[q].size
    requires forall x :: IsFree(fl, x) <==> IsFree(F, x) || Has(Cluster(fl[q].start, blocks), x)
    requires forall x :: IsFree(F, x) ==> !Has(Cluster(fl[q].start, blocks), x)
    ensures Taken(fl, q, blocks) == F
  {
    RingIsOrdered(fl);
    RingAfterTake(fl, q, blocks);
    forall x
      ensures IsFree(Taken(fl, q, blocks), x) <==> IsFree(F, x)
    {
      FreeAfterTake(fl, q, blocks, x);
    }
    FreeBlocksDetermineRing(Taken(fl, q, blocks), F);
  }

  lemma SplitBehind(fl: seq<Cluster>, q: nat, behind: nat, blocks: nat)
    requires IsRing(fl) && q < |fl| && 0 < behind && 0 < blocks && behind + blocks <= fl[q].size
    ensures 0 < q
    ensures var fl2 := Taken(fl, q, behind);
            && q < |fl2| && IsRing(fl2)
            && fl2[q].start == fl[q].start + behind && blocks <= fl2[q].size
  {
    RingAfterTake(fl, q, behind);
  }

  lemma RolledBack(fl1: seq<Cluster>, fl2: seq<Cluster>, fl3: seq<Cluster>, fl4: seq<Cluster>,
                   q: nat, behind: nat, blocks: nat, F: seq<Cluster>, brk: nat)
    requires IsRing(fl1) && IsRing(fl4) && IsRing(F) && q < |fl1|
    requires 0 < behind && 0 < blocks && behind + blocks <= fl1[q].size
    requires FreeBounded(fl1, brk)
    requires fl2 == Taken(fl1, q, behind) && q < |fl2| && blocks <= fl2[q].size && fl3 == Taken(fl2, q, blocks)
    requires var c := fl1[q].start;
             && (forall x :: IsFree(fl4, x) <==> (IsFree(fl3, x) || Has(Cluster(c, behind), x)) && x < brk)
             && (forall x :: IsFree(fl1, x) <==> IsFree(F, x) || Has(Cluster(c + behind, blocks), x))
             && (forall x :: IsFree(F, x) ==> !Has(Cluster(c + behind, blocks), x))
    ensures fl4 == F
  {
    SplitBehind(fl1, q, behind, blocks);
    RingIsOrdered(fl1);
    RingIsOrdered(fl2);
    FreeBelowBreak(fl1, brk);
    forall x
      ensures IsFree(fl4, x) <==> IsFree(F, x)
    {
      FreeAfterTake(fl1, q, behind, x);
      FreeAfterTake(fl2, q, blocks, x);
    }
    FreeBlocksDetermineRing(fl4, F);
  }

  /** Read off the table alone: `i` is free and below `block`, and the entry it links to is
      beyond `block` or is the sentinel again. */
  predicate PrecedesFreed(info: seq<Info>, i: nat, block: nat) {
    i < block && i < |info| && info[i].Free? && (info[i].next == 0 || block < info[i].next)
  }

  // ----- Whose the blocks are -----

  /** The block is the heap's: free, allocated or the table's. */
  ghost predicate Owned(fl: seq<Cluster>, busy: map<nat, nat>, table: Cluster, x: int) {
    IsFree(fl, x) || Has(table, x) || InBusy(busy, x)
  }

  ghost predicate InBusy(busy: map<nat, nat>, x: int) {
    exists b :: b in busy && Has(Region(busy, b), x)
  }

  /** The heap has kept all its blocks but those above the break, which it has given back, and has all those that the
      break has moved over. */
  ghost predicate Balanced(fl: seq<Cluster>, busy: map<nat, nat>, table: Cluster, brk: nat,
                           fl': seq<Cluster>, busy': map<nat, nat>, table': Cluster, brk': nat) {
    && (forall x: int :: Owned(fl', busy', table', x) <==> x < brk' && (Owned(fl, busy, table, x) || brk <= x))
    && (forall x: int :: brk' <= x < brk ==> Owned(fl, busy, table, x))
  }

  lemma OwnedBelowBreak(info: seq<Info>, fl: seq<Cluster>, busy: map<nat, nat>, table: Cluster, brk: nat, x: int)
    requires Sound(info, fl, busy, table, brk) && Owned(fl, busy, table, x)
    ensures x < brk
  {
    FreeBelowBreak(fl, brk);
  }

  lemma BalancedSame(info: seq<Info>, fl: seq<Cluster>, busy: map<nat, nat>, table: Cluster, brk: nat)
    requires Sound(info, fl, busy, table, brk)
    ensures Balanced(fl, busy, table, brk, fl, busy, table, brk)
  {
    hide Sound, Owned;
    forall x: int
      ensures Owned(fl, busy, table, x) ==> x < brk
    {
      if Owned(fl, busy, table, x) {
        OwnedBelowBreak(info, fl, busy, table, brk, x);
      }
    }
  }

  lemma BalancedTwice(fl: seq<Cluster>, busy: map<nat, nat>, table: Cluster, brk: nat,
                      fl1: seq<Cluster>, busy1: map<nat, nat>, table1: Cluster, brk1: nat,
                      fl2: seq<Cluster>, busy2: map<nat, nat>, table2: Cluster, brk2: nat)
    requires Balanced(fl, busy, table, brk, fl1, busy1, table1, brk1) && Balanced(fl1, busy1, table1, brk1, fl2, busy2, table2, brk2)
    ensures Balanced(fl, busy, table, brk, fl2, busy2, table2, brk2)
  {
    hide Owned;
  }

  lemma BalancedFree(info': seq<Info>, fl: seq<Cluster>, busy: map<nat, nat>, table: Cluster, brk: nat, block: nat, fl': seq<Cluster>, brk': nat)
    requires block in busy && Sound(info', fl', busy - {block}, table, brk') && brk' <= brk
    requires forall x :: IsFree(fl', x) <==> (IsFree(fl, x) || Has(Region(busy, block), x)) && x < brk'
    requires brk' < brk ==> forall x :: brk' <= x < brk ==> IsFree(fl, x) || Has(Region(busy, block), x)
    requires forall x :: Owned(fl, busy, table, x) ==> x < brk
    ensures Balanced(fl, busy, table, brk, fl', busy - {block}, table, brk')
  {
    hide IsFree, Has, Sound;
    forall x: int
      ensures Owned(fl', busy - {block}, table, x) <==> x < brk' && (Owned(fl, busy, table, x) || brk <= x)
    {
      WithoutRegion(busy, block, x);
      if Owned(fl', busy - {block}, table, x) {
        OwnedBelowBreak(info', fl', busy - {block}, table, brk', x);
      }
    }
    forall x: int | brk' <= x < brk
      ensures Owned(fl, busy, table, x)
    {
      WithoutRegion(busy, block, x);
    }
  }

  lemma WithoutRegion(busy: map<nat, nat>, block: nat, x: int)
    requires block in busy
    ensures InBusy(busy, x) <==> InBusy(busy - {block}, x) || Has(Region(busy, block), x)
  {
    var busy' := busy - {block};
    if InBusy(busy, x) {
      var b :| b in busy && Has(Region(busy, b), x);
      assert b != block ==> b in busy' && Has(Region(busy', b), x);
    }
    if InBusy(busy', x) {
      var b :| b in busy' && Has(Region(busy', b), x);
      assert Has(Region(busy, b), x);
    }
  }

  /** What an allocation promises is enough. */
  lemma BalancedAlloc(info: seq<Info>, info': seq<Info>, fl: seq<Cluster>, busy: map<nat, nat>, table: Cluster, brk: nat,
                      fl': seq<Cluster>, table': Cluster, brk': nat, block: nat, n: nat)
    requires block !in busy && brk <= brk' && Sound(info', fl', busy[block := n], table', brk')
    requires Conserved(fl, fl', table, table', brk, brk', Cluster(block, n)) && (table' == table || brk <= table'.start)
    requires Sound(info, fl, busy, table, brk)
    ensures Balanced(fl, busy, table, brk, fl', busy[block := n], table', brk')
  {
    hide IsFree, Sound, InBusy;
    AllOwnedBelow(info, fl, busy, table, brk);
    var busy' := busy[block := n];
    assert busy' - {block} == busy && Region(busy', block) == Cluster(block, n);
    forall x: int
      ensures Owned(fl', busy', table', x) <==> x < brk' && (Owned(fl, busy, table, x) || brk <= x)
    {
      WithoutRegion(busy', block, x);
      if Owned(fl', busy', table', x) {
        OwnedBelowBreak(info', fl', busy', table', brk', x);
      }
    }
  }

  /** An allocation is cut in two. */
  lemma BalancedSplit(fl: seq<Cluster>, busy: map<nat, nat>, table: Cluster, brk: nat, block: nat, n: nat, info: seq<Info>)
    requires Sound(info, fl, busy, table, brk) && block in busy && 0 < n < busy[block]
    ensures Balanced(fl, busy, table, brk, fl, busy[block := n][block + n := busy[block] - n], table, brk)
  {
    AllOwnedBelow(info, fl, busy, table, brk);
    NotInside(busy, block, n);
    hide Sound, IsFree;
    var busy' := busy[block := n][block + n := busy[block] - n];
    forall x: int
      ensures Owned(fl, busy', table, x) <==> Owned(fl, busy, table, x)
    {
      assert busy' - {block} - {block + n} == busy - {block};
      WithoutRegion(busy, block, x);
      WithoutRegion(busy', block, x);
      WithoutRegion(busy' - {block}, block + n, x);
      assert Region(busy', block) == Cluster(block, n) && Region(busy' - {block}, block + n) == Cluster(block + n, busy[block] - n);
    }
  }

  lemma AllOwnedBelow(info: seq<Info>, fl: seq<Cluster>, busy: map<nat, nat>, table: Cluster, brk: nat)
    requires Sound(info, fl, busy, table, brk)
    ensures forall x :: Owned(fl, busy, table, x) ==> x < brk
  {
    hide Owned, Sound;
    forall x | Owned(fl, busy, table, x)
      ensures x < brk
    {
      OwnedBelowBreak(info, fl, busy, table, brk, x);
    }
  }

  // ----- A request for no blocks -----

  /** The table after malloc.c:223-248 has taken zero blocks from entry `h`. The type and the size of an allocation are
      the words that hold size and `next` of a free cluster, and `prev` is not written. */
  function TakenNothing(info: seq<Info>, h: nat): (r: seq<Info>)
    requires h < |info| && info[h].Free?
    requires info[h].next < |info| && info[info[h].next].Free? && info[h].prev < |info| && info[info[h].prev].Free?
    ensures |r| == |info|
  {
    var linked := if info[h].size > 0 then SetNext(SetPrev(info, info[h].next, h), info[h].prev, h)
                  else SetNext(SetPrev(info, info[h].next, info[h].prev), info[h].prev, info[h].next);
    linked[h := Free(0, 0, linked[h].prev)]
  }

  /** Some ring is threaded through the table. */
  ghost predicate HasRing(info: seq<Info>) {
    exists fl :: IsRing(fl) && Rep(info, fl)
  }

  /** Following `next` from the sentinel, a ring would have to be the old one up to the entry that was overwritten. */
  lemma {:induction false} SamePrefix(info': seq<Info>, fl: seq<Cluster>, fl': seq<Cluster>, k: nat)
    requires IsOrdered(fl) && IsRing(fl') && Rep(info', fl') && k < |fl|
    requires forall j :: 0 <= j < k ==> fl[j].start < |info'| && info'[fl[j].start].Free? && info'[fl[j].start].next == Next(fl, j)
    ensures k < |fl'| && fl'[k].start == fl[k].start
  {
    if k > 0 {
      SamePrefix(info', fl, fl', k - 1);
      assert Linked(info', fl', k - 1);
      StartsGrow(fl, 0, k);
    }
  }

  /** Taking nothing leaves the table as it was when no cluster is free; otherwise no ring is left. */
  lemma NothingBreaksRing(info: seq<Info>, fl: seq<Cluster>, k: nat)
    requires IsRing(fl) && Rep(info, fl) && k < |fl|
    ensures Linked(info, fl, k) && fl[k].start < |info| && info[fl[k].start].Free?
    ensures Next(fl, k) < |info| && info[Next(fl, k)].Free? && Prev(fl, k) < |info| && info[Prev(fl, k)].Free?
    ensures fl[k].size > 0 <==> k > 0
    ensures |fl| > 1 ==> Next(fl, k) != fl[k].start && Prev(fl, k) != fl[k].start
    ensures HasRing(TakenNothing(info, fl[k].start)) <==> |fl| == 1
    ensures |fl| == 1 ==> TakenNothing(info, fl[k].start) == info
  {
    RingIsOrdered(fl);
    NeighboursLinked(info, fl, k);
    var h := fl[k].start;
    var info' := TakenNothing(info, h);
    if |fl| == 1 {
      assert info' == info;
    } else {
      StartsAllDiffer(fl, k);
      forall fl': seq<Cluster> | IsRing(fl') && Rep(info', fl')
        ensures false
      {
        if k > 0 {
          NextBefore(info, fl, k);
          SamePrefix(info', fl, fl', k);
          EmptyNotLinked(info', fl', k);
        } else {
          SentinelUnlinked(info, fl);
          SentinelAlone(info', fl');
        }
      }
    }
  }

  /** The entries before the one that was overwritten still lead there. */
  lemma NextBefore(info: seq<Info>, fl: seq<Cluster>, k: nat)
    requires IsRing(fl) && IsOrdered(fl) && Rep(info, fl) && 0 < k < |fl|
    ensures Linked(info, fl, k) && Next(fl, k) < |info| && info[Next(fl, k)].Free? && Prev(fl, k) < |info| && info[Prev(fl, k)].Free?
    ensures var info' := TakenNothing(info, fl[k].start);
            forall j :: 0 <= j < k ==> fl[j].start < |info'| && info'[fl[j].start].Free? && info'[fl[j].start].next == Next(fl, j)
    ensures TakenNothing(info, fl[k].start)[fl[k].start] == Free(0, 0, Prev(fl, k))
  {
    NeighboursLinked(info, fl, k);
    StartsAllDiffer(fl, k);
    var info' := TakenNothing(info, fl[k].start);
    forall j | 0 <= j < k
      ensures fl[j].start < |info'| && info'[fl[j].start].Free? && info'[fl[j].start].next == Next(fl, j)
    {
      assert Linked(info, fl, j);
      StartsDiffer(fl, j, k);
      NextElsewhere(fl, j, k);
    }
  }

  lemma SentinelUnlinked(info: seq<Info>, fl: seq<Cluster>)
    requires IsRing(fl) && IsOrdered(fl) && Rep(info, fl) && |fl| > 1
    ensures Linked(info, fl, 0) && Next(fl, 0) < |info| && info[Next(fl, 0)].Free? && Prev(fl, 0) < |info| && info[Prev(fl, 0)].Free?
    ensures 0 < |info| && TakenNothing(info, 0)[0] == Free(0, 0, fl[|fl| - 1].start) && fl[|fl| - 1].start > 0
  {
    NeighboursLinked(info, fl, 0);
    StartsGrow(fl, 0, 1);
    StartsGrow(fl, 0, |fl| - 1);
  }

  /** A ring whose sentinel leads to itself goes back to itself as well. */
  lemma SentinelAlone(info: seq<Info>, fl: seq<Cluster>)
    requires IsRing(fl) && Rep(info, fl) && |info| > 0 && info[0].Free? && info[0].next == 0
    ensures info[0].prev == 0
  {
    assert Linked(info, fl, 0);
  }

  lemma EmptyNotLinked(info: seq<Info>, fl: seq<Cluster>, k: nat)
    requires IsRing(fl) && 0 < k < |fl| && fl[k].start < |info| && info[fl[k].start].Free? && info[fl[k].start].size == 0
    ensures !Rep(info, fl)
  {
    assert !Linked(info, fl, k);
  }

  lemma NeighboursLinked(info: seq<Info>, fl: seq<Cluster>, k: nat)
    requires IsRing(fl) && Rep(info, fl) && k < |fl|
    ensures Linked(info, fl, k) && Next(fl, k) < |info| && info[Next(fl, k)].Free? && Prev(fl, k) < |info| && info[Prev(fl, k)].Free?
  {
    assert Linked(info, fl, if k + 1 < |fl| then k + 1 else 0);
    assert Linked(info, fl, if k == 0 then |fl| - 1 else k - 1);
  }

  lemma NextElsewhere(fl: seq<Cluster>, j: nat, k: nat)
    requires IsOrdered(fl) && j < k < |fl|
    ensures fl[j].start == Prev(fl, k) <==> j == k - 1
    ensures j == k - 1 ==> Next(fl, j) == fl[k].start
  {
    StartsDiffer(fl, j, k - 1);
  }

  /** The allocations are as they were. */
  lemma NothingKeepsBusy(info: seq<Info>, fl: seq<Cluster>, busy: map<nat, nat>, table: Cluster, brk: nat, k: nat)
    requires Sound(info, fl, busy, table, brk) && IsRing(fl) && k < |fl|
    ensures fl[k].start < |info| && info[fl[k].start].Free? && info[fl[k].start] == Free(fl[k].size, Next(fl, k), Prev(fl, k))
    ensures Next(fl, k) < |info| && info[Next(fl, k)].Free? && Prev(fl, k) < |info| && info[Prev(fl, k)].Free?
    ensures fl[k].start !in busy
    ensures var info' := TakenNothing(info, fl[k].start); BusyEntriesKept(info, info', busy) && BusyOk(info', busy, brk)
  {
    NeighboursLinked(info, fl, k);
    var info' := TakenNothing(info, fl[k].start);
    forall b | b in busy
      ensures info'[b] == info[b] && b != fl[k].start
    {
      NotAStart(info, fl, busy, brk, b);
    }
  }

  /** `prev` of an entry, `n` times. */
  function Back(info: seq<Info>, i: nat, n: nat): nat {
    if n == 0 then i
    else
      var j := Back(info, i, n - 1);
      if j < |info| && info[j].Free? then info[j].prev else j
  }

  /** `next` of an entry, `n` times. */
  function Forth(info: seq<Info>, i: nat, n: nat): nat {
    if n == 0 then i
    else
      var j := Forth(info, i, n - 1);
      if j < |info| && info[j].Free? then info[j].next else j
  }

  /** The search of free.c:36-44 for the cluster before `block` comes to an end. */
  ghost predicate SearchEnds(info: seq<Info>, index: nat, block: nat) {
    if index > block then exists n :: Back(info, index, n) <= block
    else exists n :: n > 0 && (Forth(info, index, n) == 0 || Forth(info, index, n) >= block)
  }

  /** Where `_heapindex` is after zero blocks were taken from member `k`. */
  function IndexAfterNothing(fl: seq<Cluster>, k: nat): nat
    requires k < |fl|
  {
    if k > 0 then fl[k].start else Next(fl, 0)
  }

  /** Without the sentinel the free clusters are a ring of their own. */
  predicate LeadsBack(info: seq<Info>, fl: seq<Cluster>, i: nat)
    requires 0 < i < |fl|
  {
    && fl[i].start < |info| && info[fl[i].start].Free?
    && info[fl[i].start].prev == (if i > 1 then fl[i - 1].start else fl[|fl| - 1].start)
  }

  predicate LeadsForth(info: seq<Info>, fl: seq<Cluster>, i: nat)
    requires 0 < i < |fl|
  {
    && fl[i].start < |info| && info[fl[i].start].Free?
    && info[fl[i].start].next == (if i < |fl| - 1 then fl[i + 1].start else fl[1].start)
  }

  /** With the ring lost, freeing a cluster still comes to an end if and only if it was not the sentinel that was
      overwritten, or the freed cluster lies between free ones. */
  lemma SearchAfterNothing(info: seq<Info>, fl: seq<Cluster>, k: nat, block: nat)
    requires IsRing(fl) && Rep(info, fl) && k < |fl| && |fl| > 1 && block > 0
    requires forall j :: 0 <= j < |fl| ==> fl[j].start != block
    ensures Linked(info, fl, k) && fl[k].start < |info| && info[fl[k].start].Free?
    ensures Next(fl, k) < |info| && info[Next(fl, k)].Free? && Prev(fl, k) < |info| && info[Prev(fl, k)].Free?
    ensures SearchEnds(TakenNothing(info, fl[k].start), IndexAfterNothing(fl, k), block)
            <==> k > 0 || fl[1].start < block < fl[|fl| - 1].start
  {
    hide TakenNothing, SearchEnds;
    RingIsOrdered(fl);
    NeighboursLinked(info, fl, k);
    if k > 0 {
      SearchPastSentinel(info, fl, k, block);
    } else {
      SearchPastNothing(info, fl, block);
    }
  }

  /** The sentinel is still linked. */
  lemma SearchPastSentinel(info: seq<Info>, fl: seq<Cluster>, k: nat, block: nat)
    requires IsRing(fl) && Rep(info, fl) && 0 < k < |fl| && block > 0 && Linked(info, fl, k)
    requires Next(fl, k) < |info| && info[Next(fl, k)].Free? && Prev(fl, k) < |info| && info[Prev(fl, k)].Free?
    ensures SearchEnds(TakenNothing(info, fl[k].start), fl[k].start, block)
  {
    var info' := TakenNothing(info, fl[k].start);
    RingIsOrdered(fl);
    if fl[k].start > block {
      forall j | 0 < j <= k
        ensures info'[fl[j].start].Free? && info'[fl[j].start].prev == fl[j - 1].start
      {
        PrevAfterNothing(info, fl, k, j);
      }
      BackTo(info', fl, k, 0, k);
    } else {
      NextBefore(info, fl, k);
      assert Forth(info', fl[k].start, 0) == fl[k].start;
      assert Forth(info', fl[k].start, 1) == 0;
    }
  }

  /** The free clusters are a ring without it. */
  lemma SearchPastNothing(info: seq<Info>, fl: seq<Cluster>, block: nat)
    requires IsRing(fl) && Rep(info, fl) && |fl| > 1 && block > 0 && Linked(info, fl, 0)
    requires Next(fl, 0) < |info| && info[Next(fl, 0)].Free? && Prev(fl, 0) < |info| && info[Prev(fl, 0)].Free?
    requires forall j :: 0 <= j < |fl| ==> fl[j].start != block
    ensures SearchEnds(TakenNothing(info, fl[0].start), fl[1].start, block) <==> fl[1].start < block < fl[|fl| - 1].start
  {
    hide TakenNothing, Rep;
    var info' := TakenNothing(info, fl[0].start);
    var last := |fl| - 1;
    RingIsOrdered(fl);
    forall j | 0 < j < |fl|
      ensures LeadsForth(info', fl, j) && LeadsBack(info', fl, j)
    {
      RoundWithoutSentinel(info, fl, j);
    }
    if fl[1].start > block {
      forall n: nat
        ensures Back(info', fl[1].start, n) > block
      {
        var j := BackRound(info', fl, n);
        StartsUpFrom(fl, 1, j);
      }
    } else if fl[last].start < block {
      forall n: nat | n > 0
        ensures 0 < Forth(info', fl[1].start, n) < block
      {
        var j := ForthRound(info', fl, n);
        StartsUpFrom(fl, j, last);
        StartsGrow(fl, 0, j);
      }
    } else {
      ForthTo(info', fl, 1, last);
      assert Forth(info', fl[1].start, last - 1) >= block;
    }
  }

  lemma StartsUpFrom(fl: seq<Cluster>, i: nat, j: nat)
    requires IsOrdered(fl) && i <= j < |fl|
    ensures fl[i].start <= fl[j].start
  {
    if i < j { StartsGrow(fl, i, j); }
  }

  lemma PrevAfterNothing(info: seq<Info>, fl: seq<Cluster>, k: nat, j: nat)
    requires IsRing(fl) && IsOrdered(fl) && Rep(info, fl) && 0 < k < |fl| && 0 < j <= k
    ensures Linked(info, fl, k) && Next(fl, k) < |info| && info[Next(fl, k)].Free? && Prev(fl, k) < |info| && info[Prev(fl, k)].Free?
    ensures var info' := TakenNothing(info, fl[k].start);
            fl[j].start < |info'| && info'[fl[j].start].Free? && info'[fl[j].start].prev == fl[j - 1].start
  {
    NeighboursLinked(info, fl, k);
    assert Linked(info, fl, j);
    StartsDiffer(fl, j, k);
    StartsDiffer(fl, j, if k + 1 < |fl| then k + 1 else 0);
  }

  lemma RoundWithoutSentinel(info: seq<Info>, fl: seq<Cluster>, j: nat)
    requires IsRing(fl) && IsOrdered(fl) && Rep(info, fl) && 0 < j < |fl|
    ensures Linked(info, fl, 0) && Next(fl, 0) < |info| && info[Next(fl, 0)].Free? && Prev(fl, 0) < |info| && info[Prev(fl, 0)].Free?
    ensures 0 < |info| && LeadsForth(TakenNothing(info, 0), fl, j) && LeadsBack(TakenNothing(info, 0), fl, j)
  {
    NeighboursLinked(info, fl, 0);
    assert Linked(info, fl, j);
    StartsDiffer(fl, j, 0);
    StartsDiffer(fl, j, 1);
    StartsDiffer(fl, j, |fl| - 1);
  }

  lemma {:induction false} BackTo(info: seq<Info>, fl: seq<Cluster>, k: nat, n: nat, m: nat)
    requires IsOrdered(fl) && n + m == k < |fl| && Back(info, fl[k].start, n) == fl[m].start
    requires forall j :: 0 < j <= k ==> fl[j].start < |info| && info[fl[j].start].Free? && info[fl[j].start].prev == fl[j - 1].start
    ensures Back(info, fl[k].start, k) == 0
    decreases m
  {
    if m > 0 {
      BackTo(info, fl, k, n + 1, m - 1);
    }
  }

  lemma {:induction false} ForthTo(info: seq<Info>, fl: seq<Cluster>, j: nat, last: nat)
    requires IsOrdered(fl) && 0 < j <= last == |fl| - 1 && Forth(info, fl[1].start, j - 1) == fl[j].start
    requires forall i :: 0 < i < |fl| ==> LeadsForth(info, fl, i)
    ensures Forth(info, fl[1].start, last - 1) == fl[last].start
    decreases last - j
  {
    if j < last {
      assert LeadsForth(info, fl, j);
      ForthTo(info, fl, j + 1, last);
    }
  }

  lemma {:induction false} BackRound(info: seq<Info>, fl: seq<Cluster>, n: nat) returns (j: nat)
    requires |fl| > 1
    requires forall i :: 0 < i < |fl| ==> LeadsBack(info, fl, i)
    ensures 0 < j < |fl| && Back(info, fl[1].start, n) == fl[j].start
  {
    if n == 0 {
      j := 1;
    } else {
      var i := BackRound(info, fl, n - 1);
      assert LeadsBack(info, fl, i);
      j := if i > 1 then i - 1 else |fl| - 1;
    }
  }

  lemma {:induction false} ForthRound(info: seq<Info>, fl: seq<Cluster>, n: nat) returns (j: nat)
    requires |fl| > 1
    requires forall i :: 0 < i < |fl| ==> LeadsForth(info, fl, i)
    ensures 0 < j < |fl| && Forth(info, fl[1].start, n) == fl[j].start
  {
    if n == 0 {
      j := 1;
    } else {
      var i := ForthRound(info, fl, n - 1);
      assert LeadsForth(info, fl, i);
      j := if i < |fl| - 1 then i + 1 else 1;
    }
  }

  /** The heap after one block was allocated and freed, with the next search beginning at either entry: a request for
      no blocks loses the ring. */
  lemma RingIsLost(info: seq<Info>)
    requires |info| == HEAP_ENTRIES && info[0] == Free(0, 4, 4) && info[4] == Free(1, 0, 0)
    ensures var fl := [Cluster(0, 0), Cluster(4, 1)];
            Sound(info, fl, map[], Cluster(1, 3), 5) && IsRing(fl) && OnRing(fl, 0) && OnRing(fl, 4)
    ensures !HasRing(TakenNothing(info, 0)) && !HasRing(TakenNothing(info, 4))
  {
    var fl := [Cluster(0, 0), Cluster(4, 1)];
    assert Linked(info, fl, 0) && Linked(info, fl, 1);
    assert fl[0].start == 0 && fl[1].start == 4;
    NothingBreaksRing(info, fl, 0);
    NothingBreaksRing(info, fl, 1);
  }

  // ----- Shrinking to no blocks -----

  /** A free cluster ends where `block` begins. */
  ghost predicate Preceded(fl: seq<Cluster>, block: nat) {
    exists p :: 0 <= p < |fl| && fl[p].start + fl[p].size == block
  }

  lemma PrecededByFit(fl: seq<Cluster>, p: nat, c: Cluster)
    requires IsOrdered(fl) && p < |fl| && Fits(fl, p, c)
    ensures Preceded(fl, c.start) <==> fl[p].start + fl[p].size == c.start
  {
    forall q | 0 <= q < |fl|
      ensures fl[q].start + fl[q].size == c.start ==> q == p
    {
      if q < p {
        assert fl[q].start + fl[q].size <= fl[p].start;
      } else if q > p {
        StartsUpFrom(fl, p + 1, q);
      }
    }
  }

  /** An entry of the list may have any size as far as the links go. */
  lemma RepAnySize(info: seq<Info>, fl: seq<Cluster>, k: nat, size: nat)
    requires IsOrdered(fl) && Rep(info, fl) && k < |fl|
    ensures Linked(info, fl, k) && Rep(SetSize(info, fl[k].start, size), fl[k := Cluster(fl[k].start, size)])
  {
    assert Linked(info, fl, k);
    var fl' := fl[k := Cluster(fl[k].start, size)];
    forall m | 0 <= m < |fl'|
      ensures Linked(SetSize(info, fl[k].start, size), fl', m)
    {
      assert Linked(info, fl, m);
      StartsDiffer(fl, k, m);
    }
  }

  /** A list with an empty cluster behind member `p` is no ring, and there is no other. */
  lemma EmptyBreaksRing(info: seq<Info>, fl: seq<Cluster>, p: nat, c: Cluster)
    requires IsOrdered(fl) && p < |fl| && Fits(fl, p, c) && Rep(info, Insert(fl, p, Cluster(c.start, 0)))
    ensures !HasRing(info)
  {
    var list := Insert(fl, p, Cluster(c.start, 0));
    forall fl' | IsRing(fl') && Rep(info, fl')
      ensures false
    {
      OrderedInsert(fl, p, c);
      var ordered := Insert(fl, p, c);
      forall j | 0 <= j < p + 1
        ensures ordered[j].start < |info| && info[ordered[j].start].Free? && info[ordered[j].start].next == Next(ordered, j)
      {
        assert Linked(info, list, j);
      }
      SamePrefix(info, ordered, fl', p + 1);
      assert Linked(info, list, p + 1);
      EmptyNotLinked(info, fl', p + 1);
    }
  }

  /** free.c:52-56 with a size of zero. */
  lemma RepInsertNothing(info: seq<Info>, fl: seq<Cluster>, p: nat, c: Cluster)
    requires IsOrdered(fl) && Rep(info, fl) && p < |fl| && Fits(fl, p, c) && c.start < |info|
    ensures InsertInfo(info, fl, p, c)[c.start].Free?
    ensures Rep(SetSize(InsertInfo(info, fl, p, c), c.start, 0), Insert(fl, p, Cluster(c.start, 0)))
  {
    RepInsert(info, fl, p, c);
    var ordered := Insert(fl, p, c);
    RepAnySize(InsertInfo(info, fl, p, c), ordered, p + 1, 0);
    assert ordered[p + 1 := Cluster(c.start, 0)] == Insert(fl, p, Cluster(c.start, 0));
  }

  /** The blocks of an allocation that is given up without being freed belong to nobody. */
  lemma GivenUp(info: seq<Info>, fl: seq<Cluster>, busy: map<nat, nat>, table: Cluster, brk: nat, block: nat, x: int)
    requires Sound(info, fl, busy, table, brk) && block in busy && Has(Region(busy, block), x)
    ensures x < brk && Owned(fl, busy, table, x) && !Owned(fl, busy - {block}, table, x)
  {
    FreedDisjoint(info, fl, busy, table, brk, block);
    assert ApartFromBusy(busy, table);
    assert Apart(Region(busy, block), table);
    forall b | b in busy - {block}
      ensures !Has(Region(busy - {block}, b), x)
    {
      assert Apart(Region(busy, block), Region(busy, b));
    }
  }

  lemma SoundGiveUp(info: seq<Info>, fl: seq<Cluster>, busy: map<nat, nat>, table: Cluster, brk: nat, block: nat, e: Info)
    requires Sound(info, fl, busy, table, brk) && block in busy
    ensures block < |info| && Sound(info[block := e], fl, busy - {block}, table, brk)
  {
    NotAStart(info, fl, busy, brk, block);
    RepElsewhere(info, fl, block, e);
  }

  lemma GivenUpAll(info: seq<Info>, fl: seq<Cluster>, busy: map<nat, nat>, table: Cluster, brk: nat, block: nat, fl': seq<Cluster>)
    requires Sound(info, fl, busy, table, brk) && block in busy
    requires forall x :: IsFree(fl', x) <==> IsFree(fl, x)
    ensures forall x :: Has(Region(busy, block), x) ==> x < brk && !Owned(fl', busy - {block}, table, x)
    ensures !Balanced(fl, busy, table, brk, fl', busy - {block}, table, brk)
  {
    hide Sound, IsFree;
    forall x | Has(Region(busy, block), x)
      ensures x < brk && Owned(fl, busy, table, x) && !Owned(fl', busy - {block}, table, x)
    {
      GivenUp(info, fl, busy, table, brk, block, x);
    }
    BusyEntryIs(info, fl, busy, table, brk, block);
    hide Owned;
    assert Has(Region(busy, block), block);
  }

  lemma EmptyKeepsBusy(info: seq<Info>, fl: seq<Cluster>, busy: map<nat, nat>, table: Cluster, brk: nat, p: nat, block: nat, info1: seq<Info>)
    requires Sound(info, fl, busy, table, brk) && block in busy && p < |fl| && Fits(fl, p, Region(busy, block))
    requires block < |info| && Rep(info1, fl) && |info1| == |info| && BusyEntriesKept(info, info1, busy - {block})
    ensures InsertInfo(info1, fl, p, Region(busy, block))[block].Free?
    ensures var info2 := SetSize(InsertInfo(info1, fl, p, Region(busy, block)), block, 0);
            BusyEntriesKept(info, info2, busy - {block}) && BusyOk(info2, busy - {block}, brk)
  {
    RepInsertAt(info1, fl, p, Region(busy, block), p);
    var info2 := SetSize(InsertInfo(info1, fl, p, Region(busy, block)), block, 0);
    forall b | b in busy - {block}
      ensures info2[b] == info[b]
    {
      NotAStart(info, fl, busy, brk, b);
    }
  }

  lemma WithinBreak(info: seq<Info>, fl: seq<Cluster>, busy: map<nat, nat>, table: Cluster, brk: nat, q: nat)
    requires Sound(info, fl, busy, table, brk) && q < |fl|
    ensures fl[q].start + fl[q].size <= brk
  {
  }

  lemma FreeWithEmpty(fl: seq<Cluster>, p: nat, start: nat)
    requires p < |fl|
    ensures forall x :: IsFree(Insert(fl, p, Cluster(start, 0)), x) <==> IsFree(fl, x)
  {
    forall x
      ensures IsFree(Insert(fl, p, Cluster(start, 0)), x) <==> IsFree(fl, x)
    {
      FreeAfterInsert(fl, p, Cluster(start, 0), x);
    }
  }

  /** The cluster before an allocation neither touches the next one nor reaches the break. */
  lemma NothingToJoin(info: seq<Info>, fl: seq<Cluster>, busy: map<nat, nat>, table: Cluster, brk: nat, block: nat, p: nat)
    requires Sound(info, fl, busy, table, brk) && block in busy && p < |fl| && Fits(fl, p, Region(busy, block))
    ensures block != Next(fl, p) && block < brk
  {
  }

  lemma RingHere(info: seq<Info>, fl: seq<Cluster>, p: nat)
    requires p < |fl|
    ensures OnRing(fl, fl[p].start) && (IsRing(fl) && Rep(info, fl) ==> HasRing(info))
  {
  }

  lemma IndexOnRing(fl: seq<Cluster>, i: nat) returns (q: nat)
    requires OnRing(fl, i)
    ensures q < |fl| && fl[q].start == i
  {
    q :| 0 <= q < |fl| && fl[q].start == i;
  }

  // ----- The break of the kernel -----

  /** Pages of the address space, and pages below the mapping of physical memory (map.h:63-70). */
  const PAGES := 0x10_0000
  const KERNEL_PAGES := 2048

  /** The page that `kernel_sbrk` moves the break from page `at` to, before it looks whether that is low enough. */
  function BreakAfter(at: nat, n: nat): nat {
    (at + n) % PAGES
  }

  /** Asked for more, `kernel_sbrk` takes memory back instead, and reports success, if and only if the sum wraps. */
  lemma BreakWraps(at: nat, n: nat)
    requires at < KERNEL_PAGES && n < PAGES
    ensures BreakAfter(at, n) < KERNEL_PAGES && BreakAfter(at, n) < at <==> at + n >= PAGES
    ensures BreakAfter(at, n) < KERNEL_PAGES && BreakAfter(at, n) >= at <==> at + n < KERNEL_PAGES
  {
  }

  // ----- Other users of the break -----

  /** The fresh blocks `[r, r + extra)` can be joined to a last cluster that ends at `top` just by making it longer if
      and only if no blocks of others are in between, which is what malloc.c:200 tests. */
  lemma ContiguityIsNeeded(fl: seq<Cluster>, top: nat, r: nat, extra: nat)
    requires IsRing(fl) && |fl| > 1 && fl[|fl| - 1].start + fl[|fl| - 1].size == top <= r && extra > 0
    ensures (forall x :: IsFree(Grown(fl, |fl| - 1, extra), x) <==> IsFree(fl, x) || r <= x < r + extra) <==> r == top
  {
    var k := |fl| - 1;
    FreeAfterGrow(fl, k, Cluster(top, extra));
    if r != top {
      if IsFree(fl, top) {
        NothingAfterLast(fl, top);
      }
      assert Has(Grown(fl, k, extra)[k], top);
      assert IsFree(Grown(fl, k, extra), top) && !IsFree(fl, top);
    }
  }

  // ----- The heap -----

  class Heap {
    /** Block `b` is page `base + b` of the kernel's address space. */
    const base: nat
    /** `_heapinfo`; its length is `heapsize`. */
    var info: seq<Info>
    var heapindex: nat
    var heaplimit: nat
    /** The block number of the system break. */
    var brk: nat
    /** How many pages the kernel has left to put behind the break. */
    var pages: nat
    /** Where the table itself is kept. */
    var table: Cluster
    /** The free list, sentinel first. */
    ghost var fl: seq<Cluster>
    /** Start and size of every allocated cluster. */
    ghost var busy: map<nat, nat>

    ghost predicate Valid()
      reads this
    {
      && Sound(info, fl, busy, table, brk)
      && IsRing(fl)
      && OnRing(fl, heapindex)
      && table.size == TableBlocks(|info|)
      && base + brk < KERNEL_PAGES
    }

    /** `n` blocks more do not take the break round the end of the address space (`BreakWraps`). */
    predicate NoWrap(n: nat)
      reads `brk
    {
      base + brk + n < PAGES
    }

    /** The heap after `initialize` (malloc.c:60-74): the table of 1024 entries fills blocks 1 to 3. */
    constructor (base: nat, pages: nat)
      requires base + 1 + TableBlocks(HEAP_ENTRIES) < KERNEL_PAGES
      ensures Valid() && fl == [Cluster(0, 0)] && busy == map[] && heapindex == 0 && this.base == base && this.pages == pages
      ensures |info| == HEAP_ENTRIES && brk == 1 + TableBlocks(HEAP_ENTRIES) && heaplimit == 0
    {
      this.base := base;
      this.pages := pages;
      info := [Free(0, 0, 0)] + seq(HEAP_ENTRIES - 1, _ => Unused);
      heapindex, heaplimit := 0, 0;
      table := Cluster(1, TableBlocks(HEAP_ENTRIES));
      brk := 1 + TableBlocks(HEAP_ENTRIES);
      fl := [Cluster(0, 0)];
      busy := map[];
      new;
      assert Linked(info, fl, 0);
      assert fl[0].start == heapindex;
    }

    /** The free cluster that precedes `block`, found by walking `prev` links down from
        the last index or `next` links up from it, whichever way `block` lies. */
    method FindPred(block: nat) returns (i: nat, ghost p: nat)
      requires Valid() && block in busy
      ensures p < |fl| && fl[p].start == i && Fits(fl, p, Region(busy, block))
      ensures PrecedesFreed(info, i, block)
    {
      hide FreeBounded, BusyApart, TableOk;
      ghost var q :| 0 <= q < |fl| && fl[q].start == heapindex;
      NotAStart(info, fl, busy, brk, block);
      if heapindex > block {
        i, p := WalkDown(block, q);
      } else {
        i, p := WalkUp(block, q);
      }
      FitsAfter(info, fl, busy, table, brk, block, p);
    }

    method WalkDown(block: nat, ghost q: nat) returns (i: nat, ghost p: nat)
      requires IsOrdered(fl) && Rep(info, fl)
      requires q < |fl| && fl[q].start == heapindex > block
      requires forall k :: 0 <= k < |fl| ==> fl[k].start != block
      ensures p < |fl| && fl[p].start == i < block && (p + 1 < |fl| ==> block < fl[p + 1].start)
      ensures PrecedesFreed(info, i, block)
    {
      i, p := heapindex, q;
      if q + 1 < |fl| { StartsGrow(fl, q, q + 1); }
      while i > block
        invariant p < |fl| && fl[p].start == i
        invariant p + 1 < |fl| ==> block < fl[p + 1].start
        decreases p
      {
        assert Linked(info, fl, p);
        i := info[i].prev;
        p := p - 1;
      }
      assert Linked(info, fl, p);
    }

    method WalkUp(block: nat, ghost q: nat) returns (i: nat, ghost p: nat)
      requires IsOrdered(fl) && Rep(info, fl)
      requires q < |fl| && fl[q].start == heapindex <= block
      requires forall k :: 0 <= k < |fl| ==> fl[k].start != block
      ensures p < |fl| && fl[p].start == i < block && (p + 1 < |fl| ==> block < fl[p + 1].start)
      ensures PrecedesFreed(info, i, block)
    {
      p := q;
      assert Linked(info, fl, p);
      i := info[heapindex].next;
      while i > 0 && i < block
        invariant p < |fl| && fl[p].start < block && i == Next(fl, p)
        decreases |fl| - p
      {
        p := p + 1;
        assert Linked(info, fl, p);
        i := info[i].next;
      }
      ghost var nk := if p + 1 < |fl| then p + 1 else 0;
      assert Linked(info, fl, nk);
      i := info[i].prev;
      assert Linked(info, fl, p);
    }

    /** Joins the freed cluster to its predecessor or links it in after it (free.c:46-57). */
    method JoinPred(block: nat, i: nat, ghost p: nat) returns (b: nat, ghost q: nat)
      requires Valid() && block in busy && info[block].Busy?
      requires p < |fl| && fl[p].start == i && Fits(fl, p, Region(busy, block))
      modifies `info, `fl, `busy
      ensures Sound(info, fl, busy, table, brk) && TightBut(fl, q)
      ensures 0 < q < |fl| && fl[q].start == b <= block && b + fl[q].size == block + old(busy[block])
      ensures busy == old(busy) - {block} && BusyEntriesKept(old(info), info, busy) && |info| == old(|info|)
      ensures forall x :: IsFree(fl, x) <==> IsFree(old(fl), x) || Has(old(Region(busy, block)), x)
    {
      hide IsOrdered, FreeBusyApart, ApartFromFree, FreeBounded, BusyApart, TightBut, TableOk;
      ghost var c := Region(busy, block);
      RingIsOrdered(fl);
      assert Linked(info, fl, p);
      SentinelApart(fl, p, c);
      if block == i + info[i].size {
        SoundGrow(info, fl, busy, table, brk, p, block);
        TightAfterGrow(fl, p, c);
        FreeAfterGrow(fl, p, c);
        info := SetSize(info, i, info[i].size + info[block].blocks);
        fl := Grown(fl, p, c.size);
        b, q := i, p;
      } else {
        SoundInsert(info, fl, busy, table, brk, p, block);
        TightAfterInsert(fl, p, c);
        FreeAfterInsertAll(fl, p, c);
        ghost var info' := InsertInfo(info, fl, p, c);
        NeighboursOfFit(info, fl, p, c);
        info := info[block := Free(info[block].blocks, info[i].next, i)];
        info := SetNext(info, i, block);
        info := SetPrev(info, info[block].next, block);
        assert info == info';
        fl := Insert(fl, p, c);
        b, q := block, p + 1;
      }
      busy := busy - {block};
    }

    /** Joins the cluster at `b` to its successor when they touch (free.c:62-68). */
    method JoinSucc(b: nat, ghost q: nat)
      requires Sound(info, fl, busy, table, brk) && TightBut(fl, q)
      requires 0 < q < |fl| && fl[q].start == b
      modifies `info, `fl
      ensures Sound(info, fl, busy, table, brk) && IsRing(fl)
      ensures q < |fl| && fl[q].start == b && fl[q].size >= old(fl[q].size)
      ensures BusyEntriesKept(old(info), info, busy) && |info| == old(|info|)
      ensures forall x :: IsFree(fl, x) <==> IsFree(old(fl), x)
    {
      hide IsOrdered, FreeBusyApart, ApartFromFree, FreeBounded, BusyApart, TableOk;
      assert Linked(info, fl, q);
      if b + info[b].size == info[b].next {
        NextTouches(fl, q);
        assert Linked(info, fl, q + 1);
        RepRemove(info, fl, q + 1);
        SoundMerge(info, fl, busy, table, brk, q);
        TightAfterMerge(fl, q);
        FreeAfterMerge(fl, q);
        ghost var info' := MergeInfo(info, fl, q);
        NeighboursOfMerge(info, fl, q);
        info := SetSize(info, b, info[b].size + info[info[b].next].size);
        info := SetNext(info, b, info[info[b].next].next);
        info := SetPrev(info, info[b].next, b);
        assert info == info';
        fl := Merged(fl, q);
      } else {
        TightAt(fl, q);
      }
      TightIsRing(fl);
    }

    /** Gives the last free cluster back to the system when it is long enough (free.c:70-81). */
    method TrimEnd(b: nat, ghost q: nat) returns (i: nat)
      requires Sound(info, fl, busy, table, brk) && IsRing(fl)
      requires 0 < q < |fl| && fl[q].start == b
      modifies `info, `fl, `heaplimit, `brk
      ensures Sound(info, fl, busy, table, brk) && IsRing(fl) && OnRing(fl, i)
      ensures BusyEntriesKept(old(info), info, busy) && |info| == old(|info|)
      ensures brk <= old(brk) && heaplimit <= old(heaplimit)
      ensures brk < old(brk) <==> old(fl[q].size) >= FINAL_FREE_BLOCKS && b + old(fl[q].size) == old(heaplimit) == old(brk)
      ensures if brk == old(brk) then fl == old(fl) && info == old(info) && heaplimit == old(heaplimit) && i == b
              else brk == heaplimit && old(brk) == old(heaplimit) && old(brk) - brk >= FINAL_FREE_BLOCKS
                   && old(fl)[q] == Cluster(brk, old(brk) - brk)
      ensures forall x :: IsFree(fl, x) <==> IsFree(old(fl), x) && x < brk
    {
      hide IsOrdered, FreeBusyApart, ApartFromFree, FreeBounded, BusyApart, TableOk, IsRing;
      assert Linked(info, fl, q);
      var blocks := info[b].size;
      FreeBelowBreak(fl, brk);
      if blocks >= FINAL_FREE_BLOCKS && b + blocks == heaplimit && brk == b + blocks {
        heaplimit := heaplimit - blocks;
        SoundDrop(info, fl, busy, table, brk, q);
        RingAfterRemove(fl, q);
        FreeAfterDrop(fl, q, brk);
        ghost var info' := RemoveInfo(info, fl, q);
        NeighboursOfRemove(info, fl, q);
        brk := brk - blocks;
        info := SetNext(info, info[b].prev, info[b].next);
        info := SetPrev(info, info[b].next, info[b].prev);
        assert info == info';
        i := info[b].prev;
        fl := Remove(fl, q);
        assert fl[q - 1].start == i;
      } else {
        i := b;
      }
    }

    /** `free` on a whole-block allocation. */
    method FreeCluster(block: nat) returns (ghost q: nat)
      requires Valid() && block in busy && info[block].Busy?
      modifies `info, `heapindex, `heaplimit, `brk, `fl, `busy
      ensures Valid()
      ensures busy == old(busy) - {block} && BusyEntriesKept(old(info), info, busy) && |info| == old(|info|)
      ensures forall x :: IsFree(fl, x) <==> (IsFree(old(fl), x) || Has(old(Region(busy, block)), x)) && x < brk
      ensures brk <= old(brk) && heaplimit <= old(heaplimit)
      ensures brk == old(brk) ==>
                && heaplimit == old(heaplimit)
                && q < |fl| && fl[q].start == heapindex <= block && block + old(busy[block]) <= fl[q].start + fl[q].size
      ensures brk < old(brk) ==>
                && brk == heaplimit && brk <= block && old(brk) == old(heaplimit) && brk + FINAL_FREE_BLOCKS <= old(brk)
                && forall x :: brk <= x < old(brk) ==> IsFree(old(fl), x) || Has(old(Region(busy, block)), x)
      ensures Balanced(old(fl), old(busy), table, old(brk), fl, busy, table, brk)
      ensures brk < old(brk) <==> old(heaplimit) == old(brk) && FreeRun(old(fl), old(Region(busy, block)), old(brk) - 8, 8)
                                  && FreeRun(old(fl), old(Region(busy, block)), block, old(brk) - block)
    {
      hide IsOrdered, FreeBusyApart, ApartFromFree, FreeBounded, BusyApart, TableOk, IsRing, BusyOk, Rep, Owned;
      AllOwnedBelow(info, fl, busy, table, brk);
      var i;
      ghost var p;
      i, p := FindPred(block);
      var b;
      b, q := JoinPred(block, i, p);
      JoinSucc(b, q);
      label Joined:
      WithinBreak(info, fl, busy, table, brk, q);
      TrimWhen(fl, q, block, brk);
      i := TrimEnd(b, q);
      if brk < old(brk) {
        AllFree(old@Joined(fl), q);
      }
      heapindex := i;
      BalancedFree(info, old(fl), old(busy), table, old(brk), block, fl, brk);
    }

    /** The kernel can put `n` blocks behind the break. */
    predicate Gives(n: nat)
      reads `brk, `pages
    {
      base + brk + n < KERNEL_PAGES && n <= pages
    }

    /** `_morecore` on `n` blocks. The pages are allocated one by one, and those that were had before there were no more
        are not given back (sbrk.c:25-38). */
    method Sbrk(n: nat) returns (r: Option<nat>)
      requires NoWrap(n)
      modifies `brk, `pages
      ensures r.Some? <==> old(Gives(n))
      ensures r.Some? ==> r.value == old(brk) && brk == old(brk) + n && pages == old(pages) - n
      ensures r.None? ==> brk == old(brk) && pages == if base + brk + n < KERNEL_PAGES then 0 else old(pages)
    {
      var page := BreakAfter(base + brk, n);
      if page >= KERNEL_PAGES {
        return None;
      }
      var i := 0;
      while i < n
        invariant i <= n && i <= old(pages) && pages == old(pages) - i && brk == old(brk)
      {
        if pages == 0 {
          return None;
        }
        pages := pages - 1;
        i := i + 1;
      }
      r := Some(brk);
      brk := page - base;
    }

    /** Somebody else takes blocks from the system between two calls of the heap: what the heap gets next does not
        follow its own last blocks. Pages may come and go. */
    method BreakMoved(n: nat, left: nat)
      requires Valid() && base + brk + n < KERNEL_PAGES
      modifies `brk, `pages
      ensures Valid() && brk == old(brk) + n && pages == left
    {
      hide IsOrdered, FreeBusyApart, ApartFromFree, BusyApart, IsRing, BusyOk, Rep, OnRing;
      SoundRaise(info, fl, busy, table, brk, brk + n);
      brk := brk + n;
      pages := left;
    }

    /** Enough for `n` blocks and the bigger table that they may need. */
    predicate Ample(n: nat)
      reads `brk, `pages, `info
    {
      Gives(n + if brk + n <= |info| then 0 else TableBlocks(2 * (brk + n)))
    }

    /** `malloc` of more bytes than the rounding can cope with: the number of blocks is zero, the first cluster looked
        at is large enough, and its record is overwritten by that of an allocation of no blocks. */
    method TakeNothing() returns (block: nat)
      requires Valid()
      modifies `info, `heapindex
      ensures block == old(heapindex) && block !in busy
      ensures |info| == |old(info)| && BusyEntriesKept(old(info), info, busy) && BusyOk(info, busy, brk)
      ensures HasRing(info) <==> |fl| == 1
      ensures Valid() <==> |fl| == 1
      ensures |fl| == 1 ==> info == old(info) && heapindex == old(heapindex)
      ensures exists k :: 0 <= k < |fl| && fl[k].start == block && (|fl| > 1 ==> heapindex == IndexAfterNothing(fl, k))
    {
      hide IsOrdered, FreeBusyApart, ApartFromFree, BusyApart, IsRing, BusyOk, Rep, FreeBounded, BusyApart, TableOk;
      ghost var k :| 0 <= k < |fl| && fl[k].start == heapindex;
      NothingBreaksRing(info, fl, k);
      NothingKeepsBusy(info, fl, busy, table, brk, k);
      ghost var info' := TakenNothing(info, heapindex);
      block := heapindex;
      if info[block].size > 0 {
        heapindex := block;
        info := SetPrev(info, info[block].next, block);
        info := SetNext(info, info[block].prev, block);
      } else {
        info := SetPrev(info, info[block].next, info[block].prev);
        heapindex := info[block].next;
        info := SetNext(info, info[block].prev, heapindex);
      }
      info := info[block := Free(0, 0, info[block].prev)];
      assert info == info';
    }

    /** `morecore`: fresh blocks, moving the table to a bigger place when it cannot describe them. */
    method MoreCore(n: nat) returns (r: Option<nat>)
      requires Valid() && n > 0 && NoWrap(n)
      modifies `info, `heapindex, `heaplimit, `brk, `pages, `fl, `busy, `table
      ensures Valid() && busy == old(busy) && BusyEntriesKept(old(info), info, busy)
      ensures r.None? ==> info == old(info) && fl == old(fl) && table == old(table) && brk == old(brk)
                          && heapindex == old(heapindex) && heaplimit == old(heaplimit)
      ensures r.None? ==> !old(Ample(n))
      ensures r.Some? ==> old(Gives(n)) && pages + brk == old(pages + brk)
      ensures r.Some? && old(brk) + n <= |old(info)| ==> table == old(table) && info == old(info)
      ensures pages + brk <= old(pages + brk)
      ensures r.Some? ==>
                && r.value == old(brk) && heaplimit == r.value + n <= brk && heaplimit <= |info|
                && Unheld(fl, busy, table, Cluster(r.value, n))
                && FreeBounded(fl, r.value)
                && (if table == old(table) then brk == r.value + n && fl == old(fl) && heapindex == old(heapindex)
                    else table.start == r.value + n && table.start + table.size == brk)
                && forall x :: IsFree(fl, x) <==> IsFree(old(fl), x) || (table != old(table) && Has(old(table), x))
    {
      hide IsOrdered, FreeBusyApart, ApartFromFree, BusyApart, IsRing, BusyOk, Rep;
      r := Sbrk(n);
      if r.None? {
        return;
      }
      FreshIsUnheld(info, fl, busy, table, old(brk), n);
      SoundRaise(info, fl, busy, table, old(brk), brk);
      if r.value + n > |info| {
        var ok := GrowTable(r.value + n, n);
        if !ok {
          return None;
        }
      }
      heaplimit := r.value + n;
    }

    /** The first of `size`, `2 * size`, `4 * size`, ... that reaches `need`. */
    static method Doubled(size: nat, need: nat) returns (newsize: nat)
      requires 0 < size < need
      ensures need <= newsize < 2 * need
    {
      newsize := size;
      while need > newsize
        invariant 0 < newsize < 2 * need
        decreases need - newsize
      {
        newsize := newsize * 2;
      }
    }

    /** Copies the table to fresh blocks at `t` and records its old blocks as an allocation (malloc.c:99-105). */
    method MoveTable(newsize: nat, t: nat)
      requires Sound(info, fl, busy, table, t) && IsRing(fl) && OnRing(fl, heapindex) && table.size == TableBlocks(|info|)
      requires |info| <= newsize && t <= newsize && brk == t + TableBlocks(newsize) && base + brk < KERNEL_PAGES
      modifies `info, `busy, `table
      ensures Valid() && |info| == newsize && BusyEntriesKept(old(info), info, old(busy))
      ensures old(table.start) !in old(busy) && busy == old(busy)[old(table.start) := old(table.size)]
      ensures info[old(table.start)].Busy? && table == Cluster(t, TableBlocks(newsize))
    {
      hide IsOrdered, FreeBounded, Sound, IsRing, OnRing;
      TableNonempty(info, fl, busy, table, t);
      ghost var pad := seq(newsize - |info|, _ => Unused);
      SoundMoveTable(info, fl, busy, table, t, pad, t, TableBlocks(newsize));
      var oldinfo := table;
      info := info + seq(newsize - |info|, _ => Unused);
      info := info[oldinfo.start := Busy(oldinfo.size)];
      busy := busy[oldinfo.start := oldinfo.size];
      table := Cluster(t, TableBlocks(newsize));
    }

    /** malloc.c:91-107: a table of twice the size, or four times, and so on, until it covers `need` blocks. */
    method GrowTable(need: nat, n: nat) returns (ok: bool)
      requires Valid() && 0 < n <= brk == need && need > |info|
      requires Sound(info, fl, busy, table, brk - n)
      modifies `info, `heapindex, `heaplimit, `brk, `pages, `fl, `busy, `table
      ensures Valid() && busy == old(busy) && BusyEntriesKept(old(info), info, busy)
      ensures !ok ==> info == old(info) && fl == old(fl) && table == old(table) && brk == need - n
                      && heapindex == old(heapindex) && heaplimit == old(heaplimit)
      ensures !ok ==> !old(Gives(TableBlocks(2 * need)))
      ensures pages + brk <= old(pages + brk) && (ok ==> pages + brk == old(pages + brk))
      ensures ok ==>
                && need <= |info|
                && table.start == need && table.start + table.size == brk
                && Unheld(fl, busy, table, Cluster(need - n, n))
                && FreeBounded(fl, need - n)
                && forall x :: IsFree(fl, x) <==> IsFree(old(fl), x) || Has(old(table), x)
    {
      hide IsOrdered, FreeBounded, Unheld, Sound, IsRing, OnRing, FreeRun;
      TableNonempty(info, fl, busy, table, need - n);
      var newsize := Doubled(|info|, need);
      LargerTable(newsize, 2 * need);
      var t := Sbrk(TableBlocks(newsize));
      if t.None? {
        brk := brk - n;
        return false;
      }
      FreshIsUnheld(info, fl, busy, table, need - n, n);
      ReplaceTable(newsize, need, n);
      ok := true;
    }

    /** malloc.c:99-107: the table moves behind the `n` fresh blocks, and its old place is freed. */
    method ReplaceTable(newsize: nat, need: nat, n: nat)
      requires Sound(info, fl, busy, table, need) && IsRing(fl) && OnRing(fl, heapindex) && table.size == TableBlocks(|info|)
      requires 0 < n <= need && Sound(info, fl, busy, table, need - n)
      requires |info| <= newsize && need <= newsize && brk == need + TableBlocks(newsize) && base + brk < KERNEL_PAGES
      requires Unheld(fl, busy, table, Cluster(need - n, n)) && FreeBounded(fl, need - n)
      modifies `info, `heapindex, `heaplimit, `brk, `fl, `busy, `table
      ensures Valid() && busy == old(busy) && BusyEntriesKept(old(info), info, busy)
      ensures |info| == newsize && brk == old(brk) && table == Cluster(need, TableBlocks(newsize))
      ensures Unheld(fl, busy, table, Cluster(need - n, n)) && FreeBounded(fl, need - n)
      ensures forall x :: IsFree(fl, x) <==> IsFree(old(fl), x) || Has(old(table), x)
    {
      hide IsOrdered, FreeBounded, Unheld, Sound, IsRing, OnRing, FreeRun;
      TableNonempty(info, fl, busy, table, need - n);
      FreeBelowBreak(fl, need - n);
      var oldinfo := table;
      MoveTable(newsize, need);
      ghost var q := FreeCluster(oldinfo.start);
      assert busy == old(busy);
      NotTrimmed(old(fl), oldinfo, need - n, brk, need + TableBlocks(newsize));
      StillUnheld(info, old(fl), fl, busy, oldinfo, table, brk, need - n, n);
    }

    /** The next-fit search of malloc.c:189-193 and 219: once round the ring from the last index. */
    method FindFit(blocks: nat, ghost h: nat) returns (r: Option<nat>, ghost k: nat)
      requires Valid() && blocks > 0
      requires h < |fl| && fl[h].start == heapindex
      ensures r.Some? ==> 0 < k < |fl| && fl[k].start == r.value && fl[k].size >= blocks
                          && forall j :: 0 <= j < |fl| && InArc(h, j, k) ==> fl[j].size < blocks
      ensures r.None? ==> forall j :: 0 <= j < |fl| ==> fl[j].size < blocks
    {
      hide FreeBusyApart, ApartFromFree, FreeBounded, BusyApart, TableOk, BusyOk, IsRing;
      var start := heapindex;
      var block := start;
      k := h;
      ghost var wrapped := false;
      assert Linked(info, fl, h);
      while info[block].size < blocks
        invariant k < |fl| && fl[k].start == block && Linked(info, fl, k)
        invariant wrapped <==> k < h
        invariant forall j :: 0 <= j < |fl| && InArc(h, j, k) ==> fl[j].size < blocks
        decreases if wrapped then h - k else h + |fl| - k
      {
        block := info[block].next;
        ghost var k' := if k + 1 < |fl| then k + 1 else 0;
        wrapped := wrapped || k' == 0;
        StartsDiffer(fl, k', h);
        if block == start {
          return None, k;
        }
        k := k';
        assert Linked(info, fl, k);
      }
      r := Some(block);
    }

    /** Cuts the first `blocks` blocks off the cluster at `block` (malloc.c:225-248). */
    method TakeFrom(block: nat, blocks: nat, ghost k: nat)
      requires Valid() && 0 < k < |fl| && fl[k].start == block && 0 < blocks <= fl[k].size
      modifies `info, `heapindex, `fl, `busy
      ensures Valid()
      ensures block !in old(busy) && busy == old(busy)[block := blocks]
      ensures block < |info| == old(|info|) && info[block] == Busy(blocks) && BusyEntriesKept(old(info), info, old(busy))
      ensures fl == Taken(old(fl), k, blocks)
      ensures heapindex == if old(fl[k].size) > blocks then block + blocks else Next(old(fl), k)
    {
      hide IsOrdered, FreeBusyApart, ApartFromFree, BusyApart, TableOk, BusyOk, IsRing, Rep, FreeBounded, BusyEntriesKept;
      LinkedAt(info, fl, k);
      SoundTake(info, fl, busy, table, brk, k, blocks);
      RingAfterTake(fl, k, blocks);
      NeighboursOfRemove(info, fl, k);
      ghost var info' := TakeInfo(info, fl, k, blocks);
      if info[block].size > blocks {
        info := info[block + blocks := Free(info[block].size - blocks, info[block].next, info[block].prev)];
        info := SetPrev(info, info[block].next, block + blocks);
        info := SetNext(info, info[block].prev, block + blocks);
        heapindex := block + blocks;
        assert Taken(fl, k, blocks)[k].start == heapindex;
      } else {
        info := SetPrev(info, info[block].next, info[block].prev);
        heapindex := info[block].next;
        info := SetNext(info, info[block].prev, heapindex);
        NextStaysOnRing(fl, k);
      }
      info := info[block := Busy(blocks)];
      assert info == info';
      fl := Taken(fl, k, blocks);
      busy := busy[block := blocks];
    }

    /** malloc.c:205-206: the fresh blocks join the last free cluster, wherever that now starts. */
    method GrowLast(extra: nat, ghost top: nat) returns (block: nat, ghost k: nat)
      requires Valid() && |fl| > 1 && extra > 0
      requires fl[|fl| - 1].start + fl[|fl| - 1].size == top && top + extra <= brk && top + extra <= |info|
      requires Unheld(fl, busy, table, Cluster(top, extra))
      modifies `info, `fl
      ensures Valid() && BusyEntriesKept(old(info), info, busy) && |info| == old(|info|)
      ensures k == |fl| - 1 == |old(fl)| - 1 && fl[k].start == block && fl[k].size == old(fl)[k].size + extra
      ensures forall x :: IsFree(fl, x) <==> IsFree(old(fl), x) || top <= x < top + extra
    {
      hide IsOrdered, FreeBusyApart, ApartFromFree, BusyApart, TableOk, BusyOk, IsRing, FreeBounded, Unheld, OnRing, Rep;
      LastThroughSentinel(info, fl);
      block := info[0].prev;
      k := |fl| - 1;
      SoundExtend(info, fl, busy, table, brk, top, extra);
      RingAfterExtend(fl, extra);
      FreeAfterGrow(fl, k, Cluster(top, extra));
      info := SetSize(info, block, info[block].size + extra);
      IndexStaysOnRing(fl, k, extra, heapindex);
      fl := Grown(fl, k, extra);
    }

    /** malloc.c:197-208: when the last free cluster ends at the break, ask only for what is missing. */
    method Extend(blocks: nat) returns (r: Option<nat>, ghost k: nat)
      requires Valid() && NoWrap(blocks) && forall j :: 0 <= j < |fl| ==> fl[j].size < blocks
      modifies `info, `heapindex, `heaplimit, `brk, `pages, `fl, `busy, `table
      ensures Valid() && busy == old(busy) && BusyEntriesKept(old(info), info, busy)
      ensures r.None? ==> info == old(info) && fl == old(fl) && table == old(table) && brk == old(brk)
                          && heapindex == old(heapindex) && heaplimit == old(heaplimit)
      ensures r.Some? ==> 0 < k < |fl| && fl[k].start == r.value && fl[k].size >= blocks
      ensures table == old(table) || old(brk) <= table.start
      ensures r.None? ==> pages == old(pages) || !old(Ample(blocks))
      ensures |old(fl)| == 1 ==> r.None? && pages == old(pages)
      ensures pages + brk <= old(pages + brk)
      ensures r.Some? ==> old(brk) < brk && forall x :: IsFree(fl, x) <==>
                            || IsFree(old(fl), x)
                            || (table != old(table) && Has(old(table), x))
                            || (old(brk) <= x < brk && (table != old(table) ==> !Has(table, x)))
    {
      hide IsOrdered, FreeBusyApart, ApartFromFree, BusyApart, TableOk, BusyOk, IsRing, FreeBounded, Unheld, OnRing, Rep;
      r, k := None, 0;
      LastThroughSentinel(info, fl);
      var block := info[0].prev;
      var lastblocks := info[block].size;
      if heaplimit != 0 && block + lastblocks == heaplimit && brk == block + lastblocks {
        ghost var extra := blocks - lastblocks;
        ghost var top := brk;
        LastIsFree(fl, top);
        MoreIsAmple(|info|, brk, blocks - lastblocks, blocks);
        var more := MoreCore(blocks - lastblocks);
        if more.Some? {
          LastStillEndsAt(old(fl), fl, top);
          block, k := GrowLast(blocks - lastblocks, top);
          r := Some(block);
        }
      }
    }

    /** `malloc` of whole blocks. */
    method AllocCluster(blocks: nat) returns (r: Option<nat>)
      requires Valid() && blocks > 0 && NoWrap(blocks)
      modifies `info, `heapindex, `heaplimit, `brk, `pages, `fl, `busy, `table
      ensures Valid()
      ensures r.None? ==> info == old(info) && fl == old(fl) && busy == old(busy) && table == old(table) && brk == old(brk)
                          && heapindex == old(heapindex) && heaplimit == old(heaplimit)
                          && forall j :: 0 <= j < |fl| ==> fl[j].size < blocks
      ensures r.Some? ==> r.value !in old(busy) && busy == old(busy)[r.value := blocks]
                          && r.value < |info| && info[r.value] == Busy(blocks)
                          && BusyEntriesKept(old(info), info, old(busy))
      ensures table == old(table) || old(brk) <= table.start
      ensures r.Some? ==> old(brk) <= brk && Conserved(old(fl), fl, old(table), table, old(brk), brk, Cluster(r.value, blocks))
      ensures r.None? ==> !old(Ample(blocks))
      ensures |old(fl)| == 1 && r.Some? && old(brk) + blocks <= |old(info)| ==>
                && r.value == old(brk) && brk == heaplimit == old(brk) + blocks && pages == old(pages) - blocks
                && fl == old(fl) && table == old(table) && |info| == |old(info)|
      ensures pages + brk <= old(pages + brk)
      ensures (exists j :: 0 <= j < |old(fl)| && old(fl)[j].size >= blocks) ==>
                r.Some? && table == old(table) && brk == old(brk) && pages == old(pages)
      ensures forall k: nat :: NextFit(old(fl), old(heapindex), k, blocks) ==>
                && r == Some(old(fl)[k].start)
                && fl == Taken(old(fl), k, blocks) && table == old(table) && brk == old(brk) && heaplimit == old(heaplimit)
                && |info| == old(|info|)
                && heapindex == if old(fl[k].size) > blocks then r.value + blocks else Next(old(fl), k)
    {
      hide IsOrdered, FreeBusyApart, ApartFromFree, BusyApart, TableOk, BusyOk, IsRing, FreeBounded, Unheld, Rep, Taken, InArc, NextFit;
      ghost var h :| 0 <= h < |fl| && fl[h].start == heapindex;
      ghost var k;
      RingIsOrdered(fl);
      r, k := FindFit(blocks, h);
      if r.Some? {
        NextFitIs(fl, h, k, blocks);
      } else {
        NoneFits(fl, heapindex, blocks);
      }
      if r.None? {
        r, k := Extend(blocks);
        if r.None? {
          r := AllocFresh(blocks);
          return;
        }
      }
      ConservedTake(old(fl), fl, old(table), table, old(brk), brk, k, blocks);
      TakeFrom(r.value, blocks, k);
    }

    /** malloc.c:209-219: a new cluster straight from the system. */
    method AllocFresh(blocks: nat) returns (r: Option<nat>)
      requires Valid() && blocks > 0 && NoWrap(blocks)
      modifies `info, `heapindex, `heaplimit, `brk, `pages, `fl, `busy, `table
      ensures Valid()
      ensures r.None? ==> info == old(info) && fl == old(fl) && busy == old(busy) && table == old(table) && brk == old(brk)
                          && heapindex == old(heapindex) && heaplimit == old(heaplimit)
      ensures r.Some? ==> r.value !in old(busy) && busy == old(busy)[r.value := blocks]
                          && r.value < |info| && info[r.value] == Busy(blocks)
                          && BusyEntriesKept(old(info), info, old(busy))
      ensures table == old(table) || old(brk) <= table.start
      ensures r.None? ==> !old(Ample(blocks))
      ensures r.Some? && old(brk) + blocks <= |old(info)| ==>
                && r.value == old(brk) && brk == heaplimit == old(brk) + blocks && pages == old(pages) - blocks
                && fl == old(fl) && table == old(table) && |info| == |old(info)|
      ensures pages + brk <= old(pages + brk)
      ensures r.Some? ==> old(brk) <= brk && Conserved(old(fl), fl, old(table), table, old(brk), brk, Cluster(r.value, blocks))
    {
      hide IsOrdered, FreeBusyApart, ApartFromFree, BusyApart, TableOk, BusyOk, IsRing, FreeBounded, Unheld, Rep, Sound, OnRing;
      TableNonempty(info, fl, busy, table, brk);
      r := MoreCore(blocks);
      if r.Some? {
        ConservedFresh(old(fl), fl, old(table), table, old(brk), brk, blocks);
        SoundClaim(info, fl, busy, table, brk, r.value, blocks);
        info := info[r.value := Busy(blocks)];
        busy := busy[r.value := blocks];
      }
    }

    /** Rewrites the table entry of an allocated cluster without changing its extent. */
    method SetEntry(b: nat, e: Info)
      requires BusyOk(info, busy, brk) && b in busy && BusyEntry(e, busy[b])
      modifies `info
      ensures b < |old(info)| && info == old(info)[b := e]
      ensures BusyOk(info, busy, brk) && (Valid() <==> old(Valid()))
    {
      hide IsOrdered, FreeBusyApart, ApartFromFree, BusyApart, IsRing, Rep, OnRing, FreeBounded, TableOk, Sound;
      SoundSetEntry(info, fl, busy, table, brk, b, e);
      info := info[b := e];
    }

    /** The shrinking case of `realloc` (realloc.c:56-65): the excess becomes an allocation of its own and is freed. */
    method ShrinkCluster(block: nat, blocks: nat)
      requires Valid() && block in busy && info[block].Busy? && 0 < blocks < busy[block]
      modifies `info, `heapindex, `heaplimit, `brk, `fl, `busy
      ensures Valid() && busy == old(busy)[block := blocks] && block < |info| && info[block] == Busy(blocks)
      ensures BusyEntriesKept(old(info), info, old(busy) - {block})
      ensures forall x :: IsFree(fl, x) <==> (IsFree(old(fl), x) || block + blocks <= x < block + old(busy[block])) && x < brk
      ensures Balanced(old(fl), old(busy), table, old(brk), fl, busy, table, brk)
    {
      hide IsOrdered, FreeBusyApart, ApartFromFree, BusyApart, TableOk, BusyOk, IsRing, FreeBounded, Rep, Sound, OnRing, Balanced, Owned;
      BusyEntryIs(info, fl, busy, table, brk, block);
      BalancedSplit(fl, busy, table, brk, block, blocks, info);
      SoundSplit(info, fl, busy, table, brk, block, blocks);
      info := info[block + blocks := Busy(info[block].blocks - blocks)];
      info := info[block := Busy(blocks)];
      busy := busy[block := blocks][block + blocks := busy[block] - blocks];
      ghost var busy1 := busy;
      ghost var q := FreeCluster(block + blocks);
      assert busy == old(busy)[block := blocks];
      BalancedTwice(old(fl), old(busy), table, old(brk), old(fl), busy1, table, old(brk), fl, busy, table, brk);
    }

    /** The shrinking case when the new size is rounded to zero blocks: the excess is the whole allocation, whose size
        is overwritten before it is freed, so that `free` gives back nothing. Behind a free cluster nothing else
        happens; otherwise an empty cluster is linked in. */
    method ShrinkToNothing(block: nat)
      requires Valid() && block in busy && info[block].Busy?
      modifies `info, `heapindex, `fl, `busy
      ensures busy == old(busy) - {block} && |info| == |old(info)| && BusyEntriesKept(old(info), info, busy) && BusyOk(info, busy, brk)
      ensures Rep(info, fl)
      ensures Valid() <==> Preceded(old(fl), block)
      ensures HasRing(info) <==> Preceded(old(fl), block)
      ensures if Preceded(old(fl), block) then fl == old(fl)
              else exists p: nat :: p < |old(fl)| && fl == Insert(old(fl), p, Cluster(block, 0))
      ensures forall x :: Has(old(Region(busy, block)), x) ==> x < brk && !Owned(fl, busy, table, x)
      ensures !Balanced(old(fl), old(busy), table, brk, fl, busy, table, brk)
    {
      hide IsOrdered, FreeBusyApart, ApartFromFree, BusyApart, TableOk, BusyOk, IsRing, FreeBounded, Rep, OnRing, Owned, HasRing, Preceded, Balanced;
      hide Insert, Fits, BusyEntriesKept, Has, PrecedesFreed, TableBlocks;
      BusyEntryIs(info, fl, busy, table, brk, block);
      NotAStart(info, fl, busy, brk, block);
      ghost var info0 := info;
      info := info[block := Busy(info[block].blocks - 0)];
      info := info[block := Busy(0)];
      assert info == info0[block := Busy(0)];
      SoundGiveUp(info0, fl, busy, table, brk, block, Busy(0));
      ghost var q := IndexOnRing(fl, heapindex);
      var i;
      ghost var p;
      if heapindex > block {
        i, p := WalkDown(block, q);
      } else {
        i, p := WalkUp(block, q);
      }
      FitsAfter(info0, fl, busy, table, brk, block, p);
      PrecededByFit(fl, p, Region(busy, block));
      LinkedAt(info, fl, p);
      if block == i + info[i].size {
        JoinNothing(block, i, p, info0);
      } else {
        LinkInNothing(block, i, p, info0);
      }
    }

    /** free.c:46-49 with no blocks; free.c:62 and 72 find nothing to join and nothing to give back. */
    method JoinNothing(block: nat, i: nat, ghost p: nat, ghost info0: seq<Info>)
      requires Sound(info0, fl, busy, table, brk) && IsRing(fl) && block in busy && table.size == TableBlocks(|info|)
      requires base + brk < KERNEL_PAGES
      requires block < |info0| && info == info0[block := Busy(0)] && Sound(info, fl, busy - {block}, table, brk)
      requires p < |fl| && fl[p].start == i && Fits(fl, p, Region(busy, block)) && fl[p].start + fl[p].size == block
      modifies `info, `heapindex, `busy
      ensures busy == old(busy) - {block} && info == old(info) && Valid() && HasRing(info)
      ensures BusyEntriesKept(info0, info, busy) && BusyOk(info, busy, brk)
      ensures forall x :: Has(old(Region(busy, block)), x) ==> x < brk && !Owned(fl, busy, table, x)
      ensures !Balanced(fl, old(busy), table, brk, fl, busy, table, brk)
    {
      hide IsOrdered, FreeBusyApart, ApartFromFree, BusyApart, TableOk, BusyOk, IsRing, FreeBounded, Rep, OnRing, Owned, HasRing, Balanced;
      GivenUpAll(info0, fl, busy, table, brk, block, fl);
      NothingToJoin(info0, fl, busy, table, brk, block, p);
      LinkedAt(info, fl, p);
      busy := busy - {block};
      info := SetSize(info, i, info[i].size + info[block].blocks);
      assert info == old(info);
      assert i + info[i].size != info[i].next && i + info[i].size != brk;
      RingHere(info, fl, p);
      heapindex := i;
    }

    /** free.c:51-56 with no blocks; free.c:62 and 72 find nothing to join and nothing to give back. */
    method LinkInNothing(block: nat, i: nat, ghost p: nat, ghost info0: seq<Info>)
      requires Sound(info0, fl, busy, table, brk) && block in busy
      requires block < |info0| && info == info0[block := Busy(0)] && Rep(info, fl)
      requires p < |fl| && fl[p].start == i && Fits(fl, p, Region(busy, block))
      modifies `info, `heapindex, `fl, `busy
      ensures busy == old(busy) - {block} && |info| == |info0| && BusyEntriesKept(info0, info, busy) && BusyOk(info, busy, brk)
      ensures fl == Insert(old(fl), p, Cluster(block, 0)) && Rep(info, fl) && !HasRing(info) && !Valid()
      ensures forall x :: Has(old(Region(busy, block)), x) ==> x < brk && !Owned(fl, busy, table, x)
      ensures !Balanced(old(fl), old(busy), table, brk, fl, busy, table, brk)
    {
      hide IsOrdered, FreeBusyApart, ApartFromFree, BusyApart, TableOk, BusyOk, IsRing, FreeBounded, Rep, OnRing, Owned, HasRing, Balanced;
      ghost var c := Region(busy, block);
      EmptyKeepsBusy(info0, fl, busy, table, brk, p, block, info);
      RepInsertNothing(info, fl, p, c);
      ghost var info' := SetSize(InsertInfo(info, fl, p, c), block, 0);
      EmptyBreaksRing(info', fl, p, c);
      NeighboursOfFit(info, fl, p, c);
      NothingToJoin(info0, fl, busy, table, brk, block, p);
      LinkedAt(info, fl, p);
      info := info[block := Free(info[block].blocks, info[i].next, i)];
      info := SetNext(info, i, block);
      info := SetPrev(info, info[block].next, block);
      assert info == info';
      assert block + info[block].size != info[block].next && info[block].size < FINAL_FREE_BLOCKS;
      FreeWithEmpty(fl, p, block);
      GivenUpAll(info0, fl, busy, table, brk, block, Insert(fl, p, Cluster(block, 0)));
      fl := Insert(fl, p, Cluster(block, 0));
      busy := busy - {block};
      RingHere(info, fl, p);
      heapindex := block;
    }

    /** The growing case of `realloc` (realloc.c:58-84): free, allocate, and on failure take the old cluster back. */
    method RegrowCluster(block: nat, want: nat) returns (r: Option<nat>)
      requires Valid() && block in busy && info[block].Busy? && busy[block] < want && NoWrap(want)
      modifies `info, `heapindex, `heaplimit, `brk, `pages, `fl, `busy, `table
      ensures Valid()
      ensures r.None? ==> fl == old(fl) && busy == old(busy) && table == old(table) && brk == old(brk) && heaplimit == old(heaplimit)
                          && |info| == old(|info|) && info[block] == old(info[block])
                          && BusyEntriesKept(old(info), info, old(busy) - {block})
      ensures r.Some? ==> Reconserved(old(fl), old(Region(busy, block)), fl, old(table), table, old(brk), brk, Cluster(r.value, want))
      ensures r.Some? ==> r.value !in old(busy) - {block} && busy == (old(busy) - {block})[r.value := want]
                          && r.value < |info| && info[r.value] == Busy(want)
                          && BusyEntriesKept(old(info), info, old(busy) - {block})
      ensures Balanced(old(fl), old(busy), old(table), old(brk), fl, busy, table, brk)
      ensures r.None? ==> !old(Ample(want))
      ensures forall at: int :: FreeRun(old(fl), old(Region(busy, block)), at, want) ==>
                r.Some? && table == old(table) && brk == old(brk) && pages == old(pages)
    {
      hide IsOrdered, FreeBusyApart, ApartFromFree, BusyApart, TableOk, BusyOk, IsRing, FreeBounded, Unheld, Rep, Sound, OnRing;
      hide Conserved, Taken, Balanced, Owned;
      ghost var F, B := fl, busy;
      BalancedSame(info, fl, busy, table, brk);
      TableNonempty(info, fl, busy, table, brk);
      FreedDisjoint(info, fl, busy, table, brk, block);
      BusyEntryIs(info, fl, busy, table, brk, block);
      var blocks := info[block].blocks;
      var oldlimit := heaplimit;
      heaplimit := 0;
      ghost var q := FreeCluster(block);
      heaplimit := oldlimit;
      ghost var mid, busy1, brk1, info1 := fl, busy, brk, info;
      RoomIsSeen(F, Region(B, block), fl, want);
      r := AllocCluster(want);
      if r.None? {
        TakeBack(block, blocks, q, F);
        assert busy == B;
      } else {
        ConservedAfterFree(F, Region(B, block), mid, fl, old(table), table, old(brk), brk, Cluster(r.value, want));
        BalancedAlloc(info1, info, mid, busy1, old(table), brk1, fl, table, brk, r.value, want);
        BalancedTwice(F, B, old(table), old(brk), mid, busy1, old(table), brk1, fl, busy, table, brk);
      }
    }

    /** realloc.c:72-79: next-fit finds the freed cluster first, so its blocks can be taken again. */
    method TakeBack(block: nat, blocks: nat, ghost q: nat, ghost F: seq<Cluster>)
      requires Valid() && IsRing(F) && blocks > 0
      requires q < |fl| && fl[q].start == heapindex <= block && block + blocks <= fl[q].start + fl[q].size
      requires forall x :: IsFree(fl, x) <==> IsFree(F, x) || Has(Cluster(block, blocks), x)
      requires forall x :: IsFree(F, x) ==> !Has(Cluster(block, blocks), x)
      modifies `info, `heapindex, `heaplimit, `brk, `pages, `fl, `busy, `table
      ensures Valid() && fl == F
      ensures block !in old(busy) && busy == old(busy)[block := blocks]
      ensures table == old(table) && brk == old(brk) && heaplimit == old(heaplimit)
      ensures block < |info| == old(|info|) && info[block] == Busy(blocks) && BusyEntriesKept(old(info), info, old(busy))
    {
      hide IsOrdered, FreeBusyApart, ApartFromFree, BusyApart, TableOk, BusyOk, FreeBounded, Unheld, Rep, IsRing, OnRing;
      hide Conserved, Taken, NextFit, Ample, TableBlocks, Remove, FreeRun;
      WithinBreak(info, fl, busy, table, brk, q);
      if heapindex == block {
        TakenBack(fl, q, blocks, F);
        NextFitHere(fl, q, blocks);
        var again := AllocCluster(blocks);
      } else {
        TakeBackBehind(block, blocks, q, F);
      }
    }

    /** realloc.c:76-80: the blocks in front of the old cluster are held for as long as it takes. */
    method TakeBackBehind(block: nat, blocks: nat, ghost q: nat, ghost F: seq<Cluster>)
      requires Valid() && IsRing(F) && blocks > 0
      requires q < |fl| && fl[q].start == heapindex < block && block + blocks <= fl[q].start + fl[q].size
      requires forall x :: IsFree(fl, x) <==> IsFree(F, x) || Has(Cluster(block, blocks), x)
      requires forall x :: IsFree(F, x) ==> !Has(Cluster(block, blocks), x)
      modifies `info, `heapindex, `heaplimit, `brk, `pages, `fl, `busy, `table
      ensures Valid() && fl == F
      ensures block !in old(busy) && busy == old(busy)[block := blocks]
      ensures table == old(table) && brk == old(brk) && heaplimit == old(heaplimit)
      ensures block < |info| == old(|info|) && info[block] == Busy(blocks) && BusyEntriesKept(old(info), info, old(busy))
    {
      hide IsOrdered, FreeBusyApart, ApartFromFree, BusyApart, TableOk, BusyOk, FreeBounded, Unheld, Rep, IsRing, OnRing;
      hide Conserved, Taken, NextFit, Ample, TableBlocks, Remove, FreeRun;
      WithinBreak(info, fl, busy, table, brk, q);
      ghost var behind := block - heapindex;
      SplitBehind(fl, q, behind, blocks);
      ghost var fl1 := fl;
      NextFitHere(fl, q, behind);
      var previous := AllocCluster(block - heapindex);
      ghost var fl2 := fl;
      NextFitHere(fl, q, blocks);
      var again := AllocCluster(blocks);
      ghost var fl3 := fl;
      BusyNotFree(info, fl, busy, table, brk, block);
      ghost var p := FreeCluster(previous.value);
      RolledBack(fl1, fl2, fl3, fl, q, behind, blocks, F, brk);
      assert busy == old(busy)[block := blocks];
    }

    /** `malloc` of whole blocks after somebody else has taken `n` blocks from the system: none of those is ever the
        heap's. */
    method AllocBehindOthers(n: nat, left: nat, blocks: nat) returns (r: Option<nat>)
      requires Valid() && blocks > 0 && base + brk + n < KERNEL_PAGES && NoWrap(n + blocks)
      modifies `info, `heapindex, `heaplimit, `brk, `pages, `fl, `busy, `table
      ensures Valid()
      ensures forall x :: old(brk) <= x < old(brk) + n ==> Foreign(x)
    {
      hide IsOrdered, BusyApart, IsRing, Rep, OnRing, FreeBusyApart, ApartFromFree, ApartFromBusy;
      ghost var first := brk;
      FreeBelowBreak(fl, brk);
      TableNonempty(info, fl, busy, table, brk);
      BreakMoved(n, left);
      label Moved:
      r := AllocCluster(blocks);
      forall x | first <= x < first + n
        ensures Foreign(x)
      {
        assert !IsFree(old@Moved(fl), x) && !Has(old@Moved(table), x);
        forall b | b in busy
          ensures !Has(Region(busy, b), x)
        {
          assert b in old@Moved(busy) ==> !Has(old@Moved(Region(busy, b)), x);
        }
      }
    }

    /** The block is neither free nor allocated nor the table's. */
    ghost predicate Foreign(x: int)
      reads this
    {
      !IsFree(fl, x) && !Has(table, x) && forall b :: b in busy ==> !Has(Region(busy, b), x)
    }
  }

  /** `initialize` (malloc.c:60-74); while the system refuses the first table there is no heap. */
  method Initialize(base: nat, pages: nat) returns (h: Heap?)
    ensures h != null <==> base + 1 + TableBlocks(HEAP_ENTRIES) < KERNEL_PAGES && TableBlocks(HEAP_ENTRIES) <= pages
    ensures h != null ==> fresh(h) && h.Valid() && h.fl == [Cluster(0, 0)] && h.busy == map[]
  {
    if pages < TableBlocks(HEAP_ENTRIES) || base + 1 + TableBlocks(HEAP_ENTRIES) >= KERNEL_PAGES {
      return null;
    }
    h := new Heap(base, pages - TableBlocks(HEAP_ENTRIES));
  }

  lemma NothingFree(fl: seq<Cluster>)
    requires IsRing(fl) && forall x :: !IsFree(fl, x)
    ensures fl == [Cluster(0, 0)]
  {
    if |fl| > 1 { FirstIsFree(fl, 1); }
  }

  lemma FirstIsFree(fl: seq<Cluster>, k: nat)
    requires k < |fl| && fl[k].size > 0
    ensures IsFree(fl, fl[k].start)
  {
    assert Has(fl[k], fl[k].start);
  }

  /** `kernel_sbrk` gives no page back when the break moves down: taking eight blocks and freeing them, again and again,
      ends with a heap that has nothing in it and a kernel that has no pages for it. */
  method PagesAreLost(base: nat, pages: nat) returns (h: Heap)
    requires base + 12 < KERNEL_PAGES
    ensures fresh(h) && h.Valid() && h.fl == [Cluster(0, 0)] && h.busy == map[] && h.brk == 4 && h.pages < 8
  {
    hide IsRing, OnRing, Sound, Balanced;
    h := new Heap(base, pages);
    while h.pages >= 8
      invariant h.Valid() && h.fl == [Cluster(0, 0)] && h.busy == map[] && h.brk == 4 && |h.info| == HEAP_ENTRIES && h.base == base
      decreases h.pages
    {
      var r := h.AllocCluster(8);
      assert r == Some(4);
      assert !IsFree(h.fl, 3) && Region(h.busy, 4) == Cluster(4, 8);
      ghost var q := h.FreeCluster(4);
      NothingFree(h.fl);
    }
  }
}
