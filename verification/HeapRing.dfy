/** The block table of the kernel heap as a value: the circular list of free
    clusters that malloc.c and free.c thread through `_heapinfo`. */
module HeapRing {

  const BLOCKSIZE := 4096

  /** One entry of `_heapinfo`.  The source overlays these cases in a union;
      here reading a member of the wrong case is a verification error, and an update
      that relies on the overlay is written out for the words (`TakenNothing`). */
  datatype Info =
    | Unused
    | Free(size: nat, next: nat, prev: nat)
    | Busy(blocks: nat)
    | Frag(log: nat, nfree: nat, first: nat)

  /** A run of consecutive blocks. */
  datatype Cluster = Cluster(start: nat, size: nat)

  predicate Has(c: Cluster, b: int) {
    c.start <= b < c.start + c.size
  }

  predicate Apart(c: Cluster, d: Cluster) {
    c.start + c.size <= d.start || d.start + d.size <= c.start
  }

  // ----- The free list -----

  /** The abstract free list: the sentinel of block 0, then the free clusters in
      address order, no two of them touching. */
  ghost predicate IsRing(fl: seq<Cluster>) {
    && |fl| > 0
    && fl[0] == Cluster(0, 0)
    && (forall i :: 0 < i < |fl| ==> fl[i].size > 0)
    && (forall i, j :: 0 <= i < j < |fl| ==> fl[i].start + fl[i].size < fl[j].start)
  }

  /** Block `b` belongs to a free cluster. */
  ghost predicate IsFree(fl: seq<Cluster>, b: int) {
    exists k :: 0 <= k < |fl| && Has(fl[k], b)
  }

  function Next(fl: seq<Cluster>, k: nat): nat
    requires k < |fl|
  {
    if k + 1 < |fl| then fl[k + 1].start else fl[0].start
  }

  function Prev(fl: seq<Cluster>, k: nat): nat
    requires k < |fl|
  {
    if k == 0 then fl[|fl| - 1].start else fl[k - 1].start
  }

  /** Entry `k` of the list is linked to its neighbours in the table. */
  ghost predicate Linked(info: seq<Info>, fl: seq<Cluster>, k: nat)
    requires k < |fl|
  {
    fl[k].start < |info| && info[fl[k].start] == Free(fl[k].size, Next(fl, k), Prev(fl, k))
  }

  /** The table is a circular doubly linked list holding exactly `fl`. */
  ghost predicate Rep(info: seq<Info>, fl: seq<Cluster>) {
    forall k :: 0 <= k < |fl| ==> Linked(info, fl, k)
  }

  // ----- The set of free blocks determines the list -----

  /** The free list is a canonical form: equal sets of free blocks, equal lists. */
  lemma {:induction false} FreeBlocksDetermineRing(a: seq<Cluster>, b: seq<Cluster>)
    requires IsRing(a) && IsRing(b)
    requires forall x :: IsFree(a, x) <==> IsFree(b, x)
    ensures a == b
    decreases |a|
  {
    if |a| == 1 {
      if |b| > 1 {
        NonemptyRing(b);
        assert false;
      }
    } else {
      LastClusterAgrees(a, b);
      var a', b' := a[..|a| - 1], b[..|b| - 1];
      forall x
        ensures IsFree(a', x) <==> IsFree(b', x)
      {
        WithoutLast(a, x);
        WithoutLast(b, x);
      }
      FreeBlocksDetermineRing(a', b');
      assert a == a' + [a[|a| - 1]] && b == b' + [b[|b| - 1]];
    }
  }

  lemma NonemptyRing(a: seq<Cluster>)
    requires IsRing(a) && |a| > 1
    ensures IsFree(a, a[|a| - 1].start) && IsFree(a, a[|a| - 1].start + a[|a| - 1].size - 1)
  {
    var c := a[|a| - 1];
    assert Has(c, c.start) && Has(c, c.start + c.size - 1);
  }

  lemma WithoutLast(a: seq<Cluster>, x: int)
    requires IsRing(a) && |a| > 1
    ensures IsFree(a[..|a| - 1], x) <==> IsFree(a, x) && !Has(a[|a| - 1], x)
  {
    var c := a[..|a| - 1];
    if IsFree(c, x) {
      var k :| 0 <= k < |c| && Has(c[k], x);
      assert Has(a[k], x);
    }
    if IsFree(a, x) && !Has(a[|a| - 1], x) {
      var k :| 0 <= k < |a| && Has(a[k], x);
      assert Has(c[k], x);
    }
  }

  lemma LastClusterAgrees(a: seq<Cluster>, b: seq<Cluster>)
    requires IsRing(a) && IsRing(b) && |a| > 1
    requires forall x :: IsFree(a, x) <==> IsFree(b, x)
    ensures |b| > 1 && a[|a| - 1] == b[|b| - 1]
  {
    var c := a[|a| - 1];
    NonemptyRing(a);
    assert IsFree(b, c.start);
    NonemptyRing(b);
    var d := b[|b| - 1];
    NothingAfterLast(a, d.start + d.size - 1);
    NothingAfterLast(b, c.start + c.size - 1);
    GapBeforeLast(a);
    GapBeforeLast(b);
  }

  lemma NothingAfterLast(a: seq<Cluster>, x: int)
    requires IsRing(a) && |a| > 1
    requires IsFree(a, x)
    ensures x < a[|a| - 1].start + a[|a| - 1].size
  {
    var k :| 0 <= k < |a| && Has(a[k], x);
    if k < |a| - 1 {
      assert a[k].start + a[k].size < a[|a| - 1].start;
    }
  }

  lemma GapBeforeLast(a: seq<Cluster>)
    requires IsRing(a) && |a| > 1
    ensures !IsFree(a, a[|a| - 1].start - 1)
  {
    var c := a[|a| - 1];
    forall k | 0 <= k < |a|
      ensures !Has(a[k], c.start - 1)
    {
      if k < |a| - 1 {
        assert a[k].start + a[k].size < c.start;
      }
    }
  }

  // ----- Surgery on the linked table -----

  /** A ring in which neighbours may touch, as happens for a moment inside `free`. */
  ghost predicate IsOrdered(fl: seq<Cluster>) {
    && |fl| > 0
    && fl[0] == Cluster(0, 0)
    && (forall i :: 0 < i < |fl| ==> fl[i].size > 0 && fl[i].start > 0)
    && (forall i, j :: 0 <= i < j < |fl| ==> fl[i].start + fl[i].size <= fl[j].start)
  }

  /** `c` lies between members `k` and `k + 1`. */
  ghost predicate Fits(fl: seq<Cluster>, k: nat, c: Cluster)
    requires k < |fl|
  {
    && c.size > 0
    && c.start > 0
    && fl[k].start + fl[k].size <= c.start
    && (k + 1 < |fl| ==> c.start + c.size <= fl[k + 1].start)
  }

  function SetNext(info: seq<Info>, i: nat, v: nat): seq<Info>
    requires i < |info| && info[i].Free?
  {
    info[i := info[i].(next := v)]
  }

  function SetPrev(info: seq<Info>, i: nat, v: nat): seq<Info>
    requires i < |info| && info[i].Free?
  {
    info[i := info[i].(prev := v)]
  }

  function SetSize(info: seq<Info>, i: nat, v: nat): seq<Info>
    requires i < |info| && info[i].Free?
  {
    info[i := info[i].(size := v)]
  }

  ghost function Insert(fl: seq<Cluster>, k: nat, c: Cluster): seq<Cluster>
    requires k < |fl|
  {
    fl[..k + 1] + [c] + fl[k + 1..]
  }

  ghost function Remove(fl: seq<Cluster>, k: nat): seq<Cluster>
    requires k < |fl|
  {
    fl[..k] + fl[k + 1..]
  }

  /** Starts grow along the list. */
  lemma StartsGrow(fl: seq<Cluster>, i: nat, j: nat)
    requires IsOrdered(fl) && i < j < |fl|
    ensures fl[i].start < fl[j].start
  {
    assert fl[i].start + fl[i].size <= fl[j].start;
  }

  lemma OrderedInsert(fl: seq<Cluster>, k: nat, c: Cluster)
    requires IsOrdered(fl) && k < |fl| && Fits(fl, k, c)
    ensures IsOrdered(Insert(fl, k, c))
  {
    var fl' := Insert(fl, k, c);
    forall i, j | 0 <= i < j < |fl'|
      ensures fl'[i].start + fl'[i].size <= fl'[j].start
    {
      var i0 := if i <= k then i else i - 1;
      var j0 := if j <= k then j else j - 1;
      assert i0 < j0 ==> fl[i0].start + fl[i0].size <= fl[j0].start;
      assert i < k ==> fl[i].start + fl[i].size <= fl[k].start;
      assert k + 1 < j0 ==> fl[k + 1].start + fl[k + 1].size <= fl[j0].start;
    }
  }

  /** free.c:52-56 as one update of the table. */
  ghost function InsertInfo(info: seq<Info>, fl: seq<Cluster>, k: nat, c: Cluster): (r: seq<Info>)
    requires IsOrdered(fl) && Rep(info, fl) && k < |fl| && Fits(fl, k, c) && c.start < |info|
    ensures |r| == |info|
    ensures forall b :: 0 <= b < |info| && b != c.start && b != fl[k].start && b != Next(fl, k) ==> r[b] == info[b]
  {
    var nk := if k + 1 < |fl| then k + 1 else 0;
    assert Linked(info, fl, k) && Linked(info, fl, nk);
    var info1 := info[c.start := Free(c.size, Next(fl, k), fl[k].start)];
    var info2 := SetNext(info1, fl[k].start, c.start);
    SetPrev(info2, Next(fl, k), c.start)
  }

  lemma InsertNeighbours(fl: seq<Cluster>, k: nat, c: Cluster, m: nat)
    requires k < |fl| && m < |fl|
    ensures var fl' := Insert(fl, k, c);
            var m' := if m <= k then m else m + 1;
            && fl'[k + 1] == c && Next(fl', k + 1) == Next(fl, k) && Prev(fl', k + 1) == fl[k].start
            && fl'[m'] == fl[m]
            && Next(fl', m') == (if m == k then c.start else Next(fl, m))
            && Prev(fl', m') == (if m == (if k + 1 < |fl| then k + 1 else 0) then c.start else Prev(fl, m))
  {
  }

  lemma RepInsertAt(info: seq<Info>, fl: seq<Cluster>, k: nat, c: Cluster, m: nat)
    requires IsOrdered(fl) && Rep(info, fl) && k < |fl| && Fits(fl, k, c) && c.start < |info|
    requires m < |fl|
    ensures var r := InsertInfo(info, fl, k, c);
            && r[c.start] == Free(c.size, Next(fl, k), fl[k].start)
            && fl[m].start < |info|
            && r[fl[m].start] == Free(fl[m].size,
                 if m == k then c.start else Next(fl, m),
                 if m == (if k + 1 < |fl| then k + 1 else 0) then c.start else Prev(fl, m))
  {
    var nk := if k + 1 < |fl| then k + 1 else 0;
    assert Linked(info, fl, m);
    assert fl[m].start == fl[k].start <==> m == k by { StartsDiffer(fl, m, k); }
    assert fl[m].start == fl[nk].start <==> m == nk by { StartsDiffer(fl, m, nk); }
    assert fl[m].start != c.start by { FitsApart(fl, k, c, m); }
  }

  lemma StartsDiffer(fl: seq<Cluster>, i: nat, j: nat)
    requires IsOrdered(fl) && i < |fl| && j < |fl|
    ensures fl[i].start == fl[j].start <==> i == j
  {
    if i < j { StartsGrow(fl, i, j); } else if j < i { StartsGrow(fl, j, i); }
  }

  lemma FitsApart(fl: seq<Cluster>, k: nat, c: Cluster, m: nat)
    requires IsOrdered(fl) && k < |fl| && Fits(fl, k, c) && m < |fl|
    ensures Apart(fl[m], c) && fl[m].start != c.start
  {
    if m < k {
      assert fl[m].start + fl[m].size <= fl[k].start;
    } else if k + 1 < m {
      assert fl[k + 1].start + fl[k + 1].size <= fl[m].start;
    }
  }

  lemma RepInsert(info: seq<Info>, fl: seq<Cluster>, k: nat, c: Cluster)
    requires IsOrdered(fl) && Rep(info, fl) && k < |fl| && Fits(fl, k, c) && c.start < |info|
    ensures IsOrdered(Insert(fl, k, c)) && Rep(InsertInfo(info, fl, k, c), Insert(fl, k, c))
  {
    OrderedInsert(fl, k, c);
    forall m | 0 <= m < |Insert(fl, k, c)|
      ensures Linked(InsertInfo(info, fl, k, c), Insert(fl, k, c), m)
    {
      var m0 := if m <= k then m else if m == k + 1 then 0 else m - 1;
      InsertNeighbours(fl, k, c, m0);
      RepInsertAt(info, fl, k, c, m0);
    }
  }

  lemma OrderedRemove(fl: seq<Cluster>, k: nat)
    requires IsOrdered(fl) && 0 < k < |fl|
    ensures IsOrdered(Remove(fl, k))
  {
    var fl' := Remove(fl, k);
    forall i, j | 0 <= i < j < |fl'|
      ensures fl'[i].start + fl'[i].size <= fl'[j].start
    {
      var i0 := if i < k then i else i + 1;
      var j0 := if j < k then j else j + 1;
      assert fl[i0].start + fl[i0].size <= fl[j0].start;
    }
  }

  /** free.c:76-79 and malloc.c:241-244 as one update of the table. */
  ghost function RemoveInfo(info: seq<Info>, fl: seq<Cluster>, k: nat): (r: seq<Info>)
    requires Rep(info, fl) && 0 < k < |fl|
    ensures |r| == |info|
    ensures forall b :: 0 <= b < |info| && b != Prev(fl, k) && b != Next(fl, k) ==> r[b] == info[b]
  {
    var nk := if k + 1 < |fl| then k + 1 else 0;
    assert Linked(info, fl, k - 1) && Linked(info, fl, nk);
    SetPrev(SetNext(info, Prev(fl, k), Next(fl, k)), Next(fl, k), Prev(fl, k))
  }

  lemma RemoveNeighbours(fl: seq<Cluster>, k: nat, m: nat)
    requires 0 < k < |fl| && m < |fl| && m != k
    ensures var fl' := Remove(fl, k);
            var m' := if m < k then m else m - 1;
            && fl'[m'] == fl[m]
            && Next(fl', m') == (if m == k - 1 then Next(fl, k) else Next(fl, m))
            && Prev(fl', m') == (if m == (if k + 1 < |fl| then k + 1 else 0) then Prev(fl, k) else Prev(fl, m))
  {
  }

  lemma RepRemoveAt(info: seq<Info>, fl: seq<Cluster>, k: nat, m: nat)
    requires IsOrdered(fl) && Rep(info, fl) && 0 < k < |fl| && m < |fl|
    ensures fl[m].start < |info|
    ensures RemoveInfo(info, fl, k)[fl[m].start] == Free(fl[m].size,
              if m == k - 1 then Next(fl, k) else Next(fl, m),
              if m == (if k + 1 < |fl| then k + 1 else 0) then Prev(fl, k) else Prev(fl, m))
  {
    var nk := if k + 1 < |fl| then k + 1 else 0;
    assert Linked(info, fl, m) && Linked(info, fl, k - 1) && Linked(info, fl, nk);
    assert fl[m].start == fl[k - 1].start <==> m == k - 1 by { StartsDiffer(fl, m, k - 1); }
    assert fl[m].start == fl[nk].start <==> m == nk by { StartsDiffer(fl, m, nk); }
  }

  lemma RepRemove(info: seq<Info>, fl: seq<Cluster>, k: nat)
    requires IsOrdered(fl) && Rep(info, fl) && 0 < k < |fl|
    ensures IsOrdered(Remove(fl, k)) && Rep(RemoveInfo(info, fl, k), Remove(fl, k))
  {
    OrderedRemove(fl, k);
    forall m | 0 <= m < |Remove(fl, k)|
      ensures Linked(RemoveInfo(info, fl, k), Remove(fl, k), m)
    {
      var m0 := if m < k then m else m + 1;
      RemoveNeighbours(fl, k, m0);
      RepRemoveAt(info, fl, k, m0);
    }
  }

  /** Member `k` gives way to `c`, which lies in the same gap of the list. */
  ghost predicate Replaces(fl: seq<Cluster>, k: nat, c: Cluster)
    requires 0 < k < |fl|
  {
    && c.size > 0
    && fl[k].start <= c.start
    && c.start + c.size <= fl[k].start + fl[k].size
  }

  lemma OrderedReplace(fl: seq<Cluster>, k: nat, c: Cluster)
    requires IsOrdered(fl) && 0 < k < |fl| && Replaces(fl, k, c)
    ensures IsOrdered(fl[k := c])
  {
    var fl' := fl[k := c];
    forall i, j | 0 <= i < j < |fl'|
      ensures fl'[i].start + fl'[i].size <= fl'[j].start
    {
      assert fl[i].start + fl[i].size <= fl[j].start;
    }
  }

  /** malloc.c:229-237 as one update of the table. */
  ghost function ReplaceInfo(info: seq<Info>, fl: seq<Cluster>, k: nat, c: Cluster): (r: seq<Info>)
    requires Rep(info, fl) && 0 < k < |fl| && c.start < |info|
    ensures |r| == |info|
    ensures forall b :: 0 <= b < |info| && b != c.start && b != Prev(fl, k) && b != Next(fl, k) ==> r[b] == info[b]
  {
    var nk := if k + 1 < |fl| then k + 1 else 0;
    assert Linked(info, fl, k - 1) && Linked(info, fl, nk);
    var info1 := info[c.start := Free(c.size, Next(fl, k), Prev(fl, k))];
    SetNext(SetPrev(info1, Next(fl, k), c.start), Prev(fl, k), c.start)
  }

  lemma ReplaceNeighbours(fl: seq<Cluster>, k: nat, c: Cluster, m: nat)
    requires 0 < k < |fl| && m < |fl|
    ensures var fl' := fl[k := c];
            && Next(fl', m) == (if m == k - 1 then c.start else Next(fl, m))
            && Prev(fl', m) == (if m == (if k + 1 < |fl| then k + 1 else 0) then c.start else Prev(fl, m))
  {
  }

  lemma RepReplaceAt(info: seq<Info>, fl: seq<Cluster>, k: nat, c: Cluster, m: nat)
    requires IsOrdered(fl) && Rep(info, fl) && 0 < k < |fl| && Replaces(fl, k, c) && c.start < |info|
    requires m < |fl| && m != k
    ensures var r := ReplaceInfo(info, fl, k, c);
            && r[c.start] == Free(c.size, Next(fl, k), Prev(fl, k))
            && fl[m].start < |info|
            && r[fl[m].start] == Free(fl[m].size,
                 if m == k - 1 then c.start else Next(fl, m),
                 if m == (if k + 1 < |fl| then k + 1 else 0) then c.start else Prev(fl, m))
  {
    var nk := if k + 1 < |fl| then k + 1 else 0;
    assert Linked(info, fl, m) && Linked(info, fl, k - 1) && Linked(info, fl, nk);
    assert fl[m].start == fl[k - 1].start <==> m == k - 1 by { StartsDiffer(fl, m, k - 1); }
    assert fl[m].start == fl[nk].start <==> m == nk by { StartsDiffer(fl, m, nk); }
    ReplaceApart(fl, k, c, m);
    ReplaceApart(fl, k, c, k - 1);
    ReplaceApart(fl, k, c, nk);
  }

  lemma ReplaceApart(fl: seq<Cluster>, k: nat, c: Cluster, m: nat)
    requires IsOrdered(fl) && 0 < k < |fl| && Replaces(fl, k, c) && m < |fl| && m != k
    ensures Apart(fl[m], c) && fl[m].start != c.start
  {
    if m < k {
      StartsGrow(fl, m, k);
      assert fl[m].start + fl[m].size <= fl[k].start;
    } else {
      assert fl[k].start + fl[k].size <= fl[m].start;
    }
  }

  lemma RepReplace(info: seq<Info>, fl: seq<Cluster>, k: nat, c: Cluster)
    requires IsOrdered(fl) && Rep(info, fl) && 0 < k < |fl| && Replaces(fl, k, c) && c.start < |info|
    ensures IsOrdered(fl[k := c]) && Rep(ReplaceInfo(info, fl, k, c), fl[k := c])
  {
    OrderedReplace(fl, k, c);
    var fl' := fl[k := c];
    forall m | 0 <= m < |fl'|
      ensures Linked(ReplaceInfo(info, fl, k, c), fl', m)
    {
      ReplaceNeighbours(fl, k, c, m);
      RepReplaceAt(info, fl, k, c, if m == k then 0 else m);
    }
  }

  lemma RepResize(info: seq<Info>, fl: seq<Cluster>, k: nat, size: nat)
    requires IsOrdered(fl) && Rep(info, fl) && 0 < k < |fl| && size > 0
    requires k + 1 < |fl| ==> fl[k].start + size <= fl[k + 1].start
    ensures Linked(info, fl, k)
    ensures var fl' := fl[k := Cluster(fl[k].start, size)];
            IsOrdered(fl') && Rep(SetSize(info, fl[k].start, size), fl')
  {
    assert Linked(info, fl, k);
    var fl' := fl[k := Cluster(fl[k].start, size)];
    forall m | 0 <= m < |fl'|
      ensures Linked(SetSize(info, fl[k].start, size), fl', m)
    {
      assert Linked(info, fl, m);
      StartsDiffer(fl, k, m);
    }
  }

  // ----- What the surgery does to the set of free blocks -----

  lemma FreeAfterInsert(fl: seq<Cluster>, k: nat, c: Cluster, x: int)
    requires k < |fl|
    ensures IsFree(Insert(fl, k, c), x) <==> IsFree(fl, x) || Has(c, x)
  {
    var fl' := Insert(fl, k, c);
    if IsFree(fl, x) {
      var m :| 0 <= m < |fl| && Has(fl[m], x);
      assert fl'[if m <= k then m else m + 1] == fl[m];
    }
    if Has(c, x) {
      assert fl'[k + 1] == c;
    }
    if IsFree(fl', x) {
      var m :| 0 <= m < |fl'| && Has(fl'[m], x);
      assert m == k + 1 || fl'[m] == fl[if m <= k then m else m - 1];
    }
  }

  lemma FreeAfterRemove(fl: seq<Cluster>, k: nat, x: int)
    requires IsOrdered(fl) && k < |fl|
    ensures IsFree(Remove(fl, k), x) <==> IsFree(fl, x) && !Has(fl[k], x)
  {
    var fl' := Remove(fl, k);
    if IsFree(fl, x) && !Has(fl[k], x) {
      var m :| 0 <= m < |fl| && Has(fl[m], x);
      assert fl'[if m < k then m else m - 1] == fl[m];
    }
    if IsFree(fl', x) {
      var m :| 0 <= m < |fl'| && Has(fl'[m], x);
      var m0 := if m < k then m else m + 1;
      assert fl'[m] == fl[m0];
      ClustersApart(fl, k, m0, x);
    }
  }

  lemma FreeAfterReplace(fl: seq<Cluster>, k: nat, c: Cluster, x: int)
    requires IsOrdered(fl) && k < |fl|
    ensures IsFree(fl[k := c], x) <==> (IsFree(fl, x) && !Has(fl[k], x)) || Has(c, x)
  {
    var fl' := fl[k := c];
    if IsFree(fl, x) && !Has(fl[k], x) {
      var m :| 0 <= m < |fl| && Has(fl[m], x);
      assert fl'[m] == fl[m];
    }
    if Has(c, x) {
      assert fl'[k] == c;
    }
    if IsFree(fl', x) && !Has(c, x) {
      var m :| 0 <= m < |fl'| && Has(fl'[m], x);
      assert fl'[m] == fl[m];
      ClustersApart(fl, k, m, x);
    }
  }

  lemma ClustersApart(fl: seq<Cluster>, i: nat, j: nat, x: int)
    requires IsOrdered(fl) && i < |fl| && j < |fl| && i != j
    ensures !(Has(fl[i], x) && Has(fl[j], x))
  {
    if i < j {
      assert fl[i].start + fl[i].size <= fl[j].start;
    } else {
      assert fl[j].start + fl[j].size <= fl[i].start;
    }
  }

  // ----- From touching neighbours back to a ring -----

  /** No two neighbours touch, except perhaps members `q` and `q + 1`. */
  ghost predicate TightBut(fl: seq<Cluster>, q: int) {
    forall j :: 0 <= j < |fl| - 1 && j != q ==> fl[j].start + fl[j].size < fl[j + 1].start
  }

  lemma RingIsOrdered(fl: seq<Cluster>)
    requires IsRing(fl)
    ensures IsOrdered(fl) && TightBut(fl, -1)
  {
  }

  lemma TightIsRing(fl: seq<Cluster>)
    requires IsOrdered(fl) && TightBut(fl, -1)
    ensures IsRing(fl)
  {
    forall i, j | 0 <= i < j < |fl|
      ensures fl[i].start + fl[i].size < fl[j].start
    {
      assert fl[i].start + fl[i].size < fl[i + 1].start;
      if i + 1 < j {
        StartsGrow(fl, i + 1, j);
      }
    }
  }
}
