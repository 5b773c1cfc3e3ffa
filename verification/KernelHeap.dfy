/** `malloc`, `free` and `realloc` on pointers: whole blocks through the cluster heap,
    small requests through fragments of a block. */
module KernelHeap {
  import opened ClusterHeap
  import opened FragBlocks
  import opened FragLists
  import opened FragRuns
  import opened HeapRing
  import opened Words

  const SIZES := 12

  /** The invariants of all fragment sizes together. */
  ghost predicate FragsOk(info: seq<Info>, busy: map<nat, nat>, link: Links, counts: seq<nat>, runs: seq<seq<Run>>) {
    && |counts| == SIZES && |runs| == SIZES
    && (forall log: nat | IsLog(log) :: LogOk(info, busy, link, log, runs[log], counts[log]))
    && (forall b: nat :: b in busy && b < |info| && info[b].Frag? ==> IsLog(info[b].log))
  }

  /** `p` was returned by `malloc` and not freed since. */
  ghost predicate IsLive(info: seq<Info>, busy: map<nat, nat>, runs: seq<seq<Run>>, p: Ptr) {
    && p.At? && p.block in busy && p.block < |info|
    && match info[p.block] {
         case Frag(log, _, _) =>
           IsFragOffset(log, p.offset) && log < |runs| && !InRuns(runs[log], p.block, Shr(p.offset, log))
         case Busy(_) => p.offset == 0
         case _ => false
       }
  }

  /** The bytes that belong to the allocation at `p`. */
  ghost function SizeAt(info: seq<Info>, p: Ptr): nat
    requires p.At? && p.block < |info|
  {
    match info[p.block]
    case Frag(log, _, _) => Shl(1, log)
    case Busy(blocks) => blocks * BLOCKSIZE
    case _ => 0
  }

  /** The byte address of `p`, counted from the base of the heap. */
  function Address(p: Ptr): int
    requires p.At?
  {
    (p.block - 1) * BLOCKSIZE + p.offset
  }

  /** A step on fragments of size `log` leaves the blocks, nodes and heads of other sizes alone. */
  ghost predicate OthersKept(info: seq<Info>, info': seq<Info>, busy: map<nat, nat>, busy': map<nat, nat>, link: Links, link': Links, log: nat) {
    && (forall l: nat, b: nat :: l != log && IsFragBlock(info, busy, l, b) ==> b < |info'| && info'[b] == info[b] && b in busy')
    && (forall l: nat, b: nat :: l != log && IsFragBlock(info', busy', l, b) ==> IsFragBlock(info, busy, l, b))
    && (forall p: Ptr :: p in link && p.Head? && p.log != log ==> p in link' && link'[p] == link[p])
    && (forall p: Ptr :: p in link && p.At? && p.block in busy && p.block < |info| && info[p.block].Frag? && info[p.block].log != log
                         ==> p in link' && link'[p] == link[p])
  }

  lemma FragsAfterStep(info: seq<Info>, info': seq<Info>, busy: map<nat, nat>, busy': map<nat, nat>, link: Links, link': Links,
                       counts: seq<nat>, runs: seq<seq<Run>>, log: nat, count': nat, rs': seq<Run>)
    requires FragsOk(info, busy, link, counts, runs) && IsLog(log)
    requires OthersKept(info, info', busy, busy', link, link', log)
    requires LogOk(info', busy', link', log, rs', count')
    ensures FragsOk(info', busy', link', counts[log := count'], runs[log := rs'])
  {
    hide LogOk, IsList;
    forall l: nat | IsLog(l)
      ensures LogOk(info', busy', link', l, runs[log := rs'][l], counts[log := count'][l])
    {
      if l != log {
        HeadOfList(info, busy, link, l, runs[l], counts[l]);
        OtherLogKept(info, info', busy, busy', link, link', l, runs[l], counts[l]);
      }
    }
    forall b: nat | b in busy' && b < |info'| && info'[b].Frag?
      ensures IsLog(info'[b].log)
    {
      if info'[b].log != log {
        assert IsFragBlock(info', busy', info'[b].log, b);
        assert IsFragBlock(info, busy, info'[b].log, b);
      }
    }
  }

  lemma HeadOfList(info: seq<Info>, busy: map<nat, nat>, link: Links, log: nat, rs: seq<Run>, count: nat)
    requires LogOk(info, busy, link, log, rs, count)
    ensures Head(log) in link && (link[Head(log)].next == Null <==> rs == [])
    ensures IsList(link, log, Flat(log, rs)) && (rs == [] ==> IsList(link, log, []))
  {
    if rs != [] {
      assert RunOk(info, log, rs[0]);
      FlatPopped(log, rs);
      assert Threaded(link, log, Flat(log, rs), 0);
    }
  }

  /** The allocator writes no node inside a fragment that was in use. */
  ghost predicate LiveNodesKept(info: seq<Info>, busy: map<nat, nat>, runs: seq<seq<Run>>, link: Links, link': Links) {
    forall p: Ptr :: p in link && p.At? && IsLive(info, busy, runs, p) ==> p in link' && link'[p] == link[p]
  }

  lemma ListNodesNotLive(info: seq<Info>, busy: map<nat, nat>, link: Links, runs: seq<seq<Run>>, counts: seq<nat>, log: nat)
    requires FragsOk(info, busy, link, counts, runs) && IsLog(log)
    ensures forall j :: 0 <= j < |Flat(log, runs[log])| ==> !IsLive(info, busy, runs, Flat(log, runs[log])[j])
  {
    var L := Flat(log, runs[log]);
    forall j | 0 <= j < |L|
      ensures !IsLive(info, busy, runs, L[j])
    {
      ListNodeNotLive(info, busy, runs, log, L[j]);
    }
  }

  lemma ListNodeNotLive(info: seq<Info>, busy: map<nat, nat>, runs: seq<seq<Run>>, log: nat, p: Ptr)
    requires |runs| == SIZES && IsLog(log) && RunsOk(info, log, runs[log]) && p in Flat(log, runs[log])
    ensures !IsLive(info, busy, runs, p)
  {
    var rs := runs[log];
    InFlat(log, rs, p);
    var k, m :| 0 <= k < |rs| && 0 <= m < |rs[k].idx| && p == FragAt(log, rs[k].block, rs[k].idx[m]);
    assert RunOk(info, log, rs[k]);
    IndexOfFrag(log, rs[k].idx[m]);
    assert InRuns(rs, rs[k].block, rs[k].idx[m]);
  }

  // ----- Popping a fragment -----

  /** What malloc.c:144-156 reads: the first node, its neighbours and its block's entry. */
  lemma FirstFragment(info: seq<Info>, busy: map<nat, nat>, link: Links, log: nat, rs: seq<Run>, count: nat)
    requires LogOk(info, busy, link, log, rs, count) && rs != []
    ensures RunsOk(info, log, rs) && RunOk(info, log, rs[0]) && rs[0].block in busy && Head(log) in link
    ensures var L := Flat(log, rs);
            var p := FragAt(log, rs[0].block, rs[0].idx[0]);
            && L != [] && link[Head(log)].next == p && p in link && link[p] == Node(After(L, 1), Head(log))
            && p != After(L, 1)
            && (After(L, 1) != Null ==> After(L, 1).At? && IsFragBlock(info, busy, log, After(L, 1).block))
            && (|rs[0].idx| > 1 ==> After(L, 1) == FragAt(log, rs[0].block, rs[0].idx[1]))
  {
    hide Flat, RunPtrs;
    assert RunOk(info, log, rs[0]);
    FlatPopped(log, rs);
    var L := Flat(log, rs);
    assert Threaded(link, log, L, 0);
    if |L| > 1 {
      assert Threaded(link, log, L, 1);
      NodeOfBlock(info, busy, link, log, rs, count, 1);
    }
  }

  lemma NodeOfBlock(info: seq<Info>, busy: map<nat, nat>, link: Links, log: nat, rs: seq<Run>, count: nat, j: nat)
    requires LogOk(info, busy, link, log, rs, count) && j < |Flat(log, rs)|
    ensures Flat(log, rs)[j].At? && IsFragBlock(info, busy, log, Flat(log, rs)[j].block)
  {
    var p := Flat(log, rs)[j];
    assert p in Flat(log, rs);
    InFlat(log, rs, p);
    var k, m :| 0 <= k < |rs| && 0 <= m < |rs[k].idx| && p == FragAt(log, rs[k].block, rs[k].idx[m]);
    assert RunOk(info, log, rs[k]);
  }

  /** The entry of one block of size `log` and some nodes of that size change, nothing else. */
  lemma OthersKeptAt(info: seq<Info>, busy: map<nat, nat>, link: Links, link': Links, log: nat, b: nat, e: Info)
    requires IsFragBlock(info, busy, log, b) && ((e.Frag? && e.log == log) || !e.Frag?)
    requires forall p: Ptr :: p in link ==> p in link' && (link'[p] == link[p] || p == Head(log) || IsNodeOf(info, busy, log, p))
    ensures OthersKept(info, info[b := e], busy, busy, link, link', log)
  {
  }

  ghost predicate IsNodeOf(info: seq<Info>, busy: map<nat, nat>, log: nat, p: Ptr) {
    p.At? && IsFragBlock(info, busy, log, p.block)
  }

  /** Changing the runs of size `log` and the entry of block `b` of that size changes liveness only there. */
  lemma LiveAfter(info: seq<Info>, busy: map<nat, nat>, runs: seq<seq<Run>>, log: nat, b: nat, i: nat, rs': seq<Run>, e: Info, now: bool, p: Ptr)
    requires |runs| == SIZES && IsLog(log) && IsFragBlock(info, busy, log, b) && e.Frag? && e.log == log && i < PerBlock(log)
    requires p.At? ==> (InRuns(rs', p.block, Shr(p.offset, log)) <==>
                         if p.block == b && Shr(p.offset, log) == i then !now else InRuns(runs[log], p.block, Shr(p.offset, log)))
    ensures IsLive(info[b := e], busy, runs[log := rs'], p) <==>
              if p == FragAt(log, b, i) then now else IsLive(info, busy, runs, p)
  {
    IndexOfFrag(log, i);
  }

  lemma LiveAfterPop(info: seq<Info>, busy: map<nat, nat>, runs: seq<seq<Run>>, log: nat)
    requires |runs| == SIZES && IsLog(log) && RunsOk(info, log, runs[log]) && runs[log] != []
    requires runs[log][0].block in busy
    ensures RunOk(info, log, runs[log][0])
    ensures var rs := runs[log];
            var got := FragAt(log, rs[0].block, rs[0].idx[0]);
            && !IsLive(info, busy, runs, got)
            && forall p :: IsLive(PoppedInfo(info, log, rs), busy, runs[log := Popped(rs)], p) <==> IsLive(info, busy, runs, p) || p == got
  {
    var rs := runs[log];
    assert RunOk(info, log, rs[0]);
    var b, i := rs[0].block, rs[0].idx[0];
    var e := PoppedInfo(info, log, rs)[b];
    assert InRuns(rs, b, i);
    IndexOfFrag(log, i);
    forall p: Ptr
      ensures IsLive(PoppedInfo(info, log, rs), busy, runs[log := Popped(rs)], p) <==> IsLive(info, busy, runs, p) || p == FragAt(log, b, i)
    {
      if p.At? {
        InRunsPopped(info, log, rs, p.block, Shr(p.offset, log));
      }
      LiveAfter(info, busy, runs, log, b, i, Popped(rs), e, true, p);
    }
  }

  // ----- Whole blocks come and go beside the fragments -----

  lemma FragsAfterAlloc(info: seq<Info>, info': seq<Info>, busy: map<nat, nat>, link: Links, counts: seq<nat>, runs: seq<seq<Run>>, b: nat, n: nat)
    requires FragsOk(info, busy, link, counts, runs)
    requires (forall c :: c in busy ==> c < |info|) && BusyEntriesKept(info, info', busy)
    requires b !in busy && b < |info'| && info'[b] == Busy(n)
    ensures FragsOk(info', busy[b := n], link, counts, runs)
    ensures forall p :: IsLive(info', busy[b := n], runs, p) <==> IsLive(info, busy, runs, p) || p == At(b, 0)
    ensures !IsLive(info, busy, runs, At(b, 0))
  {
    hide LogOk;
    var busy' := busy[b := n];
    forall log: nat | IsLog(log)
      ensures LogOk(info', busy', link, log, runs[log], counts[log])
    {
      HeadOfList(info, busy, link, log, runs[log], counts[log]);
      OtherLogKept(info, info', busy, busy', link, link, log, runs[log], counts[log]);
    }
    forall p: Ptr
      ensures IsLive(info', busy', runs, p) <==> IsLive(info, busy, runs, p) || p == At(b, 0)
    {
      assert p.At? && p.block in busy ==> p.block < |info| && info'[p.block] == info[p.block];
    }
  }

  lemma FragsAfterFree(info: seq<Info>, info': seq<Info>, busy: map<nat, nat>, link: Links, counts: seq<nat>, runs: seq<seq<Run>>, b: nat)
    requires FragsOk(info, busy, link, counts, runs)
    requires (forall c :: c in busy ==> c < |info|) && BusyEntriesKept(info, info', busy - {b})
    requires b in busy && info[b].Busy?
    ensures FragsOk(info', busy - {b}, link, counts, runs)
    ensures forall p :: IsLive(info', busy - {b}, runs, p) <==> IsLive(info, busy, runs, p) && p != At(b, 0)
  {
    hide LogOk;
    var busy' := busy - {b};
    forall log: nat | IsLog(log)
      ensures LogOk(info', busy', link, log, runs[log], counts[log])
    {
      HeadOfList(info, busy, link, log, runs[log], counts[log]);
      OtherLogKept(info, info', busy, busy', link, link, log, runs[log], counts[log]);
    }
  }

  /** A table that differs only outside the allocations. */
  lemma FragsAfterEntries(info: seq<Info>, info': seq<Info>, busy: map<nat, nat>, link: Links, counts: seq<nat>, runs: seq<seq<Run>>)
    requires FragsOk(info, busy, link, counts, runs)
    requires (forall c :: c in busy ==> c < |info|) && BusyEntriesKept(info, info', busy)
    ensures FragsOk(info', busy, link, counts, runs)
    ensures forall p :: IsLive(info', busy, runs, p) <==> IsLive(info, busy, runs, p)
  {
    hide LogOk;
    forall log: nat | IsLog(log)
      ensures LogOk(info', busy, link, log, runs[log], counts[log])
    {
      HeadOfList(info, busy, link, log, runs[log], counts[log]);
      OtherLogKept(info, info', busy, busy, link, link, log, runs[log], counts[log]);
    }
    forall p: Ptr
      ensures IsLive(info', busy, runs, p) <==> IsLive(info, busy, runs, p)
    {
      assert p.At? && p.block in busy ==> p.block < |info| && info'[p.block] == info[p.block];
    }
  }

  lemma NotBusyNotLive(info: seq<Info>, busy: map<nat, nat>, runs: seq<seq<Run>>, p: Ptr)
    requires p.At? && p.block !in busy
    ensures !IsLive(info, busy, runs, p)
  {
  }

  lemma BusyOkInTable(info: seq<Info>, busy: map<nat, nat>, brk: nat)
    requires BusyOk(info, busy, brk)
    ensures forall c :: c in busy ==> c < |info| && BusyEntry(info[c], busy[c]) && busy[c] > 0
  {
  }

  lemma BusyInTable(info: seq<Info>, fl: seq<Cluster>, busy: map<nat, nat>, table: Cluster, brk: nat)
    requires Sound(info, fl, busy, table, brk)
    ensures forall c :: c in busy ==> c < |info| && BusyEntry(info[c], busy[c]) && busy[c] > 0
  {
  }

  // ----- Cutting a block -----

  lemma OthersKeptCut(info: seq<Info>, busy: map<nat, nat>, link: Links, link': Links, log: nat, b: nat, e: Info)
    requires b in busy && b < |info| && !info[b].Frag? && e.Frag? && e.log == log
    requires forall p: Ptr :: p in link && p != Head(log) && !(p.At? && p.block == b) ==> p in link' && link'[p] == link[p]
    ensures OthersKept(info, info[b := e], busy, busy, link, link', log)
  {
  }

  lemma LiveAfterCut(info: seq<Info>, busy: map<nat, nat>, runs: seq<seq<Run>>, log: nat, b: nat)
    requires |runs| == SIZES && IsLog(log) && runs[log] == [] && b in busy && b < |info| && info[b].Busy?
    ensures PerBlock(log) >= 2
    ensures var rs' := [Run(b, Down(PerBlock(log) - 1))];
            var info' := info[b := Frag(log, PerBlock(log) - 1, PerBlock(log) - 1)];
            forall p :: IsLive(info', busy, runs[log := rs'], p) <==> IsLive(info, busy, runs, p)
  {
    FragmentsFillBlock(log);
    var rs' := [Run(b, Down(PerBlock(log) - 1))];
    var info' := info[b := Frag(log, PerBlock(log) - 1, PerBlock(log) - 1)];
    forall p: Ptr
      ensures IsLive(info', busy, runs[log := rs'], p) <==> IsLive(info, busy, runs, p)
    {
      if p.At? && p.block == b {
        CutOffsets(log, b, p.offset);
      } else if p.At? {
        NotInOneRun(b, Down(PerBlock(log) - 1), p.block, Shr(p.offset, log));
      }
    }
  }

  lemma NotInOneRun(b: nat, idx: seq<nat>, c: nat, i: nat)
    ensures InRuns([Run(b, idx)], c, i) <==> c == b && i in idx
  {
    assert [Run(b, idx)][0].block == b;
  }

  lemma CutOffsets(log: nat, b: nat, off: nat)
    requires IsLog(log) && PerBlock(log) >= 2
    ensures IsFragOffset(log, off) && !InRuns([Run(b, Down(PerBlock(log) - 1))], b, Shr(off, log)) <==> off == 0
  {
    NotInOneRun(b, Down(PerBlock(log) - 1), b, Shr(off, log));
    var i, n := Shr(off, log), PerBlock(log);
    if 0 < i < n {
      assert Down(n - 1)[n - 1 - i] == i;
    }
    ShlZero(log);
    ShrShl(0, log);
  }

  lemma {:induction false} ShlZero(n: nat)
    ensures Shl(0, n) == 0
  {
    if n > 0 {
      ShlZero(n - 1);
    }
  }

  lemma NotYetThreaded(log: nat, b: nat, i: nat)
    requires 0 < i
    ensures FragAt(log, b, i) !in RunPtrs(log, Run(b, Down(i - 1)))
  {
    var L := RunPtrs(log, Run(b, Down(i - 1)));
    forall j | 0 <= j < |L|
      ensures L[j] != FragAt(log, b, i)
    {
      ShrShl(i, log);
      ShrShl(Down(i - 1)[j], log);
    }
  }

  lemma FirstInBlock(log: nat, b: nat, i: nat)
    ensures var L := RunPtrs(log, Run(b, Down(i))); After(L, 0) != Null ==> After(L, 0).At? && After(L, 0).block == b
  {
  }

  lemma NodesOutsideBlock(info: seq<Info>, busy: map<nat, nat>, runs: seq<seq<Run>>, link: Links, link': Links, log: nat, b: nat)
    requires b !in busy
    requires forall p: Ptr :: p in link && p != Head(log) && !(p.At? && p.block == b) ==> p in link' && link'[p] == link[p]
    ensures LiveNodesKept(info, busy, runs, link, link')
  {
  }

  // ----- Releasing a fragment -----

  /** The run of a block with free fragments, and what its table entry says. */
  lemma RunOfBlock(info: seq<Info>, busy: map<nat, nat>, link: Links, log: nat, rs: seq<Run>, count: nat, b: nat) returns (k: nat)
    requires LogOk(info, busy, link, log, rs, count) && IsFragBlock(info, busy, log, b) && info[b].nfree > 0
    ensures k < |rs| && rs[k].block == b && RunOk(info, log, rs[k])
    ensures rs[k].idx != [] && info[b].nfree == |rs[k].idx| <= PerBlock(log) && info[b].first == rs[k].idx[0]
    ensures RunsOk(info, log, rs)
  {
    assert BlockOk(info, log, rs, count, b);
    k :| 0 <= k < |rs| && rs[k].block == b;
    assert RunOk(info, log, rs[k]);
  }

  lemma CountPositive(info: seq<Info>, busy: map<nat, nat>, link: Links, log: nat, rs: seq<Run>, count: nat, b: nat)
    requires LogOk(info, busy, link, log, rs, count) && IsFragBlock(info, busy, log, b)
    ensures count >= 1
  {
    assert b in BlocksOfSize(info, busy, log);
  }

  lemma RoomInRun(info: seq<Info>, log: nat, rs: seq<Run>, k: nat, i: nat)
    requires RunsOk(info, log, rs) && k < |rs| && !InRuns(rs, rs[k].block, i) && i < PerBlock(log)
    ensures |rs[k].idx| + 1 <= PerBlock(log)
  {
    assert RunOk(info, log, rs[k]);
    TooManyDistinct(rs[k].idx + [i], PerBlock(log));
  }

  /** A live fragment as block and index. */
  lemma LiveFragment(info: seq<Info>, busy: map<nat, nat>, link: Links, counts: seq<nat>, runs: seq<seq<Run>>, p: Ptr)
    requires FragsOk(info, busy, link, counts, runs) && IsLive(info, busy, runs, p) && info[p.block].Frag?
    ensures p.At? && p.block in busy && IsLog(info[p.block].log)
    ensures var log := info[p.block].log;
            var i := Shr(p.offset, log);
            && IsFragBlock(info, busy, log, p.block) && i < PerBlock(log) && p == FragAt(log, p.block, i)
            && !InRuns(runs[log], p.block, i)
  {
  }

  lemma LiveAfterPush(info: seq<Info>, busy: map<nat, nat>, runs: seq<seq<Run>>, log: nat, b: nat, i: nat)
    requires |runs| == SIZES && IsLog(log) && IsFragBlock(info, busy, log, b) && i < PerBlock(log)
    ensures forall p :: IsLive(info[b := Frag(log, 1, i)], busy, runs[log := [Run(b, [i])] + runs[log]], p)
                        <==> IsLive(info, busy, runs, p) && p != FragAt(log, b, i)
  {
    var rs' := [Run(b, [i])] + runs[log];
    forall p: Ptr
      ensures IsLive(info[b := Frag(log, 1, i)], busy, runs[log := rs'], p) <==> IsLive(info, busy, runs, p) && p != FragAt(log, b, i)
    {
      if p.At? {
        InRunsPushed(runs[log], b, i, p.block, Shr(p.offset, log));
      }
      LiveAfter(info, busy, runs, log, b, i, rs', Frag(log, 1, i), false, p);
    }
  }

  lemma LiveAfterJoin(info: seq<Info>, busy: map<nat, nat>, runs: seq<seq<Run>>, log: nat, k: nat, i: nat, nfree: nat)
    requires |runs| == SIZES && IsLog(log) && RunsOk(info, log, runs[log]) && k < |runs[log]| && runs[log][k].idx != []
    requires IsFragBlock(info, busy, log, runs[log][k].block) && i < PerBlock(log)
    ensures var b := runs[log][k].block;
            forall p :: IsLive(info[b := Frag(log, nfree, runs[log][k].idx[0])], busy, runs[log := Joined(runs[log], k, i)], p)
                        <==> IsLive(info, busy, runs, p) && p != FragAt(log, b, i)
  {
    var b := runs[log][k].block;
    var e := Frag(log, nfree, runs[log][k].idx[0]);
    var rs' := Joined(runs[log], k, i);
    forall p: Ptr
      ensures IsLive(info[b := e], busy, runs[log := rs'], p) <==> IsLive(info, busy, runs, p) && p != FragAt(log, b, i)
    {
      if p.At? {
        InRunsJoined(info, log, runs[log], k, i, p.block, Shr(p.offset, log));
      }
      LiveAfter(info, busy, runs, log, b, i, rs', e, false, p);
    }
  }

  /** When all the other fragments of a block are free, turning it into a whole-block
      allocation to be freed leaves exactly one pointer into it live. */
  lemma LiveAfterRelease(info: seq<Info>, busy: map<nat, nat>, runs: seq<seq<Run>>, log: nat, k: nat, i: nat)
    requires |runs| == SIZES && IsLog(log) && RunsOk(info, log, runs[log]) && k < |runs[log]|
    requires |runs[log][k].idx| == PerBlock(log) - 1 && i < PerBlock(log) && !InRuns(runs[log], runs[log][k].block, i)
    requires IsFragBlock(info, busy, log, runs[log][k].block)
    ensures var b := runs[log][k].block;
            forall p :: IsLive(info[b := Busy(1)], busy, runs[log := Released(runs[log], k)], p) && p != At(b, 0)
                        <==> IsLive(info, busy, runs, p) && p != FragAt(log, b, i)
  {
    var rs := runs[log];
    var b := rs[k].block;
    forall p: Ptr
      ensures IsLive(info[b := Busy(1)], busy, runs[log := Released(rs, k)], p) && p != At(b, 0)
              <==> IsLive(info, busy, runs, p) && p != FragAt(log, b, i)
    {
      if p.At? {
        InRunsReleased(info, log, rs, k, p.block, Shr(p.offset, log));
        if p.block == b && IsLive(info, busy, runs, p) {
          OnlyOneLeft(info, log, rs, k, i, Shr(p.offset, log));
        }
      }
    }
  }

  /** No node inside a fragment in use is written, except perhaps the one being released. */
  ghost predicate NodesKept(info: seq<Info>, busy: map<nat, nat>, runs: seq<seq<Run>>, link: Links, link': Links, freed: Ptr) {
    forall p: Ptr :: p in link && p.At? && p != freed && IsLive(info, busy, runs, p) ==> p in link' && link'[p] == link[p]
  }

  /** Linking `p` between two neighbours touches nodes of its own size only. */
  lemma LinkInNodes(info: seq<Info>, busy: map<nat, nat>, runs: seq<seq<Run>>, link: Links, log: nat, p: Ptr, before: Ptr, after: Ptr)
    requires before in link && before != p && (after != Null ==> after in link)
    requires IsNodeOf(info, busy, log, p)
    requires before == Head(log) || (IsNodeOf(info, busy, log, before) && !IsLive(info, busy, runs, before))
    requires after == Null || (IsNodeOf(info, busy, log, after) && !IsLive(info, busy, runs, after))
    ensures var link' := LinkIn(link, p, before, after);
            && (forall q: Ptr :: q in link ==> q in link' && (link'[q] == link[q] || q == Head(log) || IsNodeOf(info, busy, log, q)))
            && NodesKept(info, busy, runs, link, link', p)
  {
  }

  lemma FreeNode(info: seq<Info>, busy: map<nat, nat>, link: Links, log: nat, rs: seq<Run>, count: nat, runs: seq<seq<Run>>, counts: seq<nat>, j: nat)
    requires FragsOk(info, busy, link, counts, runs) && IsLog(log) && runs[log] == rs && counts[log] == count && j <= |Flat(log, rs)|
    ensures var q := After(Flat(log, rs), j); q == Null || (IsNodeOf(info, busy, log, q) && !IsLive(info, busy, runs, q))
  {
    if j < |Flat(log, rs)| {
      NodeOfBlock(info, busy, link, log, rs, count, j);
      ListNodesNotLive(info, busy, link, runs, counts, log);
    }
  }

  lemma PushNodes(info: seq<Info>, busy: map<nat, nat>, link: Links, log: nat, rs: seq<Run>, count: nat, p: Ptr, runs: seq<seq<Run>>, counts: seq<nat>)
    requires FragsOk(info, busy, link, counts, runs) && IsLog(log) && runs[log] == rs && counts[log] == count
    requires IsNodeOf(info, busy, log, p)
    ensures Head(log) in link && link[Head(log)].next == After(Flat(log, rs), 0)
    ensures var after := After(Flat(log, rs), 0);
            && (after != Null ==> after in link)
            && var link' := LinkIn(link, p, Head(log), after);
            && (forall q: Ptr :: q in link ==> q in link' && (link'[q] == link[q] || q == Head(log) || IsNodeOf(info, busy, log, q)))
            && NodesKept(info, busy, runs, link, link', p)
  {
    hide LinkIn, NodesKept, Flat;
    BeforeAfter(link, log, Flat(log, rs), 0);
    FreeNode(info, busy, link, log, rs, count, runs, counts, 0);
    LinkInNodes(info, busy, runs, link, log, p, Head(log), After(Flat(log, rs), 0));
  }

  lemma JoinNodes(info: seq<Info>, busy: map<nat, nat>, link: Links, log: nat, rs: seq<Run>, count: nat, k: nat, p: Ptr, runs: seq<seq<Run>>, counts: seq<nat>)
    requires FragsOk(info, busy, link, counts, runs) && IsLog(log) && runs[log] == rs && counts[log] == count
    requires IsNodeOf(info, busy, log, p) && k < |rs| && rs[k].idx != [] && IsLive(info, busy, runs, p)
    ensures var L := Flat(log, rs);
            var s := StartOf(log, rs, k);
            && s < |L| && L[s] in link && L[s] != p && L[s] == FragAt(log, rs[k].block, rs[k].idx[0])
            && link[L[s]].next == After(L, s + 1)
            && (After(L, s + 1) != Null ==> After(L, s + 1) in link)
            && var link' := LinkIn(link, p, L[s], After(L, s + 1));
            && (forall q: Ptr :: q in link ==> q in link' && (link'[q] == link[q] || q == Head(log) || IsNodeOf(info, busy, log, q)))
            && NodesKept(info, busy, runs, link, link', p)
  {
    hide LinkIn, NodesKept, Flat, StartOf;
    FlatJoined(log, rs, k, 0);
    var L := Flat(log, rs);
    var s := StartOf(log, rs, k);
    BeforeAfter(link, log, L, s + 1);
    FreeNode(info, busy, link, log, rs, count, runs, counts, s);
    FreeNode(info, busy, link, log, rs, count, runs, counts, s + 1);
    LinkInNodes(info, busy, runs, link, log, p, L[s], After(L, s + 1));
  }

  lemma ReleaseNodes(info: seq<Info>, busy: map<nat, nat>, link: Links, log: nat, rs: seq<Run>, count: nat, k: nat, runs: seq<seq<Run>>, counts: seq<nat>)
    requires FragsOk(info, busy, link, counts, runs) && IsLog(log) && runs[log] == rs && counts[log] == count
    requires k < |rs| && rs[k].idx != []
    ensures var L := Flat(log, rs);
            var s := StartOf(log, rs, k);
            var e := s + |rs[k].idx|;
            && IsList(link, log, L)
            && e <= |L| && L[s] in link && L[s] == FragAt(log, rs[k].block, rs[k].idx[0])
            && link[L[s]].prev == Before(log, L, s) && Before(log, L, s) in link && (After(L, e) != Null ==> After(L, e) in link)
            && var link' := LinkOut(link, Before(log, L, s), After(L, e));
            && (forall q: Ptr :: q in link ==> q in link' && (link'[q] == link[q] || q == Head(log) || IsNodeOf(info, busy, log, q)))
            && LiveNodesKept(info, busy, runs, link, link')
  {
    hide LinkOut, LiveNodesKept, Flat, StartOf;
    FlatReleased(log, rs, k);
    var L := Flat(log, rs);
    var s := StartOf(log, rs, k);
    var e := s + |rs[k].idx|;
    BeforeAfter(link, log, L, s);
    BeforeAfter(link, log, L, e);
    FreeNode(info, busy, link, log, rs, count, runs, counts, e);
    if s > 0 {
      FreeNode(info, busy, link, log, rs, count, runs, counts, s - 1);
      assert Threaded(link, log, L, s - 1);
    }
    LinkOutNodes(info, busy, runs, link, log, Before(log, L, s), After(L, e));
  }

  lemma LinkOutNodes(info: seq<Info>, busy: map<nat, nat>, runs: seq<seq<Run>>, link: Links, log: nat, before: Ptr, after: Ptr)
    requires before in link && (after != Null ==> after in link)
    requires before == Head(log) || (IsNodeOf(info, busy, log, before) && !IsLive(info, busy, runs, before))
    requires after == Null || (IsNodeOf(info, busy, log, after) && !IsLive(info, busy, runs, after))
    ensures var link' := LinkOut(link, before, after);
            && (forall q: Ptr :: q in link ==> q in link' && (link'[q] == link[q] || q == Head(log) || IsNodeOf(info, busy, log, q)))
            && LiveNodesKept(info, busy, runs, link, link')
  {
  }

  lemma NodesKeptButLive(info: seq<Info>, busy: map<nat, nat>, runs: seq<seq<Run>>, link: Links, link': Links, p: Ptr)
    requires LiveNodesKept(info, busy, runs, link, link')
    ensures NodesKept(info, busy, runs, link, link', p)
  {
  }

  // ----- Sizes -----

  const MAX_REQUEST := WORD_LIMIT - BLOCKSIZE

  /** `BLOCKIFY` in 32-bit arithmetic. */
  function Blockify(size: nat): nat {
    (size + BLOCKSIZE - 1) % WORD_LIMIT / BLOCKSIZE
  }

  /** The rounding wraps to zero for requests in the last page of the address range, and only for those. */
  lemma BlockifyCovers(size: nat)
    requires size < WORD_LIMIT
    ensures Blockify(size) * BLOCKSIZE >= size <==> size <= MAX_REQUEST
    ensures 0 < size <= MAX_REQUEST ==> 0 < Blockify(size) && (Blockify(size) - 1) * BLOCKSIZE < size
    ensures size == 0 || size > MAX_REQUEST ==> Blockify(size) == 0
  {
  }

  lemma {:induction false} ShrZero(x: nat, n: nat)
    ensures Shr(x, n) == 0 <==> x < Shl(1, n)
  {
    if n > 0 {
      ShrZero(x / 2, n - 1);
    }
  }

  lemma {:induction false} ShrStep(x: nat, n: nat)
    ensures Shr(x, n + 1) == Shr(x, n) / 2
  {
    if n > 0 {
      ShrStep(x / 2, n - 1);
    }
  }

  /** The allocation at `p` is as malloc.c:131-139 and 189 size it: at least `size` bytes, for small
      requests the least power of two (not below 8), for large ones the fewest whole blocks. */
  ghost predicate RightSize(info: seq<Info>, p: Ptr, size: nat)
    requires p.At? && p.block < |info|
  {
    if size <= BLOCKSIZE / 2 then
      && info[p.block].Frag?
      && var log := info[p.block].log;
         && log > 0 && size <= Shl(1, log) && 8 <= Shl(1, log)
         && (Shl(1, log) > 8 ==> Shl(1, log - 1) < size)
    else
      && info[p.block].Busy?
      && (info[p.block].blocks - 1) * BLOCKSIZE < size <= info[p.block].blocks * BLOCKSIZE
  }

  /** All bytes of a request are the allocation's own, which is less than twice as long or a page longer. */
  lemma RequestFits(info: seq<Info>, p: Ptr, size: nat)
    requires p.At? && p.block < |info| && RightSize(info, p, size) && size > 0
    ensures size <= SizeAt(info, p)
    ensures if size <= 2048 then SizeAt(info, p) == 8 || SizeAt(info, p) < 2 * size else SizeAt(info, p) < size + 4096
  {
    if size <= 2048 {
      var log := info[p.block].log;
      assert Shl(1, log) == 2 * Shl(1, log - 1);
    }
  }

  /** Allocated blocks keep their kind: a cluster its extent, a cut block its fragment size. */
  ghost predicate KindsKept(info: seq<Info>, info': seq<Info>, busy: map<nat, nat>) {
    forall b :: b in busy ==> b < |info| && b < |info'| && SameKind(info[b], info'[b])
  }

  predicate SameKind(e: Info, e': Info) {
    e == e' || (e.Frag? && e'.Frag? && e.log == e'.log)
  }

  lemma {:induction false} SmallestPower(x: nat, log: nat)
    requires log > 0 && Shr(x, log) == 0 && Shr(x, log - 1) != 0
    ensures Shl(1, log - 1) < x + 1 <= Shl(1, log)
  {
    ShrZero(x, log);
    ShrZero(x, log - 1);
  }

  /** Two allocations never overlap, and none passes the break. */
  lemma LiveRegionsDisjoint(info: seq<Info>, fl: seq<Cluster>, busy: map<nat, nat>, table: Cluster, brk: nat,
                            link: Links, counts: seq<nat>, runs: seq<seq<Run>>, p: Ptr, q: Ptr)
    requires Sound(info, fl, busy, table, brk) && FragsOk(info, busy, link, counts, runs)
    requires IsLive(info, busy, runs, p) && IsLive(info, busy, runs, q)
    ensures p != q ==> Address(p) + SizeAt(info, p) <= Address(q) || Address(q) + SizeAt(info, q) <= Address(p)
    ensures 0 <= Address(p) && SizeAt(info, p) > 0 && Address(p) + SizeAt(info, p) <= (brk - 1) * BLOCKSIZE
  {
    hide LogOk, IsRing, Rep, FreeBusyApart, FreeBounded, IsOrdered;
    WithinBlock(info, busy, link, counts, runs, p);
    WithinBlock(info, busy, link, counts, runs, q);
    if p.block != q.block {
      assert Apart(Region(busy, p.block), Region(busy, q.block));
    } else if p != q {
      var log := info[p.block].log;
      var i, j := Shr(p.offset, log), Shr(q.offset, log);
      if i < j { ShlMonotone(i, j, log); } else if j < i { ShlMonotone(j, i, log); }
    }
  }

  lemma WithinBlock(info: seq<Info>, busy: map<nat, nat>, link: Links, counts: seq<nat>, runs: seq<seq<Run>>, p: Ptr)
    requires FragsOk(info, busy, link, counts, runs) && IsLive(info, busy, runs, p)
    requires BusyEntry(info[p.block], busy[p.block]) && busy[p.block] > 0
    ensures p.At? && 0 < SizeAt(info, p) && p.offset + SizeAt(info, p) <= busy[p.block] * BLOCKSIZE
  {
    hide LogOk;
    if info[p.block].Frag? {
      LiveFragment(info, busy, link, counts, runs, p);
      IndexOfFrag(info[p.block].log, Shr(p.offset, info[p.block].log));
      FragmentsFillBlock(info[p.block].log);
    }
  }

  /** A cluster gives way to another, perhaps overlapping one. */
  lemma FragsAfterMove(info: seq<Info>, info': seq<Info>, busy: map<nat, nat>, link: Links, counts: seq<nat>, runs: seq<seq<Run>>, b: nat, r: nat, n: nat)
    requires FragsOk(info, busy, link, counts, runs)
    requires (forall c :: c in busy ==> c < |info|) && BusyEntriesKept(info, info', busy - {b})
    requires b in busy && info[b].Busy? && r !in busy - {b} && r < |info'| && info'[r] == Busy(n)
    ensures FragsOk(info', (busy - {b})[r := n], link, counts, runs)
    ensures forall p :: IsLive(info', (busy - {b})[r := n], runs, p) <==> (IsLive(info, busy, runs, p) && p != At(b, 0)) || p == At(r, 0)
  {
    FragsAfterFree(info, info, busy, link, counts, runs, b);
    FragsAfterAlloc(info, info', busy - {b}, link, counts, runs, r, n);
  }

  lemma ShrBase(x: nat)
    ensures Shr(x, 0) == x && Shr(x, 1) == x / 2
  {
  }

  lemma LogInRange(size: nat, log: nat)
    requires 8 <= size <= BLOCKSIZE / 2 && log > 0 && Shl(1, log - 1) < size <= Shl(1, log)
    ensures IsLog(log)
  {
    assert Shl(1, 2) == 4;
    BlockSizeIsShift();
    assert Shl(1, 12) == 2 * Shl(1, 11);
    if log < 3 {
      ShlAtLeast(log, 2);
    }
    if log > 11 {
      ShlAtLeast(11, log - 1);
    }
  }

  lemma SmallRightSize(info: seq<Info>, p: Ptr, size: nat, want: nat, log: nat)
    requires p.At? && p.block < |info| && info[p.block].Frag? && info[p.block].log == log
    requires IsLog(log) && want == (if size < 8 then 8 else size) <= BLOCKSIZE / 2 && Shl(1, log - 1) < want <= Shl(1, log)
    ensures RightSize(info, p, size)
  {
    if size < 8 && log > 3 {
      ShlAtLeast(3, log - 1);
    }
    FragmentsFillBlock(log);
  }

  lemma KindsFromEdit(info: seq<Info>, busy: map<nat, nat>, b: nat, e: Info)
    requires (forall c :: c in busy ==> c < |info|) && b < |info| && SameKind(info[b], e)
    ensures KindsKept(info, info[b := e], busy)
  {
  }

  lemma KindsFromSame(info: seq<Info>, busy: map<nat, nat>)
    requires forall c :: c in busy ==> c < |info|
    ensures KindsKept(info, info, busy)
  {
  }

  lemma KindsFromEntries(info: seq<Info>, info': seq<Info>, busy: map<nat, nat>)
    requires (forall b :: b in busy ==> b < |info|)
    ensures BusyEntriesKept(info, info', busy) ==> KindsKept(info, info', busy)
  {
  }

  // ----- Moving an allocation -----

  /** Of the pointers in use `ptr` gave way to `result`; the others kept their extent. */
  ghost predicate Moved(info: seq<Info>, busy: map<nat, nat>, runs: seq<seq<Run>>,
                        info': seq<Info>, busy': map<nat, nat>, runs': seq<seq<Run>>, ptr: Ptr, result: Ptr) {
    forall p: Ptr ::
      && (IsLive(info', busy', runs', p) <==> (IsLive(info, busy, runs, p) && p != ptr) || p == result)
      && (IsLive(info, busy, runs, p) && p != ptr && p != result ==>
            p.At? && p.block < |info| && p.block < |info'| && SizeAt(info', p) == SizeAt(info, p))
  }

  /** The first `n` bytes from `src` are at `dst`, and no byte outside `[dst, dst + n)` changed. */
  ghost predicate Copied(mem: int -> int, mem': int -> int, src: int, dst: int, n: nat) {
    forall a :: CopiedAt(mem, mem', src, dst, n, a)
  }

  ghost predicate CopiedAt(mem: int -> int, mem': int -> int, src: int, dst: int, n: nat, a: int) {
    mem'(a) == if dst <= a < dst + n then mem(src + (a - dst)) else mem(a)
  }

  /** The bytes from `src` on appear at `dst` as well, also where the two places overlap. */
  function Overlaid(mem: int -> int, src: int, dst: int, n: nat): int -> int {
    a => if dst <= a < dst + n then mem(src + (a - dst)) else mem(a)
  }

  lemma OverlaidAt(mem: int -> int, src: int, dst: int, n: nat, a: int)
    ensures CopiedAt(mem, Overlaid(mem, src, dst, n), src, dst, n, a)
  {
  }

  lemma OverlaidCopies(mem: int -> int, src: int, dst: int, n: nat)
    ensures Copied(mem, Overlaid(mem, src, dst, n), src, dst, n)
  {
    hide Overlaid, CopiedAt;
    forall a
      ensures CopiedAt(mem, Overlaid(mem, src, dst, n), src, dst, n, a)
    {
      OverlaidAt(mem, src, dst, n, a);
    }
  }

  lemma StillRightSize(info': seq<Info>, info: seq<Info>, busy': map<nat, nat>, runs': seq<seq<Run>>, p: Ptr, size: nat)
    requires IsLive(info', busy', runs', p) && KindsKept(info, info', busy')
    requires p.At? && p.block < |info| && RightSize(info, p, size)
    ensures RightSize(info', p, size)
  {
  }

  lemma MovedFromKinds(info: seq<Info>, busy: map<nat, nat>, runs: seq<seq<Run>>,
                       info1: seq<Info>, busy1: map<nat, nat>, runs1: seq<seq<Run>>,
                       info2: seq<Info>, busy2: map<nat, nat>, runs2: seq<seq<Run>>, ptr: Ptr, result: Ptr)
    requires KindsKept(info, info1, busy) && KindsKept(info1, info2, busy2)
    requires forall p :: IsLive(info1, busy1, runs1, p) <==> IsLive(info, busy, runs, p) || p == result
    requires forall p :: IsLive(info2, busy2, runs2, p) <==> IsLive(info1, busy1, runs1, p) && p != ptr
    requires ptr != result
    ensures Moved(info, busy, runs, info2, busy2, runs2, ptr, result)
  {
    hide IsLive;
    forall p: Ptr
      ensures IsLive(info2, busy2, runs2, p) <==> (IsLive(info, busy, runs, p) && p != ptr) || p == result
      ensures IsLive(info, busy, runs, p) && p != ptr && p != result ==>
                p.At? && p.block < |info| && p.block < |info2| && SizeAt(info2, p) == SizeAt(info, p)
    {
      if IsLive(info, busy, runs, p) && p != ptr {
        assert IsLive(info2, busy2, runs2, p);
        LiveInBusy(info, busy, runs, p);
        LiveInBusy(info2, busy2, runs2, p);
        assert SameKind(info[p.block], info1[p.block]) && SameKind(info1[p.block], info2[p.block]);
      }
    }
  }

  lemma LiveInBusy(info: seq<Info>, busy: map<nat, nat>, runs: seq<seq<Run>>, p: Ptr)
    requires IsLive(info, busy, runs, p)
    ensures p.At? && p.block in busy && p.block < |info|
  {
  }

  /** The same pointers are in use, with the same extents. */
  ghost predicate Unmoved(info: seq<Info>, info': seq<Info>, busy: map<nat, nat>, runs: seq<seq<Run>>) {
    forall p: Ptr :: (IsLive(info', busy, runs, p) <==> IsLive(info, busy, runs, p))
                     && (IsLive(info, busy, runs, p) ==> p.At? && p.block < |info| && p.block < |info'| && SizeAt(info', p) == SizeAt(info, p))
  }

  lemma UnmovedFromEntries(info: seq<Info>, info': seq<Info>, busy: map<nat, nat>, runs: seq<seq<Run>>, b: nat)
    requires BusyEntriesKept(info, info', busy - {b}) && b < |info| && info'[b] == info[b]
    requires forall c :: c in busy ==> c < |info|
    ensures Unmoved(info, info', busy, runs)
  {
    forall p: Ptr
      ensures IsLive(info', busy, runs, p) <==> IsLive(info, busy, runs, p)
      ensures IsLive(info, busy, runs, p) ==> p.At? && p.block < |info| && p.block < |info'| && SizeAt(info', p) == SizeAt(info, p)
    {
      assert p.At? && p.block in busy ==> info'[p.block] == info[p.block];
    }
  }

  lemma MovedFromEntries(info: seq<Info>, busy: map<nat, nat>, info': seq<Info>, busy': map<nat, nat>, runs: seq<seq<Run>>, b: nat, r: nat, n: nat)
    requires BusyEntriesKept(info, info', busy - {b}) && b in busy && b < |info| && info[b].Busy?
    requires forall c :: c in busy ==> c < |info|
    requires r !in busy - {b} && busy' == (busy - {b})[r := n] && r < |info'| && info'[r] == Busy(n)
    ensures Moved(info, busy, runs, info', busy', runs, At(b, 0), At(r, 0))
  {
    forall p: Ptr
      ensures IsLive(info', busy', runs, p) <==> (IsLive(info, busy, runs, p) && p != At(b, 0)) || p == At(r, 0)
      ensures IsLive(info, busy, runs, p) && p != At(b, 0) && p != At(r, 0) ==>
                p.At? && p.block < |info| && p.block < |info'| && SizeAt(info', p) == SizeAt(info, p)
    {
      assert p.At? && p.block in busy - {b} ==> info'[p.block] == info[p.block];
    }
  }

  lemma NothingCopied(mem: int -> int, at: int)
    ensures Copied(mem, mem, at, at, 0)
  {
  }

  lemma SameCopied(mem: int -> int, at: int, n: nat)
    ensures Copied(mem, mem, at, at, n)
  {
  }

  /** The first `keep` bytes from `src` are at `dst`; no byte outside the `room` bytes at `dst` changed. */
  ghost predicate ContentsKept(mem: int -> int, mem': int -> int, src: int, dst: int, keep: nat, room: nat) {
    forall a :: ByteKept(mem, mem', src, dst, keep, room, a)
  }

  ghost predicate ByteKept(mem: int -> int, mem': int -> int, src: int, dst: int, keep: nat, room: nat, a: int) {
    && (src <= a < src + keep ==> mem'(dst + (a - src)) == mem(a))
    && (!(dst <= a < dst + room) ==> mem'(a) == mem(a))
  }

  lemma CopiedKeepsAt(mem: int -> int, mem': int -> int, src: int, dst: int, n: nat, keep: nat, room: nat, a: int)
    requires CopiedAt(mem, mem', src, dst, n, a) && CopiedAt(mem, mem', src, dst, n, dst + (a - src)) && keep <= n <= room
    ensures ByteKept(mem, mem', src, dst, keep, room, a)
  {
  }

  lemma CopiedKeeps(mem: int -> int, mem': int -> int, src: int, dst: int, n: nat, keep: nat, room: nat)
    ensures Copied(mem, mem', src, dst, n) && keep <= n <= room ==> ContentsKept(mem, mem', src, dst, keep, room)
  {
    hide CopiedAt, ByteKept;
    if Copied(mem, mem', src, dst, n) && keep <= n <= room {
      forall a
        ensures ByteKept(mem, mem', src, dst, keep, room, a)
      {
        CopiedKeepsAt(mem, mem', src, dst, n, keep, room, a);
      }
    }
  }

  lemma CopiedKeepsBlocks(mem: int -> int, mem': int -> int, src: int, dst: int, size: nat, have: nat, room: nat)
    ensures Copied(mem, mem', src, dst, if Blockify(size) <= have then 0 else have * BLOCKSIZE)
            && (Blockify(size) <= have ==> src == dst) && (Blockify(size) > have ==> have * BLOCKSIZE <= room)
            ==> ContentsKept(mem, mem', src, dst, Least(size, have * BLOCKSIZE), room)
  {
    hide CopiedAt, ByteKept;
    var n := if Blockify(size) <= have then 0 else have * BLOCKSIZE;
    if Copied(mem, mem', src, dst, n) && src == dst {
      forall a
        ensures ByteKept(mem, mem', src, src, Least(size, have * BLOCKSIZE), room, a)
      {
        assert CopiedAt(mem, mem', src, src, n, a);
        KeptInPlace(mem, mem', src, n, Least(size, have * BLOCKSIZE), room, a);
      }
    }
    CopiedKeeps(mem, mem', src, dst, n, Least(size, have * BLOCKSIZE), room);
  }

  lemma KeptInPlace(mem: int -> int, mem': int -> int, at: int, n: nat, keep: nat, room: nat, a: int)
    requires CopiedAt(mem, mem', at, at, n, a)
    ensures ByteKept(mem, mem', at, at, keep, room, a)
  {
  }

  lemma UnmovedSame(info: seq<Info>, busy: map<nat, nat>, runs: seq<seq<Run>>)
    ensures Unmoved(info, info, busy, runs)
  {
  }

  lemma MovedNowhere(info: seq<Info>, busy: map<nat, nat>, runs: seq<seq<Run>>, p: Ptr)
    requires IsLive(info, busy, runs, p)
    ensures Moved(info, busy, runs, info, busy, runs, p, p)
  {
  }

  lemma FragmentIsSmall(log: nat)
    requires IsLog(log)
    ensures 8 <= Shl(1, log) <= BLOCKSIZE / 2
  {
    FragmentsFillBlock(log);
    ShlAtLeast(log, 11);
    BlockSizeIsShift();
    assert Shl(1, 12) == 2 * Shl(1, 11);
  }

  lemma SameKindSize(info: seq<Info>, p: Ptr, size: nat)
    requires p.At? && p.block < |info| && info[p.block].Frag? && IsLog(info[p.block].log)
    requires Shl(1, info[p.block].log - 1) < size <= Shl(1, info[p.block].log)
    ensures RightSize(info, p, size)
  {
    FragmentIsSmall(info[p.block].log);
  }

  /** No free cluster is large enough. */
  ghost predicate NothingFits(fl: seq<Cluster>, blocks: nat) {
    forall j :: 0 <= j < |fl| ==> fl[j].size < blocks
  }

  /** Nothing that is free is good enough for the request. */
  ghost predicate NoPlace(fl: seq<Cluster>, runs: seq<seq<Run>>, size: nat) {
    if size <= BLOCKSIZE / 2 then NothingFits(fl, 1) && NoFragment(runs, size) else NothingFits(fl, Blockify(size))
  }

  /** An allocation of the new size would be just such a fragment, or no longer a cluster. */
  predicate FitsWhereItIs(e: Info, size: nat) {
    match e
    case Busy(have) => size > 2048 && size <= have * 4096
    case Frag(log, _, _) => log > 0 && Shl(1, log - 1) < size <= Shl(1, log)
    case _ => false
  }

  /** The blocks that are needed then. */
  function BlocksFor(size: nat): nat {
    if size <= BLOCKSIZE / 2 then 1 else Blockify(size)
  }

  /** No fragment of the size for such a request is free. */
  ghost predicate NoFragment(runs: seq<seq<Run>>, size: nat) {
    exists log: nat :: IsLog(log) && log < |runs| && (Shl(1, log) == 8 || Shl(1, log - 1) < size) && size <= Shl(1, log) && runs[log] == []
  }

  lemma NoFragmentFor(runs: seq<seq<Run>>, size: nat, want: nat, log: nat)
    requires IsLog(log) && want == (if size < 8 then 8 else size) && Shl(1, log - 1) < want <= Shl(1, log)
    requires log < |runs| && runs[log] == []
    ensures NoFragment(runs, size)
  {
    assert Shl(1, 3) == 8;
    if size < 8 && log > 3 {
      ShlAtLeast(3, log - 1);
    }
  }

  /** An allocation in block `b` took no block, or it took a new cluster there and every other block is where it was. */
  ghost predicate Accounted(fl: seq<Cluster>, table: Cluster, brk: nat, busy: map<nat, nat>,
                            fl': seq<Cluster>, table': Cluster, brk': nat, busy': map<nat, nat>, b: nat) {
    if b in busy then fl' == fl && table' == table && brk' == brk && busy' == busy
    else
      && b in busy' && busy' == busy[b := busy'[b]] && brk <= brk' && (table' == table || brk <= table'.start)
      && Conserved(fl, fl', table, table', brk, brk', Cluster(b, busy'[b]))
  }

  /** Freeing in block `b` kept the block, or its cluster is free now as far as it still lies below the break. */
  ghost predicate GivenBack(fl: seq<Cluster>, brk: nat, busy: map<nat, nat>, fl': seq<Cluster>, brk': nat, busy': map<nat, nat>, b: nat) {
    if b in busy' then fl' == fl && brk' == brk && busy' == busy
    else
      && b in busy && busy' == busy - {b} && brk' <= brk
      && (forall x :: IsFree(fl', x) <==> (IsFree(fl, x) || Has(Region(busy, b), x)) && x < brk')
      && (brk' < brk ==> forall x :: brk' <= x < brk ==> IsFree(fl, x) || Has(Region(busy, b), x))
  }

  lemma BalancedByMalloc(info: seq<Info>, fl: seq<Cluster>, table: Cluster, brk: nat, busy: map<nat, nat>,
                         info': seq<Info>, fl': seq<Cluster>, table': Cluster, brk': nat, busy': map<nat, nat>, b: nat)
    requires Sound(info, fl, busy, table, brk) && Sound(info', fl', busy', table', brk')
    requires Accounted(fl, table, brk, busy, fl', table', brk', busy', b)
    ensures Balanced(fl, busy, table, brk, fl', busy', table', brk')
  {
    hide Sound, Conserved, Balanced;
    if b in busy {
      BalancedSame(info, fl, busy, table, brk);
    } else {
      BalancedAlloc(info, info', fl, busy, table, brk, fl', table', brk', b, busy'[b]);
    }
  }

  lemma BalancedByFree(info: seq<Info>, fl: seq<Cluster>, table: Cluster, brk: nat, busy: map<nat, nat>,
                       info': seq<Info>, fl': seq<Cluster>, brk': nat, busy': map<nat, nat>, b: nat)
    requires Sound(info, fl, busy, table, brk) && Sound(info', fl', busy', table, brk')
    requires GivenBack(fl, brk, busy, fl', brk', busy', b)
    ensures Balanced(fl, busy, table, brk, fl', busy', table, brk')
  {
    hide Sound, Balanced, Owned;
    AllOwnedBelow(info, fl, busy, table, brk);
    if b in busy' {
      BalancedSame(info, fl, busy, table, brk);
    } else {
      BalancedFree(info', fl, busy, table, brk, b, fl', brk');
    }
  }

  /** The blocks are below the break, but no part of the heap. */
  ghost predicate NobodyHas(heap: Heap, c: Cluster)
    reads heap
  {
    forall x :: Has(c, x) ==> x < heap.brk && !Owned(heap.fl, heap.busy, heap.table, x)
  }

  /** A whole-block allocation. */
  predicate WholeBlocks(info: seq<Info>, p: Ptr) {
    p.At? && p.block < |info| && info[p.block].Busy?
  }

  lemma GivesClusterKept(info: seq<Info>, info': seq<Info>, busy: map<nat, nat>, counts: seq<nat>, p: Ptr)
    requires (forall c :: c in busy ==> c < |info|) && BusyEntriesKept(info, info', busy) && p.At? && p.block in busy
    ensures GivesCluster(info', counts, p) <==> GivesCluster(info, counts, p)
  {
  }

  /** Freeing `p` gives a whole cluster back, its own or the block whose last fragment it is. */
  ghost predicate GivesCluster(info: seq<Info>, counts: seq<nat>, p: Ptr) {
    p.At? && p.block < |info| && match info[p.block] {
      case Frag(log, nfree, _) => nfree == PerBlock(log) - 1 && log < |counts| && counts[log] > 1
      case _ => true
    }
  }

  class Allocator {
    const core: Heap
    /** The nodes of free fragments, and the list heads `_fraghead`. */
    var link: Links
    /** `_fragblocks` */
    var fragblocks: seq<nat>
    /** The bytes of the heap. */
    var mem: int -> int
    ghost var runs: seq<seq<Run>>

    ghost predicate Valid()
      reads this, core
    {
      core.Valid() && FragsOk(core.info, core.busy, link, fragblocks, runs)
    }

    /** What also holds while no ring is threaded through the table. */
    ghost predicate Consistent()
      reads this, core
    {
      FragsOk(core.info, core.busy, link, fragblocks, runs) && BusyOk(core.info, core.busy, core.brk)
    }

    constructor (base: nat, pages: nat)
      requires base + 1 + TableBlocks(HEAP_ENTRIES) < KERNEL_PAGES
      ensures Valid() && fresh(core) && core.base == base && core.pages == pages && core.heapindex == 0 && core.fl == [Cluster(0, 0)]
      ensures forall p :: !IsLive(core.info, core.busy, runs, p)
    {
      core := new Heap(base, pages);
      link := map log: nat | log < SIZES :: Head(log) := Node(Null, Null);
      fragblocks := seq(SIZES, _ => 0);
      mem := a => 0;
      runs := seq(SIZES, _ => []);
      new;
      forall log: nat | IsLog(log)
        ensures LogOk(core.info, core.busy, link, log, runs[log], fragblocks[log])
      {
        assert Flat(log, []) == [];
        assert BlocksOfSize(core.info, core.busy, log) == {};
      }
    }

    /** Somebody else takes blocks from the system between two calls; all allocations stay as they are. */
    method BreakMoved(n: nat, left: nat)
      requires Valid() && core.base + core.brk + n < KERNEL_PAGES
      modifies core`brk, core`pages
      ensures Valid() && core.brk == old(core.brk) + n && core.pages == left
    {
      hide FragsOk;
      core.BreakMoved(n, left);
    }

    /** malloc.c:144-156: the first fragment of a non-empty list. */
    method PopFragment(log: nat) returns (result: Ptr)
      requires Valid() && IsLog(log) && Head(log) in link && link[Head(log)].next != Null
      modifies this`link, this`runs, core`info
      ensures Valid() && core.busy == old(core.busy)
      ensures result.At? && result.block in core.busy && result.block < |core.info| && KindsKept(old(core.info), core.info, core.busy)
      ensures core.info[result.block].Frag? && core.info[result.block].log == log
      ensures forall p :: IsLive(core.info, core.busy, runs, p) <==> IsLive(old(core.info), old(core.busy), old(runs), p) || p == result
      ensures !IsLive(old(core.info), old(core.busy), old(runs), result)
      ensures LiveNodesKept(old(core.info), old(core.busy), old(runs), old(link), link)
    {
      hide LogOk, Flat, RunPtrs, RunsOk, Sound, IsLive, Popped, OthersKept, IsRing, OnRing, Shl, Shr;
      ghost var rs := runs[log];
      ListNodesNotLive(core.info, core.busy, link, runs, fragblocks, log);
      HeadOfList(core.info, core.busy, link, log, rs, fragblocks[log]);
      FirstFragment(core.info, core.busy, link, log, rs, fragblocks[log]);
      PopKeepsLog(core.info, core.busy, link, log, rs, fragblocks[log]);
      var next := link[Head(log)].next;
      result := next;
      link := LinkOut(link, link[next].prev, link[next].next);
      var block := next.block;
      BusyEntryIs(core.info, core.fl, core.busy, core.table, core.brk, block);
      var e := core.info[block];
      BusyInTable(core.info, core.fl, core.busy, core.table, core.brk);
      var first := if e.nfree - 1 > 0 then Shr(link[next].next.offset, log) else e.first;
      ghost var info' := PoppedInfo(core.info, log, rs);
      if |rs[0].idx| > 1 { ShrShl(rs[0].idx[1], log); }
      OthersKeptAt(core.info, core.busy, old(link), link, log, block, Frag(log, e.nfree - 1, first));
      FragsAfterStep(core.info, info', core.busy, core.busy, old(link), link, fragblocks, runs, log, fragblocks[log], Popped(rs));
      LiveAfterPop(core.info, core.busy, runs, log);
      SoundBusyOk(core.info, core.fl, core.busy, core.table, core.brk);
      core.SetEntry(block, Frag(log, e.nfree - 1, first));
      assert core.info == info';
      assert fragblocks[log := fragblocks[log]] == fragblocks;
      runs := runs[log := Popped(rs)];
    }

    /** malloc.c:158-182: cuts a new block into fragments and keeps the first. */
    method CutBlock(log: nat) returns (result: Ptr)
      requires Valid() && IsLog(log) && Head(log) in link && link[Head(log)].next == Null
      modifies this`link, this`runs, this`fragblocks, core
      ensures Valid()
      ensures result == Null ==> core.info == old(core.info) && core.busy == old(core.busy) && core.fl == old(core.fl) && runs == old(runs) && link == old(link)
      ensures result == Null ==> NothingFits(core.fl, 1) && core.table == old(core.table) && core.brk == old(core.brk) && !old(core.Ample(1))
      ensures result != Null ==> old(core.brk) <= core.brk && (core.table == old(core.table) || old(core.brk) <= core.table.start)
      ensures result != Null ==> result.At? && Conserved(old(core.fl), core.fl, old(core.table), core.table, old(core.brk), core.brk, Cluster(result.block, 1))
      ensures result != Null ==>
                && result.At? && result.block !in old(core.busy) && core.busy == old(core.busy)[result.block := 1]
                && BusyEntriesKept(old(core.info), core.info, old(core.busy))
                && result.block < |core.info| && core.info[result.block].Frag? && core.info[result.block].log == log
                && (forall p :: IsLive(core.info, core.busy, runs, p) <==> IsLive(old(core.info), old(core.busy), old(runs), p) || p == result)
                && !IsLive(old(core.info), old(core.busy), old(runs), result)
                && LiveNodesKept(old(core.info), old(core.busy), old(runs), old(link), link)
    {
      hide LogOk, Flat, RunPtrs, RunsOk, Sound, IsLive, OthersKept, IsRing, OnRing, Shl, Shr, Conserved, Taken, IsList, FragAt, PerBlock;
      HeadOfList(core.info, core.busy, link, log, runs[log], fragblocks[log]);
      BusyInTable(core.info, core.fl, core.busy, core.table, core.brk);
      var b := core.AllocCluster(1);
      if b.None? {
        return Null;
      }
      var block := b.value;
      FragsAfterAlloc(old(core.info), core.info, old(core.busy), link, fragblocks, runs, block, 1);
      LiveAfterCut(core.info, core.busy, runs, log, block);
      link := ThreadBlock(log, block);
      var last := PerBlock(log) - 1;
      ghost var rs' := [Run(block, Down(last))];
      ghost var info' := core.info[block := Frag(log, last, last)];
      NewBlockKeepsLog(core.info, core.busy, old(link), link, log, fragblocks[log], block);
      OthersKeptCut(core.info, core.busy, old(link), link, log, block, Frag(log, last, last));
      FragsAfterStep(core.info, info', core.busy, core.busy, old(link), link, fragblocks, runs, log, fragblocks[log] + 1, rs');
      NodesOutsideBlock(old(core.info), old(core.busy), old(runs), old(link), link, log, block);
      fragblocks := fragblocks[log := fragblocks[log] + 1];
      SoundBusyOk(core.info, core.fl, core.busy, core.table, core.brk);
      core.SetEntry(block, Frag(log, last, last));
      runs := runs[log := rs'];
      result := At(block, 0);
    }

    /** malloc.c:168-176: links all fragments of `block` but the first into the empty list. */
    method ThreadBlock(log: nat, block: nat) returns (link': Links)
      requires IsLog(log) && PerBlock(log) >= 2 && IsList(link, log, [])
      ensures IsList(link', log, RunPtrs(log, Run(block, Down(PerBlock(log) - 1))))
      ensures forall p: Ptr :: p in link && p != Head(log) && !(p.At? && p.block == block) ==> p in link' && link'[p] == link[p]
    {
      hide IsList, RunPtrs, PerBlock, Shl;
      link' := link;
      var i := 1;
      assert RunPtrs(log, Run(block, Down(0))) == [];
      while i < PerBlock(log)
        invariant 1 <= i <= PerBlock(log)
        invariant IsList(link', log, RunPtrs(log, Run(block, Down(i - 1))))
        invariant forall p: Ptr :: p in link && p != Head(log) && !(p.At? && p.block == block) ==> p in link' && link'[p] == link[p]
      {
        var next := FragAt(log, block, i);
        ghost var L := RunPtrs(log, Run(block, Down(i - 1)));
        NotYetThreaded(log, block, i);
        RunPtrsDown(log, block, i - 1);
        PushList(link', log, L, next);
        BeforeAfter(link', log, L, 0);
        FirstInBlock(log, block, i - 1);
        link' := LinkIn(link', next, Head(log), link'[Head(log)].next);
        i := i + 1;
      }
    }

    /** free.c:118-131: the first free fragment of its block goes to the front of the list. */
    method PushFragment(p: Ptr, log: nat)
      requires Consistent() && IsLive(core.info, core.busy, runs, p)
      requires core.info[p.block].Frag? && core.info[p.block].log == log && core.info[p.block].nfree == 0
      modifies this`link, this`runs, core`info
      ensures Consistent() && (Valid() <==> old(Valid())) && core.busy == old(core.busy)
      ensures core.info == old(core.info)[p.block := Frag(log, 1, Shr(p.offset, log))]
      ensures forall q :: IsLive(core.info, core.busy, runs, q) <==> IsLive(old(core.info), old(core.busy), old(runs), q) && q != p
      ensures NodesKept(old(core.info), old(core.busy), old(runs), old(link), link, p)
    {
      hide LogOk, Flat, RunPtrs, RunsOk, Sound, IsLive, OthersKept, IsRing, OnRing, Shl, Shr, IsList, PerBlock, InRuns, NodesKept, FragAt, LinkIn;
      LiveFragment(core.info, core.busy, link, fragblocks, runs, p);
      BusyOkInTable(core.info, core.busy, core.brk);
      var block := p.block;
      var i := Shr(p.offset, log);
      ghost var rs := runs[log];
      ghost var e := Frag(log, 1, i);
      PushKeepsLog(core.info, core.busy, link, log, rs, fragblocks[log], block, i);
      PushNodes(core.info, core.busy, link, log, rs, fragblocks[log], p, runs, fragblocks);
      LiveAfterPush(core.info, core.busy, runs, log, block, i);
      link := LinkIn(link, p, Head(log), link[Head(log)].next);
      OthersKeptAt(core.info, core.busy, old(link), link, log, block, e);
      FragsAfterStep(core.info, core.info[block := e], core.busy, core.busy, old(link), link, fragblocks, runs, log, fragblocks[log], [Run(block, [i])] + rs);
      assert fragblocks[log := fragblocks[log]] == fragblocks;
      core.SetEntry(block, Frag(log, 1, i));
      runs := runs[log := [Run(block, [i])] + rs];
    }

    /** free.c:106-116: a fragment goes behind the first free fragment of its block. */
    method JoinFragment(p: Ptr, log: nat)
      requires Consistent() && IsLive(core.info, core.busy, runs, p)
      requires core.info[p.block].Frag? && core.info[p.block].log == log && core.info[p.block].nfree > 0
      requires core.info[p.block].nfree == PerBlock(log) - 1 ==> fragblocks[log] <= 1
      modifies this`link, this`runs, core`info
      ensures Consistent() && (Valid() <==> old(Valid())) && core.busy == old(core.busy)
      ensures core.info == old(core.info)[p.block := old(core.info[p.block]).(nfree := old(core.info[p.block].nfree) + 1)]
      ensures forall q :: IsLive(core.info, core.busy, runs, q) <==> IsLive(old(core.info), old(core.busy), old(runs), q) && q != p
      ensures NodesKept(old(core.info), old(core.busy), old(runs), old(link), link, p)
    {
      hide LogOk, Flat, RunPtrs, RunsOk, Sound, IsLive, OthersKept, IsRing, OnRing, Shl, Shr, IsList, PerBlock, InRuns, NodesKept, FragAt, LinkIn, Joined;
      LiveFragment(core.info, core.busy, link, fragblocks, runs, p);
      BusyOkInTable(core.info, core.busy, core.brk);
      var block := p.block;
      var entry := core.info[block];
      ghost var i := Shr(p.offset, log);
      ghost var rs := runs[log];
      ghost var k := RunOfBlock(core.info, core.busy, link, log, rs, fragblocks[log], block);
      RoomInRun(core.info, log, rs, k, i);
      CountPositive(core.info, core.busy, link, log, rs, fragblocks[log], block);
      JoinKeepsLog(core.info, core.busy, link, log, rs, fragblocks[log], k, i);
      JoinNodes(core.info, core.busy, link, log, rs, fragblocks[log], k, p, runs, fragblocks);
      LiveAfterJoin(core.info, core.busy, runs, log, k, i, entry.nfree + 1);
      var prev := FragAt(log, block, entry.first);
      link := LinkIn(link, p, prev, link[prev].next);
      ghost var e := Frag(log, entry.nfree + 1, entry.first);
      OthersKeptAt(core.info, core.busy, old(link), link, log, block, e);
      FragsAfterStep(core.info, core.info[block := e], core.busy, core.busy, old(link), link, fragblocks, runs, log, fragblocks[log], Joined(rs, k, i));
      assert fragblocks[log := fragblocks[log]] == fragblocks;
      core.SetEntry(block, entry.(nfree := entry.nfree + 1));
      runs := runs[log := Joined(rs, k, i)];
    }

    /** free.c:93-105: with every other fragment of the block free, its run leaves the list
        in one cut and the block is freed. */
    method ReleaseBlock(p: Ptr, log: nat)
      requires Valid() && IsLive(core.info, core.busy, runs, p)
      requires core.info[p.block].Frag? && core.info[p.block].log == log && core.info[p.block].nfree == PerBlock(log) - 1
      requires fragblocks[log] > 1
      modifies this`link, this`runs, this`fragblocks, core
      ensures Valid() && core.busy == old(core.busy) - {p.block} && BusyEntriesKept(old(core.info), core.info, core.busy)
      ensures GivenBack(old(core.fl), old(core.brk), old(core.busy), core.fl, core.brk, core.busy, p.block) && core.table == old(core.table)
      ensures forall q :: IsLive(core.info, core.busy, runs, q) <==> IsLive(old(core.info), old(core.busy), old(runs), q) && q != p
      ensures NodesKept(old(core.info), old(core.busy), old(runs), old(link), link, p)
    {
      hide LogOk, Flat, RunPtrs, RunsOk, Sound, IsLive, OthersKept, IsRing, OnRing, Shl, Shr, IsList, PerBlock, InRuns, NodesKept, FragAt, LinkOut, Released;
      LiveFragment(core.info, core.busy, link, fragblocks, runs, p);
      BusyInTable(core.info, core.fl, core.busy, core.table, core.brk);
      FragmentsFillBlock(log);
      var block := p.block;
      var first := core.info[block].first;
      ghost var i := Shr(p.offset, log);
      ghost var rs := runs[log];
      ghost var k := RunOfBlock(core.info, core.busy, link, log, rs, fragblocks[log], block);
      ReleaseKeepsLog(core.info, core.busy, link, log, rs, fragblocks[log], k);
      ReleaseNodes(core.info, core.busy, link, log, rs, fragblocks[log], k, runs, fragblocks);
      LiveAfterRelease(core.info, core.busy, runs, log, k, i);
      var prev := FragAt(log, block, first);
      var next := WalkRun(log, prev, StartOf(log, rs, k));
      link := LinkOut(link, link[prev].prev, next);
      OthersKeptAt(core.info, core.busy, old(link), link, log, block, Busy(1));
      FragsAfterStep(core.info, core.info[block := Busy(1)], core.busy, core.busy, old(link), link, fragblocks, runs, log, fragblocks[log] - 1, Released(rs, k));
      NodesKeptButLive(old(core.info), old(core.busy), old(runs), old(link), link, p);
      fragblocks := fragblocks[log := fragblocks[log] - 1];
      SoundBusyOk(core.info, core.fl, core.busy, core.table, core.brk);
      core.SetEntry(block, Busy(1));
      runs := runs[log := Released(rs, k)];
      ghost var info1 := core.info;
      BusyInTable(core.info, core.fl, core.busy, core.table, core.brk);
      ghost var q := core.FreeCluster(block);
      FragsAfterFree(info1, core.info, old(core.busy), link, fragblocks, runs, block);
    }

    /** free.c:97-98: the node behind the run that starts at `prev`. */
    method WalkRun(log: nat, prev: Ptr, ghost s: nat) returns (next: Ptr)
      requires IsLog(log) && log < |runs| && IsList(link, log, Flat(log, runs[log]))
      requires s + PerBlock(log) - 1 <= |Flat(log, runs[log])| && PerBlock(log) >= 2 && Flat(log, runs[log])[s] == prev
      ensures next == After(Flat(log, runs[log]), s + PerBlock(log) - 1)
    {
      hide Flat, PerBlock;
      ghost var L := Flat(log, runs[log]);
      next := prev;
      var i := 1;
      while i < PerBlock(log)
        invariant 1 <= i <= PerBlock(log)
        invariant next == After(L, s + i - 1)
      {
        assert Threaded(link, log, L, s + i - 1);
        next := link[next].next;
        i := i + 1;
      }
    }

    /** malloc.c:138-139: the logarithm of the fragment size for a small request. */
    static method FragLog(size: nat) returns (log: nat)
      requires 8 <= size <= BLOCKSIZE / 2
      ensures IsLog(log) && Shl(1, log - 1) < size <= Shl(1, log)
    {
      hide Shl, Shr;
      var s := size - 1;
      log := 1;
      ShrBase(size - 1);
      s := s / 2;
      while s != 0
        invariant 1 <= log && s == Shr(size - 1, log) && Shr(size - 1, log - 1) != 0
        decreases s
      {
        ShrStep(size - 1, log);
        log := log + 1;
        s := s / 2;
      }
      SmallestPower(size - 1, log);
      LogInRange(size, log);
    }

    /** `malloc`. A request that the rounding cannot cope with is answered with the place where the search begins,
        which is no allocation, and leaves no ring in the table unless there was nothing free to lose. */
    method Malloc(size: nat) returns (result: Ptr)
      requires Valid() && size < WORD_LIMIT && core.NoWrap(Blockify(size))
      modifies this`link, this`runs, this`fragblocks, core
      ensures Consistent() && (Valid() <==> size <= MAX_REQUEST || |old(core.fl)| == 1)
      ensures size > MAX_REQUEST ==>
                && result == At(old(core.heapindex), 0) && (HasRing(core.info) <==> |old(core.fl)| == 1)
                && !IsLive(core.info, core.busy, runs, result)
                && (forall p :: IsLive(core.info, core.busy, runs, p) <==> IsLive(old(core.info), old(core.busy), old(runs), p))
                && core.fl == old(core.fl) && core.busy == old(core.busy) && core.table == old(core.table) && core.brk == old(core.brk)
                && runs == old(runs) && link == old(link) && fragblocks == old(fragblocks)
                && BusyEntriesKept(old(core.info), core.info, core.busy)
                && (|core.fl| == 1 ==> core.info == old(core.info) && core.heapindex == old(core.heapindex))
      ensures size == 0 ==> result == Null
      ensures size <= MAX_REQUEST && result == Null ==>
                && core.info == old(core.info) && core.busy == old(core.busy) && core.fl == old(core.fl) && runs == old(runs) && link == old(link)
                && core.table == old(core.table) && core.brk == old(core.brk)
                && (size > 0 ==> NoPlace(core.fl, runs, size) && !old(core.Ample(BlocksFor(size))))
      ensures BLOCKSIZE / 2 < size <= MAX_REQUEST && !NothingFits(old(core.fl), Blockify(size)) ==>
                core.brk == old(core.brk) && core.pages == old(core.pages) && core.table == old(core.table)
      ensures size <= MAX_REQUEST && result != Null ==>
                && result.At?
                && Accounted(old(core.fl), old(core.table), old(core.brk), old(core.busy), core.fl, core.table, core.brk, core.busy, result.block)
      ensures size <= MAX_REQUEST && result != Null ==>
                && result.At? && result.block < |core.info| && RightSize(core.info, result, size)
                && KindsKept(old(core.info), core.info, old(core.busy))
                && (forall b :: b in old(core.busy) ==> b in core.busy)
                && (forall p :: IsLive(core.info, core.busy, runs, p) <==> IsLive(old(core.info), old(core.busy), old(runs), p) || p == result)
                && !IsLive(old(core.info), old(core.busy), old(runs), result)
                && LiveNodesKept(old(core.info), old(core.busy), old(runs), old(link), link)
    {
      hide LogOk, RunsOk, Sound, IsLive, IsRing, OnRing, Shl, Shr, Conserved, Taken, IsList, FragAt, PerBlock, BusyEntriesKept, KindsKept, BusyOk;
      SoundBusyOk(core.info, core.fl, core.busy, core.table, core.brk);
      if size == 0 {
        return Null;
      }
      hide NoFragment, NothingFits, RightSize;
      BusyInTable(core.info, core.fl, core.busy, core.table, core.brk);
      var want := if size < 8 then 8 else size;
      if want <= BLOCKSIZE / 2 {
        var log := FragLog(want);
        HeadOfList(core.info, core.busy, link, log, runs[log], fragblocks[log]);
        if link[Head(log)].next != Null {
          result := PopFragment(log);
        } else {
          result := CutBlock(log);
          if result == Null {
            NoFragmentFor(runs, size, want, log);
          }
        }
        if result != Null {
          SmallRightSize(core.info, result, size, want, log);
          assert KindsKept(old(core.info), core.info, old(core.busy)) by { KindsFromEntries(old(core.info), core.info, old(core.busy)); }
        }
        SoundBusyOk(core.info, core.fl, core.busy, core.table, core.brk);
      } else {
        BlockifyCovers(size);
        if Blockify(size) == 0 {
          result := MallocNothing();
          return;
        }
        var b := core.AllocCluster(Blockify(size));
        SoundBusyOk(core.info, core.fl, core.busy, core.table, core.brk);
        if b.None? {
          return Null;
        }
        FragsAfterAlloc(old(core.info), core.info, old(core.busy), link, fragblocks, runs, b.value, Blockify(size));
        KindsFromEntries(old(core.info), core.info, old(core.busy));
        result := At(b.value, 0);
      }
    }

    /** malloc.c:189-248 when the number of blocks is zero. */
    method MallocNothing() returns (result: Ptr)
      requires Valid()
      modifies core`info, core`heapindex
      ensures Consistent() && (Valid() <==> |core.fl| == 1)
      ensures result == At(old(core.heapindex), 0) && (HasRing(core.info) <==> |core.fl| == 1)
      ensures !IsLive(core.info, core.busy, runs, result)
      ensures forall p :: IsLive(core.info, core.busy, runs, p) <==> IsLive(old(core.info), old(core.busy), old(runs), p)
      ensures BusyEntriesKept(old(core.info), core.info, core.busy)
      ensures |core.fl| == 1 ==> core.info == old(core.info) && core.heapindex == old(core.heapindex)
    {
      hide LogOk, Sound, IsLive, IsRing, OnRing, FragsOk, HasRing, BusyEntriesKept, BusyOk, IndexAfterNothing;
      BusyInTable(core.info, core.fl, core.busy, core.table, core.brk);
      var index := core.TakeNothing();
      FragsAfterEntries(old(core.info), core.info, core.busy, link, fragblocks, runs);
      result := At(index, 0);
      NotBusyNotLive(core.info, core.busy, runs, result);
    }

    /** `free`. It needs the ring of free clusters only when it gives a cluster back. */
    method Free(p: Ptr)
      requires Consistent()
      requires p != Null ==> IsLive(core.info, core.busy, runs, p) && (core.Valid() || !GivesCluster(core.info, fragblocks, p))
      modifies this`link, this`runs, this`fragblocks, core
      ensures Consistent() && (Valid() <==> old(Valid()))
      ensures forall q :: IsLive(core.info, core.busy, runs, q) <==> IsLive(old(core.info), old(core.busy), old(runs), q) && q != p
      ensures p != Null ==> p.At? && GivenBack(old(core.fl), old(core.brk), old(core.busy), core.fl, core.brk, core.busy, p.block)
      ensures core.table == old(core.table)
      ensures p == Null ==> core.fl == old(core.fl) && core.busy == old(core.busy) && core.brk == old(core.brk)
      ensures (forall b :: b in core.busy ==> b in old(core.busy)) && KindsKept(old(core.info), core.info, core.busy)
      ensures NodesKept(old(core.info), old(core.busy), old(runs), old(link), link, p)
    {
      hide LogOk, RunsOk, Sound, IsRing, OnRing, Shl, Shr, IsList, FragAt, PerBlock, BusyEntriesKept, KindsKept, BusyOk;
      BusyOkInTable(core.info, core.busy, core.brk);
      KindsFromSame(core.info, core.busy);
      if p == Null {
        return;
      }
      var block := p.block;
      match core.info[block] {
        case Busy(_) =>
          ghost var q := core.FreeCluster(block);
          FragsAfterFree(old(core.info), core.info, old(core.busy), link, fragblocks, runs, block);
          SoundBusyOk(core.info, core.fl, core.busy, core.table, core.brk);
        case Frag(log, nfree, _) =>
          LiveFragment(core.info, core.busy, link, fragblocks, runs, p);
          if nfree == PerBlock(log) - 1 && fragblocks[log] > 1 {
            ReleaseBlock(p, log);
            SoundBusyOk(core.info, core.fl, core.busy, core.table, core.brk);
          } else if nfree > 0 {
            JoinFragment(p, log);
            KindsFromEdit(old(core.info), old(core.busy), block, core.info[block]);
          } else {
            PushFragment(p, log);
            KindsFromEdit(old(core.info), old(core.busy), block, core.info[block]);
          }
      }
      KindsFromEntries(old(core.info), core.info, core.busy);
    }

    /** `memmove(dst, src, n)` */
    method CopyBytes(dst: int, src: int, n: nat)
      modifies this`mem
      ensures Copied(old(mem), mem, src, dst, n)
    {
      hide Overlaid, Copied;
      OverlaidCopies(mem, src, dst, n);
      mem := Overlaid(mem, src, dst, n);
    }

    /** Allocates elsewhere, or is told so, copies `n` bytes and frees the old place (realloc.c:44-48 and 111-115). */
    method ReallocCopy(ptr: Ptr, size: nat, n: nat) returns (result: Ptr)
      requires Valid() && 0 < size < WORD_LIMIT && core.NoWrap(Blockify(size)) && IsLive(core.info, core.busy, runs, ptr)
      requires size > MAX_REQUEST && |core.fl| > 1 ==> !GivesCluster(core.info, fragblocks, ptr)
      requires n <= size && n <= SizeAt(core.info, ptr)
      modifies this, core
      ensures Consistent() && (Valid() <==> size <= MAX_REQUEST || |old(core.fl)| == 1)
      ensures size > MAX_REQUEST ==>
                && result == At(old(core.heapindex), 0) && !IsLive(core.info, core.busy, runs, result)
                && forall q :: IsLive(core.info, core.busy, runs, q) <==> IsLive(old(core.info), old(core.busy), old(runs), q) && q != ptr
      ensures size <= MAX_REQUEST && result == Null ==>
                && core.info == old(core.info) && core.busy == old(core.busy) && core.fl == old(core.fl) && runs == old(runs) && mem == old(mem)
                && NoPlace(core.fl, runs, size) && !old(core.Ample(BlocksFor(size)))
      ensures size <= MAX_REQUEST && result != Null ==> IsLive(core.info, core.busy, runs, result) && RightSize(core.info, result, size)
      ensures size <= MAX_REQUEST && result != Null ==> Moved(old(core.info), old(core.busy), old(runs), core.info, core.busy, runs, ptr, result)
      ensures result != Null ==> result.At? && Copied(old(mem), mem, Address(ptr), Address(result), n)
      ensures size <= MAX_REQUEST ==>
                Balanced(old(core.fl), old(core.busy), old(core.table), old(core.brk), core.fl, core.busy, core.table, core.brk)
    {
      hide LogOk, RunsOk, Sound, IsLive, IsRing, OnRing, Shl, Shr, IsList, KindsKept, LiveNodesKept, NodesKept, Address, SizeAt, RightSize, FragsOk, SameKind;
      hide Balanced, Accounted, GivenBack, NothingFits, NoFragment, HasRing, BusyOk, BusyEntriesKept, GivesCluster;
      BalancedSame(core.info, core.fl, core.busy, core.table, core.brk);
      var from := AddressOf(ptr);
      SoundBusyOk(core.info, core.fl, core.busy, core.table, core.brk);
      BusyOkInTable(core.info, core.busy, core.brk);
      result := Malloc(size);
      if size > MAX_REQUEST {
        LiveInBusy(old(core.info), old(core.busy), old(runs), ptr);
        GivesClusterKept(old(core.info), core.info, core.busy, fragblocks, ptr);
        CopyBytes(Address(result), from, n);
        Free(ptr);
        return;
      }
      if result != Null {
        ghost var info1, busy1, runs1, fl1, table1, brk1 := core.info, core.busy, runs, core.fl, core.table, core.brk;
        BalancedByMalloc(old(core.info), old(core.fl), old(core.table), old(core.brk), old(core.busy), info1, fl1, table1, brk1, busy1, result.block);
        CopyBytes(Address(result), from, n);
        Free(ptr);
        BalancedByFree(info1, fl1, table1, brk1, busy1, core.info, core.fl, core.brk, core.busy, ptr.block);
        BalancedTwice(old(core.fl), old(core.busy), old(core.table), old(core.brk), fl1, busy1, table1, brk1, core.fl, core.busy, core.table, core.brk);
        StillRightSize(core.info, info1, core.busy, runs, result, size);
        MovedFromKinds(old(core.info), old(core.busy), old(runs), info1, busy1, runs1, core.info, core.busy, runs, ptr, result);
      }
    }

    /** `realloc` of a whole-block allocation to another whole-block size (realloc.c:52-99). */
    method ReallocBlocks(ptr: Ptr, size: nat) returns (result: Ptr)
      requires Valid() && BLOCKSIZE / 2 < size < WORD_LIMIT && core.NoWrap(Blockify(size))
      requires IsLive(core.info, core.busy, runs, ptr) && core.info[ptr.block].Busy?
      modifies this, core
      ensures Consistent() && (Valid() <==> size <= MAX_REQUEST || Preceded(old(core.fl), ptr.block))
      ensures size > MAX_REQUEST ==>
                && result == ptr && mem == old(mem) && (HasRing(core.info) <==> Preceded(old(core.fl), ptr.block))
                && !Balanced(old(core.fl), old(core.busy), old(core.table), old(core.brk), core.fl, core.busy, core.table, core.brk)
                && ptr.block in old(core.busy) && NobodyHas(core, old(Region(core.busy, ptr.block)))
                && forall q :: IsLive(core.info, core.busy, runs, q) <==> IsLive(old(core.info), old(core.busy), old(runs), q) && q != ptr
      ensures result == Null ==> core.busy == old(core.busy) && core.fl == old(core.fl) && runs == old(runs) && mem == old(mem)
                                 && Unmoved(old(core.info), core.info, core.busy, runs)
      ensures result == Null ==>
                && Blockify(size) > old(core.busy[ptr.block]) && !old(core.Ample(Blockify(size)))
                && forall at: int :: !FreeRun(old(core.fl), old(Region(core.busy, ptr.block)), at, Blockify(size))
      ensures size <= MAX_REQUEST && result != Null ==> IsLive(core.info, core.busy, runs, result) && RightSize(core.info, result, size)
      ensures size <= MAX_REQUEST && result != Null ==> Moved(old(core.info), old(core.busy), old(runs), core.info, core.busy, runs, ptr, result)
      ensures Blockify(size) <= old(core.busy[ptr.block]) ==> result == ptr
      ensures result != Null ==>
                Copied(old(mem), mem, Address(ptr), Address(result),
                       if Blockify(size) <= old(core.busy[ptr.block]) then 0 else old(core.busy[ptr.block]) * BLOCKSIZE)
      ensures size <= MAX_REQUEST ==>
                Balanced(old(core.fl), old(core.busy), old(core.table), old(core.brk), core.fl, core.busy, core.table, core.brk)
    {
      hide LogOk, RunsOk, Sound, IsRing, OnRing, Shl, Shr, IsList, KindsKept, LiveNodesKept, NodesKept, FragsOk, SameKind, Blockify, Balanced, Reconserved, HasRing, Preceded, BusyOk;
      SoundBusyOk(core.info, core.fl, core.busy, core.table, core.brk);
      BalancedSame(core.info, core.fl, core.busy, core.table, core.brk);
      BlockifyCovers(size);
      BusyInTable(core.info, core.fl, core.busy, core.table, core.brk);
      var block := ptr.block;
      var have := core.info[block].blocks;
      var blocks := Blockify(size);
      if blocks == 0 {
        result := ReallocNothing(ptr);
        return;
      }
      if blocks < have {
        core.ShrinkCluster(block, blocks);
        SoundBusyOk(core.info, core.fl, core.busy, core.table, core.brk);
        FragsAfterMove(old(core.info), core.info, old(core.busy), link, fragblocks, runs, block, block, blocks);
        assert core.busy == (old(core.busy) - {block})[block := blocks];
        MovedFromEntries(old(core.info), old(core.busy), core.info, core.busy, runs, block, block, blocks);
        result := ptr;
        NothingCopied(mem, Address(ptr));
      } else if blocks == have {
        result := ptr;
        NothingCopied(mem, Address(ptr));
      } else {
        var r := core.RegrowCluster(block, blocks);
        SoundBusyOk(core.info, core.fl, core.busy, core.table, core.brk);
        if r.None? {
          FragsAfterMove(old(core.info), core.info, old(core.busy), link, fragblocks, runs, block, block, have);
          assert core.busy == (old(core.busy) - {block})[block := have];
          UnmovedFromEntries(old(core.info), core.info, core.busy, runs, block);
          return Null;
        }
        FragsAfterMove(old(core.info), core.info, old(core.busy), link, fragblocks, runs, block, r.value, blocks);
        MovedFromEntries(old(core.info), old(core.busy), core.info, core.busy, runs, block, r.value, blocks);
        result := At(r.value, 0);
        SameCopied(mem, Address(ptr), have * BLOCKSIZE);
        if result != ptr {
          CopyBytes(Address(result), Address(ptr), have * BLOCKSIZE);
        }
      }
    }

    /** realloc.c:54-65 when the number of blocks is zero: the old pointer is returned as that of a new allocation of
        which nothing is left. */
    method ReallocNothing(ptr: Ptr) returns (result: Ptr)
      requires Valid() && IsLive(core.info, core.busy, runs, ptr) && core.info[ptr.block].Busy?
      modifies core
      ensures Consistent() && (Valid() <==> Preceded(old(core.fl), ptr.block))
      ensures result == ptr && (HasRing(core.info) <==> Preceded(old(core.fl), ptr.block))
      ensures !Balanced(old(core.fl), old(core.busy), old(core.table), old(core.brk), core.fl, core.busy, core.table, core.brk)
      ensures ptr.block in old(core.busy) && NobodyHas(core, old(Region(core.busy, ptr.block)))
      ensures forall q :: IsLive(core.info, core.busy, runs, q) <==> IsLive(old(core.info), old(core.busy), old(runs), q) && q != ptr
    {
      hide LogOk, Sound, IsRing, OnRing, FragsOk, HasRing, Preceded, BusyOk, Balanced, Owned, BusyEntriesKept;
      BusyInTable(core.info, core.fl, core.busy, core.table, core.brk);
      var block := ptr.block;
      core.ShrinkToNothing(block);
      FragsAfterFree(old(core.info), core.info, old(core.busy), link, fragblocks, runs, block);
      result := ptr;
    }

    /** `realloc`. A size that the rounding cannot cope with frees the allocation and returns a pointer that is none. If
        `free` then has a block to give back to a table that has lost its ring, its search need not end
        (`SearchAfterNothing`). */
    method Realloc(ptr: Ptr, size: nat) returns (result: Ptr)
      requires Valid() && size < WORD_LIMIT && core.NoWrap(Blockify(size)) && (ptr != Null ==> IsLive(core.info, core.busy, runs, ptr))
      requires size > MAX_REQUEST && |core.fl| > 1 && !WholeBlocks(core.info, ptr) ==> !GivesCluster(core.info, fragblocks, ptr)
      modifies this, core
      ensures Consistent()
      ensures Valid() <==> size <= MAX_REQUEST || (if WholeBlocks(old(core.info), ptr) then Preceded(old(core.fl), ptr.block) else |old(core.fl)| == 1)
      ensures size > MAX_REQUEST ==>
                && result == (if WholeBlocks(old(core.info), ptr) then ptr else At(old(core.heapindex), 0))
                && !IsLive(core.info, core.busy, runs, result)
                && forall q :: IsLive(core.info, core.busy, runs, q) <==> IsLive(old(core.info), old(core.busy), old(runs), q) && q != ptr
      ensures size > MAX_REQUEST && WholeBlocks(old(core.info), ptr) ==>
                && ptr.block in old(core.busy) && NobodyHas(core, old(Region(core.busy, ptr.block)))
                && !Balanced(old(core.fl), old(core.busy), old(core.table), old(core.brk), core.fl, core.busy, core.table, core.brk)
      ensures size > MAX_REQUEST ==>
                if ptr == Null || WholeBlocks(old(core.info), ptr) then mem == old(mem)
                else ptr.At? && ptr.block < |old(core.info)| && result.At? && Copied(old(mem), mem, Address(ptr), Address(result), SizeAt(old(core.info), ptr))
      ensures size == 0 ==> result == Null && mem == old(mem)
                            && forall q :: IsLive(core.info, core.busy, runs, q) <==> IsLive(old(core.info), old(core.busy), old(runs), q) && q != ptr
      ensures 0 < size <= MAX_REQUEST && result == Null ==>
                && core.busy == old(core.busy) && core.fl == old(core.fl) && runs == old(runs) && mem == old(mem)
                && Unmoved(old(core.info), core.info, core.busy, runs)
                && !old(core.Ample(BlocksFor(size)))
      ensures 0 < size <= MAX_REQUEST && result == Null ==>
                if size > BLOCKSIZE / 2 && WholeBlocks(old(core.info), ptr) then
                  && ptr.block in old(core.busy) && Blockify(size) > old(core.busy[ptr.block])
                  && forall at: int :: !FreeRun(old(core.fl), old(Region(core.busy, ptr.block)), at, Blockify(size))
                else NoPlace(old(core.fl), old(runs), size)
      ensures ptr != Null ==> ptr.At? && ptr.block < |old(core.info)|
      ensures size <= MAX_REQUEST && ptr != Null && FitsWhereItIs(old(core.info[ptr.block]), size) ==> result == ptr
      ensures size <= MAX_REQUEST && result != Null ==> IsLive(core.info, core.busy, runs, result) && RightSize(core.info, result, size)
      ensures size <= MAX_REQUEST && result != Null && ptr == Null ==>
                && mem == old(mem)
                && forall q :: IsLive(core.info, core.busy, runs, q) <==> IsLive(old(core.info), old(core.busy), old(runs), q) || q == result
      ensures size <= MAX_REQUEST && result != Null && ptr != Null ==>
                && Moved(old(core.info), old(core.busy), old(runs), core.info, core.busy, runs, ptr, result)
                && ContentsKept(old(mem), mem, Address(ptr), Address(result), Least(size, SizeAt(old(core.info), ptr)), SizeAt(core.info, result))
      ensures size <= MAX_REQUEST ==>
                Balanced(old(core.fl), old(core.busy), old(core.table), old(core.brk), core.fl, core.busy, core.table, core.brk)
    {
      hide LogOk, RunsOk, Sound, IsRing, OnRing, Shl, Shr, IsList, KindsKept, LiveNodesKept, NodesKept, SameKind, Blockify, Copied, ContentsKept, Moved, Conserved;
      hide PerBlock, IsFragOffset, InRuns, Balanced, Accounted, GivenBack, NothingFits, NoFragment, HasRing, Preceded, BusyOk, BusyEntriesKept, GivesCluster;
      SoundBusyOk(core.info, core.fl, core.busy, core.table, core.brk);
      BalancedSame(core.info, core.fl, core.busy, core.table, core.brk);
      UnmovedSame(core.info, core.busy, runs);
      if ptr == Null {
        result := Malloc(size);
        if size <= MAX_REQUEST && result != Null {
          BalancedByMalloc(old(core.info), old(core.fl), old(core.table), old(core.brk), old(core.busy), core.info, core.fl, core.table, core.brk, core.busy, result.block);
        }
        return;
      }
      if size == 0 {
        Free(ptr);
        BalancedByFree(old(core.info), old(core.fl), old(core.table), old(core.brk), old(core.busy), core.info, core.fl, core.brk, core.busy, ptr.block);
        BlockifyCovers(0);
        result := Malloc(0);
        return;
      }
      BlockifyCovers(size);
      BusyInTable(core.info, core.fl, core.busy, core.table, core.brk);
      match core.info[ptr.block] {
        case Busy(have) =>
          if size <= BLOCKSIZE / 2 {
            result := ReallocCopy(ptr, size, size);
            CopiedKeeps(old(mem), mem, Address(ptr), if result == Null then 0 else Address(result),
                size, size, if result == Null then 0 else SizeAt(core.info, result));
          } else {
            result := ReallocBlocks(ptr, size);
            if size <= MAX_REQUEST {
              CopiedKeepsBlocks(old(mem), mem, Address(ptr), if result == Null then 0 else Address(result),
                  size, have, if result == Null then 0 else SizeAt(core.info, result));
            }
          }
        case Frag(log, _, _) =>
          LiveFragment(core.info, core.busy, link, fragblocks, runs, ptr);
          if size > Shl(1, log - 1) && size <= Shl(1, log) {
            result := ptr;
            SameKindSize(core.info, ptr, size);
            MovedNowhere(core.info, core.busy, runs, ptr);
            SameCopied(mem, Address(ptr), size);
            CopiedKeeps(mem, mem, Address(ptr), Address(ptr), size, size, SizeAt(core.info, ptr));
          } else {
            var n := if size < Shl(1, log) then size else Shl(1, log);
            FragmentIsSmall(log);
            result := ReallocCopy(ptr, size, n);
            if size <= MAX_REQUEST {
              CopiedKeeps(old(mem), mem, Address(ptr), if result == Null then 0 else Address(result), n, n, if result == Null then 0 else SizeAt(core.info, result));
            }
          }
      }
    }

    method AddressOf(p: Ptr) returns (a: int)
      requires Valid() && IsLive(core.info, core.busy, runs, p)
      ensures p.At? && a == Address(p)
    {
      a := Address(p);
    }
  }

  /** On a new heap a request for the whole address space is given block 0 and changes nothing. */
  method HugeRequest(base: nat, pages: nat) returns (a: Allocator, p: Ptr)
    requires base + 1 + TableBlocks(HEAP_ENTRIES) < KERNEL_PAGES
    ensures fresh(a) && p == At(0, 0) && a.Valid() && HasRing(a.core.info)
    ensures !IsLive(a.core.info, a.core.busy, a.runs, p)
  {
    hide FragsOk;
    a := new Allocator(base, pages);
    p := a.Malloc(0xFFFF_FFFF);
  }

  /** An allocation that is to have the whole address space is none any more, and its pointer is returned. */
  method HugeResize(base: nat, pages: nat) returns (a: Allocator, p: Ptr, q: Ptr)
    requires base + 2 + TableBlocks(HEAP_ENTRIES) < KERNEL_PAGES
    ensures fresh(a) && (p != Null ==> q == p && !IsLive(a.core.info, a.core.busy, a.runs, q))
    ensures p != Null ==> p.At? && NobodyHas(a.core, Cluster(p.block, 1))
  {
    hide FragsOk, NobodyHas, Balanced;
    a := new Allocator(base, pages);
    p := a.Malloc(BLOCKSIZE);
    q := Null;
    if p != Null {
      WholeBlock(a.core.info, a.core.fl, a.core.busy, a.core.table, a.core.brk, a.runs, p);
      q := a.Realloc(p, 0xFFFF_FFFF);
    }
  }

  lemma WholeBlock(info: seq<Info>, fl: seq<Cluster>, busy: map<nat, nat>, table: Cluster, brk: nat, runs: seq<seq<Run>>, p: Ptr)
    requires Sound(info, fl, busy, table, brk) && IsLive(info, busy, runs, p) && p.At? && p.block < |info| && RightSize(info, p, BLOCKSIZE)
    ensures WholeBlocks(info, p) && p.block in busy && busy[p.block] == 1
  {
    BusyEntryIs(info, fl, busy, table, brk, p.block);
  }
}
