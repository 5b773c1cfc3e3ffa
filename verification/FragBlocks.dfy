/** The bookkeeping of fragmented blocks: what each allocation and release of a
    fragment does to the runs, the list and the table. */
module FragBlocks {
  import opened FragLists
  import opened FragRuns
  import opened HeapRing
  import opened Sequences

  ghost predicate IsFragBlock(info: seq<Info>, busy: map<nat, nat>, log: nat, b: nat) {
    b in busy && b < |info| && info[b].Frag? && info[b].log == log
  }

  ghost function BlocksOfSize(info: seq<Info>, busy: map<nat, nat>, log: nat): set<nat> {
    set b | b in busy && IsFragBlock(info, busy, log, b)
  }

  ghost predicate HasRun(rs: seq<Run>, b: nat) {
    exists k :: 0 <= k < |rs| && rs[k].block == b
  }

  /** A block's count of free fragments is within the block; when it is not zero the
      block has a run, and when it is the whole block there is no other block of its size. */
  ghost predicate BlockOk(info: seq<Info>, log: nat, rs: seq<Run>, count: nat, b: nat)
    requires b < |info| && info[b].Frag?
  {
    && info[b].nfree <= PerBlock(log)
    && (info[b].nfree > 0 ==> HasRun(rs, b))
    && (info[b].nfree == PerBlock(log) ==> count == 1)
  }

  /** The invariant of one fragment size. */
  ghost predicate LogOk(info: seq<Info>, busy: map<nat, nat>, link: Links, log: nat, rs: seq<Run>, count: nat) {
    && RunsOk(info, log, rs)
    && (forall k :: 0 <= k < |rs| ==> rs[k].block in busy)
    && IsList(link, log, Flat(log, rs))
    && (forall b: nat :: IsFragBlock(info, busy, log, b) ==> BlockOk(info, log, rs, count, b))
    && count == |BlocksOfSize(info, busy, log)|
  }

  // ----- Taking the first fragment of the list -----

  ghost function Popped(rs: seq<Run>): seq<Run>
    requires rs != [] && rs[0].idx != []
  {
    if |rs[0].idx| > 1 then [Run(rs[0].block, rs[0].idx[1..])] + rs[1..] else rs[1..]
  }

  lemma FlatPopped(log: nat, rs: seq<Run>)
    requires rs != [] && rs[0].idx != []
    ensures Flat(log, rs) != [] && Flat(log, rs)[0] == FragAt(log, rs[0].block, rs[0].idx[0])
    ensures Flat(log, Popped(rs)) == Flat(log, rs)[1..]
    ensures |rs[0].idx| > 1 ==> |Flat(log, rs)| > 1 && Flat(log, rs)[1] == FragAt(log, rs[0].block, rs[0].idx[1])
  {
    hide Flat, RunPtrs;
    var b, idx := rs[0].block, rs[0].idx;
    var P, F := RunPtrs(log, rs[0]), Flat(log, rs[1..]);
    assert rs == [rs[0]] + rs[1..];
    FlatCons(log, rs[0], rs[1..]);
    DropFirst(P, F);
    if |idx| > 1 {
      FlatCons(log, Run(b, idx[1..]), rs[1..]);
      RunPtrsTail(log, b, idx);
    }
  }

  lemma DropFirst<T>(a: seq<T>, b: seq<T>)
    requires a != []
    ensures (a + b)[1..] == a[1..] + b && (|a| == 1 ==> (a + b)[1..] == b)
    ensures (a + b)[0] == a[0] && (|a| > 1 ==> (a + b)[1] == a[1])
  {
  }

  lemma FlatCons(log: nat, r: Run, rs: seq<Run>)
    ensures Flat(log, [r] + rs) == RunPtrs(log, r) + Flat(log, rs)
  {
    assert ([r] + rs)[1..] == rs;
  }

  lemma RunPtrsTail(log: nat, b: nat, idx: seq<nat>)
    requires idx != []
    ensures RunPtrs(log, Run(b, idx[1..])) == RunPtrs(log, Run(b, idx))[1..]
  {
  }

  /** The table after malloc.c:152-156. */
  ghost function PoppedInfo(info: seq<Info>, log: nat, rs: seq<Run>): seq<Info>
    requires rs != [] && RunOk(info, log, rs[0])
  {
    var r := rs[0];
    info[r.block := Frag(log, |r.idx| - 1, if |r.idx| > 1 then r.idx[1] else r.idx[0])]
  }

  lemma RunsPopped(info: seq<Info>, log: nat, rs: seq<Run>)
    requires RunsOk(info, log, rs) && rs != []
    ensures RunOk(info, log, rs[0]) && RunsOk(PoppedInfo(info, log, rs), log, Popped(rs))
  {
    var info' := PoppedInfo(info, log, rs);
    var rs' := Popped(rs);
    forall k | 0 <= k < |rs'|
      ensures RunOk(info', log, rs'[k])
    {
      assert RunOk(info, log, rs[if |rs[0].idx| > 1 then k else k + 1]);
    }
  }

  lemma InRunsPopped(info: seq<Info>, log: nat, rs: seq<Run>, b: nat, i: nat)
    requires RunsOk(info, log, rs) && rs != [] && rs[0].idx != []
    ensures InRuns(Popped(rs), b, i) <==> InRuns(rs, b, i) && !(b == rs[0].block && i == rs[0].idx[0])
  {
    var rs' := Popped(rs);
    assert RunOk(info, log, rs[0]);
    if InRuns(rs', b, i) {
      var k :| 0 <= k < |rs'| && rs'[k].block == b && i in rs'[k].idx;
      var k0 := if |rs[0].idx| > 1 then k else k + 1;
      assert rs[k0].block == b && i in rs[k0].idx;
    }
    if InRuns(rs, b, i) && !(b == rs[0].block && i == rs[0].idx[0]) {
      var k :| 0 <= k < |rs| && rs[k].block == b && i in rs[k].idx;
      assert k > 0 ==> rs'[if |rs[0].idx| > 1 then k else k - 1] == rs[k];
      assert k == 0 ==> i in rs'[0].idx;
    }
  }

  lemma PopKeepsLog(info: seq<Info>, busy: map<nat, nat>, link: Links, log: nat, rs: seq<Run>, count: nat)
    requires LogOk(info, busy, link, log, rs, count) && rs != []
    ensures RunOk(info, log, rs[0])
    ensures var L := Flat(log, rs);
            && L != [] && Head(log) in link && (After(L, 1) != Null ==> After(L, 1) in link)
            && LogOk(PoppedInfo(info, log, rs), busy, LinkOut(link, Head(log), After(L, 1)), log, Popped(rs), count)
  {
    hide IsList, Flat, RunPtrs;
    assert RunOk(info, log, rs[0]);
    var info' := PoppedInfo(info, log, rs);
    RunsPopped(info, log, rs);
    FlatPopped(log, rs);
    PopList(link, log, Flat(log, rs));
    assert BlocksOfSize(info', busy, log) == BlocksOfSize(info, busy, log);
    forall b: nat | IsFragBlock(info', busy, log, b)
      ensures BlockOk(info', log, Popped(rs), count, b)
    {
      assert IsFragBlock(info, busy, log, b) && BlockOk(info, log, rs, count, b);
      HasRunPopped(rs, b);
    }
  }

  lemma HasRunPopped(rs: seq<Run>, b: nat)
    requires rs != [] && rs[0].idx != []
    ensures HasRun(rs, b) && (b != rs[0].block || |rs[0].idx| > 1) ==> HasRun(Popped(rs), b)
  {
    if HasRun(rs, b) && (b != rs[0].block || |rs[0].idx| > 1) {
      var k :| 0 <= k < |rs| && rs[k].block == b;
      assert Popped(rs)[if |rs[0].idx| > 1 then k else k - 1].block == b;
    }
  }

  lemma PopList(link: Links, log: nat, L: seq<Ptr>)
    requires IsList(link, log, L) && L != []
    ensures Head(log) in link && (After(L, 1) != Null ==> After(L, 1) in link)
    ensures IsList(LinkOut(link, Head(log), After(L, 1)), log, L[1..])
  {
    ListAfterLinkOut(link, log, L, 0, 1);
    assert L[..0] + L[1..] == L[1..];
  }

  // ----- Releasing a fragment of a block with none free -----

  lemma PushKeepsLog(info: seq<Info>, busy: map<nat, nat>, link: Links, log: nat, rs: seq<Run>, count: nat, b: nat, i: nat)
    requires IsLog(log) && LogOk(info, busy, link, log, rs, count)
    requires IsFragBlock(info, busy, log, b) && info[b].nfree == 0 && i < PerBlock(log)
    ensures var L := Flat(log, rs);
            var n := FragAt(log, b, i);
            && Head(log) in link && (After(L, 0) != Null ==> After(L, 0) in link)
            && LogOk(info[b := Frag(log, 1, i)], busy, LinkIn(link, n, Head(log), After(L, 0)), log, [Run(b, [i])] + rs, count)
  {
    hide IsList, Flat, RunPtrs;
    var rs' := [Run(b, [i])] + rs;
    var info' := info[b := Frag(log, 1, i)];
    NoRunIfNoneFree(info, log, rs, b);
    FragmentsFillBlock(log);
    RunsOkPushed(info, log, rs, b, i);
    NotInFlat(info, log, rs, b, i);
    PushList(link, log, Flat(log, rs), FragAt(log, b, i));
    FlatCons(log, Run(b, [i]), rs);
    RunPtrsOne(log, b, i);
    assert BlocksOfSize(info', busy, log) == BlocksOfSize(info, busy, log);
    hide RunsOk, FragAt, LinkIn, After, PerBlock, BlocksOfSize;
    forall c: nat | IsFragBlock(info', busy, log, c)
      ensures BlockOk(info', log, rs', count, c)
    {
      assert IsFragBlock(info, busy, log, c) && BlockOk(info, log, rs, count, c);
      HasRunMore([Run(b, [i])], rs, c);
      assert c == b ==> rs'[0].block == c;
    }
  }

  lemma RunsOkPushed(info: seq<Info>, log: nat, rs: seq<Run>, b: nat, i: nat)
    requires RunsOk(info, log, rs) && (forall k :: 0 <= k < |rs| ==> rs[k].block != b)
    requires b < |info| && i < PerBlock(log)
    ensures RunsOk(info[b := Frag(log, 1, i)], log, [Run(b, [i])] + rs)
  {
    var rs' := [Run(b, [i])] + rs;
    var info' := info[b := Frag(log, 1, i)];
    forall k | 0 <= k < |rs'|
      ensures RunOk(info', log, rs'[k])
    {
      assert k > 0 ==> RunOk(info, log, rs[k - 1]) && rs'[k] == rs[k - 1];
    }
  }

  lemma NoRunIfNoneFree(info: seq<Info>, log: nat, rs: seq<Run>, b: nat)
    requires RunsOk(info, log, rs) && b < |info| && info[b].Frag? && info[b].nfree == 0
    ensures forall k :: 0 <= k < |rs| ==> rs[k].block != b
    ensures forall i :: !InRuns(rs, b, i)
  {
    forall k | 0 <= k < |rs|
      ensures rs[k].block != b
    {
      assert RunOk(info, log, rs[k]);
    }
  }

  lemma HasRunMore(a: seq<Run>, rs: seq<Run>, b: nat)
    ensures HasRun(rs, b) ==> HasRun(a + rs, b)
    ensures HasRun(a, b) ==> HasRun(a + rs, b)
  {
    if HasRun(rs, b) {
      var k :| 0 <= k < |rs| && rs[k].block == b;
      assert (a + rs)[|a| + k].block == b;
    }
    if HasRun(a, b) {
      var k :| 0 <= k < |a| && a[k].block == b;
      assert (a + rs)[k].block == b;
    }
  }

  lemma RunPtrsOne(log: nat, b: nat, i: nat)
    ensures RunPtrs(log, Run(b, [i])) == [FragAt(log, b, i)]
  {
  }

  lemma PushList(link: Links, log: nat, L: seq<Ptr>, n: Ptr)
    requires IsList(link, log, L) && n.At? && n !in L
    ensures Head(log) in link && (After(L, 0) != Null ==> After(L, 0) in link)
    ensures IsList(LinkIn(link, n, Head(log), After(L, 0)), log, [n] + L)
  {
    ListAfterLinkIn(link, log, L, 0, n);
    assert L[..0] + [n] + L[0..] == [n] + L;
  }

  lemma InRunsPushed(rs: seq<Run>, b: nat, i: nat, c: nat, j: nat)
    ensures InRuns([Run(b, [i])] + rs, c, j) <==> InRuns(rs, c, j) || (c == b && j == i)
  {
    var rs' := [Run(b, [i])] + rs;
    if InRuns(rs, c, j) {
      var k :| 0 <= k < |rs| && rs[k].block == c && j in rs[k].idx;
      assert rs'[k + 1] == rs[k];
    }
    if c == b && j == i {
      assert rs'[0].block == c && j in rs'[0].idx;
    }
    if InRuns(rs', c, j) {
      var k :| 0 <= k < |rs'| && rs'[k].block == c && j in rs'[k].idx;
      assert k > 0 ==> rs'[k] == rs[k - 1];
    }
  }

  // ----- Releasing a fragment of a block with some free -----

  /** Fragment `i` joins run `k` behind its first member (free.c:110-116). */
  ghost function Joined(rs: seq<Run>, k: nat, i: nat): seq<Run>
    requires k < |rs| && rs[k].idx != []
  {
    rs[k := Run(rs[k].block, [rs[k].idx[0], i] + rs[k].idx[1..])]
  }

  /** Where run `k` starts in the list. */
  ghost function StartOf(log: nat, rs: seq<Run>, k: nat): nat
    requires k <= |rs|
  {
    |Flat(log, rs[..k])|
  }

  lemma FlatJoined(log: nat, rs: seq<Run>, k: nat, i: nat)
    requires k < |rs| && rs[k].idx != []
    ensures var L := Flat(log, rs);
            var s := StartOf(log, rs, k);
            && s < |L| && L[s] == FragAt(log, rs[k].block, rs[k].idx[0])
            && Flat(log, Joined(rs, k, i)) == L[..s + 1] + [FragAt(log, rs[k].block, i)] + L[s + 1..]
  {
    hide Flat, RunPtrs, FragAt;
    var rs' := Joined(rs, k, i);
    var A, P, Z := Flat(log, rs[..k]), RunPtrs(log, rs[k]), Flat(log, rs[k + 1..]);
    FlatAround(log, rs, k);
    FlatAround(log, rs', k);
    assert rs'[..k] == rs[..k] && rs'[k + 1..] == rs[k + 1..];
    RunPtrsJoined(log, rs[k].block, rs[k].idx, i);
    SpliceIn(A, P, Z, FragAt(log, rs[k].block, i));
  }

  lemma RunPtrsJoined(log: nat, b: nat, idx: seq<nat>, i: nat)
    requires idx != []
    ensures var P := RunPtrs(log, Run(b, idx));
            P != [] && P[0] == FragAt(log, b, idx[0]) && RunPtrs(log, Run(b, [idx[0], i] + idx[1..])) == [P[0], FragAt(log, b, i)] + P[1..]
  {
  }

  lemma SpliceIn<T>(a: seq<T>, p: seq<T>, z: seq<T>, n: T)
    requires p != []
    ensures var L := a + p + z;
            L[|a|] == p[0] && a + ([p[0], n] + p[1..]) + z == L[..|a| + 1] + [n] + L[|a| + 1..]
  {
  }

  lemma JoinKeepsLog(info: seq<Info>, busy: map<nat, nat>, link: Links, log: nat, rs: seq<Run>, count: nat, k: nat, i: nat)
    requires IsLog(log) && LogOk(info, busy, link, log, rs, count) && k < |rs|
    requires i < PerBlock(log) && !InRuns(rs, rs[k].block, i)
    requires |rs[k].idx| + 1 <= PerBlock(log) && (|rs[k].idx| + 1 == PerBlock(log) ==> count == 1)
    ensures RunOk(info, log, rs[k])
    ensures var L := Flat(log, rs);
            var s := StartOf(log, rs, k);
            var b := rs[k].block;
            var n := FragAt(log, b, i);
            && s < |L| && L[s] == FragAt(log, b, rs[k].idx[0]) && L[s] in link && L[s] != n
            && (After(L, s + 1) != Null ==> After(L, s + 1) in link)
            && LogOk(info[b := Frag(log, |rs[k].idx| + 1, rs[k].idx[0])], busy, LinkIn(link, n, L[s], After(L, s + 1)), log, Joined(rs, k, i), count)
  {
    hide IsList, Flat, RunPtrs, StartOf;
    assert RunOk(info, log, rs[k]);
    var b := rs[k].block;
    var rs' := Joined(rs, k, i);
    var info' := info[b := Frag(log, |rs[k].idx| + 1, rs[k].idx[0])];
    JoinedRunsOk(info, log, rs, k, i);
    NotInFlat(info, log, rs, b, i);
    FlatJoined(log, rs, k, i);
    InsertBehind(link, log, Flat(log, rs), StartOf(log, rs, k), FragAt(log, b, i));
    assert BlocksOfSize(info', busy, log) == BlocksOfSize(info, busy, log);
    forall c: nat | IsFragBlock(info', busy, log, c)
      ensures BlockOk(info', log, rs', count, c)
    {
      assert IsFragBlock(info, busy, log, c) && BlockOk(info, log, rs, count, c);
      HasRunJoined(rs, k, i, c);
    }
  }

  lemma JoinedRunsOk(info: seq<Info>, log: nat, rs: seq<Run>, k: nat, i: nat)
    requires RunsOk(info, log, rs) && k < |rs| && i < PerBlock(log) && !InRuns(rs, rs[k].block, i)
    ensures RunOk(info, log, rs[k])
    ensures RunsOk(info[rs[k].block := Frag(log, |rs[k].idx| + 1, rs[k].idx[0])], log, Joined(rs, k, i))
  {
    var r := rs[k];
    assert RunOk(info, log, r);
    var rs' := Joined(rs, k, i);
    var info' := info[r.block := Frag(log, |r.idx| + 1, r.idx[0])];
    assert i !in r.idx;
    assert RunOk(info', log, rs'[k]) by {
      DistinctJoined(r.idx, i);
    }
    forall m | 0 <= m < |rs'|
      ensures RunOk(info', log, rs'[m])
    {
      if m != k {
        assert RunOk(info, log, rs[m]) && rs[m].block != r.block;
      }
    }
  }

  lemma DistinctJoined(idx: seq<nat>, i: nat)
    requires Distinct(idx) && idx != [] && i !in idx
    ensures Distinct([idx[0], i] + idx[1..])
  {
  }

  lemma HasRunJoined(rs: seq<Run>, k: nat, i: nat, b: nat)
    requires k < |rs| && rs[k].idx != []
    ensures HasRun(rs, b) ==> HasRun(Joined(rs, k, i), b)
  {
    if HasRun(rs, b) {
      var m :| 0 <= m < |rs| && rs[m].block == b;
      assert Joined(rs, k, i)[m].block == b;
    }
  }

  lemma InsertBehind(link: Links, log: nat, L: seq<Ptr>, s: nat, n: Ptr)
    requires IsList(link, log, L) && s < |L| && n.At? && n !in L
    ensures L[s] in link && L[s] != n && (After(L, s + 1) != Null ==> After(L, s + 1) in link)
    ensures IsList(LinkIn(link, n, L[s], After(L, s + 1)), log, L[..s + 1] + [n] + L[s + 1..])
  {
    ListAfterLinkIn(link, log, L, s + 1, n);
  }

  lemma InRunsJoined(info: seq<Info>, log: nat, rs: seq<Run>, k: nat, i: nat, c: nat, j: nat)
    requires RunsOk(info, log, rs) && k < |rs| && rs[k].idx != []
    ensures InRuns(Joined(rs, k, i), c, j) <==> InRuns(rs, c, j) || (c == rs[k].block && j == i)
  {
    var rs' := Joined(rs, k, i);
    if InRuns(rs, c, j) {
      var m :| 0 <= m < |rs| && rs[m].block == c && j in rs[m].idx;
      assert rs'[m].block == c;
      assert m == k ==> j == rs[k].idx[0] || j in rs[k].idx[1..];
    }
    if c == rs[k].block && j == i {
      assert rs'[k].block == c && rs'[k].idx[1] == j;
    }
    if InRuns(rs', c, j) {
      var m :| 0 <= m < |rs'| && rs'[m].block == c && j in rs'[m].idx;
      assert rs[m].block == c;
    }
  }

  // ----- Releasing the last fragment in use: the whole block goes -----

  ghost function Released(rs: seq<Run>, k: nat): seq<Run>
    requires k < |rs|
  {
    rs[..k] + rs[k + 1..]
  }

  lemma FlatReleased(log: nat, rs: seq<Run>, k: nat)
    requires k < |rs|
    ensures var L := Flat(log, rs);
            var s := StartOf(log, rs, k);
            && s + |rs[k].idx| <= |L|
            && (rs[k].idx != [] ==> L[s] == FragAt(log, rs[k].block, rs[k].idx[0]))
            && Flat(log, Released(rs, k)) == L[..s] + L[s + |rs[k].idx|..]
  {
    hide Flat;
    FlatAround(log, rs, k);
    FlatAppend(log, rs[..k], rs[k + 1..]);
    CutOut(Flat(log, rs[..k]), RunPtrs(log, rs[k]), Flat(log, rs[k + 1..]));
  }

  lemma CutOut<T>(a: seq<T>, p: seq<T>, z: seq<T>)
    ensures var L := a + p + z;
            L[..|a|] + L[|a| + |p|..] == a + z && (p != [] ==> L[|a|] == p[0])
  {
  }

  lemma ReleaseKeepsLog(info: seq<Info>, busy: map<nat, nat>, link: Links, log: nat, rs: seq<Run>, count: nat, k: nat)
    requires IsLog(log) && LogOk(info, busy, link, log, rs, count) && k < |rs| && count > 1
    ensures RunOk(info, log, rs[k])
    ensures var L := Flat(log, rs);
            var s := StartOf(log, rs, k);
            var e := s + |rs[k].idx|;
            && e <= |L| && Before(log, L, s) in link && (After(L, e) != Null ==> After(L, e) in link)
            && LogOk(info[rs[k].block := Busy(1)], busy, LinkOut(link, Before(log, L, s), After(L, e)), log, Released(rs, k), count - 1)
  {
    hide IsList, Flat, RunPtrs, StartOf;
    assert RunOk(info, log, rs[k]);
    var b := rs[k].block;
    var rs' := Released(rs, k);
    var info' := info[b := Busy(1)];
    ReleasedRunsOk(info, log, rs, k);
    FlatReleased(log, rs, k);
    ListAfterLinkOut(link, log, Flat(log, rs), StartOf(log, rs, k), StartOf(log, rs, k) + |rs[k].idx|);
    assert BlocksOfSize(info', busy, log) == BlocksOfSize(info, busy, log) - {b};
    assert IsFragBlock(info, busy, log, b);
    forall c: nat | IsFragBlock(info', busy, log, c)
      ensures BlockOk(info', log, rs', count - 1, c)
    {
      assert IsFragBlock(info, busy, log, c) && BlockOk(info, log, rs, count, c);
      HasRunReleased(rs, k, c);
    }
  }

  lemma ReleasedRunsOk(info: seq<Info>, log: nat, rs: seq<Run>, k: nat)
    requires RunsOk(info, log, rs) && k < |rs|
    ensures RunOk(info, log, rs[k]) && RunsOk(info[rs[k].block := Busy(1)], log, Released(rs, k))
  {
    assert RunOk(info, log, rs[k]);
    var info' := info[rs[k].block := Busy(1)];
    var rs' := Released(rs, k);
    forall m | 0 <= m < |rs'|
      ensures RunOk(info', log, rs'[m])
    {
      var m0 := if m < k then m else m + 1;
      assert rs'[m] == rs[m0] && RunOk(info, log, rs[m0]) && rs[m0].block != rs[k].block;
    }
  }

  lemma HasRunReleased(rs: seq<Run>, k: nat, b: nat)
    requires k < |rs|
    ensures HasRun(rs, b) && b != rs[k].block ==> HasRun(Released(rs, k), b)
  {
    if HasRun(rs, b) && b != rs[k].block {
      var m :| 0 <= m < |rs| && rs[m].block == b;
      assert Released(rs, k)[if m < k then m else m - 1].block == b;
    }
  }

  lemma InRunsReleased(info: seq<Info>, log: nat, rs: seq<Run>, k: nat, c: nat, j: nat)
    requires RunsOk(info, log, rs) && k < |rs|
    ensures InRuns(Released(rs, k), c, j) <==> InRuns(rs, c, j) && c != rs[k].block
  {
    var rs' := Released(rs, k);
    if InRuns(rs, c, j) && c != rs[k].block {
      var m :| 0 <= m < |rs| && rs[m].block == c && j in rs[m].idx;
      assert rs'[if m < k then m else m - 1] == rs[m];
    }
    if InRuns(rs', c, j) {
      var m :| 0 <= m < |rs'| && rs'[m].block == c && j in rs'[m].idx;
      var m0 := if m < k then m else m + 1;
      assert rs'[m] == rs[m0];
    }
  }

  /** With all but one of its fragments on the list, a block has no live fragment but that one. */
  lemma OnlyOneLeft(info: seq<Info>, log: nat, rs: seq<Run>, k: nat, i: nat, j: nat)
    requires RunsOk(info, log, rs) && k < |rs| && |rs[k].idx| == PerBlock(log) - 1
    requires i < PerBlock(log) && j < PerBlock(log)
    requires !InRuns(rs, rs[k].block, i) && !InRuns(rs, rs[k].block, j)
    ensures i == j
  {
    assert RunOk(info, log, rs[k]);
    if i != j {
      TooManyDistinct(rs[k].idx + [i, j], PerBlock(log));
      assert false;
    }
  }

  lemma {:induction false} TooManyDistinct(s: seq<nat>, n: nat)
    requires Distinct(s) && forall j :: 0 <= j < |s| ==> s[j] < n
    ensures |s| <= n
    decreases n
  {
    if s != [] {
      assert s[0] < n;
      if n - 1 in s {
        var j :| 0 <= j < |s| && s[j] == n - 1;
        TooManyDistinct(s[..j] + s[j + 1..], n - 1);
      } else {
        TooManyDistinct(s, n - 1);
      }
    }
  }

  // ----- A new block cut into fragments -----

  /** The indices `i, i - 1, ..., 1`, the order in which malloc.c:169-176 leaves them. */
  ghost function Down(i: nat): (s: seq<nat>)
    ensures |s| == i && forall j :: 0 <= j < i ==> s[j] == i - j
  {
    seq(i, j requires 0 <= j < i => i - j)
  }

  lemma RunPtrsDown(log: nat, b: nat, i: nat)
    ensures RunPtrs(log, Run(b, Down(i + 1))) == [FragAt(log, b, i + 1)] + RunPtrs(log, Run(b, Down(i)))
  {
  }

  lemma NewBlockKeepsLog(info: seq<Info>, busy: map<nat, nat>, link: Links, link': Links, log: nat, count: nat, b: nat)
    requires IsLog(log) && LogOk(info, busy, link, log, [], count)
    requires b in busy && b < |info| && !info[b].Frag?
    requires PerBlock(log) >= 2 && IsList(link', log, RunPtrs(log, Run(b, Down(PerBlock(log) - 1))))
    ensures LogOk(info[b := Frag(log, PerBlock(log) - 1, PerBlock(log) - 1)], busy, link', log, [Run(b, Down(PerBlock(log) - 1))], count + 1)
  {
    hide IsList, RunPtrs;
    FragmentsFillBlock(log);
    var n := PerBlock(log);
    var info' := info[b := Frag(log, n - 1, n - 1)];
    var rs' := [Run(b, Down(n - 1))];
    assert RunOk(info', log, rs'[0]);
    assert Flat(log, rs') == RunPtrs(log, rs'[0]) by {
      assert rs'[1..] == [];
      assert RunPtrs(log, rs'[0]) + Flat(log, []) == RunPtrs(log, rs'[0]);
    }
    assert BlocksOfSize(info', busy, log) == BlocksOfSize(info, busy, log) + {b};
    forall c: nat | IsFragBlock(info', busy, log, c)
      ensures BlockOk(info', log, rs', count + 1, c)
    {
      if c != b {
        assert IsFragBlock(info, busy, log, c) && BlockOk(info, log, [], count, c);
        assert info'[c].nfree == 0;
      } else {
        assert rs'[0].block == c;
      }
    }
  }

  // ----- The other sizes -----

  /** Steps on blocks and nodes of another size keep the invariant of size `log`. */
  lemma OtherLogKept(info: seq<Info>, info': seq<Info>, busy: map<nat, nat>, busy': map<nat, nat>, link: Links, link': Links,
                     log: nat, rs: seq<Run>, count: nat)
    requires LogOk(info, busy, link, log, rs, count)
    requires forall b: nat :: IsFragBlock(info, busy, log, b) <==> IsFragBlock(info', busy', log, b)
    requires forall b: nat :: IsFragBlock(info, busy, log, b) ==> b < |info'| && info'[b] == info[b]
    requires Head(log) in link' && (Head(log) in link ==> link'[Head(log)] == link[Head(log)])
    requires forall p: Ptr :: p.At? && p in link && IsFragBlock(info, busy, log, p.block) ==> p in link' && link'[p] == link[p]
    ensures LogOk(info', busy', link', log, rs, count)
  {
    forall k | 0 <= k < |rs|
      ensures RunOk(info', log, rs[k]) && IsFragBlock(info, busy, log, rs[k].block)
    {
      assert RunOk(info, log, rs[k]);
      assert IsFragBlock(info, busy, log, rs[k].block);
    }
    assert IsList(link', log, Flat(log, rs)) by {
      forall p | p in Flat(log, rs)
        ensures p.At? && p in link && IsFragBlock(info, busy, log, p.block)
      {
        InFlat(log, rs, p);
        var j :| 0 <= j < |Flat(log, rs)| && Flat(log, rs)[j] == p;
        assert Threaded(link, log, Flat(log, rs), j);
      }
      ListKept(link, link', log, Flat(log, rs));
    }
    assert BlocksOfSize(info', busy', log) == BlocksOfSize(info, busy, log);
    forall b: nat | IsFragBlock(info', busy', log, b)
      ensures BlockOk(info', log, rs, count, b)
    {
      assert IsFragBlock(info, busy, log, b) && BlockOk(info, log, rs, count, b);
    }
  }
}
