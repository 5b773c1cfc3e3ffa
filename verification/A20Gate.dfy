/** The memory of a virtual machine: faults, the A20 gate, and giving all pages back. */
module A20Gate {
  import opened Options
  import opened PageTables
  import opened Sequences

  /** The entries that are put aside while the gate is closed. */
  ghost function Aside(a20: bool, himem: seq<Pte>): map<nat, Pte> {
    if a20 then map[] else map k: nat | k < |himem| :: himem[k]
  }

  /** Entry `k` of the sixteen at one megabyte. */
  function High(k: nat): nat {
    PAGES_1M + k
  }

  /** The gate was closed: what was at one megabyte is put aside, the bottom 64K is seen there, nothing else has changed. */
  ghost predicate GateClosed(s0: Space, s1: Space, himem: seq<Pte>) {
    && |himem| == GATE_PAGES
    && (forall k: nat :: k < GATE_PAGES ==> himem[k] == Lookup(s0, High(k)) && Lookup(s1, High(k)) == Lookup(s0, k).(freeable := false))
    && (forall w: nat :: w < USER_PAGES && !(PAGES_1M <= w < PAGES_1M + GATE_PAGES) ==> Lookup(s1, w) == Lookup(s0, w))
  }

  /** The gate was opened: what was put aside is back. */
  ghost predicate GateOpened(s0: Space, s1: Space, himem: seq<Pte>) {
    && |himem| == GATE_PAGES
    && (forall k: nat :: k < GATE_PAGES ==> Lookup(s1, High(k)) == himem[k])
    && (forall w: nat :: w < USER_PAGES && !(PAGES_1M <= w < PAGES_1M + GATE_PAGES) ==> Lookup(s1, w) == Lookup(s0, w))
  }

  /** Closing and opening the gate again restores every entry. */
  lemma GateRoundTrip(s0: Space, s1: Space, s2: Space, himem: seq<Pte>, w: nat)
    requires GateClosed(s0, s1, himem) && GateOpened(s1, s2, himem) && w < USER_PAGES
    ensures Lookup(s2, w) == Lookup(s0, w)
  {
    if PAGES_1M <= w < PAGES_1M + GATE_PAGES {
      assert w == High(w - PAGES_1M);
    }
  }

  /** Part of the way through closing: the first `n` entries are done. */
  ghost predicate ClosedTo(s0: Space, s1: Space, n: nat) {
    && (forall k: nat :: k in s1.saved <==> k < n)
    && (forall k: nat :: k < n ==> s1.saved[k] == Lookup(s0, High(k)))
    && (forall w: nat :: w < USER_PAGES ==> ClosedAt(s0, s1, n, w))
  }

  ghost predicate ClosedAt(s0: Space, s1: Space, n: nat, w: nat) {
    Lookup(s1, w) == if PAGES_1M <= w < PAGES_1M + n then Lookup(s0, w - PAGES_1M).(freeable := false) else Lookup(s0, w)
  }

  /** Part of the way through opening. */
  ghost predicate OpenedTo(s0: Space, s1: Space, n: nat) {
    && (forall k: nat :: k in s1.saved <==> n <= k < GATE_PAGES)
    && (forall k: nat :: k in s1.saved ==> k in s0.saved && s1.saved[k] == s0.saved[k])
    && (forall w: nat :: w < USER_PAGES ==>
          Lookup(s1, w) == if PAGES_1M <= w < PAGES_1M + n && w - PAGES_1M in s0.saved then s0.saved[w - PAGES_1M] else Lookup(s0, w))
  }

  /** The number of tables for the pages below `v`. */
  function TablesFor(v: nat): nat {
    (v + PAGE_ENTRIES - 1) / PAGE_ENTRIES
  }

  /** The first `n` tables are there. */
  ghost predicate TablesUpTo(s: Space, n: nat) {
    forall i: nat :: i < USER_TABLES ==> (Pde(s, i).present <==> i < n)
  }

  /** The entries of a range are `e` now, all others as before. */
  ghost predicate SetAlike(s0: Space, s1: Space, from: nat, to: nat, e: Pte) {
    forall w: nat :: w < USER_PAGES ==> Lookup(s1, w) == if from <= w < to then e else Lookup(s0, w)
  }

  /** Tables that were there are as they were; new ones are open to users and to writing as `e` is. */
  ghost predicate NewTablesAlike(s0: Space, s1: Space, e: Pte) {
    forall i: nat :: Pde(s1, i) == Pde(s0, i)
                     || (!Pde(s0, i).present && Pde(s1, i) == Pte(Pde(s1, i).page, true, true, e.user, e.writable))
  }

  lemma NoNewTables(s: Space, e: Pte)
    ensures NewTablesAlike(s, s, e)
  {
  }

  lemma NewTablesStep(s0: Space, s1: Space, f1: seq<nat>, s2: Space, f2: seq<nat>, x: nat, e: Pte)
    requires NewTablesAlike(s0, s1, e) && Replaced(s1, f1, s2, f2, x, e)
    ensures NewTablesAlike(s0, s2, e)
  {
    hide Lookup, Pde, Shaped;
  }

  lemma TablesForGrows(from: nat, to: nat)
    requires from <= to
    ensures TablesFor(from) <= TablesFor(to)
  {
  }

  lemma DropTwice(f: seq<nat>, a: nat, b: nat)
    requires a + b <= |f|
    ensures f[a..][b..] == f[a + b..]
  {
  }

  lemma NoneAlike(s: Space, from: nat, e: Pte)
    ensures SetAlike(s, s, from, from, e)
  {
  }

  lemma AlikeOneMore(s0: Space, s1: Space, f1: seq<nat>, s2: Space, f2: seq<nat>, from: nat, x: nat, e: Pte)
    requires SetAlike(s0, s1, from, x, e) && Replaced(s1, f1, s2, f2, x, e) && from <= x < USER_PAGES
    ensures SetAlike(s0, s2, from, x + 1, e)
  {
    hide Lookup;
  }

  /** The next page has its table, or it is the first page of the next one. */
  lemma TableThere(s: Space, x: nat)
    requires TablesUpTo(s, TablesFor(x)) && x < USER_PAGES
    ensures Pde(s, x / PAGE_ENTRIES).present <==> x / PAGE_ENTRIES < TablesFor(x)
  {
  }

  lemma ThreeRanges(s0: Space, s1: Space, s2: Space, s3: Space, baseMem: nat, extendedMem: nat, e: Pte, none: Pte)
    requires SetAlike(s0, s1, 0, baseMem, e) && SetAlike(s1, s2, 160, PAGES_1M, none) && baseMem <= 160
    requires SetAlike(s2, s3, PAGES_1M, PAGES_1M + extendedMem, e)
    ensures forall w: nat :: w < USER_PAGES ==>
              Lookup(s3, w) == if w < baseMem || PAGES_1M <= w < PAGES_1M + extendedMem then e
                               else if 160 <= w < PAGES_1M then none else Lookup(s0, w)
  {
    hide Lookup;
  }

  /** All tables of a new machine are open to users and to writing: the read-only page finds its table there. */
  lemma ThreeTimesTables(s0: Space, s1: Space, s2: Space, s3: Space, baseMem: nat, extendedMem: nat, emptyPage: nat)
    requires 0 < baseMem <= 160 && PAGES_1M + extendedMem <= USER_PAGES && TablesUpTo(s0, 0) && TablesUpTo(s1, 1)
    requires TablesUpTo(s2, 1) && TablesUpTo(s3, TablesFor(PAGES_1M + extendedMem))
    requires NewTablesAlike(s0, s1, Pte(0, false, true, true, true)) && NewTablesAlike(s1, s2, Pte(emptyPage, true, false, true, false))
    requires NewTablesAlike(s2, s3, Pte(0, false, true, true, true))
    ensures forall i: nat :: i < TablesFor(PAGES_1M + extendedMem) ==> Pde(s3, i).present && Pde(s3, i).user && Pde(s3, i).writable
  {
    hide Pde;
    assert TablesFor(PAGES_1M + extendedMem) <= USER_TABLES;
  }

  lemma FirstTable(baseMem: nat, extendedMem: nat)
    requires 0 < baseMem <= 160
    ensures TablesFor(0) == 0 && TablesFor(baseMem) == 1 == TablesFor(160) == TablesFor(PAGES_1M) <= TablesFor(PAGES_1M + extendedMem)
  {
  }

  lemma TablesForNext(x: nat, to: nat)
    requires x < to
    ensures TablesFor(x + 1) == (if x / PAGE_ENTRIES < TablesFor(x) then TablesFor(x) else TablesFor(x) + 1) <= TablesFor(to)
    ensures x / PAGE_ENTRIES <= TablesFor(x)
  {
  }

  lemma TablesAfter(s0: Space, f0: seq<nat>, s1: Space, f1: seq<nat>, x: nat, e: Pte)
    requires Replaced(s0, f0, s1, f1, x, e) && x < USER_PAGES
    requires TablesUpTo(s0, TablesFor(x))
    ensures TablesUpTo(s1, TablesFor(x + 1))
    ensures TablesFor(x) <= TablesFor(x + 1) <= TablesFor(x) + |f0| && f1 == f0[TablesFor(x + 1) - TablesFor(x)..]
  {
    hide Lookup, Pde;
    TablesForNext(x, x + 1);
  }

  /** The page that is meant, with the gate closed. */
  function Faulting(v: nat, a20State: bool): nat {
    if !a20State && v >= PAGES_1M then v - PAGES_1M else v
  }

  class VirtualMemory {
    /** The free pages, the pages that hold tables of this machine, and its directory. */
    var free: seq<nat>
    var tables: map<nat, Table>
    const pd: nat
    var himemPtes: seq<Pte>
    var a20State: bool

    ghost function Now(saved: map<nat, Pte>): Space
      reads this
    {
      Space(tables, pd, saved)
    }

    ghost function Memory(): Space
      reads this
    {
      Space(tables, pd, Aside(a20State, himemPtes))
    }

    ghost predicate Valid()
      reads this
    {
      Shaped(Memory()) && OwnedOnce(Memory(), free) && Aliased(Memory()) && |himemPtes| == GATE_PAGES
    }

    /** A new directory: the kernel's tables and nothing else (`make_task_page_dir`). */
    constructor (pd: nat, kernelTables: seq<Pte>, free: seq<nat>)
      requires |kernelTables| == PAGE_ENTRIES - USER_TABLES && forall i :: 0 <= i < |kernelTables| ==> !kernelTables[i].freeable
      requires Distinct(free) && pd !in free
      ensures Valid() && a20State && this.free == free && this.pd == pd && forall v: nat :: v < USER_PAGES ==> Lookup(Memory(), v) == NO_PTE
      ensures TablesUpTo(Memory(), 0)
    {
      this.pd := pd;
      this.free := free;
      var dir: Table := seq(USER_TABLES, _ => NO_PTE) + kernelTables;
      tables := map[pd := dir];
      himemPtes := seq(GATE_PAGES, _ => NO_PTE);
      a20State := true;
      new;
      assert forall i: nat :: i < USER_TABLES ==> !Pde(Memory(), i).present;
      assert Memory().saved == map[];
      assert forall v: nat :: v < USER_PAGES ==> v / PAGE_ENTRIES < USER_TABLES && Lookup(Memory(), v) == NO_PTE;
      forall a, b, p
        ensures OneOwner(Memory(), a, b, p) && NotFree(Memory(), free, a, p)
      {
      }
      forall a, p
        ensures NotFree(Memory(), free, a, p)
      {
      }
    }

    /** Entries `from` up to `to` are set alike, and own nothing (the loops of `fill_vm_page_dir`); so many tables are there for them. */
    method FillRange(from: nat, to: nat, e: Pte)
      requires Valid() && a20State && from <= to <= USER_PAGES && !Owning(e)
      requires TablesUpTo(Memory(), TablesFor(from))
      requires |free| >= TablesFor(to) - TablesFor(from)
      modifies this`free, this`tables
      ensures Valid() && TablesFor(from) <= TablesFor(to) && free == old(free)[TablesFor(to) - TablesFor(from)..]
      ensures TablesUpTo(Memory(), TablesFor(to)) && SetAlike(old(Memory()), Memory(), from, to, e)
      ensures NewTablesAlike(old(Memory()), Memory(), e)
    {
      hide OwnedOnce, Shaped, Lookup, Pde, Replaced, TablesUpTo, SetAlike, TablesFor, Aliased, NewTablesAlike;
      ghost var s0 := Memory();
      NoneAlike(s0, from, e);
      NoNewTables(s0, e);
      TablesForGrows(from, to);
      var x := from;
      while x < to
        invariant from <= x <= to && Valid()
        invariant TablesFor(from) <= TablesFor(x) <= TablesFor(to) && free == old(free)[TablesFor(x) - TablesFor(from)..]
        invariant TablesUpTo(Memory(), TablesFor(x)) && SetAlike(s0, Memory(), from, x, e) && NewTablesAlike(s0, Memory(), e)
      {
        ghost var s1, f1 := Memory(), free;
        TablesForNext(x, to);
        TableThere(s1, x);
        SetPte(x, e, Aside(a20State, himemPtes));
        StillOwnedOnce(s1, f1, Memory(), free, x, e);
        AliasElsewhere(s1, f1, Memory(), free, x, e);
        ReplacedLookup(s1, f1, Memory(), free, x, e);
        TablesAfter(s1, f1, Memory(), free, x, e);
        AlikeOneMore(s0, s1, f1, Memory(), free, from, x, e);
        NewTablesStep(s0, s1, f1, Memory(), free, x, e);
        x := x + 1;
      }
    }

    /** `fill_vm_page_dir`: ordinary memory is allocated when it is touched, the rest of the first megabyte is one page
        of nothing, shared and never freed. Sizes are in pages. */
    method FillVmPageDir(baseMem: nat, extendedMem: nat, emptyPage: nat)
      requires Valid() && a20State && 0 < baseMem <= 160 && PAGES_1M + extendedMem <= USER_PAGES
      requires TablesUpTo(Memory(), 0) && |free| >= TablesFor(PAGES_1M + extendedMem)
      modifies this`free, this`tables
      ensures Valid() && free == old(free)[TablesFor(PAGES_1M + extendedMem)..]
      ensures TablesUpTo(Memory(), TablesFor(PAGES_1M + extendedMem))
      ensures forall i: nat :: i < TablesFor(PAGES_1M + extendedMem) ==> Pde(Memory(), i).present && Pde(Memory(), i).user && Pde(Memory(), i).writable
      ensures forall w: nat :: w < USER_PAGES ==>
                Lookup(Memory(), w) == if w < baseMem || PAGES_1M <= w < PAGES_1M + extendedMem then Pte(0, false, true, true, true)
                                       else if 160 <= w < PAGES_1M then Pte(emptyPage, true, false, true, false) else old(Lookup(Memory(), w))
    {
      hide OwnedOnce, Shaped, Lookup, Pde, Aliased, TablesFor, TablesUpTo, SetAlike, NewTablesAlike, VirtualMemory.Valid;
      FirstTable(baseMem, extendedMem);
      ghost var f, s0 := free, Memory();
      FillRange(0, baseMem, Pte(0, false, true, true, true));
      ghost var s1 := Memory();
      FillRange(160, PAGES_1M, Pte(emptyPage, true, false, true, false));
      ghost var s2 := Memory();
      assert free == f[1..];
      DropTwice(f, 1, TablesFor(PAGES_1M + extendedMem) - 1);
      FillRange(PAGES_1M, PAGES_1M + extendedMem, Pte(0, false, true, true, true));
      ThreeTimesTables(s0, s1, s2, Memory(), baseMem, extendedMem, emptyPage);
      ThreeRanges(s0, s1, s2, Memory(), baseMem, extendedMem, Pte(0, false, true, true, true), Pte(emptyPage, true, false, true, false));
    }

    /** `get_pte` */
    method GetPte(v: nat) returns (e: Pte)
      requires pd in tables && v < USER_PAGES
      requires Pde(Now(map[]), v / PAGE_ENTRIES).present ==> Pde(Now(map[]), v / PAGE_ENTRIES).page in tables
      ensures forall saved :: e == Lookup(Space(tables, pd, saved), v)
    {
      var d := tables[pd][v / PAGE_ENTRIES];
      if !d.present {
        return NO_PTE;
      }
      e := tables[d.page][v % PAGE_ENTRIES];
    }

    /** `alloc_page` */
    method AllocPage() returns (r: Option<nat>)
      modifies this`free
      ensures if old(free) == [] then r.None? && free == [] else r.Some? && old(free) == [r.value] + free
    {
      if free == [] {
        return None;
      }
      r := Some(free[0]);
      free := free[1..];
    }

    /** `free_page` overwrites the page with its place in the list. The list goes on naming every page once if and only
        if the page was not free already. */
    method FreePage(p: nat)
      modifies this`free, this`tables
      ensures free == [p] + old(free) && tables == old(tables) - {p}
      ensures Distinct(free) <==> Distinct(old(free)) && p !in old(free)
    {
      tables := tables - {p};
      PushedDistinct(free, p);
      free := [p] + free;
    }

    /** `set_pte` */
    method SetPte(v: nat, e: Pte, ghost saved: map<nat, Pte>)
      requires v < USER_PAGES && Shaped(Now(saved)) && OwnedOnce(Now(saved), free)
      requires !Pde(Now(saved), v / PAGE_ENTRIES).present ==> free != []
      modifies this`free, this`tables
      ensures Replaced(old(Now(saved)), old(free), Now(saved), free, v, e)
    {
      hide Replaced, OwnedOnce, Shaped, Lookup;
      ghost var s := Now(saved);
      PdThere(s);
      var i := v / PAGE_ENTRIES;
      var pt: nat;
      if !tables[pd][i].present {
        ghost var f := free;
        var r := AllocPage();
        pt := r.value;
        var zeros: Table := seq(PAGE_ENTRIES, _ => NO_PTE);
        var d := Pte(pt, true, true, e.user, e.writable);
        TableMade(s, f, v, e, d);
        assert f[0] == pt && f[1..] == free;
        PdNotFree(s, f, pt);
        tables := tables[pt := zeros];
        tables := tables[pd := tables[pd][i := d]];
        tables := tables[pt := tables[pt][v % PAGE_ENTRIES := e]];
        assert tables == s.tables[pt := zeros[v % PAGE_ENTRIES := e]][pd := s.tables[pd][i := d]];
      } else {
        pt := tables[pd][i].page;
        EntryWritten(s, free, v, e);
        tables := tables[pt := tables[pt][v % PAGE_ENTRIES := e]];
      }
    }

    /** `set_gate_a20` */
    method SetGateA20(state: bool)
      requires Valid() && (!Pde(Memory(), 0).present ==> free != [])
      modifies this
      ensures Valid() && a20State == state
      ensures old(a20State) == state ==> unchanged(this)
      ensures old(a20State) && !state ==> GateClosed(old(Memory()), Memory(), himemPtes)
      ensures !old(a20State) && state ==> GateOpened(old(Memory()), Memory(), old(himemPtes))
      ensures old(a20State) != state ==> free == if old(Pde(Memory(), 0).present) then old(free) else old(free)[1..]
      ensures old(a20State) && !state ==> |himemPtes| == 16 && forall k: nat :: k < 16 ==>
                && himemPtes[k] == old(Lookup(Memory(), 256 + k))
                && var e := old(Lookup(Memory(), k)); Lookup(Memory(), 256 + k) == Pte(e.page, e.present, false, e.user, e.writable)
      ensures !old(a20State) && state ==> |old(himemPtes)| == 16 && forall k: nat :: k < 16 ==> Lookup(Memory(), 256 + k) == old(himemPtes)[k]
      ensures forall w: nat :: w < USER_PAGES && !(256 <= w < 272) ==> Lookup(Memory(), w) == old(Lookup(Memory(), w))
    {
      hide Lookup, Pde;
      if a20State == state {
        return;
      }
      if state {
        Open();
      } else {
        Close();
      }
    }

    method Close()
      requires Valid() && a20State && (!Pde(Memory(), 0).present ==> free != [])
      modifies this
      ensures Valid() && !a20State && GateClosed(old(Memory()), Memory(), himemPtes)
      ensures free == if old(Pde(Memory(), 0).present) then old(free) else old(free)[1..]
    {
      hide OwnedOnce, Shaped, Lookup, Pde, Aliased;
      ghost var s0 := Memory();
      ghost var saved: map<nat, Pte> := map[];
      for i := 0 to GATE_PAGES
        invariant a20State && |himemPtes| == GATE_PAGES
        invariant Shaped(Now(saved)) && OwnedOnce(Now(saved), free) && ClosedTo(s0, Now(saved), i)
        invariant free == if i == 0 || Pde(s0, 0).present then old(free) else old(free)[1..]
        invariant Pde(Now(saved), 0).present <==> i > 0 || Pde(s0, 0).present
        invariant forall k :: k in saved ==> k < GATE_PAGES && himemPtes[k] == saved[k]
      {
        TablesThere(Now(saved), High(i));
        TablesThere(Now(saved), i);
        var high := GetPte(High(i));
        himemPtes := himemPtes[i := high];
        var low := GetPte(i);
        ghost var s1, f1 := Now(saved), free;
        FreeUsed(s1, i);
        SetPte(High(i), low.(freeable := false), saved);
        FreeBy(s1, f1, Now(saved), free, High(i), low.(freeable := false));
        PutAside(s1, f1, Now(saved), free, i, High(i), low.(freeable := false));
        ClosedOneMore(s0, s1, f1, Now(saved), free, i);
        saved := saved[i := high];
      }
      a20State := false;
      AllAside(saved, himemPtes);
      ClosedAll(s0, Now(saved), himemPtes);
    }

    method Open()
      requires Valid() && !a20State && (!Pde(Memory(), 0).present ==> free != [])
      modifies this
      ensures Valid() && a20State && GateOpened(old(Memory()), Memory(), old(himemPtes))
      ensures free == if old(Pde(Memory(), 0).present) then old(free) else old(free)[1..]
    {
      hide OwnedOnce, Shaped, Lookup, Pde, Aliased;
      ghost var s0 := Memory();
      ghost var saved := s0.saved;
      for i := 0 to GATE_PAGES
        invariant !a20State && himemPtes == old(himemPtes)
        invariant Shaped(Now(saved)) && OwnedOnce(Now(saved), free) && OpenedTo(s0, Now(saved), i)
        invariant free == if i == 0 || Pde(s0, 0).present then old(free) else old(free)[1..]
        invariant Pde(Now(saved), 0).present <==> i > 0 || Pde(s0, 0).present
      {
        ghost var s1, f1 := Now(saved), free;
        FreeUsed(s1, i);
        SetPte(High(i), himemPtes[i], saved);
        FreeBy(s1, f1, Now(saved), free, High(i), himemPtes[i]);
        TakenBack(s1, f1, Now(saved), free, i, High(i));
        OpenedOneMore(s0, s1, f1, Now(saved), free, i);
        saved := saved - {i};
      }
      a20State := true;
      assert saved == map[];
      OpenedAll(s0, Now(saved), himemPtes);
    }

    /** `map_page`: a page that could be freed and is mapped at the place already goes back to the free list. */
    method MapPage(v: nat, e: Pte, ghost saved: map<nat, Pte>)
      requires v < USER_PAGES && Shaped(Now(saved)) && OwnedOnce(Now(saved), free) && e.present
      requires !Pde(Now(saved), v / PAGE_ENTRIES).present ==> free != []
      modifies this`free, this`tables
      ensures !Owning(old(Lookup(Now(saved), v))) ==> Replaced(old(Now(saved)), old(free), Now(saved), free, v, e)
      ensures Owning(old(Lookup(Now(saved), v))) ==>
                free == [old(Lookup(Now(saved), v)).page] + old(free) && Replaced(old(Now(saved)), old(free), Now(saved), old(free), v, e)
    {
      hide Replaced, OwnedOnce, Shaped, Lookup;
      ghost var s, f := Now(saved), free;
      TablesThere(s, v);
      AbsentIsNothing(s, v);
      var i := v / PAGE_ENTRIES;
      var pt: nat;
      if !tables[pd][i].present {
        var r := AllocPage();
        pt := r.value;
        var zeros: Table := seq(PAGE_ENTRIES, _ => NO_PTE);
        var d := Pte(pt, true, true, e.user, e.writable);
        TableMade(s, f, v, e, d);
        PdNotFree(s, f, pt);
        assert f[0] == pt && f[1..] == free;
        tables := tables[pt := zeros];
        tables := tables[pd := tables[pd][i := d]];
        tables := tables[pt := tables[pt][v % PAGE_ENTRIES := e]];
        assert tables == s.tables[pt := zeros[v % PAGE_ENTRIES := e]][pd := s.tables[pd][i := d]];
      } else {
        pt := tables[pd][i].page;
        var before := tables[pt][v % PAGE_ENTRIES];
        EntryWritten(s, free, v, e);
        if Owning(before) {
          NotATable(s, f, v, before.page);
          FreePage(before.page);
          ghost var t := s.tables[pt := s.tables[pt][v % PAGE_ENTRIES := e]];
          PageDropped(s, f, s.(tables := t), f, v, e, before.page);
          assert (s.tables - {before.page})[pt := s.tables[pt][v % PAGE_ENTRIES := e]] == t - {before.page};
        }
        tables := tables[pt := tables[pt][v % PAGE_ENTRIES := e]];
      }
    }

    /** The not-present case of `vm_pfl_handler`, for an address that a machine in virtual 8086 mode can form while the
        gate is closed; there are pages left for the page itself and for tables. */
    method PageFault(v: nat)
      requires Valid() && v < USER_PAGES && !Lookup(Memory(), v).present
      requires !a20State ==> v < PAGES_1M + GATE_PAGES
      requires |free| >= if Pde(Memory(), Faulting(v, a20State) / PAGE_ENTRIES).present then 1 else 2
      modifies this`free, this`tables
      ensures Valid() && Pde(Memory(), Faulting(v, a20State) / PAGE_ENTRIES).present
      ensures var low := Faulting(v, a20State);
              && free == old(free)[if old(Pde(Memory(), low / PAGE_ENTRIES).present) then 1 else 2..]
              && Lookup(Memory(), low) == old(Lookup(Memory(), low)).(page := old(free)[0], present := true)
              && Lookup(Memory(), v) == Lookup(Memory(), low).(freeable := Lookup(Memory(), v).freeable)
              && (Leaked(Memory(), free, old(free)[0]) <==> !old(Lookup(Memory(), low)).freeable)
              && forall w: nat :: w < USER_PAGES && w != low && !(!a20State && low < GATE_PAGES && w == High(low))
                  ==> Lookup(Memory(), w) == old(Lookup(Memory(), w))
      ensures var n := Faulting(v, a20State) / PAGE_ENTRIES;
              forall i: nat :: Pde(Memory(), i) == if i == n && !old(Pde(Memory(), n).present) then
                                                     Pte(old(free)[1], true, true, Lookup(Memory(), v).user, Lookup(Memory(), v).writable)
                                                   else old(Pde(Memory(), i))
    {
      hide OwnedOnce, Shaped, Lookup, Pde, Aliased, Aside, Owns, Distinct, Leaked, Owning;
      ghost var s0, f := Memory(), free;
      var r := AllocPage();
      var page := r.value;
      assert f[0] == page && f[1..] == free;
      TakenIsLoose(s0, f);
      var low := Faulting(v, a20State);
      AsideNow(a20State, himemPtes);
      FaultsLow(s0, v, low);
      TablesThere(s0, low);
      var pte := GetPte(low);
      MadePresent(page, pte);
      MapFaulted(low, pte.(page := page, present := true));
      AsideNow(a20State, himemPtes);
      AliasIs(Memory(), v, low);
    }

    /** The page is mapped, and above one megabyte as well while the gate is closed (fault.c:682-691). */
    method MapFaulted(low: nat, e: Pte)
      requires Valid() && low < USER_PAGES && (!a20State ==> low < PAGES_1M) && !Lookup(Memory(), low).present && e.present
      requires e.page !in free && forall o :: !Owns(Memory(), o, e.page)
      requires !Pde(Memory(), low / PAGE_ENTRIES).present ==> free != []
      modifies this`free, this`tables
      ensures Valid() && Lookup(Memory(), low) == e && (Leaked(Memory(), free, e.page) <==> !e.freeable)
      ensures free == old(free)[if old(Pde(Memory(), low / PAGE_ENTRIES).present) then 0 else 1..]
      ensures forall w: nat :: w < USER_PAGES && w != low && !(!a20State && low < GATE_PAGES && w == High(low)) ==>
                Lookup(Memory(), w) == old(Lookup(Memory(), w))
      ensures var n := low / PAGE_ENTRIES;
              forall i: nat :: Pde(Memory(), i) == if i == n && !old(Pde(Memory(), n).present) then Pte(old(free)[0], true, true, e.user, e.writable)
                                                   else old(Pde(Memory(), i))
    {
      hide OwnedOnce, Shaped, Lookup, Pde, Aliased, Replaced, Aside, Owns, Distinct, Leaked, Owning;
      AsideNow(a20State, himemPtes);
      ghost var saved, s0, f0 := Aside(a20State, himemPtes), Memory(), free;
      AbsentOwnsNothing(s0, low);
      MapPage(low, e, saved);
      ghost var s1, f1 := Now(saved), free;
      FreeBy(s0, f0, s1, f1, low, e);
      StillOwnedOnce(s0, f0, s1, f1, low, e);
      ReplacedLookup(s0, f0, s1, f1, low, e);
      LooseStays(s0, f0, s1, f1, low, e, e.page);
      LeakedUnlessOwned(s1, f1, e.page, low);
      DirectoryAfter(s0, f0, s1, f1, low, e);
      if !a20State && low < GATE_PAGES {
        HighNotPresent(s0, f0, s1, f1, low, e);
        NotOwning(e);
        MapPage(High(low), e.(freeable := false), saved);
        FreeBy(s1, f1, Now(saved), free, High(low), e.(freeable := false));
        DirectoryAfter(s1, f1, Now(saved), free, High(low), e.(freeable := false));
        StillOwnedOnce(s1, f1, Now(saved), free, High(low), e.(freeable := false));
        ReplacedLookup(s1, f1, Now(saved), free, High(low), e.(freeable := false));
        AliasKept(s0, f0, s1, f1, Now(saved), free, low, e);
        LooseStays(s1, f1, Now(saved), free, High(low), e.(freeable := false), e.page);
        LeakedUnlessOwned(Now(saved), free, e.page, low);
      } else {
        AliasElsewhere(s0, f0, s1, f1, low, e);
      }
    }

    /** `delete_page_table` for directory entry `i`, after those before it. */
    method DeletePageTable(i: nat, ghost s: Space, ghost f0: seq<nat>)
      requires s.pd == pd && Shaped(s) && OwnedOnce(s, f0) && i < USER_TABLES && Pde(s, i).present
      requires Intact(s, tables, free) && Freed(s, f0, free, Before(i, 0))
      modifies this`free, this`tables
      ensures Intact(s, tables, free) && Freed(s, f0, free, Before(i + 1, 0))
    {
      hide OwnedOnce, Freed, Before, Intact, Lookup;
      StillThere(s, f0, tables, free, Before(i, 0), Dir, pd);
      var pt := tables[pd][i].page;
      for j := 0 to PAGE_ENTRIES
        invariant Intact(s, tables, free) && Freed(s, f0, free, Before(i, j))
      {
        StillThere(s, f0, tables, free, Before(i, j), TableOf(i), pt);
        EntryOf(s, i, j);
        var e := tables[pt][j];
        ghost var o, f := Entry(i * PAGE_ENTRIES + j), free;
        if e.present && e.freeable {
          FreedOne(s, f0, free, Before(i, j), o, e.page);
          IntactAfter(s, tables, free, e.page);
          FreePage(e.page);
        } else {
          FreedNone(s, f0, free, Before(i, j), iset{o});
        }
        NextEntry(i, j);
      }
      StillThere(s, f0, tables, free, Before(i, PAGE_ENTRIES), TableOf(i), pt);
      FreedOne(s, f0, free, Before(i, PAGE_ENTRIES), TableOf(i), pt);
      IntactAfter(s, tables, free, pt);
      FreePage(pt);
      NextTable(i);
    }

    /** `delete_page_dir`: every page of the directory, its tables and their freeable entries is free afterwards, each
        once; those put aside by the gate are not. */
    method DeletePageDir()
      requires Valid()
      modifies this`free, this`tables
      ensures Freed(old(Memory()), old(free), free, Tree())
    {
      hide OwnedOnce, Freed, Before, Intact, Lookup;
      ghost var s, f0 := Memory(), free;
      FreedNothing(s, f0, tables);
      for i := 0 to PAGE_ENTRIES
        invariant Intact(s, tables, free) && Freed(s, f0, free, Before(i, 0))
      {
        StillThere(s, f0, tables, free, Before(i, 0), Dir, pd);
        assert Pde(s, i) == tables[pd][i];
        if tables[pd][i].present && tables[pd][i].freeable {
          DeletePageTable(i, s, f0);
        } else {
          NothingInTable(s, f0, free, i);
        }
      }
      StillThere(s, f0, tables, free, Before(PAGE_ENTRIES, 0), Dir, pd);
      FreedOne(s, f0, free, Before(PAGE_ENTRIES, 0), Dir, pd);
      FreePage(pd);
      WholeTree(s, f0, free);
    }
  }

  // ----- Facts for the methods -----

  /** The page is neither free nor anybody's. */
  ghost predicate Leaked(s: Space, free: seq<nat>, p: nat) {
    p !in free && forall o :: !Owns(s, o, p)
  }

  lemma AbsentOwnsNothing(s: Space, v: nat)
    requires !Lookup(s, v).present
    ensures !Owning(Lookup(s, v))
  {
  }

  lemma NotOwning(e: Pte)
    ensures !Owning(e.(freeable := false))
  {
  }

  /** Above one megabyte the closed gate shows what is below, but for who owns it. */
  lemma AliasIs(s: Space, v: nat, low: nat)
    requires Aliased(s) && (low == v || (low == v - PAGES_1M && low in s.saved))
    ensures Lookup(s, v) == Lookup(s, low).(freeable := Lookup(s, v).freeable)
  {
  }

  lemma MadePresent(page: nat, pte: Pte)
    ensures var e := pte.(page := page, present := true); (Owning(e) <==> pte.freeable) && !Owning(e.(freeable := false))
  {
  }

  lemma DirectoryAfter(s0: Space, f0: seq<nat>, s1: Space, f1: seq<nat>, v: nat, e: Pte)
    requires Replaced(s0, f0, s1, f1, v, e)
    ensures var n := v / PAGE_ENTRIES;
            && (!Pde(s0, n).present ==> f0 != [])
            && forall i: nat :: Pde(s1, i) == if i == n && !Pde(s0, n).present then Pte(f0[0], true, true, e.user, e.writable) else Pde(s0, i)
  {
    hide Lookup, Pde, Shaped;
  }

  /** A page that only entry `low` maps. */
  lemma LeakedUnlessOwned(s: Space, free: seq<nat>, p: nat, low: nat)
    requires p !in free && (forall o :: Owns(s, o, p) ==> o == Entry(low)) && low < USER_PAGES
    requires Lookup(s, low).present && Lookup(s, low).page == p
    ensures Leaked(s, free, p) <==> !Lookup(s, low).freeable
  {
    assert Owns(s, Entry(low), p) <==> Owning(Lookup(s, low));
  }

  /** A page that is nobody's stays so, unless the entry that is written owns it. */
  lemma LooseStays(s0: Space, f0: seq<nat>, s1: Space, f1: seq<nat>, v: nat, e: Pte, p: nat)
    requires Replaced(s0, f0, s1, f1, v, e) && s1.saved == s0.saved && v < USER_PAGES && OwnedOnce(s0, f0)
    requires p !in f0 && forall o :: Owns(s0, o, p) ==> o.Entry? && o.v != v
    ensures p !in f1
    ensures forall o :: Owns(s1, o, p) <==> if o == Entry(v) then Owning(e) && e.page == p else Owns(s0, o, p)
  {
    hide Replaced, Lookup;
    FreeAfter(s0, f0, s1, f1, v, e);
    ReplacedLookup(s0, f0, s1, f1, v, e);
    forall o
      ensures Owns(s1, o, p) <==> if o == Entry(v) then Owning(e) && e.page == p else Owns(s0, o, p)
    {
      if Owns(s1, o, p) {
        Origin(s0, f0, s1, f1, v, e, o, p);
      }
    }
  }

  /** The tables that are not free yet are as they were. */
  ghost predicate Intact(s: Space, tables: map<nat, Table>, f: seq<nat>) {
    forall q :: q in s.tables && q !in f ==> q in tables && tables[q] == s.tables[q]
  }

  lemma IntactAfter(s: Space, tables: map<nat, Table>, f: seq<nat>, p: nat)
    requires Intact(s, tables, f)
    ensures Intact(s, tables - {p}, [p] + f)
  {
  }

  lemma StillThere(s: Space, f0: seq<nat>, tables: map<nat, Table>, f: seq<nat>, gone: Owners, o: Owner, p: nat)
    requires Shaped(s) && OwnedOnce(s, f0) && Freed(s, f0, f, gone) && Intact(s, tables, f)
    requires o == Dir || o.TableOf?
    requires Owns(s, o, p)
    requires exists i: nat, j: nat :: gone == Before(i, j) && (o.TableOf? ==> i <= o.i)
    ensures o !in gone && p in tables && p in s.tables && tables[p] == s.tables[p]
  {
    assert NotFree(s, f0, o, p);
    forall a | a in gone
      ensures !Owns(s, a, p)
    {
      assert OneOwner(s, a, o, p);
    }
    assert !OwnedIn(s, gone, p);
  }

  lemma EntryOf(s: Space, i: nat, j: nat)
    requires Shaped(s) && i < USER_TABLES && j < PAGE_ENTRIES && Pde(s, i).present
    ensures var o := Entry(i * PAGE_ENTRIES + j);
            && o !in Before(i, j) && o.v < USER_PAGES
            && Lookup(s, o.v) == s.tables[Pde(s, i).page][j]
            && (Owning(Lookup(s, o.v)) ==> Owns(s, o, Lookup(s, o.v).page)) && (!Owning(Lookup(s, o.v)) ==> forall p :: !Owns(s, o, p))
  {
    Split(i, j);
  }

  lemma Split(i: nat, j: nat)
    requires j < PAGE_ENTRIES
    ensures (i * PAGE_ENTRIES + j) / PAGE_ENTRIES == i && (i * PAGE_ENTRIES + j) % PAGE_ENTRIES == j
  {
  }

  lemma NextEntry(i: nat, j: nat)
    ensures Before(i, j) + iset{Entry(i * PAGE_ENTRIES + j)} == Before(i, j + 1)
  {
  }

  lemma NextTable(i: nat)
    ensures Before(i, PAGE_ENTRIES) + iset{TableOf(i)} == Before(i + 1, 0)
  {
  }

  lemma NothingInTable(s: Space, f0: seq<nat>, f: seq<nat>, i: nat)
    requires Shaped(s) && Freed(s, f0, f, Before(i, 0)) && i < PAGE_ENTRIES && !(Pde(s, i).present && Pde(s, i).freeable)
    ensures Freed(s, f0, f, Before(i + 1, 0))
  {
    var more := iset o: Owner | (o.Entry? && i * PAGE_ENTRIES <= o.v < i * PAGE_ENTRIES + PAGE_ENTRIES) || o == TableOf(i);
    forall o, p | o in more
      ensures !Owns(s, o, p)
    {
      if o.Entry? {
        Split(i, o.v - i * PAGE_ENTRIES);
      }
    }
    FreedNone(s, f0, f, Before(i, 0), more);
    assert Before(i, 0) + more == Before(i + 1, 0);
  }

  lemma FreedNothing(s: Space, f0: seq<nat>, tables: map<nat, Table>)
    requires OwnedOnce(s, f0) && tables == s.tables
    ensures Freed(s, f0, f0, Before(0, 0)) && Intact(s, tables, f0)
  {
  }

  lemma WholeTree(s: Space, f0: seq<nat>, f: seq<nat>)
    requires Freed(s, f0, f, Before(PAGE_ENTRIES, 0) + iset{Dir})
    ensures Freed(s, f0, f, Tree())
  {
    FreedSame(s, f0, f, Before(PAGE_ENTRIES, 0) + iset{Dir}, Tree());
  }

  /** Deleting the directory frees every page that was owned if and only if the gate had put no owned page aside. */
  lemma DeletionIsComplete(s: Space, f0: seq<nat>, f: seq<nat>)
    requires OwnedOnce(s, f0) && Freed(s, f0, f, Tree())
    ensures (forall o, p :: Owns(s, o, p) ==> p in f) <==> (forall k: nat :: k in s.saved ==> !Owning(s.saved[k]))
    ensures forall k: nat :: k in s.saved && Owning(s.saved[k]) ==> s.saved[k].page !in f
  {
    forall k: nat | k in s.saved && Owning(s.saved[k])
      ensures s.saved[k].page !in f && Owns(s, Saved(k), s.saved[k].page)
    {
      var p := s.saved[k].page;
      assert Owns(s, Saved(k), p) && NotFree(s, f0, Saved(k), p);
      forall o | o in Tree()
        ensures !Owns(s, o, p)
      {
        assert OneOwner(s, o, Saved(k), p);
      }
      assert !OwnedIn(s, Tree(), p);
    }
    if forall k: nat :: k in s.saved ==> !Owning(s.saved[k]) {
      forall o, p | Owns(s, o, p)
        ensures p in f
      {
        assert o in Tree();
      }
    }
  }

  /** A machine with the gate open touches the first page above one megabyte, closes the gate and is deleted: of the
      two pages that were free, the second holds its table and comes back, the first does not. */
  method PageIsLost(kernelTables: seq<Pte>) returns (m: VirtualMemory)
    requires |kernelTables| == PAGE_ENTRIES - USER_TABLES && forall i :: 0 <= i < |kernelTables| ==> !kernelTables[i].freeable
    ensures fresh(m) && !m.a20State && m.himemPtes != [] && Owning(m.himemPtes[0]) && m.himemPtes[0].page == 2 && 2 !in m.free
  {
    hide OwnedOnce, Shaped, Lookup, Pde, Aliased, Freed, Owns;
    m := new VirtualMemory(0, kernelTables, [1, 2]);
    assert TablesFor(PAGES_1M + 1) == 1;
    m.FillVmPageDir(1, 1, 3);
    m.PageFault(PAGES_1M);
    m.SetGateA20(false);
    assert High(0) == PAGES_1M && Owning(m.himemPtes[0]);
    ghost var s, f0 := m.Memory(), m.free;
    assert 0 in s.saved && s.saved[0] == m.himemPtes[0];
    m.DeletePageDir();
    DeletionIsComplete(s, f0, m.free);
    assert s.saved[0].page !in m.free;
  }

  /** A new machine touches a page: user code can read and write it then if and only if it is ordinary memory. */
  method TouchNewMemory(m: VirtualMemory, baseMem: nat, extendedMem: nat, emptyPage: nat, w: nat)
    requires m.Valid() && m.a20State && 0 < baseMem <= 160 && PAGES_1M + extendedMem <= USER_PAGES && w < USER_PAGES
    requires TablesUpTo(m.Memory(), 0) && |m.free| >= TablesFor(PAGES_1M + extendedMem) + 2
    modifies m
    ensures m.Valid()
    ensures UserReads(m.Memory(), w) <==> w < baseMem || 160 <= w < PAGES_1M + extendedMem
    ensures UserWrites(m.Memory(), w) <==> w < baseMem || PAGES_1M <= w < PAGES_1M + extendedMem
  {
    hide OwnedOnce, Shaped, Lookup, Pde, Aliased, VirtualMemory.Valid, TablesFor, TablesUpTo;
    NothingMapped(m.Memory(), w);
    TableOfPage(w, PAGES_1M + extendedMem);
    m.FillVmPageDir(baseMem, extendedMem, emptyPage);
    ghost var s := m.Memory();
    TablesAre(s, TablesFor(PAGES_1M + extendedMem), w);
    var e := GetEntry(m, w);
    if !e.present {
      m.PageFault(w);
    }
  }

  method GetEntry(m: VirtualMemory, w: nat) returns (e: Pte)
    requires m.Valid() && w < USER_PAGES
    ensures e == Lookup(m.Memory(), w)
  {
    TablesThere(m.Memory(), w);
    e := m.GetPte(w);
  }

  lemma NothingMapped(s: Space, w: nat)
    requires TablesUpTo(s, 0) && w < USER_PAGES
    ensures Lookup(s, w) == NO_PTE
  {
  }

  lemma TableOfPage(w: nat, top: nat)
    requires PAGES_1M <= top
    ensures w < top ==> w / PAGE_ENTRIES < TablesFor(top)
  {
  }

  lemma TablesAre(s: Space, n: nat, w: nat)
    requires TablesUpTo(s, n) && w < USER_PAGES
    ensures Pde(s, w / PAGE_ENTRIES).present <==> w / PAGE_ENTRIES < n
  {
  }

  lemma AbsentIsNothing(s: Space, v: nat)
    ensures !Pde(s, v / PAGE_ENTRIES).present ==> Lookup(s, v) == NO_PTE
    ensures Pde(s, v / PAGE_ENTRIES).present && Pde(s, v / PAGE_ENTRIES).page in s.tables ==>
              Lookup(s, v) == s.tables[Pde(s, v / PAGE_ENTRIES).page][v % PAGE_ENTRIES]
  {
  }

  /** A page that an entry owns is no table. */
  lemma NotATable(s: Space, f: seq<nat>, v: nat, q: nat)
    requires OwnedOnce(s, f) && v < USER_PAGES && Owning(Lookup(s, v)) && Lookup(s, v).page == q
    ensures q != s.pd && forall i: nat :: i < USER_TABLES && Pde(s, i).present ==> Pde(s, i).page != q
  {
    assert OneOwner(s, Dir, Entry(v), q);
    forall i: nat | i < USER_TABLES && Pde(s, i).present
      ensures Pde(s, i).page != q
    {
      assert OneOwner(s, TableOf(i), Entry(v), q);
    }
  }

  /** Giving a page back that is no table changes no entry. */
  lemma PageDropped(s0: Space, f0: seq<nat>, s1: Space, f1: seq<nat>, v: nat, e: Pte, q: nat)
    requires Replaced(s0, f0, s1, f1, v, e) && Pde(s0, v / PAGE_ENTRIES).present && v < USER_PAGES
    requires q != s0.pd && forall i: nat :: i < USER_TABLES && Pde(s0, i).present ==> Pde(s0, i).page != q
    ensures Replaced(s0, f0, s1.(tables := s1.tables - {q}), f1, v, e)
  {
    var s2 := s1.(tables := s1.tables - {q});
    forall i: nat
      ensures Pde(s2, i) == Pde(s1, i) == Pde(s0, i)
    {
    }
    forall w: nat | w < USER_PAGES
      ensures Lookup(s2, w) == Lookup(s1, w)
    {
      assert w / PAGE_ENTRIES < USER_TABLES;
    }
  }

  /** While the gate is closed an address above one megabyte is not present just when the one below is not. */
  lemma FaultsLow(s: Space, v: nat, low: nat)
    requires Aliased(s) && !Lookup(s, v).present
    requires low == v || (low == v - PAGES_1M && low < GATE_PAGES && low in s.saved)
    ensures !Lookup(s, low).present && !Owning(Lookup(s, low))
  {
    hide Lookup;
    if low != v {
      assert Lookup(s, PAGES_1M + low) == Lookup(s, low).(freeable := false);
    }
  }

  lemma HighNotPresent(s0: Space, f0: seq<nat>, s1: Space, f1: seq<nat>, low: nat, e: Pte)
    requires Aliased(s0) && low in s0.saved && low < GATE_PAGES && !Lookup(s0, low).present && Replaced(s0, f0, s1, f1, low, e)
    ensures !Owning(Lookup(s1, High(low))) && Pde(s1, High(low) / PAGE_ENTRIES).present
  {
    hide Lookup, Pde, Replaced, Shaped;
    ReplacedLookup(s0, f0, s1, f1, low, e);
    assert Lookup(s0, PAGES_1M + low) == Lookup(s0, low).(freeable := false);
    assert High(low) / PAGE_ENTRIES == low / PAGE_ENTRIES;
  }

  /** A fault at `v` while the gate has put entries aside. */
  lemma AliasKept(s0: Space, f0: seq<nat>, s1: Space, f1: seq<nat>, s2: Space, f2: seq<nat>, v: nat, e: Pte)
    requires Aliased(s0) && (forall k: nat :: k in s0.saved <==> k < GATE_PAGES) && v < GATE_PAGES
    requires Replaced(s0, f0, s1, f1, v, e) && s1.saved == s0.saved
    requires Replaced(s1, f1, s2, f2, High(v), e.(freeable := false)) && s2.saved == s0.saved
    ensures Aliased(s2)
  {
    hide Lookup, Pde, Replaced, Shaped;
    ReplacedLookup(s0, f0, s1, f1, v, e);
    ReplacedLookup(s1, f1, s2, f2, High(v), e.(freeable := false));
    forall k: nat | k in s2.saved
      ensures Lookup(s2, PAGES_1M + k) == Lookup(s2, k).(freeable := false)
    {
      assert Lookup(s0, PAGES_1M + k) == Lookup(s0, k).(freeable := false);
    }
  }

  lemma AliasElsewhere(s0: Space, f0: seq<nat>, s1: Space, f1: seq<nat>, v: nat, e: Pte)
    requires Aliased(s0) && Replaced(s0, f0, s1, f1, v, e) && s1.saved == s0.saved && v < USER_PAGES
    requires s0.saved == map[] || GATE_PAGES <= v < PAGES_1M
    ensures Aliased(s1)
  {
    hide Lookup, Pde, Replaced, Shaped;
    ReplacedLookup(s0, f0, s1, f1, v, e);
    forall k: nat | k in s1.saved
      ensures Lookup(s1, PAGES_1M + k) == Lookup(s1, k).(freeable := false)
    {
      assert Lookup(s0, PAGES_1M + k) == Lookup(s0, k).(freeable := false);
    }
  }

  /** What is true of a page that was just taken from the free list. */
  lemma TakenIsLoose(s: Space, f: seq<nat>)
    requires OwnedOnce(s, f) && f != []
    ensures OwnedOnce(s, f[1..]) && f[0] !in f[1..] && forall o :: !Owns(s, o, f[0])
  {
    hide Owns;
    forall o
      ensures !Owns(s, o, f[0])
    {
      assert NotFree(s, f, o, f[0]);
    }
    forall a, p
      ensures NotFree(s, f[1..], a, p)
    {
      assert NotFree(s, f, a, p);
    }
  }

  lemma AsideNow(a20: bool, himem: seq<Pte>)
    requires |himem| == GATE_PAGES
    ensures Aside(true, himem) == map[]
    ensures forall k: nat :: k in Aside(false, himem) <==> k < GATE_PAGES
  {
  }

  lemma PdThere(s: Space)
    requires Shaped(s)
    ensures s.pd in s.tables
  {
  }

  /** All sixteen entries are in the first table. */
  lemma FreeUsed(s: Space, k: nat)
    requires k < GATE_PAGES
    ensures High(k) / PAGE_ENTRIES == 0
  {
  }

  lemma FreeBy(s0: Space, f0: seq<nat>, s1: Space, f1: seq<nat>, v: nat, e: Pte)
    requires Replaced(s0, f0, s1, f1, v, e)
    ensures f1 == if Pde(s0, v / PAGE_ENTRIES).present then f0 else f0[if f0 == [] then 0 else 1..]
  {
  }

  lemma PdNotFree(s: Space, f: seq<nat>, p: nat)
    requires OwnedOnce(s, f) && p in f
    ensures p != s.pd
  {
    assert NotFree(s, f, Dir, p);
  }

  lemma TablesThere(s: Space, v: nat)
    requires Shaped(s) && v < USER_PAGES
    ensures s.pd in s.tables
    ensures Pde(s, v / PAGE_ENTRIES).present ==> Pde(s, v / PAGE_ENTRIES).page in s.tables
    ensures forall saved :: Pde(Space(s.tables, s.pd, saved), v / PAGE_ENTRIES) == Pde(s, v / PAGE_ENTRIES)
  {
  }

  lemma AllAside(saved: map<nat, Pte>, himem: seq<Pte>)
    requires (forall k: nat :: k in saved <==> k < GATE_PAGES) && |himem| == GATE_PAGES
    requires forall k :: k in saved ==> k < GATE_PAGES && himem[k] == saved[k]
    ensures Aside(false, himem) == saved
  {
  }

  lemma ReplacedLookup(s0: Space, f0: seq<nat>, s1: Space, f1: seq<nat>, v: nat, e: Pte)
    requires Replaced(s0, f0, s1, f1, v, e) && v < USER_PAGES
    ensures Shaped(s1) && Pde(s1, v / PAGE_ENTRIES).present
    ensures forall w: nat :: w < USER_PAGES ==> Lookup(s1, w) == if w == v then e else Lookup(s0, w)
    ensures forall saved :: Shaped(s1.(saved := saved)) && forall w: nat :: Lookup(s1.(saved := saved), w) == Lookup(s1, w)
    ensures forall saved :: Pde(s1.(saved := saved), v / PAGE_ENTRIES) == Pde(s1, v / PAGE_ENTRIES)
  {
    forall saved
      ensures Shaped(s1.(saved := saved))
    {
      assert forall i: nat :: Pde(s1.(saved := saved), i) == Pde(s1, i);
    }
  }

  lemma ClosedOneMore(s0: Space, s1: Space, f1: seq<nat>, s2: Space, f2: seq<nat>, n: nat)
    requires n < GATE_PAGES && ClosedTo(s0, s1, n) && s2.saved == s1.saved
    requires Replaced(s1, f1, s2, f2, High(n), Lookup(s1, n).(freeable := false))
    ensures var s3 := s2.(saved := s2.saved[n := Lookup(s1, High(n))]);
            && ClosedTo(s0, s3, n + 1) && Shaped(s3) && Pde(s3, 0).present
  {
    hide Lookup, Pde, Replaced, Shaped;
    var e := Lookup(s1, n).(freeable := false);
    ReplacedLookup(s1, f1, s2, f2, High(n), e);
    var s3 := s2.(saved := s2.saved[n := Lookup(s1, High(n))]);
    assert ClosedAt(s0, s1, n, n) && ClosedAt(s0, s1, n, High(n));
    var m := n + 1;
    forall w: nat | w < USER_PAGES
      ensures ClosedAt(s0, s3, m, w)
    {
      assert Lookup(s3, w) == Lookup(s2, w) && ClosedAt(s0, s1, n, w);
    }
  }

  lemma ClosedAll(s0: Space, s1: Space, himem: seq<Pte>)
    requires ClosedTo(s0, s1, GATE_PAGES) && |himem| == GATE_PAGES && forall k: nat :: k < GATE_PAGES ==> k in s1.saved && himem[k] == s1.saved[k]
    ensures GateClosed(s0, s1, himem) && Aliased(s1)
  {
    hide Lookup;
    forall k: nat | k < GATE_PAGES
      ensures himem[k] == Lookup(s0, High(k)) && Lookup(s1, High(k)) == Lookup(s0, k).(freeable := false) && Lookup(s1, k) == Lookup(s0, k)
    {
      assert ClosedAt(s0, s1, GATE_PAGES, k) && ClosedAt(s0, s1, GATE_PAGES, High(k));
    }
    forall w: nat | w < USER_PAGES && !(PAGES_1M <= w < PAGES_1M + GATE_PAGES)
      ensures Lookup(s1, w) == Lookup(s0, w)
    {
      assert ClosedAt(s0, s1, GATE_PAGES, w);
    }
  }

  lemma OpenedOneMore(s0: Space, s1: Space, f1: seq<nat>, s2: Space, f2: seq<nat>, n: nat)
    requires n < GATE_PAGES && OpenedTo(s0, s1, n) && s2.saved == s1.saved && n in s1.saved
    requires Replaced(s1, f1, s2, f2, High(n), s1.saved[n])
    ensures var s3 := s2.(saved := s2.saved - {n});
            && OpenedTo(s0, s3, n + 1) && Shaped(s3) && Pde(s3, 0).present
  {
    hide Lookup, Pde, Replaced, Shaped;
    ReplacedLookup(s1, f1, s2, f2, High(n), s1.saved[n]);
  }

  lemma OpenedAll(s0: Space, s1: Space, himem: seq<Pte>)
    requires OpenedTo(s0, s1, GATE_PAGES) && |himem| == GATE_PAGES && s0.saved == Aside(false, himem)
    ensures GateOpened(s0, s1, himem) && Aliased(s1) && s1.saved == map[]
  {
    hide Lookup;
    assert forall k: nat :: k < GATE_PAGES ==> k in s0.saved && s0.saved[k] == himem[k];
    assert forall k: nat :: k !in s1.saved;
  }
}
