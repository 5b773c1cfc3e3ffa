/** Two-level page tables and the pages they own (page.c), with the A20 gate of a virtual machine (vmach.c, fault.c). */
module PageTables {
  import opened Sequences

  const PAGE_ENTRIES := 1024
  /** Page tables below the kernel's, which every directory shares. */
  const USER_TABLES := 992
  const USER_PAGES := 1015808
  /** Pages of 4K: the first megabyte, and the 64K that the gate is about. */
  const PAGES_1M := 256
  const GATE_PAGES := 16

  /** A page-table or page-directory entry. */
  datatype Pte = Pte(page: nat, present: bool, freeable: bool, user: bool, writable: bool)

  const NO_PTE := Pte(0, false, false, false, false)

  type Table = t: seq<Pte> | |t| == PAGE_ENTRIES witness seq(PAGE_ENTRIES, _ => NO_PTE)

  /** The pages that hold tables, the directory among them, and the entries that the gate has put aside. */
  datatype Space = Space(tables: map<nat, Table>, pd: nat, saved: map<nat, Pte>)

  // ----- Looking up -----

  /** Directory entry `i`. */
  function Pde(s: Space, i: nat): Pte {
    if s.pd in s.tables && i < PAGE_ENTRIES then s.tables[s.pd][i] else NO_PTE
  }

  /** `get_pte`, by page number. */
  function Lookup(s: Space, v: nat): Pte {
    var d := Pde(s, v / PAGE_ENTRIES);
    if !d.present then NO_PTE
    else if d.page in s.tables then s.tables[d.page][v % PAGE_ENTRIES] else NO_PTE
  }

  /** The processor lets user code read or write a page if both the directory entry and the table entry do. */
  predicate UserReads(s: Space, v: nat) {
    var d, e := Pde(s, v / PAGE_ENTRIES), Lookup(s, v);
    d.present && d.user && e.present && e.user
  }

  predicate UserWrites(s: Space, v: nat) {
    UserReads(s, v) && Pde(s, v / PAGE_ENTRIES).writable && Lookup(s, v).writable
  }

  // ----- Owning -----

  /** Where a page can be owned: as the directory, as a table, by a freeable entry, or by an entry put aside. */
  datatype Owner = Dir | TableOf(i: nat) | Entry(v: nat) | Saved(k: nat)

  predicate Owning(e: Pte) {
    e.present && e.freeable
  }

  ghost predicate Owns(s: Space, o: Owner, p: nat) {
    match o
    case Dir => p == s.pd
    case TableOf(i) => i < USER_TABLES && Pde(s, i).present && Pde(s, i).page == p
    case Entry(v) => v < USER_PAGES && Owning(Lookup(s, v)) && Lookup(s, v).page == p
    case Saved(k) => k in s.saved && Owning(s.saved[k]) && s.saved[k].page == p
  }

  ghost predicate Shaped(s: Space) {
    && s.pd in s.tables
    && (forall i: nat :: i < USER_TABLES && Pde(s, i).present ==> Pde(s, i).freeable && Pde(s, i).page in s.tables)
    && (forall i: nat :: USER_TABLES <= i < PAGE_ENTRIES ==> !Pde(s, i).freeable)
  }

  /** No page is owned twice, and no owned page is free. */
  ghost predicate OwnedOnce(s: Space, free: seq<nat>) {
    && (forall a, b, p :: OneOwner(s, a, b, p))
    && (forall a, p :: NotFree(s, free, a, p))
    && Distinct(free)
  }

  ghost predicate OneOwner(s: Space, a: Owner, b: Owner, p: nat) {
    Owns(s, a, p) && Owns(s, b, p) ==> a == b
  }

  ghost predicate NotFree(s: Space, free: seq<nat>, a: Owner, p: nat) {
    Owns(s, a, p) ==> p !in free
  }

  /** Where the gate has put entries aside, the bottom 64K is seen at one megabyte as well, without owning it there. */
  ghost predicate Aliased(s: Space) {
    forall k: nat :: k in s.saved ==> k < GATE_PAGES && Lookup(s, PAGES_1M + k) == Lookup(s, k).(freeable := false)
  }

  // ----- Replacing an entry -----

  /** `s1` is `s0` with entry `e` for page `v`; a table for it came from the free list if there was none. */
  ghost predicate Replaced(s0: Space, f0: seq<nat>, s1: Space, f1: seq<nat>, v: nat, e: Pte) {
    && s1.pd == s0.pd && Shaped(s1)
    && (forall w: nat :: w < USER_PAGES ==> Lookup(s1, w) == if w == v then e else Lookup(s0, w))
    && (if Pde(s0, v / PAGE_ENTRIES).present then f1 == f0 && SameTables(s0, s1)
        else f0 != [] && f1 == f0[1..] && NewTable(s0, s1, v / PAGE_ENTRIES, f0[0], e))
  }

  ghost predicate SameTables(s0: Space, s1: Space) {
    forall i: nat :: Pde(s1, i) == Pde(s0, i)
  }

  /** Page `p` is the table of directory entry `n` now, open to users and to writing as the first page in it is. */
  ghost predicate NewTable(s0: Space, s1: Space, n: nat, p: nat, e: Pte) {
    && Pde(s1, n) == Pte(p, true, true, e.user, e.writable)
    && forall i: nat :: i != n ==> Pde(s1, i) == Pde(s0, i)
  }

  /** Writing into a table that exists. */
  lemma EntryWritten(s: Space, free: seq<nat>, v: nat, e: Pte)
    requires Shaped(s) && OwnedOnce(s, free) && v < USER_PAGES && Pde(s, v / PAGE_ENTRIES).present
    ensures Pde(s, v / PAGE_ENTRIES).page in s.tables
    ensures var pt := Pde(s, v / PAGE_ENTRIES).page;
            Replaced(s, free, s.(tables := s.tables[pt := s.tables[pt][v % PAGE_ENTRIES := e]]), free, v, e)
  {
    var i := v / PAGE_ENTRIES;
    var pt := Pde(s, i).page;
    var s1 := s.(tables := s.tables[pt := s.tables[pt][v % PAGE_ENTRIES := e]]);
    assert OneOwner(s, Dir, TableOf(i), pt);
    forall w: nat | w < USER_PAGES
      ensures Lookup(s1, w) == if w == v then e else Lookup(s, w)
    {
      assert OneOwner(s, TableOf(w / PAGE_ENTRIES), TableOf(i), pt);
      SamePlace(v, w);
    }
    assert pt != s.pd;
    assert SameTables(s, s1);
    assert Shaped(s1);
  }

  lemma SamePlace(v: nat, w: nat)
    ensures v / PAGE_ENTRIES == w / PAGE_ENTRIES && v % PAGE_ENTRIES == w % PAGE_ENTRIES ==> v == w
  {
  }

  /** Making a table for the entry, from the first free page. */
  lemma TableMade(s: Space, free: seq<nat>, v: nat, e: Pte, d: Pte)
    requires Shaped(s) && OwnedOnce(s, free) && v < USER_PAGES && !Pde(s, v / PAGE_ENTRIES).present && free != []
    requires d == Pte(free[0], true, true, e.user, e.writable)
    ensures var i := v / PAGE_ENTRIES;
            var zeros: Table := seq(PAGE_ENTRIES, _ => NO_PTE);
            Replaced(s, free, s.(tables := s.tables[free[0] := zeros[v % PAGE_ENTRIES := e]][s.pd := s.tables[s.pd][i := d]]), free[1..], v, e)
  {
    var i := v / PAGE_ENTRIES;
    var pt := free[0];
    var zeros: Table := seq(PAGE_ENTRIES, _ => NO_PTE);
    var s1 := s.(tables := s.tables[pt := zeros[v % PAGE_ENTRIES := e]][s.pd := s.tables[s.pd][i := d]]);
    assert NotFree(s, free, Dir, pt);
    forall j: nat | j < USER_TABLES
      ensures j != i ==> Pde(s1, j) == Pde(s, j) && (Pde(s, j).present ==> Pde(s, j).page != pt && Pde(s, j).page != s.pd)
    {
      assert NotFree(s, free, TableOf(j), pt) && OneOwner(s, TableOf(j), Dir, s.pd);
    }
    assert pt != s.pd && i < USER_TABLES;
    assert Pde(s1, i) == d;
    assert NewTable(s, s1, i, pt, e);
    assert Shaped(s1);
    forall w: nat | w < USER_PAGES
      ensures Lookup(s1, w) == if w == v then e else Lookup(s, w)
    {
      SamePlace(v, w);
    }
  }

  /** Where a page comes from that is owned after an entry was replaced. */
  lemma OwnersAfter(s0: Space, f0: seq<nat>, s1: Space, f1: seq<nat>, v: nat, e: Pte, o: Owner, p: nat)
    requires Replaced(s0, f0, s1, f1, v, e) && Owns(s1, o, p)
    ensures o.Entry? ==> (if o.v == v then Owning(e) && p == e.page else Owns(s0, o, p))
    ensures o.TableOf? ==> Owns(s0, o, p) || (!Pde(s0, v / PAGE_ENTRIES).present && f0 != [] && p == f0[0] && o.i == v / PAGE_ENTRIES)
    ensures o.Dir? ==> Owns(s0, o, p)
  {
    hide Lookup, Pde;
  }

  /** An entry is replaced by one whose page, if it owns any, nobody else owns. */
  lemma StillOwnedOnce(s0: Space, f0: seq<nat>, s1: Space, f1: seq<nat>, v: nat, e: Pte)
    requires OwnedOnce(s0, f0) && Replaced(s0, f0, s1, f1, v, e) && s1.saved == s0.saved
    requires Owning(e) ==> e.page !in f0 && forall o :: Owns(s0, o, e.page) ==> o == Entry(v)
    ensures OwnedOnce(s1, f1)
  {
    hide Lookup, Pde, Replaced;
    FreeAfter(s0, f0, s1, f1, v, e);
    forall o, p | Owns(s1, o, p)
      ensures p !in f1
    {
      Origin(s0, f0, s1, f1, v, e, o, p);
      assert NotFree(s0, f0, o, p);
    }
    forall a, b, p
      ensures OneOwner(s1, a, b, p)
    {
      if Owns(s1, a, p) && Owns(s1, b, p) {
        Origin(s0, f0, s1, f1, v, e, a, p);
        Origin(s0, f0, s1, f1, v, e, b, p);
        assert OneOwner(s0, a, b, p) && NotFree(s0, f0, a, p) && NotFree(s0, f0, b, p);
      }
    }
  }

  lemma FreeAfter(s0: Space, f0: seq<nat>, s1: Space, f1: seq<nat>, v: nat, e: Pte)
    requires Replaced(s0, f0, s1, f1, v, e) && Distinct(f0)
    ensures Distinct(f1) && forall p :: p in f1 ==> p in f0 && (f1 != f0 ==> p != f0[0])
  {
    hide Lookup, Pde, SameTables, NewTable;
  }

  lemma Origin(s0: Space, f0: seq<nat>, s1: Space, f1: seq<nat>, v: nat, e: Pte, o: Owner, p: nat)
    requires Replaced(s0, f0, s1, f1, v, e) && s1.saved == s0.saved && Owns(s1, o, p)
    ensures if o == Entry(v) then Owning(e) && p == e.page
            else Owns(s0, o, p) || (f0 != [] && f1 == f0[1..] && p == f0[0] && o == TableOf(v / PAGE_ENTRIES))
  {
    OwnersAfter(s0, f0, s1, f1, v, e, o, p);
    hide Lookup;
  }

  /** Closing the gate: the entry for one page above a megabyte is put aside and replaced by one that owns nothing. */
  lemma PutAside(s0: Space, f0: seq<nat>, s1: Space, f1: seq<nat>, k: nat, v: nat, e: Pte)
    requires OwnedOnce(s0, f0) && Replaced(s0, f0, s1, f1, v, e) && s1.saved == s0.saved && v < USER_PAGES
    requires !Owning(e) && k !in s0.saved
    ensures OwnedOnce(s1.(saved := s1.saved[k := Lookup(s0, v)]), f1)
  {
    hide Lookup, Pde, Replaced;
    FreeAfter(s0, f0, s1, f1, v, e);
    var s2 := s1.(saved := s1.saved[k := Lookup(s0, v)]);
    forall a, p
      ensures NotFree(s2, f1, a, p)
    {
      if Owns(s2, a, p) {
        AsideOrigin(s0, f0, s1, f1, k, v, e, a, p);
        assert NotFree(s0, f0, if a == Saved(k) then Entry(v) else a, p);
      }
    }
    forall a, b, p
      ensures OneOwner(s2, a, b, p)
    {
      if Owns(s2, a, p) && Owns(s2, b, p) {
        AsideOrigin(s0, f0, s1, f1, k, v, e, a, p);
        AsideOrigin(s0, f0, s1, f1, k, v, e, b, p);
        var c, d := if a == Saved(k) then Entry(v) else a, if b == Saved(k) then Entry(v) else b;
        assert OneOwner(s0, c, d, p) && NotFree(s0, f0, c, p) && NotFree(s0, f0, d, p);
      }
    }
  }

  lemma AsideOrigin(s0: Space, f0: seq<nat>, s1: Space, f1: seq<nat>, k: nat, v: nat, e: Pte, o: Owner, p: nat)
    requires Replaced(s0, f0, s1, f1, v, e) && s1.saved == s0.saved && !Owning(e) && v < USER_PAGES && k !in s0.saved
    requires Owns(s1.(saved := s1.saved[k := Lookup(s0, v)]), o, p)
    ensures o != Entry(v)
    ensures if o == Saved(k) then Owns(s0, Entry(v), p)
            else Owns(s0, o, p) || (f0 != [] && f1 == f0[1..] && p == f0[0] && o == TableOf(v / PAGE_ENTRIES))
  {
    hide Replaced;
    var s2 := s1.(saved := s1.saved[k := Lookup(s0, v)]);
    if o != Saved(k) {
      SameOwner(s1, s2, o, p);
      Origin(s0, f0, s1, f1, v, e, o, p);
    }
  }

  lemma SameOwner(s: Space, t: Space, o: Owner, p: nat)
    requires t == s.(saved := t.saved) && (o.Saved? ==> (o.k in s.saved <==> o.k in t.saved) && (o.k in s.saved ==> s.saved[o.k] == t.saved[o.k]))
    ensures Owns(t, o, p) <==> Owns(s, o, p)
  {
  }

  /** Opening the gate: an entry that was put aside comes back. */
  lemma TakenBack(s0: Space, f0: seq<nat>, s1: Space, f1: seq<nat>, k: nat, v: nat)
    requires OwnedOnce(s0, f0) && k in s0.saved && Replaced(s0, f0, s1, f1, v, s0.saved[k]) && s1.saved == s0.saved && v < USER_PAGES
    ensures OwnedOnce(s1.(saved := s1.saved - {k}), f1)
  {
    hide Lookup, Pde, Replaced;
    FreeAfter(s0, f0, s1, f1, v, s0.saved[k]);
    var s2 := s1.(saved := s1.saved - {k});
    forall a, p
      ensures NotFree(s2, f1, a, p)
    {
      if Owns(s2, a, p) {
        BackOrigin(s0, f0, s1, f1, k, v, a, p);
        assert NotFree(s0, f0, if a == Entry(v) then Saved(k) else a, p);
      }
    }
    forall a, b, p
      ensures OneOwner(s2, a, b, p)
    {
      if Owns(s2, a, p) && Owns(s2, b, p) {
        BackOrigin(s0, f0, s1, f1, k, v, a, p);
        BackOrigin(s0, f0, s1, f1, k, v, b, p);
        var c, d := if a == Entry(v) then Saved(k) else a, if b == Entry(v) then Saved(k) else b;
        assert OneOwner(s0, c, d, p) && NotFree(s0, f0, c, p) && NotFree(s0, f0, d, p);
      }
    }
  }

  lemma BackOrigin(s0: Space, f0: seq<nat>, s1: Space, f1: seq<nat>, k: nat, v: nat, o: Owner, p: nat)
    requires k in s0.saved && Replaced(s0, f0, s1, f1, v, s0.saved[k]) && s1.saved == s0.saved && v < USER_PAGES
    requires Owns(s1.(saved := s1.saved - {k}), o, p)
    ensures o != Saved(k)
    ensures if o == Entry(v) then Owns(s0, Saved(k), p)
            else Owns(s0, o, p) || (f0 != [] && f1 == f0[1..] && p == f0[0] && o == TableOf(v / PAGE_ENTRIES))
  {
    hide Replaced, Lookup;
    var s2 := s1.(saved := s1.saved - {k});
    assert o != Saved(k);
    SameOwner(s1, s2, o, p);
    Origin(s0, f0, s1, f1, v, s0.saved[k], o, p);
  }

  // ----- Freeing -----

  type Owners = iset<Owner>

  /** The free list has gained the pages of the owners `gone`, each once. */
  ghost predicate Freed(s: Space, f0: seq<nat>, f: seq<nat>, gone: Owners) {
    && Distinct(f)
    && forall p :: p in f <==> p in f0 || OwnedIn(s, gone, p)
  }

  ghost predicate OwnedIn(s: Space, gone: Owners, p: nat) {
    exists o :: o in gone && Owns(s, o, p)
  }

  lemma FreedOne(s: Space, f0: seq<nat>, f: seq<nat>, gone: Owners, o: Owner, p: nat)
    requires OwnedOnce(s, f0) && Freed(s, f0, f, gone) && o !in gone && Owns(s, o, p)
    ensures Freed(s, f0, [p] + f, gone + iset{o})
  {
    hide Owns;
    assert NotFree(s, f0, o, p);
    forall a | a in gone
      ensures !Owns(s, a, p)
    {
      assert OneOwner(s, a, o, p);
    }
    var f1 := [p] + f;
    assert Distinct(f1) by {
      assert forall m :: 0 < m < |f1| ==> f1[m] == f[m - 1];
    }
    forall q
      ensures q in f1 <==> q in f0 || OwnedIn(s, gone + iset{o}, q)
    {
      if OwnedIn(s, gone, q) {
        var a :| a in gone && Owns(s, a, q);
        assert a in gone + iset{o};
      }
      if q == p {
        assert o in gone + iset{o};
      }
      if a :| a in gone + iset{o} && Owns(s, a, q) {
        assert a == o ==> OneOwner(s, o, o, q);
        OnePage(s, o, p, q);
      }
    }
  }

  lemma OnePage(s: Space, o: Owner, p: nat, q: nat)
    requires Owns(s, o, p)
    ensures Owns(s, o, q) ==> q == p
  {
  }

  lemma FreedNone(s: Space, f0: seq<nat>, f: seq<nat>, gone: Owners, more: Owners)
    requires Freed(s, f0, f, gone) && forall o, p :: o in more ==> !Owns(s, o, p)
    ensures Freed(s, f0, f, gone + more)
  {
    hide Owns;
    forall p
      ensures OwnedIn(s, gone + more, p) <==> OwnedIn(s, gone, p)
    {
      if OwnedIn(s, gone, p) {
        var a :| a in gone && Owns(s, a, p);
        assert a in gone + more;
      }
    }
  }

  lemma FreedSame(s: Space, f0: seq<nat>, f: seq<nat>, gone: Owners, same: Owners)
    requires Freed(s, f0, f, gone) && forall o, p :: Owns(s, o, p) ==> (o in gone <==> o in same)
    ensures Freed(s, f0, f, same)
  {
    hide Owns;
    forall p
      ensures OwnedIn(s, gone, p) <==> OwnedIn(s, same, p)
    {
    }
  }

  /** Entries of table `i` before entry `j`, and everything in and of the tables before `i`. */
  ghost function Before(i: nat, j: nat): Owners {
    iset o: Owner | (o.Entry? && o.v < i * PAGE_ENTRIES + j) || (o.TableOf? && o.i < i)
  }

  ghost function Tree(): Owners {
    iset o: Owner | !o.Saved?
  }
}
