/** The lists of free fragments, threaded through the fragments themselves. */
module FragLists {
  import opened Sequences

  /** A `struct list *`: null, the head of the list for one fragment size, or the
      fragment at a byte offset inside a block. */
  datatype Ptr = Null | Head(log: nat) | At(block: nat, offset: nat)

  /** A `struct list`. */
  datatype Node = Node(next: Ptr, prev: Ptr)

  type Links = map<Ptr, Node>

  ghost function NextOf(L: seq<Ptr>, k: nat): Ptr
    requires k < |L|
  {
    if k + 1 < |L| then L[k + 1] else Null
  }

  ghost function PrevOf(log: nat, L: seq<Ptr>, k: nat): Ptr
    requires k < |L|
  {
    if k == 0 then Head(log) else L[k - 1]
  }

  ghost predicate Threaded(link: Links, log: nat, L: seq<Ptr>, k: nat)
    requires k < |L|
  {
    L[k].At? && L[k] in link && link[L[k]] == Node(NextOf(L, k), PrevOf(log, L, k))
  }

  /** The list for size `log` holds exactly `L`, in that order. */
  ghost predicate IsList(link: Links, log: nat, L: seq<Ptr>) {
    && Head(log) in link
    && link[Head(log)].next == (if L == [] then Null else L[0])
    && Distinct(L)
    && forall k :: 0 <= k < |L| ==> Threaded(link, log, L, k)
  }

  function SetNext(link: Links, p: Ptr, q: Ptr): Links
    requires p in link
  {
    link[p := link[p].(next := q)]
  }

  /** Stores a `prev` pointer, unless there is no node to store it in. */
  function SetPrev(link: Links, p: Ptr, q: Ptr): Links
    requires p != Null ==> p in link
  {
    if p == Null then link else link[p := link[p].(prev := q)]
  }

  // ----- Linking a node in front of position k -----

  /** The node before position `k`: the head of the list or a member. */
  ghost function Before(log: nat, L: seq<Ptr>, k: nat): Ptr
    requires k <= |L|
  {
    if k == 0 then Head(log) else L[k - 1]
  }

  ghost function After(L: seq<Ptr>, k: nat): Ptr
    requires k <= |L|
  {
    if k < |L| then L[k] else Null
  }

  /** `n->next = after; n->prev = before; before->next = n; if (after) after->prev = n`. */
  function LinkIn(link: Links, n: Ptr, before: Ptr, after: Ptr): Links
    requires before in link && before != n && (after != Null ==> after in link)
  {
    SetPrev(SetNext(link[n := Node(after, before)], before, n), after, n)
  }

  lemma BeforeAfter(link: Links, log: nat, L: seq<Ptr>, k: nat)
    requires IsList(link, log, L) && k <= |L|
    ensures Before(log, L, k) in link && link[Before(log, L, k)].next == After(L, k)
    ensures After(L, k) != Null <==> k < |L|
    ensures k < |L| ==> After(L, k) in link && link[After(L, k)].prev == Before(log, L, k)
  {
    if k > 0 { assert Threaded(link, log, L, k - 1); }
    if k < |L| { assert Threaded(link, log, L, k); }
  }

  lemma ListAfterLinkIn(link: Links, log: nat, L: seq<Ptr>, k: nat, n: Ptr)
    requires IsList(link, log, L) && k <= |L| && n.At? && n !in L
    ensures Before(log, L, k) in link && Before(log, L, k) != n && (After(L, k) != Null ==> After(L, k) in link)
    ensures IsList(LinkIn(link, n, Before(log, L, k), After(L, k)), log, L[..k] + [n] + L[k..])
  {
    BeforeAfter(link, log, L, k);
    if k > 0 { assert Threaded(link, log, L, k - 1); }
    if k < |L| { assert Threaded(link, log, L, k); }
    var L' := L[..k] + [n] + L[k..];
    var link' := LinkIn(link, n, Before(log, L, k), After(L, k));
    forall m | 0 <= m < |L'|
      ensures Threaded(link', log, L', m)
    {
      if m < k {
        assert Threaded(link, log, L, m);
      } else if m > k {
        assert Threaded(link, log, L, m - 1);
      }
    }
  }

  // ----- Unlinking members i .. j - 1 -----

  /** `before->next = after; if (after) after->prev = before`. */
  function LinkOut(link: Links, before: Ptr, after: Ptr): Links
    requires before in link && (after != Null ==> after in link)
  {
    SetPrev(SetNext(link, before, after), after, before)
  }

  lemma ListAfterLinkOut(link: Links, log: nat, L: seq<Ptr>, i: nat, j: nat)
    requires IsList(link, log, L) && i < j <= |L|
    ensures Before(log, L, i) in link && (After(L, j) != Null ==> After(L, j) in link)
    ensures IsList(LinkOut(link, Before(log, L, i), After(L, j)), log, L[..i] + L[j..])
  {
    BeforeAfter(link, log, L, i);
    BeforeAfter(link, log, L, j);
    var L' := L[..i] + L[j..];
    var link' := LinkOut(link, Before(log, L, i), After(L, j));
    forall m | 0 <= m < |L'|
      ensures Threaded(link', log, L', m)
    {
      assert Threaded(link, log, L, if m < i then m else m + j - i);
    }
  }

  /** A list none of whose nodes changed is the same list. */
  lemma ListKept(link: Links, link': Links, log: nat, L: seq<Ptr>)
    requires IsList(link, log, L)
    requires Head(log) in link' && link'[Head(log)] == link[Head(log)]
    requires forall p :: p in L ==> p in link && p in link' && link'[p] == link[p]
    ensures IsList(link', log, L)
  {
    forall k | 0 <= k < |L|
      ensures Threaded(link', log, L, k)
    {
      assert Threaded(link, log, L, k);
      assert L[k] in L;
    }
  }
}
