/** lists.h: doubly linked lists whose header is two overlapping sentinel nodes, in memory word by word. */
module Lists {
  /** A node at address `n` keeps its successor in word `n` and its predecessor in the next. The header at `list` has
      `head`, `tail` and `tailpred` in three words: the first two are a node before the first, the last two a node
      after the last, and `tail`, which they share, is always null. */
  type Memory = seq<nat>

  const NULL := 0

  /** Place `k` of a list: the node before the first is at -1, the node after the last at the length. */
  function At(list: nat, s: seq<nat>, k: int): nat {
    if 0 <= k < |s| then s[k] else if k < 0 then list else list + 1
  }

  ghost predicate Linked(m: Memory, a: nat, b: nat) {
    a < |m| && b + 1 < |m| && m[a] == b && m[b + 1] == a
  }

  predicate Apart(a: nat, b: nat) {
    a + 1 < b || b + 1 < a
  }

  /** The nodes overlap neither each other nor the header. */
  ghost predicate Separate(m: Memory, list: nat, s: seq<nat>) {
    && 0 < list && list + 2 < |m|
    && (forall i :: 0 <= i < |s| ==> 0 < s[i] && s[i] + 1 < |m| && (s[i] + 1 < list || list + 2 < s[i]))
    && (forall i, j :: 0 <= i < j < |s| ==> Apart(s[i], s[j]))
  }

  ghost predicate LinkAt(m: Memory, list: nat, s: seq<nat>, k: int) {
    Linked(m, At(list, s, k), At(list, s, k + 1))
  }

  ghost predicate IsList(m: Memory, list: nat, s: seq<nat>) {
    && Separate(m, list, s) && m[list + 1] == NULL
    && (forall k :: -1 <= k < |s| ==> LinkAt(m, list, s, k))
  }

  /** A node that is to join overlaps nothing in the list. */
  ghost predicate Outside(m: Memory, list: nat, s: seq<nat>, n: nat) {
    && 0 < n && n + 1 < |m| && (n + 1 < list || list + 2 < n)
    && forall i :: 0 <= i < |s| ==> Apart(s[i], n)
  }

  /** Word `a` belongs to the header or to a node of the list. */
  ghost predicate WordOf(list: nat, s: seq<nat>, a: nat) {
    list <= a <= list + 2 || exists i :: 0 <= i < |s| && s[i] <= a <= s[i] + 1
  }

  /** Only the words of the list and of node `n` differ. */
  ghost predicate OnlyThese(m0: Memory, m1: Memory, list: nat, s: seq<nat>, n: nat) {
    && |m1| == |m0|
    && forall a: nat :: a < |m0| && !WordOf(list, s, a) && !(n <= a <= n + 1) ==> m1[a] == m0[a]
  }

  /** The places of the list after node `n` went in behind place `k`. */
  function InsertedAt(s: seq<nat>, k: int, n: nat): seq<nat>
    requires -1 <= k < |s|
  {
    s[..k + 1] + [n] + s[k + 1..]
  }

  function RemovedAt(s: seq<nat>, k: nat): seq<nat>
    requires k < |s|
  {
    s[..k] + s[k + 1..]
  }

  /** The writes of `insert_node` (lists.h:78-81). */
  function Spliced(m: Memory, a: nat, n: nat, b: nat): Memory
    requires a < |m| && n + 1 < |m| && b + 1 < |m|
  {
    m[n := b][n + 1 := a][b + 1 := n][a := n]
  }

  lemma PlacesDiffer(m: Memory, list: nat, s: seq<nat>, i: int, j: int)
    requires Separate(m, list, s) && -1 <= i <= |s| && -1 <= j <= |s|
    ensures At(list, s, i) == At(list, s, j) ==> i == j
    ensures i < |s| && j >= 0 ==> At(list, s, i) != At(list, s, j) + 1
    ensures i < |s| ==> At(list, s, i) < |m| && At(list, s, i) != list + 1
    ensures i >= 0 ==> At(list, s, i) + 1 < |m| && At(list, s, i) + 1 != list + 1
  {
    if 0 <= i < |s| && 0 <= j < |s| && i != j {
      assert Apart(s[if i < j then i else j], s[if i < j then j else i]);
    }
  }

  lemma OutsideDiffers(m: Memory, list: nat, s: seq<nat>, n: nat, i: int)
    requires Separate(m, list, s) && Outside(m, list, s, n) && -1 <= i <= |s|
    ensures i < |s| ==> At(list, s, i) != n && At(list, s, i) != n + 1
    ensures i >= 0 ==> At(list, s, i) + 1 != n && At(list, s, i) + 1 != n + 1
  {
  }

  lemma LinkKept(m: Memory, a: nat, n: nat, b: nat, p: nat, q: nat)
    requires a < |m| && n + 1 < |m| && b + 1 < |m| && Linked(m, p, q)
    requires p != a && p != n && p != n + 1 && p != b + 1 && q + 1 != a && q + 1 != n && q + 1 != n + 1 && q + 1 != b + 1
    ensures Linked(Spliced(m, a, n, b), p, q)
  {
  }

  lemma LinksMade(m: Memory, a: nat, n: nat, b: nat)
    requires a < |m| && n + 1 < |m| && b + 1 < |m|
    requires a != n && a != n + 1 && b + 1 != n && b + 1 != n + 1 && a != b + 1
    ensures Linked(Spliced(m, a, n, b), a, n) && Linked(Spliced(m, a, n, b), n, b)
  {
  }

  lemma InsertedPlace(list: nat, s: seq<nat>, k: int, n: nat, j: int)
    requires -1 <= k < |s| && -1 <= j <= |s| + 1
    ensures At(list, InsertedAt(s, k, n), j) == if j <= k then At(list, s, j) else if j == k + 1 then n else At(list, s, j - 1)
  {
  }

  lemma InsertedLinks(m: Memory, list: nat, s: seq<nat>, k: int, n: nat, i: int)
    requires IsList(m, list, s) && -1 <= k < |s| && Outside(m, list, s, n)
    requires -1 <= i < |s| + 1
    ensures At(list, s, k) < |m| && At(list, s, k + 1) + 1 < |m|
    ensures LinkAt(Spliced(m, At(list, s, k), n, At(list, s, k + 1)), list, InsertedAt(s, k, n), i)
  {
    hide At, InsertedAt, Spliced, Linked, Separate, Outside;
    NodeBounds(m, list, s, n);
    PlacesDiffer(m, list, s, k, k + 1);
    PlacesDiffer(m, list, s, k + 1, k);
    OutsideDiffers(m, list, s, n, k);
    OutsideDiffers(m, list, s, n, k + 1);
    InsertedPlace(list, s, k, n, i);
    InsertedPlace(list, s, k, n, i + 1);
    if i == k || i == k + 1 {
      LinksMade(m, At(list, s, k), n, At(list, s, k + 1));
    } else {
      var j := if i < k then i else i - 1;
      assert LinkAt(m, list, s, j);
      PlacesDiffer(m, list, s, j, k);
      PlacesDiffer(m, list, s, j, k + 1);
      PlacesDiffer(m, list, s, j + 1, k + 1);
      PlacesDiffer(m, list, s, k, j + 1);
      OutsideDiffers(m, list, s, n, j);
      OutsideDiffers(m, list, s, n, j + 1);
      LinkKept(m, At(list, s, k), n, At(list, s, k + 1), At(list, s, j), At(list, s, j + 1));
    }
  }

  lemma NodeBounds(m: Memory, list: nat, s: seq<nat>, n: nat)
    requires Separate(m, list, s) && Outside(m, list, s, n)
    ensures n + 1 < |m|
  {
  }

  /** Inserting behind place `k` makes the list with the node there. */
  lemma Inserting(m: Memory, list: nat, s: seq<nat>, k: int, n: nat)
    requires IsList(m, list, s) && -1 <= k < |s| && Outside(m, list, s, n)
    ensures At(list, s, k) < |m| && At(list, s, k + 1) + 1 < |m|
    ensures var m1 := Spliced(m, At(list, s, k), n, At(list, s, k + 1));
            IsList(m1, list, InsertedAt(s, k, n)) && OnlyThese(m, m1, list, s, n)
  {
    hide LinkAt, Linked;
    InsertedLinks(m, list, s, k, n, -1);
    var m1 := Spliced(m, At(list, s, k), n, At(list, s, k + 1));
    var r := InsertedAt(s, k, n);
    PlacesDiffer(m, list, s, k, k + 1);
    PlacesDiffer(m, list, s, k + 1, k);
    forall i | -1 <= i < |r|
      ensures LinkAt(m1, list, r, i)
    {
      InsertedLinks(m, list, s, k, n, i);
    }
    InsertedSeparate(m, m1, list, s, k, n);
  }

  lemma InsertedIs(s: seq<nat>, k: int, n: nat, i: nat)
    requires -1 <= k < |s| && i <= |s|
    ensures |InsertedAt(s, k, n)| == |s| + 1
    ensures InsertedAt(s, k, n)[i] == if i <= k then s[i] else if i == k + 1 then n else s[i - 1]
  {
  }

  lemma InsertedSeparate(m: Memory, m1: Memory, list: nat, s: seq<nat>, k: int, n: nat)
    requires Separate(m, list, s) && -1 <= k < |s| && Outside(m, list, s, n) && |m1| == |m|
    ensures Separate(m1, list, InsertedAt(s, k, n))
  {
    var r := InsertedAt(s, k, n);
    forall i, j | 0 <= i < j < |r|
      ensures Apart(r[i], r[j])
    {
      InsertedIs(s, k, n, i);
      InsertedIs(s, k, n, j);
    }
    forall i | 0 <= i < |r|
      ensures 0 < r[i] && r[i] + 1 < |m1| && (r[i] + 1 < list || list + 2 < r[i])
    {
      InsertedIs(s, k, n, i);
    }
  }

  /** The writes of `remove_node` */
  function Unspliced(m: Memory, a: nat, b: nat): Memory
    requires a < |m| && b + 1 < |m|
  {
    m[a := b][b + 1 := a]
  }

  lemma RemovedPlace(list: nat, s: seq<nat>, k: nat, j: int)
    requires k < |s| && -1 <= j <= |s| - 1
    ensures At(list, RemovedAt(s, k), j) == if j < k then At(list, s, j) else At(list, s, j + 1)
  {
  }

  lemma LinkStays(m: Memory, a: nat, b: nat, p: nat, q: nat)
    requires a < |m| && b + 1 < |m| && a != b + 1
    requires Linked(m, p, q) && p != a && p != b + 1 && q + 1 != a && q + 1 != b + 1
    ensures Linked(Unspliced(m, a, b), p, q)
  {
  }

  lemma RemovedLinks(m: Memory, list: nat, s: seq<nat>, k: nat, i: int)
    requires IsList(m, list, s) && k < |s| && -1 <= i < |s| - 1
    ensures At(list, s, k - 1) < |m| && At(list, s, k + 1) + 1 < |m|
    ensures LinkAt(Unspliced(m, At(list, s, k - 1), At(list, s, k + 1)), list, RemovedAt(s, k), i)
  {
    hide At, RemovedAt, Separate;
    PlacesDiffer(m, list, s, k - 1, k + 1);
    PlacesDiffer(m, list, s, k + 1, k - 1);
    RemovedPlace(list, s, k, i);
    RemovedPlace(list, s, k, i + 1);
    if i != k - 1 {
      hide Linked, Unspliced;
      var j := if i < k - 1 then i else i + 1;
      assert LinkAt(m, list, s, j);
      PlacesDiffer(m, list, s, j, k - 1);
      PlacesDiffer(m, list, s, j, k + 1);
      PlacesDiffer(m, list, s, j + 1, k + 1);
      PlacesDiffer(m, list, s, k - 1, j + 1);
      LinkStays(m, At(list, s, k - 1), At(list, s, k + 1), At(list, s, j), At(list, s, j + 1));
    }
  }

  lemma Removing(m: Memory, list: nat, s: seq<nat>, k: nat)
    requires IsList(m, list, s) && k < |s|
    ensures At(list, s, k - 1) < |m| && At(list, s, k + 1) + 1 < |m|
    ensures var m1 := Unspliced(m, At(list, s, k - 1), At(list, s, k + 1));
            IsList(m1, list, RemovedAt(s, k)) && OnlyThese(m, m1, list, s, s[k])
  {
    hide LinkAt, Linked;
    PlacesDiffer(m, list, s, k - 1, k + 1);
    PlacesDiffer(m, list, s, k + 1, k - 1);
    var m1 := Unspliced(m, At(list, s, k - 1), At(list, s, k + 1));
    var r := RemovedAt(s, k);
    forall i | -1 <= i < |r|
      ensures LinkAt(m1, list, r, i)
    {
      RemovedLinks(m, list, s, k, i);
    }
    forall i | 0 <= i < |r|
      ensures r[i] == if i < k then s[i] else s[i + 1]
    {
    }
  }

  /** What a step leaves alone: a list that shares no word with what it may change stays the same list. */
  lemma OtherListKept(m0: Memory, m1: Memory, list: nat, s: seq<nat>, n: nat, other: nat, t: seq<nat>)
    requires OnlyThese(m0, m1, list, s, n) && IsList(m0, other, t)
    requires forall a: nat :: WordOf(other, t, a) ==> !WordOf(list, s, a) && !(n <= a <= n + 1)
    ensures IsList(m1, other, t)
  {
    forall k | -1 <= k < |t|
      ensures LinkAt(m1, other, t, k)
    {
      assert LinkAt(m0, other, t, k);
      assert WordOf(other, t, At(other, t, k)) && WordOf(other, t, At(other, t, k + 1) + 1);
    }
    assert WordOf(other, t, other + 1);
  }

  // ----- The operations -----

  /** `init_list` */
  method InitList(mem: array<nat>, list: nat)
    requires 0 < list && list + 2 < mem.Length
    modifies mem
    ensures IsList(mem[..], list, [])
    ensures forall a :: 0 <= a < mem.Length && !(list <= a <= list + 2) ==> mem[a] == old(mem[a])
  {
    mem[list + 2] := list;
    mem[list + 1] := NULL;
    mem[list] := list + 1;
    assert LinkAt(mem[..], list, [], -1);
  }

  /** `insert_node`, behind place `k`; behind the last sentinel means in front of it. */
  method InsertNode(mem: array<nat>, list: nat, node: nat, prev: nat, ghost s: seq<nat>, ghost k: int)
    requires IsList(mem[..], list, s) && -1 <= k <= |s| && prev == At(list, s, k) && Outside(mem[..], list, s, node)
    modifies mem
    ensures IsList(mem[..], list, if k < |s| then InsertedAt(s, k, node) else s + [node])
    ensures OnlyThese(old(mem[..]), mem[..], list, s, node)
  {
    hide LinkAt, Linked, Separate, OnlyThese;
    ghost var m := mem[..];
    ghost var p := if k < |s| then k else |s| - 1;
    Bounds(m, list, s, p);
    Bounds(m, list, s, k);
    Bounds(m, list, s, p + 1);
    Inserting(m, list, s, p, node);
    var tmp := mem[prev];
    if tmp != NULL {
      mem[node] := tmp;
      mem[node + 1] := prev;
      mem[tmp + 1] := node;
      mem[prev] := node;
      assert mem[..] == Spliced(m, prev, node, tmp);
    } else {
      mem[node] := prev;
      tmp := mem[prev + 1];
      mem[node + 1] := tmp;
      mem[prev + 1] := node;
      mem[tmp] := node;
      assert mem[..] == Spliced(m, tmp, node, prev);
      InsertedLast(s, node);
    }
  }

  lemma InsertedLast(s: seq<nat>, n: nat)
    ensures InsertedAt(s, |s| - 1, n) == s + [n]
  {
    assert s[..|s|] == s;
  }

  /** `append_node` */
  method AppendNode(mem: array<nat>, list: nat, node: nat, ghost s: seq<nat>)
    requires IsList(mem[..], list, s) && Outside(mem[..], list, s, node)
    modifies mem
    ensures IsList(mem[..], list, s + [node]) && OnlyThese(old(mem[..]), mem[..], list, s, node)
  {
    hide LinkAt, Linked, Separate, OnlyThese;
    ghost var m := mem[..];
    Bounds(m, list, s, |s| - 1);
    Bounds(m, list, s, |s|);
    Inserting(m, list, s, |s| - 1, node);
    var tmp := list + 1;
    var tmp2 := mem[tmp + 1];
    mem[tmp + 1] := node;
    mem[node] := tmp;
    mem[node + 1] := tmp2;
    mem[tmp2] := node;
    assert mem[..] == Spliced(m, tmp2, node, tmp);
    InsertedLast(s, node);
  }

  /** `prepend_node` */
  method PrependNode(mem: array<nat>, list: nat, node: nat, ghost s: seq<nat>)
    requires IsList(mem[..], list, s) && Outside(mem[..], list, s, node)
    modifies mem
    ensures IsList(mem[..], list, [node] + s) && OnlyThese(old(mem[..]), mem[..], list, s, node)
  {
    hide LinkAt, Linked, Separate, OnlyThese;
    ghost var m := mem[..];
    Bounds(m, list, s, -1);
    Inserting(m, list, s, -1, node);
    var tmp := mem[list];
    mem[list] := node;
    mem[node] := tmp;
    mem[node + 1] := list;
    mem[tmp + 1] := node;
    assert mem[..] == Spliced(m, list, node, tmp);
    assert InsertedAt(s, -1, node) == [node] + s;
  }

  /** `remove_node`, which needs no list to be named */
  method RemoveNode(mem: array<nat>, node: nat, ghost list: nat, ghost s: seq<nat>, ghost k: nat)
    requires IsList(mem[..], list, s) && k < |s| && node == s[k]
    modifies mem
    ensures IsList(mem[..], list, RemovedAt(s, k)) && OnlyThese(old(mem[..]), mem[..], list, s, node)
  {
    hide LinkAt, Linked, Separate, OnlyThese;
    ghost var m := mem[..];
    Bounds(m, list, s, k - 1);
    Bounds(m, list, s, k);
    Bounds(m, list, s, k + 1);
    Removing(m, list, s, k);
    var tmp := mem[node];
    var pred := mem[node + 1];
    mem[pred] := tmp;
    mem[tmp + 1] := pred;
    assert mem[..] == Unspliced(m, pred, tmp);
  }

  /** `list_empty_p` */
  method ListEmptyP(mem: array<nat>, list: nat, ghost s: seq<nat>) returns (empty: bool)
    requires IsList(mem[..], list, s)
    ensures empty <==> s == []
  {
    Bounds(mem[..], list, s, |s|);
    PlacesDiffer(mem[..], list, s, |s| - 1, -1);
    empty := mem[list + 2] == list;
  }

  /** What the words of the node at place `k` hold. */
  lemma Bounds(m: Memory, list: nat, s: seq<nat>, k: int)
    requires IsList(m, list, s) && -1 <= k <= |s|
    ensures At(list, s, k) + 1 < |m| && list + 2 < |m|
    ensures m[At(list, s, k)] == (if k < |s| then At(list, s, k + 1) else NULL)
    ensures m[At(list, s, k) + 1] == (if k >= 0 then At(list, s, k - 1) else NULL)
    ensures 0 < At(list, s, k)
  {
    if k < |s| {
      assert LinkAt(m, list, s, k);
    }
    if k >= 0 {
      assert LinkAt(m, list, s, k - 1);
    }
  }
}
