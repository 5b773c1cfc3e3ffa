/** Lists without repetitions, as the kernel's linked lists are. */
module Sequences {

  ghost predicate Distinct<T>(s: seq<T>) {
    forall m, n :: 0 <= m < n < |s| ==> s[m] != s[n]
  }

  /** `remove_node` */
  function Without<T(==)>(s: seq<T>, x: T): seq<T> {
    if s == [] then [] else if s[0] == x then s[1..] else [s[0]] + Without(s[1..], x)
  }

  lemma {:induction false} WithoutSplit<T>(s: seq<T>, x: T) returns (k: nat)
    ensures if x in s then k < |s| && s[k] == x && Without(s, x) == s[..k] + s[k + 1..] else Without(s, x) == s
  {
    k := 0;
    if s != [] && s[0] != x {
      var t := s[1..];
      assert s == [s[0]] + t && (x in s <==> x in t);
      var m := WithoutSplit(t, x);
      k := m + 1;
      if x in t {
        SplitShifted(s, m);
      }
    }
  }

  lemma SplitShifted<T>(s: seq<T>, m: nat)
    requires m + 1 < |s|
    ensures s[..m + 1] + s[m + 2..] == [s[0]] + (s[1..][..m] + s[1..][m + 1..])
  {
  }

  lemma WithoutMember<T>(s: seq<T>, x: T, y: T)
    requires Distinct(s)
    ensures y in Without(s, x) <==> y in s && y != x
  {
    var k := WithoutSplit(s, x);
    if x in s {
      var r := s[..k] + s[k + 1..];
      if y in s && y != x {
        var m :| 0 <= m < |s| && s[m] == y;
        assert y == r[if m < k then m else m - 1];
      }
    }
  }

  lemma WithoutIsDistinct<T>(s: seq<T>, x: T)
    requires Distinct(s)
    ensures Distinct(Without(s, x))
  {
    var k := WithoutSplit(s, x);
    if x in s {
      var r := s[..k] + s[k + 1..];
      forall m, n | 0 <= m < n < |r|
        ensures r[m] != r[n]
      {
        assert r[m] == s[if m < k then m else m + 1] && r[n] == s[if n < k then n else n + 1];
      }
    }
  }

  lemma PushedDistinct<T>(s: seq<T>, x: T)
    ensures Distinct([x] + s) <==> Distinct(s) && x !in s
  {
    var r := [x] + s;
    assert forall m :: 0 < m < |r| ==> r[m] == s[m - 1];
    if Distinct(r) {
      assert forall n :: 0 <= n < |s| ==> s[n] == r[n + 1] && r[0] != r[n + 1];
      forall m, n | 0 <= m < n < |s|
        ensures s[m] != s[n]
      {
        assert r[m + 1] != r[n + 1];
      }
    }
  }
}
