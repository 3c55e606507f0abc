/**
 Stable sorting by a total preorder. The program calls a library sort; all that matters of it is
 fixed by two facts, sortedness and stability, and `StableSortUnique` shows they leave one result.
 */
module Sorting {

  predicate Comparable<T>(le: (T, T) -> bool, x: T, y: T) { le(x, y) || le(y, x) }

  predicate Chains<T>(le: (T, T) -> bool, x: T, y: T, z: T) { le(x, y) && le(y, z) ==> le(x, z) }

  ghost predicate TotalPreorder<T(!new)>(le: (T, T) -> bool) {
    && (forall x, y :: Comparable(le, x, y))
    && (forall x, y, z :: Chains(le, x, y, z))
  }

  ghost predicate Sorted<T>(s: seq<T>, le: (T, T) -> bool) {
    forall i, j :: 0 <= i < j < |s| ==> le(s[i], s[j])
  }

  ghost predicate Ascending(s: seq<nat>) { forall i, j :: 0 <= i < j < |s| ==> s[i] < s[j] }

  predicate Tie<T>(le: (T, T) -> bool, x: T, y: T) { le(x, y) && le(y, x) }

  /** The elements of `s` that tie with `x`, in the order `s` has them. */
  function Ties<T>(s: seq<T>, x: T, le: (T, T) -> bool): seq<T> {
    if s == [] then []
    else
      var n := |s| - 1;
      Ties(s[..n], x, le) + if Tie(le, s[n], x) then [s[n]] else []
  }

  /** The same elements tie with each value, in the same order. */
  ghost predicate SameTies<T(!new)>(s: seq<T>, t: seq<T>, le: (T, T) -> bool) {
    forall x :: Ties(t, x, le) == Ties(s, x, le)
  }

  /** `t` is `s` sorted, ties kept in their original order. */
  ghost predicate IsStableSort<T(!new)>(s: seq<T>, t: seq<T>, le: (T, T) -> bool) {
    Sorted(t, le) && SameTies(s, t, le)
  }

  function Insert<T>(s: seq<T>, x: T, le: (T, T) -> bool): seq<T> {
    if s == [] then [x]
    else
      var n := |s| - 1;
      if le(s[n], x) then s + [x] else Insert(s[..n], x, le) + [s[n]]
  }

  function StableSort<T>(s: seq<T>, le: (T, T) -> bool): seq<T> {
    if s == [] then []
    else
      var n := |s| - 1;
      Insert(StableSort(s[..n], le), s[n], le)
  }

  lemma {:induction false} TiesConcat<T>(a: seq<T>, b: seq<T>, x: T, le: (T, T) -> bool)
    ensures Ties(a + b, x, le) == Ties(a, x, le) + Ties(b, x, le)
  {
    if b == [] {
      assert a + b == a;
    } else {
      assert (a + b)[..|a + b| - 1] == a + b[..|b| - 1];
      TiesConcat(a, b[..|b| - 1], x, le);
    }
  }

  lemma {:induction false} TiesMembers<T>(s: seq<T>, x: T, le: (T, T) -> bool)
    ensures forall y :: y in Ties(s, x, le) <==> y in s && Tie(le, y, x)
  {
    if s != [] {
      TiesMembers(s[..|s| - 1], x, le);
      assert s == s[..|s| - 1] + [s[|s| - 1]];
    }
  }

  lemma {:induction false} TiesNone<T>(s: seq<T>, x: T, le: (T, T) -> bool)
    requires forall y :: y in s ==> !Tie(le, y, x)
    ensures Ties(s, x, le) == []
  {
    if s != [] {
      var n := |s| - 1;
      assert s == s[..n] + [s[n]];
      TiesNone(s[..n], x, le);
    }
  }

  lemma {:induction false} InsertMembers<T>(s: seq<T>, x: T, le: (T, T) -> bool)
    ensures forall y :: y in Insert(s, x, le) <==> y in s || y == x
  {
    if s != [] {
      var n := |s| - 1;
      InsertMembers(s[..n], x, le);
      assert s == s[..n] + [s[n]];
    }
  }

  lemma {:induction false} SortMembers<T>(s: seq<T>, le: (T, T) -> bool)
    ensures forall y :: y in StableSort(s, le) <==> y in s
  {
    if s != [] {
      var n := |s| - 1;
      SortMembers(s[..n], le);
      InsertMembers(StableSort(s[..n], le), s[n], le);
      assert s == s[..n] + [s[n]];
    }
  }

  lemma {:induction false} InsertSorted<T(!new)>(s: seq<T>, x: T, le: (T, T) -> bool)
    requires TotalPreorder(le) && Sorted(s, le)
    ensures Sorted(Insert(s, x, le), le)
  {
    if s != [] {
      var n := |s| - 1;
      if le(s[n], x) {
        forall i | 0 <= i < n ensures le(s[i], x) { assert Chains(le, s[i], s[n], x); }
      } else {
        InsertSorted(s[..n], x, le);
        InsertMembers(s[..n], x, le);
        var t := Insert(s[..n], x, le);
        forall i | 0 <= i < |t| ensures le(t[i], s[n]) {
          assert t[i] in t;
          assert Comparable(le, x, s[n]);
        }
      }
    }
  }

  lemma {:induction false} InsertTies<T(!new)>(s: seq<T>, x: T, y: T, le: (T, T) -> bool)
    requires TotalPreorder(le)
    ensures Ties(Insert(s, x, le), y, le) == Ties(s + [x], y, le)
  {
    assert (s + [x])[..|s|] == s;
    if s != [] {
      var n := |s| - 1;
      if !le(s[n], x) {
        InsertTies(s[..n], x, y, le);
        assert (s[..n] + [x])[..n] == s[..n];
        var t := Insert(s[..n], x, le);
        assert (t + [s[n]])[..|t|] == t;
        assert Chains(le, s[n], y, x);
      }
    }
  }

  lemma {:induction false} StableSortIsStable<T(!new)>(s: seq<T>, le: (T, T) -> bool)
    requires TotalPreorder(le)
    ensures IsStableSort(s, StableSort(s, le), le)
  {
    if s != [] {
      var n := |s| - 1;
      StableSortIsStable(s[..n], le);
      var t := StableSort(s[..n], le);
      InsertSorted(t, s[n], le);
      forall x ensures Ties(StableSort(s, le), x, le) == Ties(s, x, le) {
        InsertTies(t, s[n], x, le);
        TiesConcat(t, [s[n]], x, le);
        TiesConcat(s[..n], [s[n]], x, le);
        assert s == s[..n] + [s[n]];
      }
    }
  }

  // ----- where each element comes from -----

  /** `t` takes each position of `s` once; elements that tie keep the order of their positions. */
  ghost predicate Rearranges<T>(s: seq<T>, t: seq<T>, le: (T, T) -> bool, from: seq<nat>) {
    && |from| == |t| == |s|
    && (forall i :: 0 <= i < |t| ==> from[i] < |s| && t[i] == s[from[i]])
    && (forall k: nat :: k < |s| ==> k in from)
    && (forall i, j :: 0 <= i < j < |t| ==> from[i] != from[j])
    && (forall i, j :: 0 <= i < j < |t| && Tie(le, t[i], t[j]) ==> from[i] < from[j])
  }

  /** The element goes in just after the last one it may follow. */
  lemma {:induction false} InsertPlace<T>(s: seq<T>, x: T, le: (T, T) -> bool) returns (k: nat)
    ensures k <= |s| && Insert(s, x, le) == s[..k] + [x] + s[k..]
    ensures forall i :: k <= i < |s| ==> !le(s[i], x)
  {
    var n := |s| - 1;
    if s == [] || le(s[n], x) {
      k := |s|;
      assert s[..k] == s && s[k..] == [];
    } else {
      k := InsertPlace(s[..n], x, le);
      assert s[..n][..k] == s[..k] && s[..n][k..] + [s[n]] == s[k..];
    }
  }

  lemma InsertHits(from: seq<nat>, n: nat, k: nat)
    requires k <= |from| && forall i: nat :: i < n ==> i in from
    ensures forall i: nat :: i < n + 1 ==> i in from[..k] + [n] + from[k..]
  {
    forall i: nat | i < n ensures i in from[..k] + [n] + from[k..] {
      assert i in from;
      var p :| 0 <= p < |from| && from[p] == i;
      assert if p < k then from[..k][p] == i else from[k..][p - k] == i;
    }
  }

  lemma InsertRearranges<T>(s: seq<T>, t: seq<T>, x: T, le: (T, T) -> bool, from: seq<nat>, k: nat)
    requires Rearranges(s, t, le, from) && k <= |t|
    requires forall i :: k <= i < |t| ==> !le(t[i], x)
    ensures Rearranges(s + [x], t[..k] + [x] + t[k..], le, from[..k] + [|s|] + from[k..])
  {
    var u, to := t[..k] + [x] + t[k..], from[..k] + [|s|] + from[k..];
    InsertHits(from, |s|, k);
    forall i, j | 0 <= i < j < |u| ensures to[i] != to[j] && (Tie(le, u[i], u[j]) ==> to[i] < to[j]) {
      assert i < k ==> u[i] == t[i] && to[i] == from[i];
      assert i > k ==> u[i] == t[i - 1] && to[i] == from[i - 1];
      assert j < k ==> u[j] == t[j] && to[j] == from[j];
      assert j > k ==> u[j] == t[j - 1] && to[j] == from[j - 1];
    }
  }

  /** The stable sort is one rearrangement of positions, in which ties keep their order. */
  lemma {:induction false} SortRearranges<T>(s: seq<T>, le: (T, T) -> bool) returns (from: seq<nat>)
    ensures Rearranges(s, StableSort(s, le), le, from)
  {
    if s == [] {
      from := [];
    } else {
      var n := |s| - 1;
      from := SortRearranges(s[..n], le);
      var t := StableSort(s[..n], le);
      var k := InsertPlace(t, s[n], le);
      InsertRearranges(s[..n], t, s[n], le, from, k);
      assert s == s[..n] + [s[n]];
      from := from[..k] + [n] + from[k..];
    }
  }

  /** The last elements of two non-empty sorted sequences with the same ties are equal. */
  lemma SameLast<T(!new)>(s: seq<T>, t: seq<T>, le: (T, T) -> bool)
    requires TotalPreorder(le) && Sorted(s, le) && Sorted(t, le) && SameTies(s, t, le)
    requires s != [] && t != []
    ensures s[|s| - 1] == t[|t| - 1]
  {
    var a, b := s[|s| - 1], t[|t| - 1];
    assert Comparable(le, a, a) && Comparable(le, b, b);
    TiesMembers(s, a, le);
    TiesMembers(t, a, le);
    TiesMembers(s, b, le);
    TiesMembers(t, b, le);
    assert a in Ties(s, a, le) && b in Ties(t, b, le);
    assert a in t && b in s;
    assert Tie(le, b, a);
    assert Ties(s, a, le)[|Ties(s, a, le)| - 1] == a;
    assert Ties(t, a, le)[|Ties(t, a, le)| - 1] == b;
  }

  lemma TiesNonEmpty<T(!new)>(s: seq<T>, le: (T, T) -> bool)
    requires TotalPreorder(le) && s != []
    ensures Ties(s, s[0], le) != []
  {
    assert Comparable(le, s[0], s[0]);
    TiesMembers(s, s[0], le);
    assert s[0] in Ties(s, s[0], le);
  }

  /** Sorted sequences with the same ties are the same sequence. */
  lemma {:induction false} SortedWithTiesUnique<T(!new)>(s: seq<T>, t: seq<T>, le: (T, T) -> bool)
    requires TotalPreorder(le) && Sorted(s, le) && Sorted(t, le) && SameTies(s, t, le)
    ensures s == t
  {
    if s == [] || t == [] {
      if s != [] { TiesNonEmpty(s, le); }
      if t != [] { TiesNonEmpty(t, le); }
    } else {
      SameLast(s, t, le);
      var a, s', t' := s[|s| - 1], s[..|s| - 1], t[..|t| - 1];
      forall x ensures Ties(t', x, le) == Ties(s', x, le) {
        var tail := if Tie(le, a, x) then [a] else [];
        assert Ties(s, x, le) == Ties(s', x, le) + tail;
        assert Ties(t, x, le) == Ties(t', x, le) + tail;
        assert Ties(s', x, le) == Ties(s, x, le)[..|Ties(s, x, le)| - |tail|];
      }
      SortedWithTiesUnique(s', t', le);
    }
  }

  /** Whatever algorithm the library uses, a stable sort has exactly one result. */
  lemma StableSortUnique<T(!new)>(s: seq<T>, t: seq<T>, le: (T, T) -> bool)
    requires TotalPreorder(le)
    ensures t == StableSort(s, le) <==> IsStableSort(s, t, le)
  {
    StableSortIsStable(s, le);
    if IsStableSort(s, t, le) {
      SortedWithTiesUnique(t, StableSort(s, le), le);
    }
  }

  /** Sorting a sequence that is already sorted changes nothing. */
  lemma SortOfSorted<T(!new)>(s: seq<T>, le: (T, T) -> bool)
    requires TotalPreorder(le) && Sorted(s, le)
    ensures StableSort(s, le) == s
  {
    StableSortUnique(s, s, le);
  }
}
