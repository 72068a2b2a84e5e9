/**
 What a query returns: the rows of a table that a condition keeps, in a given order. The
 table is a sequence, its physical order being the database's own affair.
 */
module Selections {

  ghost predicate StrictOrder<T(!new)>(before: (T, T) -> bool) {
    && (forall a :: !before(a, a))
    && (forall a, b, c :: before(a, b) && before(b, c) ==> before(a, c))
  }

  /** Any two rows of the table come in one order or the other, so no two are equal. */
  ghost predicate Comparable<T>(rows: seq<T>, before: (T, T) -> bool) {
    forall i, j | 0 <= i < j < |rows| :: before(rows[i], rows[j]) || before(rows[j], rows[i])
  }

  ghost predicate Sorted<T>(s: seq<T>, before: (T, T) -> bool) {
    forall i, j | 0 <= i < j < |s| :: before(s[i], s[j])
  }

  ghost predicate IsSelection<T(!new)>(s: seq<T>, rows: seq<T>, keep: T -> bool, before: (T, T) -> bool) {
    Sorted(s, before) && forall r :: r in s <==> r in rows && keep(r)
  }

  function Place<T>(r: T, s: seq<T>, before: (T, T) -> bool): seq<T> {
    if s == [] || before(r, s[0]) then [r] + s else [s[0]] + Place(r, s[1..], before)
  }

  /** SELECT … WHERE keep ORDER BY before. */
  function Select<T>(rows: seq<T>, keep: T -> bool, before: (T, T) -> bool): seq<T> {
    if rows == [] then []
    else
      var rest := Select(rows[1..], keep, before);
      if keep(rows[0]) then Place(rows[0], rest, before) else rest
  }

  lemma {:induction false} PlaceKeeps<T(!new)>(r: T, s: seq<T>, before: (T, T) -> bool)
    requires StrictOrder(before) && Sorted(s, before)
    requires forall x | x in s :: before(r, x) || before(x, r)
    ensures Sorted(Place(r, s, before), before)
    ensures |Place(r, s, before)| == |s| + 1
    ensures forall x :: x in Place(r, s, before) <==> x == r || x in s
  {
    if s != [] && !before(r, s[0]) {
      PlaceKeeps(r, s[1..], before);
      var p := Place(r, s[1..], before);
      assert Place(r, s, before) == [s[0]] + p;
      forall x | x in p
        ensures before(s[0], x)
      {
        if x != r {
          var i :| 0 <= i < |s[1..]| && s[1..][i] == x;
          assert before(s[0], s[i + 1]);
        }
      }
      assert s == [s[0]] + s[1..];
    } else if s != [] {
      forall x | x in s
        ensures before(r, x)
      {
        var i :| 0 <= i < |s| && s[i] == x;
        assert i == 0 || before(s[0], s[i]);
      }
    }
  }

  /** The engine's answer is the kept rows in order, whatever the physical order was. */
  lemma {:induction false} SelectSelects<T(!new)>(rows: seq<T>, keep: T -> bool, before: (T, T) -> bool)
    requires StrictOrder(before) && Comparable(rows, before)
    ensures IsSelection(Select(rows, keep, before), rows, keep, before)
  {
    if rows == [] {
    } else {
      var rest := Select(rows[1..], keep, before);
      SelectSelects(rows[1..], keep, before);
      forall x | x in rest
        ensures before(rows[0], x) || before(x, rows[0])
      {
        var i :| 0 <= i < |rows[1..]| && rows[1..][i] == x;
        assert x == rows[i + 1];
      }
      if keep(rows[0]) {
        PlaceKeeps(rows[0], rest, before);
      }
      assert rows == [rows[0]] + rows[1..];
    }
  }

  lemma FirstOf<T(!new)>(s: seq<T>, x: T, before: (T, T) -> bool)
    requires Sorted(s, before) && x in s
    ensures x == s[0] || before(s[0], x)
  {
    var i :| 0 <= i < |s| && s[i] == x;
    assert i == 0 || before(s[0], s[i]);
  }

  /** Order and membership leave no choice: two sorted sequences of the same rows are equal. */
  lemma {:induction false} SortedUnique<T(!new)>(s: seq<T>, t: seq<T>, before: (T, T) -> bool)
    requires StrictOrder(before) && Sorted(s, before) && Sorted(t, before)
    requires forall x :: x in s <==> x in t
    ensures s == t
  {
    assert t != [] ==> t[0] in s;
    if s == [] {
    } else {
      assert s[0] in s && s[0] in t && t[0] in t && t[0] in s;
      FirstOf(s, t[0], before);
      FirstOf(t, s[0], before);
      assert s == [s[0]] + s[1..] && t == [t[0]] + t[1..];
      SameTails(s, t, before);
      SortedUnique(s[1..], t[1..], before);
    }
  }

  lemma HeadNotInTail<T(!new)>(s: seq<T>, before: (T, T) -> bool)
    requires StrictOrder(before) && Sorted(s, before) && s != []
    ensures s[0] !in s[1..]
  {
    forall i | 0 <= i < |s[1..]|
      ensures s[1..][i] != s[0]
    {
      assert before(s[0], s[i + 1]);
    }
  }

  lemma SameTails<T(!new)>(s: seq<T>, t: seq<T>, before: (T, T) -> bool)
    requires StrictOrder(before) && Sorted(s, before) && Sorted(t, before)
    requires forall x :: x in s <==> x in t
    requires s != [] && t != [] && s[0] == t[0]
    ensures forall x :: x in s[1..] <==> x in t[1..]
  {
    HeadNotInTail(s, before);
    HeadNotInTail(t, before);
    assert s == [s[0]] + s[1..] && t == [t[0]] + t[1..];
    forall x
      ensures x in s[1..] <==> x in t[1..]
    {
      assert x in s <==> x in t;
    }
  }

  lemma SelectionUnique<T(!new)>(s: seq<T>, rows: seq<T>, keep: T -> bool, before: (T, T) -> bool)
    requires StrictOrder(before) && Comparable(rows, before)
    requires IsSelection(s, rows, keep, before)
    ensures s == Select(rows, keep, before)
  {
    SelectSelects(rows, keep, before);
    SortedUnique(s, Select(rows, keep, before), before);
  }

  /** Conditions and orders that agree everywhere select the same rows. */
  lemma {:induction false} SelectSame<T(!new)>(
      rows: seq<T>, keep1: T -> bool, keep2: T -> bool, before1: (T, T) -> bool, before2: (T, T) -> bool)
    requires forall r :: keep1(r) <==> keep2(r)
    requires forall a, b :: before1(a, b) <==> before2(a, b)
    ensures Select(rows, keep1, before1) == Select(rows, keep2, before2)
  {
    if rows == [] {
    } else {
      SelectSame(rows[1..], keep1, keep2, before1, before2);
      PlaceSame(rows[0], Select(rows[1..], keep1, before1), before1, before2);
    }
  }

  lemma {:induction false} PlaceSame<T(!new)>(r: T, s: seq<T>, before1: (T, T) -> bool, before2: (T, T) -> bool)
    requires forall a, b :: before1(a, b) <==> before2(a, b)
    ensures Place(r, s, before1) == Place(r, s, before2)
  {
    if s == [] {
    } else {
      PlaceSame(r, s[1..], before1, before2);
    }
  }

  /** SELECT count(*) … WHERE keep. */
  function CountKept<T>(rows: seq<T>, keep: T -> bool): nat {
    if rows == [] then 0 else (if keep(rows[0]) then 1 else 0) + CountKept(rows[1..], keep)
  }

  lemma {:induction false} SelectLength<T>(rows: seq<T>, keep: T -> bool, before: (T, T) -> bool)
    ensures |Select(rows, keep, before)| == CountKept(rows, keep)
  {
    if rows == [] {
    } else {
      SelectLength(rows[1..], keep, before);
      PlaceLength(rows[0], Select(rows[1..], keep, before), before);
    }
  }

  lemma {:induction false} PlaceLength<T>(r: T, s: seq<T>, before: (T, T) -> bool)
    ensures |Place(r, s, before)| == |s| + 1
  {
    if s == [] {
    } else {
      PlaceLength(r, s[1..], before);
    }
  }

  lemma {:induction false} CountSame<T(!new)>(rows: seq<T>, keep1: T -> bool, keep2: T -> bool)
    requires forall r :: keep1(r) <==> keep2(r)
    ensures CountKept(rows, keep1) == CountKept(rows, keep2)
  {
    if rows == [] {
    } else {
      CountSame(rows[1..], keep1, keep2);
    }
  }
}
