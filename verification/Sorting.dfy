/** Sorting as the source uses it: stable, by a comparison function, and byte-wise string comparison. */
module Sorting {
  /** Byte-wise string comparison. */
  predicate Less(a: string, b: string) {
    if b == [] then false
    else if a == [] then true
    else a[0] < b[0] || (a[0] == b[0] && Less(a[1..], b[1..]))
  }

  lemma {:induction false} LessIrreflexive(a: string)
    ensures !Less(a, a)
  {
    if a != [] { LessIrreflexive(a[1..]); }
  }

  lemma {:induction false} LessTransitive(a: string, b: string, c: string)
    requires Less(a, b) && Less(b, c)
    ensures Less(a, c)
  {
    if a != [] && a[0] == b[0] == c[0] { LessTransitive(a[1..], b[1..], c[1..]); }
  }

  lemma {:induction false} LessTotal(a: string, b: string)
    ensures a == b || Less(a, b) || Less(b, a)
  {
    if a != [] && b != [] && a[0] == b[0] {
      LessTotal(a[1..], b[1..]);
      assert a == [a[0]] + a[1..] && b == [b[0]] + b[1..];
    }
  }

  /** a and b agree on some stretch, behind which a ends or goes on with the smaller byte. */
  ghost predicate SmallerAtFirstDifference(a: string, b: string) {
    exists k: nat :: k <= |a| && k < |b| && a[..k] == b[..k] && (k == |a| || a[k] < b[k])
  }

  lemma {:induction false} LessIff(a: string, b: string)
    ensures Less(a, b) <==> SmallerAtFirstDifference(a, b)
  {
    if b != [] && a != [] && a[0] == b[0] {
      LessIff(a[1..], b[1..]);
      if SmallerAtFirstDifference(a[1..], b[1..]) {
        var k: nat :| k <= |a[1..]| && k < |b[1..]| && a[1..][..k] == b[1..][..k] && (k == |a[1..]| || a[1..][k] < b[1..][k]);
        assert a[..k + 1] == [a[0]] + a[1..][..k] && b[..k + 1] == [b[0]] + b[1..][..k];
        assert k + 1 == |a| || a[k + 1] < b[k + 1];
      }
      if SmallerAtFirstDifference(a, b) {
        var k: nat :| k <= |a| && k < |b| && a[..k] == b[..k] && (k == |a| || a[k] < b[k]);
        assert a[1..][..k - 1] == a[..k][1..] && b[1..][..k - 1] == b[..k][1..];
      }
    } else if b != [] {
      assert a[..0] == b[..0];
      if k: nat :| k <= |a| && k < |b| && a[..k] == b[..k] && (k == |a| || a[k] < b[k]) {
        assert k > 0 ==> a[..k][0] == b[..k][0];
      }
    }
  }

  // ---------- stable insertion ----------

  /** x goes behind everything it does not come before. */
  function Insert<T>(s: seq<T>, x: T, before: (T, T) -> bool): (r: seq<T>)
    ensures multiset(r) == multiset(s) + multiset{x}
  {
    if s == [] then [x]
    else
      var init, last := s[..|s| - 1], s[|s| - 1];
      assert s == init + [last];
      if before(x, last) then Insert(init, x, before) + [last] else s + [x]
  }

  function Sort<T>(s: seq<T>, before: (T, T) -> bool): (r: seq<T>)
    ensures multiset(r) == multiset(s)
  {
    if s == [] then []
    else
      var init, last := s[..|s| - 1], s[|s| - 1];
      assert s == init + [last];
      Insert(Sort(init, before), last, before)
  }

  ghost predicate Elementwise<T(!new)>(a: seq<T>, b: seq<T>) { forall x :: x in a <==> x in b }

  lemma SameMultisetSameElements<T>(a: seq<T>, b: seq<T>)
    requires multiset(a) == multiset(b)
    ensures forall x :: x in a <==> x in b
  {
    assert forall x :: x in a <==> x in multiset(a);
    assert forall x :: x in b <==> x in multiset(b);
  }

  /** A strict order on everything: never x before x, and transitive. */
  ghost predicate StrictOrder<T(!new)>(before: (T, T) -> bool) {
    && (forall x :: !before(x, x))
    && (forall x, y, z :: before(x, y) && before(y, z) ==> before(x, z))
  }

  /** No two different elements of s tie. */
  ghost predicate Separates<T(!new)>(before: (T, T) -> bool, s: seq<T>) {
    forall x, y :: x in s && y in s && x != y ==> before(x, y) || before(y, x)
  }

  ghost predicate Ascending<T>(s: seq<T>, before: (T, T) -> bool) {
    forall i, j :: 0 <= i < j < |s| ==> before(s[i], s[j])
  }

  ghost predicate Distinct<T>(s: seq<T>) { forall i, j :: 0 <= i < j < |s| ==> s[i] != s[j] }

  lemma InsertElements<T>(s: seq<T>, x: T, before: (T, T) -> bool)
    ensures forall y :: y in Insert(s, x, before) <==> y in s || y == x
  {
    var r := Insert(s, x, before);
    assert forall y :: y in r <==> y in multiset(r);
    assert forall y :: y in s <==> y in multiset(s);
  }

  lemma AllBefore<T(!new)>(s: seq<T>, last: T, x: T, before: (T, T) -> bool)
    requires StrictOrder(before) && Ascending(s + [last], before) && before(last, x)
    ensures forall y :: y in s + [last] ==> before(y, x)
  {
    hide Ascending;
    AscendingInit(s, last, before);
    forall y | y in s ensures before(y, x) { assert before(y, last) && before(last, x); }
  }

  lemma AscendingInit<T>(init: seq<T>, last: T, before: (T, T) -> bool)
    requires Ascending(init + [last], before)
    ensures Ascending(init, before) && forall y :: y in init ==> before(y, last)
  {
    var s := init + [last];
    assert forall i :: 0 <= i < |init| ==> s[i] == init[i] && s[|init|] == last;
    forall y | y in init ensures before(y, last) {
      var k :| 0 <= k < |init| && init[k] == y;
      assert before(s[k], s[|init|]);
    }
  }

  lemma OneAscending<T>(x: T, before: (T, T) -> bool)
    ensures Ascending([x], before)
  {
  }

  lemma AscendingSnoc<T>(s: seq<T>, last: T, before: (T, T) -> bool)
    requires Ascending(s, before) && forall y :: y in s ==> before(y, last)
    ensures Ascending(s + [last], before)
  {
  }

  lemma {:induction false} InsertAscending<T(!new)>(s: seq<T>, x: T, before: (T, T) -> bool)
    requires StrictOrder(before) && Ascending(s, before)
    requires forall y :: y in s ==> before(x, y) || before(y, x)
    ensures Ascending(Insert(s, x, before), before)
  {
    hide Ascending;
    if s == [] {
      OneAscending(x, before);
    } else {
      var init, last := s[..|s| - 1], s[|s| - 1];
      assert s == init + [last];
      if before(x, last) {
        AscendingInit(init, last, before);
        InsertAscending(init, x, before);
        InsertElements(init, x, before);
        AscendingSnoc(Insert(init, x, before), last, before);
      } else {
        AllBefore(init, last, x, before);
        AscendingSnoc(s, x, before);
      }
    }
  }

  /** A list without repeats or ties comes out strictly ascending. */
  lemma {:induction false} SortAscending<T(!new)>(s: seq<T>, before: (T, T) -> bool)
    requires StrictOrder(before) && Distinct(s) && Separates(before, s)
    ensures Ascending(Sort(s, before), before)
  {
    if s != [] {
      var init, last := s[..|s| - 1], s[|s| - 1];
      assert s == init + [last];
      SortAscending(init, before);
      var t := Sort(init, before);
      SameMultisetSameElements(t, init);
      forall y | y in t ensures before(last, y) || before(y, last) {
        assert y in init;
        var k :| 0 <= k < |init| && init[k] == y;
        assert s[k] == y && s[k] in s && last in s && s[k] != s[|s| - 1];
      }
      InsertAscending(t, last, before);
    }
  }

  lemma FirstIsLeast<T>(s: seq<T>, x: T, before: (T, T) -> bool)
    requires Ascending(s, before) && x in s
    ensures x == s[0] || before(s[0], x)
  {
    var k :| 0 <= k < |s| && s[k] == x;
    if k != 0 { assert before(s[0], s[k]); }
  }

  /** Two strictly ascending lists of the same elements are equal. */
  lemma {:induction false} AscendingUnique<T(!new)>(a: seq<T>, b: seq<T>, before: (T, T) -> bool)
    requires StrictOrder(before) && Ascending(a, before) && Ascending(b, before) && Elementwise(a, b)
    ensures a == b
  {
    if a == [] {
      assert forall i :: 0 <= i < |b| ==> b[i] in a;
    } else {
      assert a[0] in b;
      FirstIsLeast(b, a[0], before);
      assert b[0] in a;
      FirstIsLeast(a, b[0], before);
      assert a[0] == b[0];
      forall x ensures x in a[1..] <==> x in b[1..] {
        TailElements(a, x, before);
        TailElements(b, x, before);
      }
      AscendingUnique(a[1..], b[1..], before);
      assert a == [a[0]] + a[1..] && b == [b[0]] + b[1..];
    }
  }

  lemma TailElements<T(!new)>(a: seq<T>, x: T, before: (T, T) -> bool)
    requires StrictOrder(before) && Ascending(a, before) && a != []
    ensures x in a[1..] <==> x in a && x != a[0]
  {
    if x in a[1..] {
      var k :| 0 <= k < |a[1..]| && a[1..][k] == x;
      assert a[k + 1] == x && before(a[0], a[k + 1]);
    }
  }

  /** A list without inversions is left as it is. */
  lemma {:induction false} SortOfSorted<T>(s: seq<T>, before: (T, T) -> bool)
    requires forall i, j :: 0 <= i < j < |s| ==> !before(s[j], s[i])
    ensures Sort(s, before) == s
  {
    if s != [] {
      var init, last := s[..|s| - 1], s[|s| - 1];
      assert s == init + [last];
      SortOfSorted(init, before);
    }
  }
}
