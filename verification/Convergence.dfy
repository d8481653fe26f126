/** convergence.go: connector events arrive in any order and more than once; Converge drops repeats and puts the rest in a
    fixed order. */
module Convergence {
  import opened Sorting

  datatype Envelope = Envelope(organization: string, installation: string, eventID: string, occurredAt: int, body: string)

  function Key(e: Envelope): string {
    e.organization + "\0" + e.installation + "\0" + e.eventID
  }

  /** The comparison of the sort: by time, then by event id. */
  predicate Before(a: Envelope, b: Envelope) {
    if a.occurredAt == b.occurredAt then Less(a.eventID, b.eventID) else a.occurredAt < b.occurredAt
  }

  ghost function SeenKeys(s: seq<Envelope>): set<string> {
    set e | e in s && e.eventID != "" :: Key(e)
  }

  /** Each key's first event, in order of arrival; events without an id are dropped. */
  ghost function Dedupe(s: seq<Envelope>): seq<Envelope> {
    if s == [] then []
    else
      var init, last := s[..|s| - 1], s[|s| - 1];
      if last.eventID == "" || Key(last) in SeenKeys(init) then Dedupe(init) else Dedupe(init) + [last]
  }

  ghost function Converged(s: seq<Envelope>): seq<Envelope> { Sort(Dedupe(s), Before) }

  lemma NoKeys()
    ensures SeenKeys([]) == {}
  {
  }

  lemma SeenKeysSnoc(s: seq<Envelope>, e: Envelope)
    ensures SeenKeys(s + [e]) == SeenKeys(s) + (if e.eventID != "" then {Key(e)} else {})
  {
    hide Key;
    assert forall x :: x in s + [e] <==> x in s || x == e;
  }

  method Converge(events: seq<Envelope>) returns (result: seq<Envelope>)
    ensures result == Converged(events)
  {
    hide SeenKeys;
    var seen: set<string> := {};
    assert seen == SeenKeys([]) by { NoKeys(); }
    result := [];
    for i := 0 to |events|
      invariant seen == SeenKeys(events[..i]) && result == Dedupe(events[..i])
    {
      var event := events[i];
      var init := events[..i];
      assert events[..i + 1][..i] == init && events[..i + 1] == init + [event];
      SeenKeysSnoc(init, event);
      var key := event.organization + "\0" + event.installation + "\0" + event.eventID;
      if event.eventID == "" { continue; }
      if key in seen { continue; }
      seen := seen + {key};
      result := result + [event];
    }
    assert events[..|events|] == events;
    result := Sort(result, Before);
  }

  // ---------- the order ----------

  lemma BeforeIsStrictOrder()
    ensures StrictOrder(Before)
  {
    forall x ensures !Before(x, x) { LessIrreflexive(x.eventID); }
    forall x, y, z | Before(x, y) && Before(y, z) ensures Before(x, z) {
      if x.occurredAt == y.occurredAt == z.occurredAt { LessTransitive(x.eventID, y.eventID, z.eventID); }
    }
  }

  predicate Tie(a: Envelope, b: Envelope) { a.occurredAt == b.occurredAt && a.eventID == b.eventID }

  lemma BeforeOrTie(a: Envelope, b: Envelope)
    ensures Before(a, b) || Before(b, a) || Tie(a, b)
    ensures Tie(a, b) ==> !Before(a, b) && !Before(b, a)
  {
    LessTotal(a.eventID, b.eventID);
    LessIrreflexive(a.eventID);
  }

  // ---------- what deduplication keeps ----------

  lemma {:induction false} DedupeFacts(s: seq<Envelope>)
    ensures forall e :: e in Dedupe(s) ==> e in s && e.eventID != ""
    ensures SeenKeys(Dedupe(s)) == SeenKeys(s)
    ensures forall i, j :: 0 <= i < j < |Dedupe(s)| ==> Key(Dedupe(s)[i]) != Key(Dedupe(s)[j])
  {
    if s != [] {
      var init, last := s[..|s| - 1], s[|s| - 1];
      assert s == init + [last];
      DedupeFacts(init);
      var d := Dedupe(init);
      SeenKeysSnoc(init, last);
      if !(last.eventID == "" || Key(last) in SeenKeys(init)) {
        SeenKeysSnoc(d, last);
        forall i | 0 <= i < |d| ensures Key(d[i]) != Key(last) {
          assert d[i] in d;
        }
      }
    }
  }

  /** Deduplicating again changes nothing. */
  lemma {:induction false} DedupeUnchanged(s: seq<Envelope>)
    requires forall i :: 0 <= i < |s| ==> s[i].eventID != ""
    requires forall i, j :: 0 <= i < j < |s| ==> Key(s[i]) != Key(s[j])
    ensures Dedupe(s) == s
  {
    if s != [] {
      var init, last := s[..|s| - 1], s[|s| - 1];
      DedupeUnchanged(init);
      assert Key(last) !in SeenKeys(init);
      assert s == init + [last];
    }
  }

  ghost predicate NoInversions(s: seq<Envelope>) {
    forall i, j :: 0 <= i < j < |s| ==> !Before(s[j], s[i])
  }

  lemma NoInversionsSnoc(s: seq<Envelope>, last: Envelope)
    requires NoInversions(s) && forall y :: y in s ==> !Before(last, y)
    ensures NoInversions(s + [last])
  {
  }

  lemma NotBeforeTransitive(x: Envelope, y: Envelope, z: Envelope)
    requires !Before(x, y) && !Before(y, z)
    ensures !Before(x, z)
  {
    BeforeIsStrictOrder();
    BeforeOrTie(x, y);
    BeforeOrTie(y, z);
  }

  lemma {:induction false} InsertNoInversions(s: seq<Envelope>, x: Envelope)
    requires NoInversions(s)
    ensures NoInversions(Insert(s, x, Before))
  {
    hide Before;
    if s != [] {
      var init, last := s[..|s| - 1], s[|s| - 1];
      assert s == init + [last];
      forall y | y in init ensures !Before(last, y) {
        var k :| 0 <= k < |init| && init[k] == y;
        assert s[k] == y && !Before(s[|s| - 1], s[k]);
      }
      if Before(x, last) {
        InsertNoInversions(init, x);
        InsertElements(init, x, Before);
        BeforeIsStrictOrder();
        NoInversionsSnoc(Insert(init, x, Before), last);
      } else {
        forall y | y in s ensures !Before(x, y) {
          if y in init { NotBeforeTransitive(x, last, y); }
        }
        NoInversionsSnoc(s, x);
      }
    }
  }

  lemma {:induction false} SortNoInversions(s: seq<Envelope>)
    ensures NoInversions(Sort(s, Before))
  {
    if s != [] {
      SortNoInversions(s[..|s| - 1]);
      InsertNoInversions(Sort(s[..|s| - 1], Before), s[|s| - 1]);
    }
  }

  ghost predicate DistinctKeys(s: seq<Envelope>) {
    forall i, j :: 0 <= i < j < |s| ==> Key(s[i]) != Key(s[j])
  }

  lemma {:induction false} InsertKeepsDistinctKeys(s: seq<Envelope>, x: Envelope)
    requires DistinctKeys(s + [x])
    ensures DistinctKeys(Insert(s, x, Before))
  {
    hide Key;
    if s != [] && Before(x, s[|s| - 1]) {
      var init, last := s[..|s| - 1], s[|s| - 1];
      assert s == init + [last];
      var shorter, longer := init + [x], s + [x];
      forall i, j | 0 <= i < j < |shorter| ensures Key(shorter[i]) != Key(shorter[j]) {
        assert shorter[i] == longer[i] && shorter[j] == longer[if j < |init| then j else |s|];
      }
      InsertKeepsDistinctKeys(init, x);
      var r := Insert(init, x, Before);
      forall i | 0 <= i < |r| ensures Key(r[i]) != Key(last) {
        assert r[i] in multiset(r);
        if r[i] == x {
          assert (s + [x])[|s|] == x && (s + [x])[|s| - 1] == last;
        } else {
          assert r[i] in init;
          var k :| 0 <= k < |init| && init[k] == r[i];
          assert (s + [x])[k] == r[i] && (s + [x])[|s| - 1] == last;
        }
      }
    }
  }

  lemma {:induction false} SortKeepsDistinctKeys(s: seq<Envelope>)
    requires DistinctKeys(s)
    ensures DistinctKeys(Sort(s, Before))
  {
    hide Key;
    if s != [] {
      var init, last := s[..|s| - 1], s[|s| - 1];
      SortKeepsDistinctKeys(init);
      var t := Sort(init, Before);
      SameMultisetSameElements(t, init);
      forall i | 0 <= i < |t| ensures Key(t[i]) != Key(last) {
        assert t[i] in init;
        var k :| 0 <= k < |init| && init[k] == t[i];
        assert s[k] == t[i];
      }
      InsertKeepsDistinctKeys(t, last);
    }
  }

  // ---------- what comes out, in terms of what came in ----------

  /** s[i] has an id, and nothing with its key arrived before it. */
  ghost predicate FirstArrival(s: seq<Envelope>, i: nat) {
    i < |s| && s[i].eventID != "" && forall j :: 0 <= j < i && s[j].eventID != "" ==> Key(s[j]) != Key(s[i])
  }

  lemma FirstArrivalSnoc(s: seq<Envelope>, last: Envelope, i: nat)
    ensures i < |s| ==> (FirstArrival(s + [last], i) <==> FirstArrival(s, i))
    ensures FirstArrival(s + [last], |s|) <==> last.eventID != "" && Key(last) !in SeenKeys(s)
  {
    hide Key;
    var t := s + [last];
    assert forall j :: 0 <= j < |s| ==> t[j] == s[j];
    if i < |s| { assert t[i] == s[i]; }
    if last.eventID != "" && Key(last) in SeenKeys(s) {
      var e :| e in s && e.eventID != "" && Key(e) == Key(last);
      var j :| 0 <= j < |s| && s[j] == e;
      assert t[j] == e;
    }
    if Key(last) !in SeenKeys(s) {
      assert forall j :: 0 <= j < |s| && s[j].eventID != "" ==> Key(s[j]) in SeenKeys(s);
    }
  }

  ghost predicate ArrivedFirst(s: seq<Envelope>, e: Envelope) { exists i: nat :: FirstArrival(s, i) && s[i] == e }

  lemma ArrivedFirstSnoc(s: seq<Envelope>, last: Envelope, e: Envelope)
    ensures ArrivedFirst(s + [last], e) <==>
              ArrivedFirst(s, e) || (e == last && last.eventID != "" && Key(last) !in SeenKeys(s))
  {
    FirstArrivalSnoc(s, last, |s|);
    hide FirstArrival, SeenKeys, Key;
    if ArrivedFirst(s, e) {
      var i: nat :| FirstArrival(s, i) && s[i] == e;
      FirstArrivalInside(s, i);
      FirstArrivalSnoc(s, last, i);
    }
    if ArrivedFirst(s + [last], e) {
      var i: nat :| FirstArrival(s + [last], i) && (s + [last])[i] == e;
      FirstArrivalInside(s + [last], i);
      FirstArrivalSnoc(s, last, i);
    }
  }

  lemma {:induction false} DedupeKeepsFirst(s: seq<Envelope>, e: Envelope)
    ensures e in Dedupe(s) <==> ArrivedFirst(s, e)
  {
    if s != [] {
      var init, last := s[..|s| - 1], s[|s| - 1];
      assert s == init + [last];
      hide ArrivedFirst, SeenKeys, Key;
      DedupeKeepsFirst(init, e);
      ArrivedFirstSnoc(init, last, e);
    }
  }

  lemma FirstArrivalInside(s: seq<Envelope>, i: nat)
    requires FirstArrival(s, i)
    ensures i < |s|
  {
  }

  /** The result holds exactly the events with an id that arrived before every other event of their key. */
  lemma KeepsFirst(s: seq<Envelope>, e: Envelope)
    ensures e in Converged(s) <==> ArrivedFirst(s, e)
  {
    DedupeKeepsFirst(s, e);
    SameMultisetSameElements(Converged(s), Dedupe(s));
  }

  lemma FirstNul(a: string, x: string)
    requires '\0' !in a
    ensures var p := a + "\0" + x;
            p[|a|] == '\0' && forall i :: 0 <= i < |a| ==> p[i] != '\0'
  {
  }

  lemma SplitAtNul(a: string, b: string, x: string, y: string)
    requires '\0' !in a && '\0' !in b && a + "\0" + x == b + "\0" + y
    ensures a == b && x == y
  {
    FirstNul(a, x);
    FirstNul(b, y);
    var p, q := a + "\0" + x, b + "\0" + y;
    assert p[..|a|] == a && q[..|b|] == b && p[|a| + 1..] == x && q[|b| + 1..] == y;
  }

  /** Without NUL in the organization and the installation, a key names exactly one event of one installation. */
  lemma KeyIdentifies(a: Envelope, b: Envelope)
    requires '\0' !in a.organization && '\0' !in a.installation && '\0' !in b.organization && '\0' !in b.installation
    ensures Key(a) == Key(b) <==>
              a.organization == b.organization && a.installation == b.installation && a.eventID == b.eventID
  {
    if Key(a) == Key(b) {
      var x, y := a.installation + "\0" + a.eventID, b.installation + "\0" + b.eventID;
      assert Key(a) == a.organization + "\0" + x && Key(b) == b.organization + "\0" + y;
      SplitAtNul(a.organization, b.organization, x, y);
      SplitAtNul(a.installation, b.installation, a.eventID, b.eventID);
    }
  }

  /** The result goes forward in time, and at one time upward through the event ids. */
  lemma TimeGoesForward(s: seq<Envelope>, i: nat, j: nat)
    requires i < j < |Converged(s)|
    ensures var a, b := Converged(s)[i], Converged(s)[j];
            a.occurredAt < b.occurredAt ||
            (a.occurredAt == b.occurredAt && (a.eventID == b.eventID || SmallerAtFirstDifference(a.eventID, b.eventID)))
  {
    SortNoInversions(Dedupe(s));
    var a, b := Converged(s)[i], Converged(s)[j];
    assert !Before(b, a);
    LessTotal(a.eventID, b.eventID);
    if Less(a.eventID, b.eventID) { LessIff(a.eventID, b.eventID); }
  }

  /** Converging twice is converging once, for any input. */
  lemma Idempotent(s: seq<Envelope>)
    ensures Converged(Converged(s)) == Converged(s)
  {
    var d := Dedupe(s);
    var r := Converged(s);
    DedupeFacts(s);
    SortKeepsDistinctKeys(d);
    SortNoInversions(d);
    SameMultisetSameElements(r, d);
    forall i | 0 <= i < |r| ensures r[i].eventID != "" { assert r[i] in r; }
    DedupeUnchanged(r);
    SortOfSorted(r, Before);
  }

  // ---------- when arrival order does not matter ----------

  /** Different events with ids share neither a key nor a place in the order. */
  ghost predicate Unambiguous(s: seq<Envelope>) {
    forall x, y :: x in s && y in s && x != y && x.eventID != "" && y.eventID != "" ==> Key(x) != Key(y) && !Tie(x, y)
  }

  lemma DedupeAll(s: seq<Envelope>)
    requires Unambiguous(s)
    ensures forall e :: e in Dedupe(s) <==> e in s && e.eventID != ""
  {
    DedupeFacts(s);
    forall e | e in s && e.eventID != "" ensures e in Dedupe(s) {
      assert Key(e) in SeenKeys(s);
      assert Key(e) in SeenKeys(Dedupe(s));
      var f :| f in Dedupe(s) && f.eventID != "" && Key(f) == Key(e);
    }
  }

  lemma ConvergedAscending(s: seq<Envelope>)
    requires Unambiguous(s)
    ensures Ascending(Converged(s), Before)
    ensures forall e :: e in Converged(s) <==> e in s && e.eventID != ""
  {
    var d := Dedupe(s);
    DedupeAll(s);
    DedupeFacts(s);
    BeforeIsStrictOrder();
    forall x, y | x in d && y in d && x != y ensures Before(x, y) || Before(y, x) { BeforeOrTie(x, y); }
    assert Distinct(d);
    SortAscending(d, Before);
    SameMultisetSameElements(Converged(s), d);
  }

  /** For unambiguous events the result depends only on the set of events: order and repetition do not matter. */
  lemma DependsOnlyOnSet(s: seq<Envelope>, t: seq<Envelope>)
    requires Unambiguous(s) && forall e :: e in s <==> e in t
    ensures Converged(s) == Converged(t)
  {
    assert Unambiguous(t);
    ConvergedAscending(s);
    ConvergedAscending(t);
    BeforeIsStrictOrder();
    AscendingUnique(Converged(s), Converged(t), Before);
  }

  /** One installation whose event ids identify its events is unambiguous. */
  lemma OneInstallation(s: seq<Envelope>)
    requires forall x, y :: x in s && y in s ==> x.organization == y.organization && x.installation == y.installation
    requires forall x, y :: x in s && y in s && x.eventID == y.eventID ==> x == y
    ensures Unambiguous(s)
  {
    forall x, y | x in s && y in s && x != y ensures Key(x) != Key(y) && !Tie(x, y) {
      var n := |x.organization| + 1 + |x.installation| + 1;
      assert Key(x)[n..] == x.eventID && Key(y)[n..] == y.eventID;
    }
  }

  // ---------- and only then ----------

  function Filter(s: seq<Envelope>, x: Envelope): seq<Envelope> {
    if s == [] then []
    else Filter(s[..|s| - 1], x) + (if Tie(s[|s| - 1], x) then [s[|s| - 1]] else [])
  }

  lemma FilterSnoc(s: seq<Envelope>, y: Envelope, x: Envelope)
    ensures Filter(s + [y], x) == Filter(s, x) + (if Tie(y, x) then [y] else [])
  {
    assert (s + [y])[..|s|] == s;
  }

  /** Two events that do not tie may change places. */
  lemma SwapStable(r: seq<Envelope>, init: seq<Envelope>, last: Envelope, y: Envelope, x: Envelope)
    requires Filter(r, x) == Filter(init + [y], x) && !(Tie(y, x) && Tie(last, x))
    ensures Filter(r + [last], x) == Filter(init + [last] + [y], x)
  {
    hide Tie, Filter;
    FilterSnoc(init, y, x);
    FilterSnoc(init, last, x);
    FilterSnoc(init + [last], y, x);
    FilterSnoc(r, last, x);
  }

  lemma BeforeNoTie(y: Envelope, last: Envelope, x: Envelope)
    requires Before(y, last)
    ensures !(Tie(y, x) && Tie(last, x))
  {
    BeforeOrTie(y, last);
  }

  lemma {:induction false} InsertStable(s: seq<Envelope>, y: Envelope, x: Envelope)
    ensures Filter(Insert(s, y, Before), x) == Filter(s + [y], x)
  {
    hide Tie, Filter;
    if s != [] && Before(y, s[|s| - 1]) {
      var init, last := s[..|s| - 1], s[|s| - 1];
      InsertStable(init, y, x);
      BeforeNoTie(y, last, x);
      SwapStable(Insert(init, y, Before), init, last, y, x);
      assert s == init + [last];
    } else {
      assert Insert(s, y, Before) == s + [y];
    }
  }

  /** The sort is stable: events that tie keep their order. */
  lemma {:induction false} SortStable(s: seq<Envelope>, x: Envelope)
    ensures Filter(Sort(s, Before), x) == Filter(s, x)
  {
    if s != [] {
      var init, last := s[..|s| - 1], s[|s| - 1];
      assert s == init + [last];
      hide Insert, Filter, Tie, Before;
      SortStable(init, x);
      InsertStable(Sort(init, Before), last, x);
      FilterSnoc(Sort(init, Before), last, x);
      FilterSnoc(init, last, x);
    }
  }

  /** The first event with an id survives, and alone under its key. */
  lemma {:induction false} DedupeFirst(x: Envelope, t: seq<Envelope>)
    requires x.eventID != ""
    ensures var d := Dedupe([x] + t);
            d != [] && d[0] == x && forall e :: e in d && Key(e) == Key(x) ==> e == x
  {
    var s := [x] + t;
    if t == [] {
      assert s[..0] == [] && SeenKeys([]) == {};
    } else {
      var init := t[..|t| - 1];
      assert s[..|s| - 1] == [x] + init;
      DedupeFirst(x, init);
      assert x in [x] + init;
      assert Key(x) in SeenKeys([x] + init);
    }
  }

  lemma {:induction false} FilterFirst(s: seq<Envelope>, x: Envelope)
    requires s != [] && s[0] == x
    ensures Filter(s, x) != [] && Filter(s, x)[0] == x
  {
    if |s| > 1 {
      FilterFirst(s[..|s| - 1], x);
    } else {
      assert s[..0] == [];
    }
  }

  lemma FilterTied(s: seq<Envelope>, x: Envelope, y: Envelope)
    requires Tie(x, y)
    ensures Filter(s, x) == Filter(s, y)
  {
    if s != [] { FilterTied(s[..|s| - 1], x, y); }
  }

  /** Two different events that share a key or tie make the result depend on which comes first. */
  lemma OrderMatters(x: Envelope, y: Envelope, rest: seq<Envelope>)
    requires x != y && x.eventID != "" && y.eventID != "" && (Key(x) == Key(y) || Tie(x, y))
    ensures Converged([x, y] + rest) != Converged([y, x] + rest)
  {
    var p, q := [x, y] + rest, [y, x] + rest;
    assert p == [x] + ([y] + rest) && q == [y] + ([x] + rest);
    DedupeFirst(x, [y] + rest);
    DedupeFirst(y, [x] + rest);
    var d, f := Dedupe(p), Dedupe(q);
    if Key(x) == Key(y) {
      SameMultisetSameElements(Converged(p), d);
      SameMultisetSameElements(Converged(q), f);
      assert x in d && x !in f;
    } else {
      FilterFirst(d, x);
      FilterFirst(f, y);
      SortStable(d, x);
      SortStable(f, y);
      FilterTied(Converged(q), x, y);
    }
  }

  lemma TakeOut(s: seq<Envelope>, x: Envelope) returns (rest: seq<Envelope>)
    requires x in s
    ensures multiset(s) == multiset(rest) + multiset{x}
  {
    var i :| 0 <= i < |s| && s[i] == x;
    rest := s[..i] + s[i + 1..];
    assert s == s[..i] + [x] + s[i + 1..];
  }

  /** Take x and y to the front. */
  lemma Rearrange(s: seq<Envelope>, x: Envelope, y: Envelope) returns (rest: seq<Envelope>)
    requires x in s && y in s && x != y
    ensures multiset([x, y] + rest) == multiset(s) && multiset([y, x] + rest) == multiset(s)
  {
    var t := TakeOut(s, x);
    assert y in multiset(s);
    assert y in multiset(t);
    rest := TakeOut(t, y);
  }

  lemma AmbiguityShows(s: seq<Envelope>, x: Envelope, y: Envelope) returns (t: seq<Envelope>)
    requires x in s && y in s && x != y && x.eventID != "" && y.eventID != "" && (Key(x) == Key(y) || Tie(x, y))
    ensures multiset(t) == multiset(s) && Converged(t) != Converged(s)
  {
    hide Converged;
    var rest := Rearrange(s, x, y);
    OrderMatters(x, y, rest);
    t := if Converged([x, y] + rest) != Converged(s) then [x, y] + rest else [y, x] + rest;
  }

  ghost predicate OrderIndependent(s: seq<Envelope>) {
    forall t {:trigger Converged(t)} :: multiset(t) == multiset(s) ==> Converged(t) == Converged(s)
  }

  /** Arrival order does not matter for a list of events exactly when its events are unambiguous. */
  lemma OrderIndependentIff(s: seq<Envelope>)
    ensures OrderIndependent(s) <==> Unambiguous(s)
  {
    hide Converged, Key, Tie;
    if Unambiguous(s) {
      forall t | multiset(t) == multiset(s) ensures Converged(t) == Converged(s) {
        SameMultisetSameElements(t, s);
        DependsOnlyOnSet(s, t);
      }
    } else {
      var x, y :| x in s && y in s && x != y && x.eventID != "" && y.eventID != "" && (Key(x) == Key(y) || Tie(x, y));
      var t := AmbiguityShows(s, x, y);
    }
  }
}
