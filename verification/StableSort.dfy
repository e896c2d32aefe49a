/** Filtering, collecting, and the stable sort of JavaScript arrays by falling rank, on any elements. */
module StableSort {
  import opened Wrappers

  function Filter<T>(keep: T -> bool, s: seq<T>): seq<T> {
    if s == [] then [] else (if keep(s[0]) then [s[0]] else []) + Filter(keep, s[1..])
  }

  lemma FilterCons<T>(keep: T -> bool, x: T, s: seq<T>)
    ensures Filter(keep, [x] + s) == if keep(x) then [x] + Filter(keep, s) else Filter(keep, s)
  {
    assert ([x] + s)[1..] == s;
  }

  lemma {:induction false} FilterElements<T>(keep: T -> bool, s: seq<T>)
    ensures forall x :: x in Filter(keep, s) <==> x in s && keep(x)
  {
    if s != [] {
      FilterElements(keep, s[1..]);
      assert s == [s[0]] + s[1..];
    }
  }

  lemma {:induction false} FilterSnoc<T>(keep: T -> bool, s: seq<T>, x: T)
    ensures Filter(keep, s + [x]) == Filter(keep, s) + (if keep(x) then [x] else [])
  {
    if s != [] {
      FilterSnoc(keep, s[1..], x);
      assert (s + [x])[1..] == s[1..] + [x];
    }
  }

  lemma FilterEmpty<T>(keep: T -> bool, s: seq<T>)
    ensures Filter(keep, s) != [] <==> exists i :: 0 <= i < |s| && keep(s[i])
  {
    FilterElements(keep, s);
    var kept := Filter(keep, s);
    if kept != [] {
      assert kept[0] in kept;
    }
  }

  lemma {:induction false} FilterTwice<T(!new)>(p: T -> bool, q: T -> bool, both: T -> bool, s: seq<T>)
    requires forall x :: both(x) <==> q(x) && p(x)
    ensures Filter(p, Filter(q, s)) == Filter(both, s)
  {
    if s != [] {
      FilterTwice(p, q, both, s[1..]);
      if q(s[0]) {
        FilterCons(p, s[0], Filter(q, s[1..]));
      } else {
        assert [] + Filter(q, s[1..]) == Filter(q, s[1..]);
      }
    }
  }

  /** In front of the first element of no higher rank, so that equal ranks keep their order. */
  function Insert<T>(rank: T -> int, x: T, sorted: seq<T>): seq<T> {
    if sorted == [] || rank(sorted[0]) <= rank(x) then [x] + sorted
    else [sorted[0]] + Insert(rank, x, sorted[1..])
  }

  /** Highest rank first; equal ranks in their original order. */
  function Sort<T>(rank: T -> int, s: seq<T>): seq<T> {
    if s == [] then [] else Insert(rank, s[0], Sort(rank, s[1..]))
  }

  predicate AtMost<T>(rank: T -> int, s: seq<T>, p: int) {
    forall i :: 0 <= i < |s| ==> rank(s[i]) <= p
  }

  predicate Descending<T>(rank: T -> int, s: seq<T>) {
    forall i, j :: 0 <= i < j < |s| ==> rank(s[i]) >= rank(s[j])
  }

  lemma {:induction false} InsertAtMost<T>(rank: T -> int, x: T, sorted: seq<T>, p: int)
    requires AtMost(rank, sorted, p) && rank(x) <= p
    ensures AtMost(rank, Insert(rank, x, sorted), p)
  {
    if sorted == [] || rank(sorted[0]) <= rank(x) {
    } else {
      InsertAtMost(rank, x, sorted[1..], p);
    }
  }

  lemma {:induction false} InsertDescending<T>(rank: T -> int, x: T, sorted: seq<T>)
    requires Descending(rank, sorted)
    ensures Descending(rank, Insert(rank, x, sorted))
  {
    if sorted == [] || rank(sorted[0]) <= rank(x) {
    } else {
      InsertDescending(rank, x, sorted[1..]);
      InsertAtMost(rank, x, sorted[1..], rank(sorted[0]));
    }
  }

  lemma {:induction false} InsertElements<T>(rank: T -> int, x: T, sorted: seq<T>)
    ensures multiset(Insert(rank, x, sorted)) == multiset{x} + multiset(sorted)
  {
    if sorted == [] || rank(sorted[0]) <= rank(x) {
    } else {
      InsertElements(rank, x, sorted[1..]);
      assert sorted == [sorted[0]] + sorted[1..];
    }
  }

  /** The sort is a permutation in order of falling rank. */
  lemma {:induction false} SortOrders<T>(rank: T -> int, s: seq<T>)
    ensures Descending(rank, Sort(rank, s))
    ensures multiset(Sort(rank, s)) == multiset(s)
    ensures forall x :: x in Sort(rank, s) <==> x in s
  {
    if s != [] {
      SortOrders(rank, s[1..]);
      InsertDescending(rank, s[0], Sort(rank, s[1..]));
      InsertElements(rank, s[0], Sort(rank, s[1..]));
      assert s == [s[0]] + s[1..];
    }
    forall x ensures x in Sort(rank, s) <==> x in s {
      assert x in Sort(rank, s) <==> x in multiset(Sort(rank, s));
      assert x in s <==> x in multiset(s);
    }
  }

  lemma {:induction false} FilterAtMost<T>(keep: T -> bool, rank: T -> int, s: seq<T>, p: int)
    requires AtMost(rank, s, p)
    ensures AtMost(rank, Filter(keep, s), p)
  {
    if s != [] {
      FilterAtMost(keep, rank, s[1..], p);
    }
  }

  lemma InsertStep<T>(rank: T -> int, x: T, head: T, rest: seq<T>)
    requires rank(x) < rank(head)
    ensures Insert(rank, x, [head] + rest) == [head] + Insert(rank, x, rest)
  {
    assert ([head] + rest)[1..] == rest;
  }

  lemma {:induction false} InsertFilter<T>(keep: T -> bool, rank: T -> int, x: T, sorted: seq<T>)
    requires Descending(rank, sorted)
    ensures Filter(keep, Insert(rank, x, sorted)) ==
      if keep(x) then Insert(rank, x, Filter(keep, sorted)) else Filter(keep, sorted)
  {
    if sorted == [] || rank(sorted[0]) <= rank(x) {
      FilterCons(keep, x, sorted);
      FilterAtMost(keep, rank, sorted, rank(x));
    } else {
      var head, rest := sorted[0], sorted[1..];
      assert sorted == [head] + rest;
      InsertFilter(keep, rank, x, rest);
      FilterCons(keep, head, Insert(rank, x, rest));
      FilterCons(keep, head, rest);
      InsertStep(rank, x, head, Filter(keep, rest));
    }
  }

  /** Sorting is stable, so filtering before it or after it is the same. */
  lemma {:induction false} SortFilter<T>(keep: T -> bool, rank: T -> int, s: seq<T>)
    ensures Sort(rank, Filter(keep, s)) == Filter(keep, Sort(rank, s))
  {
    if s != [] {
      SortFilter(keep, rank, s[1..]);
      SortOrders(rank, s[1..]);
      InsertFilter(keep, rank, s[0], Sort(rank, s[1..]));
      if keep(s[0]) {
        assert ([s[0]] + Filter(keep, s[1..]))[1..] == Filter(keep, s[1..]);
      } else {
        assert [] + Filter(keep, s[1..]) == Filter(keep, s[1..]);
      }
    }
  }

  /** Position a comes before position b: by falling rank, then by position. */
  predicate RanksBefore<T>(rank: T -> int, s: seq<T>, a: nat, b: nat)
    requires a < |s| && b < |s|
  {
    rank(s[a]) > rank(s[b]) || (rank(s[a]) == rank(s[b]) && a < b)
  }

  /** places lists the positions of s by falling rank, and by position where ranks are equal. */
  ghost predicate InRankOrder<T>(rank: T -> int, s: seq<T>, places: seq<nat>) {
    && (forall i :: 0 <= i < |places| ==> places[i] < |s|)
    && forall i, j :: 0 <= i < j < |places| ==> RanksBefore(rank, s, places[i], places[j])
  }

  lemma {:induction false} InsertPlace<T>(rank: T -> int, x: T, sorted: seq<T>) returns (k: nat)
    requires Descending(rank, sorted)
    ensures k <= |sorted| && Insert(rank, x, sorted) == sorted[..k] + [x] + sorted[k..]
    ensures forall i :: 0 <= i < k ==> rank(sorted[i]) > rank(x)
    ensures forall i :: k <= i < |sorted| ==> rank(sorted[i]) <= rank(x)
  {
    if sorted == [] || rank(sorted[0]) <= rank(x) {
      k := 0;
    } else {
      var l := InsertPlace(rank, x, sorted[1..]);
      k := l + 1;
      assert sorted[..k] == [sorted[0]] + sorted[1..][..l];
    }
  }

  /** The elements of s at the given places. */
  function At<T>(s: seq<T>, places: seq<nat>): (r: seq<T>)
    requires forall i :: 0 <= i < |places| ==> places[i] < |s|
    ensures |r| == |places| && forall i :: 0 <= i < |r| ==> r[i] == s[places[i]]
  {
    seq(|places|, i requires 0 <= i < |places| => s[places[i]])
  }

  function Shifted(places: seq<nat>): (r: seq<nat>)
    ensures |r| == |places| && forall i :: 0 <= i < |r| ==> r[i] == places[i] + 1
  {
    seq(|places|, i requires 0 <= i < |places| => places[i] + 1)
  }

  lemma ShiftedPlaces<T>(rank: T -> int, s: seq<T>, rest: seq<nat>)
    requires s != [] && InRankOrder(rank, s[1..], rest)
    ensures InRankOrder(rank, s, Shifted(rest)) && At(s, Shifted(rest)) == At(s[1..], rest)
    ensures forall k: nat :: k in Shifted(rest) <==> k > 0 && k - 1 in rest
  {
    forall k: nat ensures k in Shifted(rest) <==> k > 0 && k - 1 in rest {
      if k > 0 && k - 1 in rest {
        var i :| 0 <= i < |rest| && rest[i] == k - 1;
        assert Shifted(rest)[i] == k;
      }
    }
  }

  /** The places with 0 put in as the k-th. */
  function FirstAt(rest: seq<nat>, k: nat): (r: seq<nat>)
    requires k <= |rest|
    ensures |r| == |rest| + 1 && forall i :: 0 <= i < |r| ==> r[i] == if i < k then rest[i] else if i == k then 0 else rest[i - 1]
  {
    seq(|rest| + 1, i requires 0 <= i < |rest| + 1 => if i < k then rest[i] else if i == k then 0 else rest[i - 1])
  }

  lemma FirstAtElements(rest: seq<nat>, k: nat, p: nat)
    requires k <= |rest|
    ensures p in FirstAt(rest, k) <==> p == 0 || p in rest
  {
    var r := FirstAt(rest, k);
    assert r[k] == 0;
    if p in r {
      var i :| 0 <= i < |r| && r[i] == p;
    }
    if p in rest {
      var i :| 0 <= i < |rest| && rest[i] == p;
      assert r[if i < k then i else i + 1] == p;
    }
  }

  /** Putting the first position in front of everything of no higher rank keeps the order. */
  lemma FirstPlaced<T>(rank: T -> int, s: seq<T>, rest: seq<nat>, k: nat)
    requires s != [] && k <= |rest| && InRankOrder(rank, s, rest) && 0 !in rest
    requires forall i :: 0 <= i < k ==> rank(s[rest[i]]) > rank(s[0])
    requires forall i :: k <= i < |rest| ==> rank(s[rest[i]]) <= rank(s[0])
    ensures InRankOrder(rank, s, FirstAt(rest, k))
  {
    var places := FirstAt(rest, k);
    forall i, j | 0 <= i < j < |places|
      ensures RanksBefore(rank, s, places[i], places[j])
    {
      if i == k {
        assert rest[j - 1] in rest && rank(s[rest[j - 1]]) <= rank(s[0]);
      } else if j == k {
        assert rank(s[rest[i]]) > rank(s[0]);
      } else {
        assert RanksBefore(rank, s, rest[if i < k then i else i - 1], rest[if j < k then j else j - 1]);
      }
    }
  }

  lemma FirstPlacedElements<T>(s: seq<T>, rest: seq<nat>, k: nat)
    requires s != [] && k <= |rest| && forall i :: 0 <= i < |rest| ==> rest[i] < |s|
    ensures At(s, FirstAt(rest, k)) == At(s, rest)[..k] + [s[0]] + At(s, rest)[k..]
  {
  }

  /** Where each element of the sorted list stood: the sort is in rank order and stable. */
  lemma {:induction false} SortPlaces<T>(rank: T -> int, s: seq<T>) returns (places: seq<nat>)
    ensures |places| == |s| && InRankOrder(rank, s, places)
    ensures forall k: nat :: k < |s| ==> k in places
    ensures Sort(rank, s) == At(s, places)
  {
    if s == [] {
      places := [];
    } else {
      var rest := SortPlaces(rank, s[1..]);
      SortOrders(rank, s[1..]);
      ShiftedPlaces(rank, s, rest);
      var k := InsertPlace(rank, s[0], Sort(rank, s[1..]));
      var shifted := Shifted(rest);
      forall i | 0 <= i < |shifted| ensures s[shifted[i]] == Sort(rank, s[1..])[i] {
        assert At(s, shifted)[i] == s[shifted[i]];
      }
      FirstPlaced(rank, s, shifted, k);
      FirstPlacedElements(s, shifted, k);
      places := FirstAt(shifted, k);
      forall p: nat | p < |s| ensures p in places {
        FirstAtElements(shifted, k, p);
        assert p > 0 ==> p - 1 in rest;
      }
    }
  }

  /** The results of a partial function, in order. */
  function Collect<T, U>(f: T -> Option<U>, s: seq<T>): seq<U> {
    if s == [] then [] else (if f(s[0]).Some? then [f(s[0]).value] else []) + Collect(f, s[1..])
  }

  lemma {:induction false} CollectSnoc<T, U>(f: T -> Option<U>, s: seq<T>, x: T)
    ensures Collect(f, s + [x]) == Collect(f, s) + (if f(x).Some? then [f(x).value] else [])
  {
    if s != [] {
      CollectSnoc(f, s[1..], x);
      assert (s + [x])[1..] == s[1..] + [x];
    }
  }

  lemma {:induction false} CollectElements<T, U>(f: T -> Option<U>, s: seq<T>, y: U)
    ensures y in Collect(f, s) <==> exists x :: x in s && f(x) == Some(y)
  {
    if s != [] {
      CollectElements(f, s[1..], y);
      assert s == [s[0]] + s[1..];
    }
  }

  /** A filter that keeps everything with a result does not change the results. */
  lemma {:induction false} CollectFilter<T(!new), U>(f: T -> Option<U>, keep: T -> bool, s: seq<T>)
    requires forall x :: f(x).Some? ==> keep(x)
    ensures Collect(f, Filter(keep, s)) == Collect(f, s)
  {
    if s != [] {
      CollectFilter(f, keep, s[1..]);
      if keep(s[0]) {
        assert ([s[0]] + Filter(keep, s[1..]))[1..] == Filter(keep, s[1..]);
      } else {
        assert [] + Filter(keep, s[1..]) == Filter(keep, s[1..]);
      }
    }
  }

  /** Where each result came from: exactly the elements with a result, in order. */
  ghost predicate ResultsFrom<T, U>(f: T -> Option<U>, s: seq<T>, places: seq<nat>, results: seq<U>) {
    && |places| == |results|
    && (forall i :: 0 <= i < |places| ==> places[i] < |s| && f(s[places[i]]) == Some(results[i]))
    && (forall i, j :: 0 <= i < j < |places| ==> places[i] < places[j])
    && forall k: nat :: k < |s| && f(s[k]).Some? ==> k in places
  }

  lemma {:induction false} CollectPlaces<T, U>(f: T -> Option<U>, s: seq<T>) returns (places: seq<nat>)
    ensures ResultsFrom(f, s, places, Collect(f, s))
  {
    places := [];
    var i := 0;
    while i < |s|
      invariant i <= |s| && ResultsFrom(f, s[..i], places, Collect(f, s[..i]))
    {
      ghost var before := places;
      CollectSnoc(f, s[..i], s[i]);
      assert s[..i + 1] == s[..i] + [s[i]];
      if f(s[i]).Some? {
        places := places + [i];
      }
      forall k: nat | k < i + 1 && f(s[k]).Some? ensures k in places {
        assert k < i ==> s[..i][k] == s[k] && k in before;
      }
      i := i + 1;
    }
    assert s[..i] == s;
  }

  /** The results of the sorted list, each at the place of its element: every result, in rank order. */
  lemma SortedResults<T, U>(f: T -> Option<U>, rank: T -> int, s: seq<T>) returns (places: seq<nat>)
    ensures InRankOrder(rank, s, places) && |places| == |Collect(f, Sort(rank, s))|
    ensures forall i :: 0 <= i < |places| ==> f(s[places[i]]) == Some(Collect(f, Sort(rank, s))[i])
    ensures forall k: nat :: k < |s| && f(s[k]).Some? ==> k in places
  {
    var sorted := Sort(rank, s);
    var from := SortPlaces(rank, s);
    var chosen := CollectPlaces(f, sorted);
    places := seq(|chosen|, i requires 0 <= i < |chosen| => from[chosen[i]]);
    hide Sort, Collect, RanksBefore;
    assert InRankOrder(rank, s, places) by {
      forall i, j | 0 <= i < j < |places| ensures RanksBefore(rank, s, places[i], places[j]) {
      }
    }
    forall k: nat | k < |s| && f(s[k]).Some? ensures k in places {
      var j := PlaceOf(from, k);
      assert sorted[j] == s[k];
      var i := PlaceOf(chosen, j);
      assert places[i] == k;
    }
  }

  lemma PlaceOf(places: seq<nat>, k: nat) returns (i: nat)
    requires k in places
    ensures i < |places| && places[i] == k
  {
    i :| i < |places| && places[i] == k;
  }
}
