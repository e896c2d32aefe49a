/**
 * Keyed entries and their canonical order. Object.keys(record).sort() orders the keys of a
 * record by code unit; keys of a record are distinct.
 */
module Entries {
  import opened Utf16

  datatype Entry<+T> = Entry(key: Text, val: T)

  predicate DistinctKeys<T>(es: seq<Entry<T>>) {
    forall i, j :: 0 <= i < j < |es| ==> es[i].key != es[j].key
  }

  ghost predicate Ascending<T>(es: seq<Entry<T>>) {
    forall i, j :: 0 <= i < j < |es| ==> Less(es[i].key, es[j].key)
  }

  /** Neighbours in order are enough. */
  lemma {:induction false} NeighboursAscend<T>(es: seq<Entry<T>>)
    requires forall i :: 0 < i < |es| ==> Less(es[i - 1].key, es[i].key)
    ensures Ascending(es)
  {
    if |es| > 1 {
      var rest := es[1..];
      forall i | 0 < i < |rest| ensures Less(rest[i - 1].key, rest[i].key) {
        assert rest[i - 1] == es[i] && rest[i] == es[i + 1];
        assert Less(es[(i + 1) - 1].key, es[i + 1].key);
      }
      NeighboursAscend(rest);
      forall j | 0 <= j < |rest| ensures Less(es[0].key, rest[j].key) {
        assert Less(es[1 - 1].key, es[1].key);
        if j > 0 {
          LessTransitive(es[0].key, rest[0].key, rest[j].key);
        }
      }
    }
  }

  function Insert<T>(e: Entry<T>, es: seq<Entry<T>>): (r: seq<Entry<T>>)
    ensures |r| == |es| + 1
  {
    if es == [] || !Less(es[0].key, e.key) then [e] + es
    else [es[0]] + Insert(e, es[1..])
  }

  function SortByKey<T>(es: seq<Entry<T>>): (r: seq<Entry<T>>)
    ensures |r| == |es|
  {
    if es == [] then [] else Insert(es[0], SortByKey(es[1..]))
  }

  function MapVals<T, U>(f: T -> U, es: seq<Entry<T>>): (r: seq<Entry<U>>)
    ensures |r| == |es|
    ensures forall i :: 0 <= i < |es| ==> r[i] == Entry(es[i].key, f(es[i].val))
  {
    if es == [] then [] else [Entry(es[0].key, f(es[0].val))] + MapVals(f, es[1..])
  }

  lemma {:induction false} InsertElements<T>(e: Entry<T>, es: seq<Entry<T>>)
    ensures multiset(Insert(e, es)) == multiset(es) + multiset{e}
  {
    if es == [] || !Less(es[0].key, e.key) {
    } else {
      InsertElements(e, es[1..]);
      assert es == [es[0]] + es[1..];
    }
  }

  lemma {:induction false} SortElements<T>(es: seq<Entry<T>>)
    ensures multiset(SortByKey(es)) == multiset(es)
    ensures forall e :: e in SortByKey(es) <==> e in es
  {
    if es != [] {
      SortElements(es[1..]);
      InsertElements(es[0], SortByKey(es[1..]));
      assert es == [es[0]] + es[1..];
    }
    forall e ensures e in SortByKey(es) <==> e in es {
      assert e in SortByKey(es) <==> e in multiset(SortByKey(es));
      assert e in es <==> e in multiset(es);
    }
  }

  lemma {:induction false} InsertAscending<T>(e: Entry<T>, es: seq<Entry<T>>)
    requires Ascending(es)
    requires forall i :: 0 <= i < |es| ==> es[i].key != e.key
    ensures Ascending(Insert(e, es))
  {
    if es == [] {
    } else if !Less(es[0].key, e.key) {
      LessTotal(es[0].key, e.key);
      forall j | 0 <= j < |es| ensures Less(e.key, es[j].key) {
        if j > 0 { LessTransitive(e.key, es[0].key, es[j].key); }
      }
    } else {
      var rest := Insert(e, es[1..]);
      InsertAscending(e, es[1..]);
      InsertElements(e, es[1..]);
      forall j | 0 <= j < |rest| ensures Less(es[0].key, rest[j].key) {
        assert rest[j] in multiset(rest);
        assert rest[j] == e || rest[j] in es[1..];
      }
    }
  }

  lemma {:induction false} SortAscending<T>(es: seq<Entry<T>>)
    requires DistinctKeys(es)
    ensures Ascending(SortByKey(es))
  {
    if es != [] {
      SortAscending(es[1..]);
      SortElements(es[1..]);
      forall i | 0 <= i < |es| - 1 ensures SortByKey(es[1..])[i].key != es[0].key {
        var e := SortByKey(es[1..])[i];
        assert e in multiset(SortByKey(es[1..]));
        assert e in es[1..];
      }
      InsertAscending(es[0], SortByKey(es[1..]));
    }
  }

  lemma AscendingDistinct<T>(es: seq<Entry<T>>)
    requires Ascending(es)
    ensures DistinctKeys(es)
  {
    forall i, j | 0 <= i < j < |es| ensures es[i].key != es[j].key {
      LessTotal(es[i].key, es[j].key);
    }
  }

  /** An ascending sequence is determined by its elements. */
  lemma {:induction false} AscendingUnique<T>(a: seq<Entry<T>>, b: seq<Entry<T>>)
    requires Ascending(a) && Ascending(b)
    requires forall e :: e in a <==> e in b
    ensures a == b
  {
    if b != [] {
      assert b[0] in b;
    }
    if a != [] {
      assert a[0] in b;
      assert b[0] in a;
      LessTotal(a[0].key, b[0].key);
      var i :| 0 <= i < |b| && b[i] == a[0];
      var j :| 0 <= j < |a| && a[j] == b[0];
      assert a[0] == b[0];
      forall e ensures e in a[1..] <==> e in b[1..] {
        LessTotal(a[0].key, a[0].key);
        if e in a[1..] { assert e != a[0]; assert e in a; }
        if e in b[1..] { assert e != b[0]; assert e in b; }
      }
      AscendingUnique(a[1..], b[1..]);
      assert a == [a[0]] + a[1..];
      assert b == [b[0]] + b[1..];
    }
  }

  /** Sorting forgets the insertion order. */
  lemma SortForgetsOrder<T>(a: seq<Entry<T>>, b: seq<Entry<T>>)
    requires DistinctKeys(a) && DistinctKeys(b)
    requires forall e :: e in a <==> e in b
    ensures SortByKey(a) == SortByKey(b)
  {
    SortAscending(a);
    SortAscending(b);
    SortElements(a);
    SortElements(b);
    AscendingUnique(SortByKey(a), SortByKey(b));
  }

  lemma SortSorted<T>(es: seq<Entry<T>>)
    requires Ascending(es)
    ensures SortByKey(es) == es
  {
    AscendingDistinct(es);
    SortAscending(es);
    SortElements(es);
    AscendingUnique(SortByKey(es), es);
  }

  lemma {:induction false} InsertMap<T, U>(f: T -> U, e: Entry<T>, es: seq<Entry<T>>)
    ensures Insert(Entry(e.key, f(e.val)), MapVals(f, es)) == MapVals(f, Insert(e, es))
  {
    if es == [] || !Less(es[0].key, e.key) {
      assert ([e] + es)[1..] == es;
    } else {
      InsertMap(f, e, es[1..]);
      assert ([es[0]] + Insert(e, es[1..]))[1..] == Insert(e, es[1..]);
      assert MapVals(f, es)[1..] == MapVals(f, es[1..]);
    }
  }

  lemma {:induction false} SortMap<T, U>(f: T -> U, es: seq<Entry<T>>)
    ensures SortByKey(MapVals(f, es)) == MapVals(f, SortByKey(es))
  {
    if es != [] {
      SortMap(f, es[1..]);
      InsertMap(f, es[0], SortByKey(es[1..]));
      assert MapVals(f, es)[1..] == MapVals(f, es[1..]);
    }
  }

  function Keys<T>(es: seq<Entry<T>>): set<Text> {
    set i | 0 <= i < |es| :: es[i].key
  }

  lemma SubsetKeys<T>(a: seq<Entry<T>>, b: seq<Entry<T>>)
    requires multiset(a) == multiset(b)
    ensures Keys(a) <= Keys(b)
  {
    forall k | k in Keys(a) ensures k in Keys(b) {
      var i :| 0 <= i < |a| && a[i].key == k;
      assert a[i] in multiset(a);
      assert a[i] in b;
      var j :| 0 <= j < |b| && b[j] == a[i];
    }
  }

  lemma SortKeepsKeys<T>(es: seq<Entry<T>>)
    ensures Keys(SortByKey(es)) == Keys(es)
  {
    SortElements(es);
    SubsetKeys(es, SortByKey(es));
    SubsetKeys(SortByKey(es), es);
  }

  lemma SameKeysPointwise<T, U>(a: seq<Entry<T>>, b: seq<Entry<U>>)
    requires |a| == |b| && forall i :: 0 <= i < |a| ==> a[i].key == b[i].key
    ensures Keys(a) == Keys(b)
  {
    forall k ensures k in Keys(a) <==> k in Keys(b) {
      if i :| 0 <= i < |a| && a[i].key == k { assert b[i].key == k; }
      if i :| 0 <= i < |b| && b[i].key == k { assert a[i].key == k; }
    }
  }
}
