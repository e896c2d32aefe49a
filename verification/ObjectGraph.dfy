/**
 * The serializer on JavaScript object graphs, with sharing and possibly cycles. A heap maps
 * references to arrays and records; the set of references on the current path is shared by
 * all recursive calls and updated in place.
 */
module ObjectGraph {
  import opened Utf16
  import opened Wrappers
  import opened Entries
  import opened EcmaNumber
  import opened CanonicalJson
  import opened CanonicalJsonProofs
  import opened JsonGrammar

  type Ref = nat

  /** Anything a field or an array slot can hold. */
  datatype Value =
    | VNull
    | VBool(b: bool)
    | VNumber(x: Number)
    | VNonFinite
    | VString(s: Text)
    | VDate(iso: Text)
    | VInvalidDate
    | VUndefined
    | VBigInt
    | VFunction
    | VSymbol
    | VRef(r: Ref)

  datatype Node = Array(items: seq<Value>) | Record(fields: seq<Entry<Value>>)

  type Heap = map<Ref, Node>

  /** The TypeErrors of the serializer. */
  datatype SerialError =
    | Circular
    | NonFiniteNumber
    | InvalidDate
    | UndefinedValue
    | BigIntValue
    | FunctionValue
    | SymbolValue

  function Children(n: Node): (vs: seq<Value>)
    ensures n.Array? ==> vs == n.items
    ensures n.Record? ==> |vs| == |n.fields| && (forall i :: 0 <= i < |vs| ==> vs[i] == n.fields[i].val)
  {
    match n
    case Array(items) => items
    case Record(fields) => seq(|fields|, i requires 0 <= i < |fields| => fields[i].val)
  }

  predicate Known(h: Heap, v: Value) {
    v.VRef? ==> v.r in h
  }

  /** No dangling references, and record keys are distinct. */
  ghost predicate Closed(h: Heap) {
    forall r :: r in h ==>
      && (h[r].Record? ==> DistinctKeys(h[r].fields))
      && forall i :: 0 <= i < |Children(h[r])| ==> Known(h, Children(h[r])[i])
  }

  /** A value that is not an array or a record. */
  function Leaf(v: Value): Result<Json, SerialError>
    requires !v.VRef?
  {
    match v
    case VNull => Ok(Null)
    case VBool(b) => Ok(Bool(b))
    case VNumber(x) => Ok(Num(x))
    case VNonFinite => Err(NonFiniteNumber)
    case VString(s) => Ok(Str(s))
    case VDate(iso) => Ok(Str(iso))
    case VInvalidDate => Err(InvalidDate)
    case VUndefined => Err(UndefinedValue)
    case VBigInt => Err(BigIntValue)
    case VFunction => Err(FunctionValue)
    case VSymbol => Err(SymbolValue)
  }

  // ---------------------------------------------------------------------- denotation

  /** The JSON tree a value stands for, or the error met first; `path` holds the references above. */
  ghost function Denote(h: Heap, v: Value, path: set<Ref>): Result<Json, SerialError>
    requires Closed(h) && Known(h, v)
    decreases h.Keys - path, 0, 0
  {
    if !v.VRef? then Leaf(v)
    else if v.r in path then Err(Circular)
    else
      match h[v.r]
      case Array(items) =>
        assert Children(h[v.r]) == items;
        (match DenoteItems(h, items, path + {v.r})
         case Ok(js) => Ok(Arr(js))
         case Err(e) => Err(e))
      case Record(fields) =>
        KnownSorted(h, v.r);
        (match DenoteFields(h, SortByKey(fields), path + {v.r})
         case Ok(fs) => Ok(Obj(fs))
         case Err(e) => Err(e))
  }

  ghost function DenoteItems(h: Heap, items: seq<Value>, path: set<Ref>): (r: Result<seq<Json>, SerialError>)
    requires Closed(h) && forall i :: 0 <= i < |items| ==> Known(h, items[i])
    ensures r.Ok? ==> |r.value| == |items|
    decreases h.Keys - path, 1, |items|
  {
    if items == [] then Ok([])
    else
      match Denote(h, items[0], path)
      case Err(e) => Err(e)
      case Ok(j) =>
        match DenoteItems(h, items[1..], path)
        case Err(e) => Err(e)
        case Ok(js) => Ok([j] + js)
  }

  ghost function DenoteFields(h: Heap, fields: seq<Entry<Value>>, path: set<Ref>): (r: Result<seq<Entry<Json>>, SerialError>)
    requires Closed(h) && forall i :: 0 <= i < |fields| ==> Known(h, fields[i].val)
    ensures r.Ok? ==> |r.value| == |fields|
    decreases h.Keys - path, 1, |fields|
  {
    if fields == [] then Ok([])
    else
      match Denote(h, fields[0].val, path)
      case Err(e) => Err(e)
      case Ok(j) =>
        match DenoteFields(h, fields[1..], path)
        case Err(e) => Err(e)
        case Ok(es) => Ok([Entry(fields[0].key, j)] + es)
  }

  lemma KnownSorted(h: Heap, r: Ref)
    requires Closed(h) && r in h && h[r].Record?
    ensures forall i :: 0 <= i < |h[r].fields| ==> Known(h, SortByKey(h[r].fields)[i].val)
    ensures forall e :: e in SortByKey(h[r].fields) <==> e in h[r].fields
  {
    var fields := h[r].fields;
    var es := SortByKey(fields);
    SortElements(fields);
    forall i | 0 <= i < |fields| ensures Known(h, es[i].val) {
      assert es[i] in es;
      var j :| 0 <= j < |fields| && fields[j] == es[i];
      assert Children(h[r])[j] == es[i].val;
    }
  }

  /** Element by element: all succeed, or the first failure is reported. */
  lemma {:induction false} ItemsOk(h: Heap, items: seq<Value>, path: set<Ref>)
    requires Closed(h) && forall i :: 0 <= i < |items| ==> Known(h, items[i])
    requires forall i :: 0 <= i < |items| ==> Denote(h, items[i], path).Ok?
    ensures DenoteItems(h, items, path).Ok?
    ensures forall i :: 0 <= i < |items| ==> DenoteItems(h, items, path).value[i] == Denote(h, items[i], path).value
  {
    if items != [] {
      ItemsOk(h, items[1..], path);
    }
  }

  lemma {:induction false} ItemsFirstError(h: Heap, items: seq<Value>, path: set<Ref>, n: nat)
    requires Closed(h) && forall i :: 0 <= i < |items| ==> Known(h, items[i])
    requires n < |items| && Denote(h, items[n], path).Err?
    requires forall i :: 0 <= i < n ==> Denote(h, items[i], path).Ok?
    ensures DenoteItems(h, items, path) == Err(Denote(h, items[n], path).error)
  {
    if n > 0 {
      ItemsFirstError(h, items[1..], path, n - 1);
    }
  }

  lemma {:induction false} FieldsOk(h: Heap, fields: seq<Entry<Value>>, path: set<Ref>)
    requires Closed(h) && forall i :: 0 <= i < |fields| ==> Known(h, fields[i].val)
    requires forall i :: 0 <= i < |fields| ==> Denote(h, fields[i].val, path).Ok?
    ensures DenoteFields(h, fields, path).Ok?
    ensures forall i :: 0 <= i < |fields| ==>
      DenoteFields(h, fields, path).value[i] == Entry(fields[i].key, Denote(h, fields[i].val, path).value)
  {
    if fields != [] {
      FieldsOk(h, fields[1..], path);
    }
  }

  lemma {:induction false} FieldsFirstError(h: Heap, fields: seq<Entry<Value>>, path: set<Ref>, n: nat)
    requires Closed(h) && forall i :: 0 <= i < |fields| ==> Known(h, fields[i].val)
    requires n < |fields| && Denote(h, fields[n].val, path).Err?
    requires forall i :: 0 <= i < n ==> Denote(h, fields[i].val, path).Ok?
    ensures DenoteFields(h, fields, path) == Err(Denote(h, fields[n].val, path).error)
  {
    if n > 0 {
      FieldsFirstError(h, fields[1..], path, n - 1);
    }
  }

  // ---------------------------------------------------------------------- the serializer

  /** The shared set of objects on the current path. */
  class WeakSet {
    var members: set<Ref>

    constructor ()
      ensures members == {}
    {
      members := {};
    }
  }

  ghost function PrintResult(d: Result<Json, SerialError>): Result<Text, SerialError> {
    match d
    case Ok(j) => Ok(Print(j))
    case Err(e) => Err(e)
  }

  /** Recursive serializer; `seen` is put back as it was on every exit, exceptions included. */
  method SerializeValue(h: Heap, v: Value, seen: WeakSet) returns (r: Result<Text, SerialError>)
    requires Closed(h) && Known(h, v)
    modifies seen
    ensures seen.members == old(seen.members)
    ensures r == PrintResult(Denote(h, v, old(seen.members)))
    decreases h.Keys - seen.members, 0
  {
    if !v.VRef? {
      match Leaf(v)
      case Ok(j) => return Ok(Print(j));
      case Err(e) => return Err(e);
    }
    if v.r in seen.members {
      return Err(Circular);
    }
    ghost var before := seen.members;
    seen.members := seen.members + {v.r};
    match h[v.r] {
      case Array(items) =>
        assert Children(h[v.r]) == items;
        r := SerializeItems(h, items, seen);
      case Record(fields) =>
        KnownSorted(h, v.r);
        SortAscending(fields);
        r := SerializeFields(h, SortByKey(fields), seen);
    }
    seen.members := seen.members - {v.r};
    assert seen.members == before;
  }

  method SerializeItems(h: Heap, items: seq<Value>, seen: WeakSet) returns (r: Result<Text, SerialError>)
    requires Closed(h) && forall i :: 0 <= i < |items| ==> Known(h, items[i])
    modifies seen
    ensures seen.members == old(seen.members)
    ensures r == match DenoteItems(h, items, old(seen.members))
                 case Ok(js) => Ok(Print(Arr(js)))
                 case Err(e) => Err(e)
    decreases h.Keys - seen.members, 1
  {
    ghost var path := seen.members;
    var parts: seq<Text> := [];
    var i := 0;
    while i < |items|
      invariant 0 <= i <= |items| && |parts| == i
      invariant seen.members == path
      invariant forall k :: 0 <= k < i ==>
        Denote(h, items[k], path).Ok? && parts[k] == Print(Denote(h, items[k], path).value)
    {
      var one := SerializeValue(h, items[i], seen);
      match one {
        case Err(e) =>
          ItemsFirstError(h, items, path, i);
          return Err(e);
        case Ok(t) =>
          parts := parts + [t];
      }
      i := i + 1;
    }
    ItemsText(h, items, path, parts);
    return Ok([OPEN_BRACKET] + Join(parts) + [CLOSE_BRACKET]);
  }

  method SerializeFields(h: Heap, fields: seq<Entry<Value>>, seen: WeakSet) returns (r: Result<Text, SerialError>)
    requires Closed(h) && forall i :: 0 <= i < |fields| ==> Known(h, fields[i].val)
    requires Ascending(fields)
    modifies seen
    ensures seen.members == old(seen.members)
    ensures r == match DenoteFields(h, fields, old(seen.members))
                 case Ok(es) => Ok(Print(Obj(es)))
                 case Err(e) => Err(e)
    decreases h.Keys - seen.members, 1
  {
    ghost var path := seen.members;
    var parts: seq<Text> := [];
    ghost var printed: seq<Entry<Text>> := [];
    var i := 0;
    while i < |fields|
      invariant 0 <= i <= |fields| && |printed| == i
      invariant seen.members == path
      invariant forall k :: 0 <= k < i ==>
        Denote(h, fields[k].val, path).Ok? && printed[k] == Entry(fields[k].key, Print(Denote(h, fields[k].val, path).value))
      invariant parts == EntryTexts(printed)
    {
      var one := SerializeValue(h, fields[i].val, seen);
      match one {
        case Err(e) =>
          FieldsFirstError(h, fields, path, i);
          return Err(e);
        case Ok(t) =>
          EntryTextsSnoc(printed, Entry(fields[i].key, t));
          parts := parts + [Quote(fields[i].key) + [COLON] + t];
          printed := printed + [Entry(fields[i].key, t)];
      }
      i := i + 1;
    }
    FieldsText(h, fields, path, printed);
    return Ok([OPEN_BRACE] + Join(parts) + [CLOSE_BRACE]);
  }

  lemma ItemsText(h: Heap, items: seq<Value>, path: set<Ref>, parts: seq<Text>)
    requires Closed(h) && (forall i :: 0 <= i < |items| ==> Known(h, items[i])) && |parts| == |items|
    requires forall k :: 0 <= k < |items| ==> Denote(h, items[k], path).Ok? && parts[k] == Print(Denote(h, items[k], path).value)
    ensures DenoteItems(h, items, path).Ok?
    ensures Print(Arr(DenoteItems(h, items, path).value)) == [OPEN_BRACKET] + Join(parts) + [CLOSE_BRACKET]
  {
    ItemsOk(h, items, path);
    var js := DenoteItems(h, items, path).value;
    PrintItemsAre(js);
    assert parts == PrintItems(js);
  }

  /** Entries printed in key order are already sorted. */
  lemma FieldsText(h: Heap, fields: seq<Entry<Value>>, path: set<Ref>, printed: seq<Entry<Text>>)
    requires Closed(h) && forall i :: 0 <= i < |fields| ==> Known(h, fields[i].val)
    requires Ascending(fields) && |printed| == |fields|
    requires forall k :: 0 <= k < |fields| ==>
      Denote(h, fields[k].val, path).Ok? && printed[k] == Entry(fields[k].key, Print(Denote(h, fields[k].val, path).value))
    ensures DenoteFields(h, fields, path).Ok?
    ensures Print(Obj(DenoteFields(h, fields, path).value)) == [OPEN_BRACE] + Join(EntryTexts(printed)) + [CLOSE_BRACE]
  {
    FieldsOk(h, fields, path);
    var es := DenoteFields(h, fields, path).value;
    PrintFieldsMap(es);
    assert printed == PrintFields(es);
    SortSorted(printed);
  }

  lemma {:induction false} EntryTextsSnoc(es: seq<Entry<Text>>, e: Entry<Text>)
    ensures EntryTexts(es + [e]) == EntryTexts(es) + [EntryText(e)]
  {
    if es == [] {
      assert es + [e] == [e];
    } else {
      EntryTextsSnoc(es[1..], e);
      assert (es + [e])[1..] == es[1..] + [e];
    }
  }

  // ---------------------------------------------------------------------- exactness

  predicate HasChild(n: Node, v: Value) {
    v in Children(n)
  }

  /** A walk along references. */
  ghost predicate IsPath(h: Heap, p: seq<Ref>) {
    && p != []
    && (forall i :: 0 <= i < |p| ==> p[i] in h)
    && forall i :: 0 <= i < |p| - 1 ==> HasChild(h[p[i]], VRef(p[i + 1]))
  }

  ghost predicate PathFrom(h: Heap, v: Value, p: seq<Ref>) {
    IsPath(h, p) && v == VRef(p[0])
  }

  predicate Repeats(p: seq<Ref>) {
    exists i, j :: 0 <= i < j < |p| && p[i] == p[j]
  }

  /** A cycle can be walked to from v. */
  ghost predicate ReachesCycle(h: Heap, v: Value) {
    exists p :: PathFrom(h, v, p) && Repeats(p)
  }

  /** The values the serializer refuses, each with its error. */
  ghost predicate BadLeaf(v: Value, e: SerialError) {
    || (v == VNonFinite && e == NonFiniteNumber)
    || (v == VInvalidDate && e == InvalidDate)
    || (v == VUndefined && e == UndefinedValue)
    || (v == VBigInt && e == BigIntValue)
    || (v == VFunction && e == FunctionValue)
    || (v == VSymbol && e == SymbolValue)
  }

  /** A value the serializer refuses with error e is v itself or can be walked to from v. */
  ghost predicate ReachesBadLeaf(h: Heap, v: Value, e: SerialError) {
    || BadLeaf(v, e)
    || exists p, leaf :: PathFrom(h, v, p) && HasChild(h[p[|p| - 1]], leaf) && BadLeaf(leaf, e)
  }

  lemma ChildDenoted(h: Heap, r: Ref, path: set<Ref>, c: Value)
    requires Closed(h) && r in h && r !in path
    requires Denote(h, VRef(r), path).Ok? && HasChild(h[r], c)
    ensures Known(h, c) && Denote(h, c, path + {r}).Ok?
  {
    var k :| 0 <= k < |Children(h[r])| && Children(h[r])[k] == c;
    match h[r]
    case Array(items) =>
      if i :| 0 <= i < |items| && Denote(h, items[i], path + {r}).Err? {
        var n := FirstItemError(h, items, path + {r}, i);
        ItemsFirstError(h, items, path + {r}, n);
      }
    case Record(fields) =>
      KnownSorted(h, r);
      var es := SortByKey(fields);
      assert fields[k] in es;
      if i :| 0 <= i < |es| && Denote(h, es[i].val, path + {r}).Err? {
        var n := FirstFieldError(h, es, path + {r}, i);
        FieldsFirstError(h, es, path + {r}, n);
      }
  }

  lemma {:induction false} FirstItemError(h: Heap, items: seq<Value>, path: set<Ref>, i: nat) returns (n: nat)
    requires Closed(h) && forall i :: 0 <= i < |items| ==> Known(h, items[i])
    requires i < |items| && Denote(h, items[i], path).Err?
    ensures n <= i && Denote(h, items[n], path).Err?
    ensures forall k :: 0 <= k < n ==> Denote(h, items[k], path).Ok?
  {
    if k :| 0 <= k < i && Denote(h, items[k], path).Err? {
      n := FirstItemError(h, items, path, k);
    } else {
      n := i;
    }
  }

  lemma {:induction false} FirstFieldError(h: Heap, fields: seq<Entry<Value>>, path: set<Ref>, i: nat) returns (n: nat)
    requires Closed(h) && forall i :: 0 <= i < |fields| ==> Known(h, fields[i].val)
    requires i < |fields| && Denote(h, fields[i].val, path).Err?
    ensures n <= i && Denote(h, fields[n].val, path).Err?
    ensures forall k :: 0 <= k < n ==> Denote(h, fields[k].val, path).Ok?
  {
    if k :| 0 <= k < i && Denote(h, fields[k].val, path).Err? {
      n := FirstFieldError(h, fields, path, k);
    } else {
      n := i;
    }
  }

  /** Success means that no walk repeats, re-enters the path above, or meets a bad leaf. */
  lemma {:induction false} OkPaths(h: Heap, p: seq<Ref>, path: set<Ref>)
    requires Closed(h) && IsPath(h, p) && Denote(h, VRef(p[0]), path).Ok?
    ensures !Repeats(p)
    ensures forall i :: 0 <= i < |p| ==> p[i] !in path
    ensures forall c, e :: HasChild(h[p[|p| - 1]], c) ==> !BadLeaf(c, e)
    decreases |p|
  {
    assert p[0] !in path;
    if |p| == 1 {
      forall c, e | HasChild(h[p[0]], c) ensures !BadLeaf(c, e) {
        ChildDenoted(h, p[0], path, c);
      }
    } else {
      assert HasChild(h[p[0]], VRef(p[1]));
      ChildDenoted(h, p[0], path, VRef(p[1]));
      var q := p[1..];
      assert IsPath(h, q) by {
        forall i | 0 <= i < |q| - 1 ensures HasChild(h[q[i]], VRef(q[i + 1])) {
          assert HasChild(h[p[i + 1]], VRef(p[i + 2]));
        }
      }
      OkPaths(h, q, path + {p[0]});
      forall i, j | 0 <= i < j < |p| ensures p[i] != p[j] {
        assert p[j] == q[j - 1];
        if i > 0 { assert p[i] == q[i - 1]; }
      }
    }
  }

  /** Evidence for a failure. */
  datatype Witness = AtRoot | Walk(p: seq<Ref>, leaf: Value)

  ghost predicate Explains(h: Heap, v: Value, path: set<Ref>, e: SerialError, w: Witness) {
    match w
    case AtRoot => BadLeaf(v, e)
    case Walk(p, leaf) =>
      && PathFrom(h, v, p)
      && var last := p[|p| - 1];
         if e == Circular then last in path || Repeats(p)
         else HasChild(h[last], leaf) && BadLeaf(leaf, e)
  }

  lemma PathCons(h: Heap, r: Ref, p: seq<Ref>)
    requires r in h && IsPath(h, p) && HasChild(h[r], VRef(p[0]))
    ensures IsPath(h, [r] + p)
    ensures p[|p| - 1] == r || Repeats(p) ==> Repeats([r] + p)
  {
    var q := [r] + p;
    forall i | 0 <= i < |q| - 1 ensures HasChild(h[q[i]], VRef(q[i + 1])) {
      if i > 0 { assert HasChild(h[p[i - 1]], VRef(p[i])); }
    }
    if p[|p| - 1] == r {
      assert q[0] == q[|q| - 1];
    }
    if i, j :| 0 <= i < j < |p| && p[i] == p[j] {
      assert q[i + 1] == q[j + 1];
    }
  }

  lemma ExtendWitness(h: Heap, r: Ref, path: set<Ref>, c: Value, e: SerialError, w: Witness) returns (w': Witness)
    requires r in h && HasChild(h[r], c)
    requires Explains(h, c, path + {r}, e, w)
    ensures Explains(h, VRef(r), path, e, w')
  {
    match w
    case AtRoot =>
      w' := Walk([r], c);
    case Walk(p, leaf) =>
      PathCons(h, r, p);
      assert ([r] + p)[|p|] == p[|p| - 1];
      w' := Walk([r] + p, leaf);
  }

  lemma {:induction false} FailureExplained(h: Heap, v: Value, path: set<Ref>) returns (w: Witness)
    requires Closed(h) && Known(h, v) && Denote(h, v, path).Err?
    ensures Explains(h, v, path, Denote(h, v, path).error, w)
    decreases h.Keys - path
  {
    if !v.VRef? {
      w := AtRoot;
    } else if v.r in path {
      w := Walk([v.r], VNull);
    } else {
      var below := path + {v.r};
      var c: Value;
      match h[v.r] {
        case Array(items) =>
          assert Children(h[v.r]) == items;
          if forall i :: 0 <= i < |items| ==> Denote(h, items[i], below).Ok? {
            ItemsOk(h, items, below);
          }
          var i :| 0 <= i < |items| && Denote(h, items[i], below).Err?;
          var n := FirstItemError(h, items, below, i);
          ItemsFirstError(h, items, below, n);
          c := items[n];
        case Record(fields) =>
          KnownSorted(h, v.r);
          var es := SortByKey(fields);
          if forall i :: 0 <= i < |es| ==> Denote(h, es[i].val, below).Ok? {
            FieldsOk(h, es, below);
          }
          var i :| 0 <= i < |es| && Denote(h, es[i].val, below).Err?;
          var n := FirstFieldError(h, es, below, i);
          FieldsFirstError(h, es, below, n);
          assert es[n] in es;
          var k :| 0 <= k < |fields| && fields[k] == es[n];
          assert Children(h[v.r])[k] == es[n].val;
          c := es[n].val;
      }
      var deeper := FailureExplained(h, c, below);
      w := ExtendWitness(h, v.r, path, c, Denote(h, c, below).error, deeper);
    }
  }

  lemma OkReachesNothing(h: Heap, v: Value)
    requires Closed(h) && Known(h, v) && Denote(h, v, {}).Ok?
    ensures !ReachesCycle(h, v) && forall e :: !ReachesBadLeaf(h, v, e)
  {
    forall p | PathFrom(h, v, p)
      ensures !Repeats(p)
      ensures forall c, e :: HasChild(h[p[|p| - 1]], c) ==> !BadLeaf(c, e)
    {
      OkPaths(h, p, {});
    }
  }

  lemma ErrReachesCause(h: Heap, v: Value)
    requires Closed(h) && Known(h, v) && Denote(h, v, {}).Err?
    ensures var e := Denote(h, v, {}).error; if e == Circular then ReachesCycle(h, v) else ReachesBadLeaf(h, v, e)
  {
    var w := FailureExplained(h, v, {});
    if Denote(h, v, {}).error == Circular {
      assert PathFrom(h, v, w.p) && Repeats(w.p);
    }
  }

  /**
   * Exactness: serialization fails with Circular only when a cycle is reachable, with another
   * error only when a value refused with that error is reachable, and succeeds exactly when
   * neither is. Objects shared without a cycle are therefore accepted.
   */
  lemma SerializationExact(h: Heap, v: Value)
    requires Closed(h) && Known(h, v)
    ensures Denote(h, v, {}).Ok? <==> !ReachesCycle(h, v) && forall e :: !ReachesBadLeaf(h, v, e)
    ensures Denote(h, v, {}) == Err(Circular) ==> ReachesCycle(h, v)
    ensures forall e :: e != Circular && Denote(h, v, {}) == Err(e) ==> ReachesBadLeaf(h, v, e)
  {
    hide ReachesCycle, ReachesBadLeaf, Denote;
    if Denote(h, v, {}).Ok? {
      OkReachesNothing(h, v);
    } else {
      ErrReachesCause(h, v);
    }
  }

  // ---------------------------------------------------------------------- the tree

  /** The leaf a value other than an array or a record is printed as; a date is printed as its text. */
  predicate RepresentsLeaf(v: Value, t: Json) {
    || (v == VNull && t == Null)
    || (v.VBool? && t == Bool(v.b))
    || (v.VNumber? && t == Num(v.x))
    || (v.VString? && t == Str(v.s))
    || (v.VDate? && t == Str(v.iso))
  }

  /** Independent reading of a tree: same leaves, same items in order, same value under each key. */
  ghost predicate Represents(h: Heap, v: Value, t: Json)
    decreases t
  {
    if !v.VRef? then RepresentsLeaf(v, t)
    else if v.r !in h then false
    else
      match h[v.r]
      case Array(items) =>
        t.Arr? && |t.items| == |items| && forall i :: 0 <= i < |items| ==> Represents(h, items[i], t.items[i])
      case Record(fields) =>
        && t.Obj?
        && Keys(t.fields) == Keys(fields)
        && forall i, j :: 0 <= i < |fields| && 0 <= j < |t.fields| && fields[i].key == t.fields[j].key ==>
             Represents(h, fields[i].val, t.fields[j].val)
  }

  lemma {:induction false} DenoteRepresents(h: Heap, v: Value, path: set<Ref>)
    requires Closed(h) && Known(h, v) && Denote(h, v, path).Ok?
    ensures Represents(h, v, Denote(h, v, path).value)
    ensures WellKeyed(Denote(h, v, path).value)
    decreases h.Keys - path
  {
    if v.VRef? {
      var below := path + {v.r};
      match h[v.r]
      case Array(items) =>
        forall i | 0 <= i < |items|
          ensures Known(h, items[i]) && Denote(h, items[i], below).Ok?
          ensures Represents(h, items[i], Denote(h, items[i], below).value)
          ensures WellKeyed(Denote(h, items[i], below).value)
        {
          assert HasChild(h[v.r], items[i]);
          ChildDenoted(h, v.r, path, items[i]);
          DenoteRepresents(h, items[i], below);
        }
        ItemsOk(h, items, below);
      case Record(fields) =>
        KnownSorted(h, v.r);
        var es := SortByKey(fields);
        forall i | 0 <= i < |es|
          ensures Denote(h, es[i].val, below).Ok?
          ensures Represents(h, es[i].val, Denote(h, es[i].val, below).value)
          ensures WellKeyed(Denote(h, es[i].val, below).value)
        {
          assert es[i] in es;
          var k :| 0 <= k < |fields| && fields[k] == es[i];
          assert Children(h[v.r])[k] == es[i].val;
          ChildDenoted(h, v.r, path, es[i].val);
          DenoteRepresents(h, es[i].val, below);
        }
        FieldsOk(h, es, below);
        RecordRepresents(h, v.r, below, DenoteFields(h, es, below).value);
    }
  }

  lemma RecordRepresents(h: Heap, r: Ref, below: set<Ref>, ts: seq<Entry<Json>>)
    requires Closed(h) && r in h && h[r].Record?
    requires |ts| == |h[r].fields|
    requires forall i :: 0 <= i < |ts| ==> ts[i].key == SortByKey(h[r].fields)[i].key
    requires forall i :: 0 <= i < |ts| ==> Represents(h, SortByKey(h[r].fields)[i].val, ts[i].val) && WellKeyed(ts[i].val)
    ensures Represents(h, VRef(r), Obj(ts)) && WellKeyed(Obj(ts))
  {
    var fields := h[r].fields;
    var es := SortByKey(fields);
    SortKeepsKeys(fields);
    SameKeysPointwise(es, ts);
    SortAscending(fields);
    AscendingDistinct(es);
    forall i, j | 0 <= i < |fields| && 0 <= j < |ts| && fields[i].key == ts[j].key
      ensures Represents(h, fields[i].val, ts[j].val)
    {
      KnownSorted(h, r);
      assert fields[i] in es;
      var k :| 0 <= k < |es| && es[k] == fields[i];
      assert es[k].key == es[j].key;
    }
  }

  /** Two graphs serialize alike exactly when they stand for the same value up to key order. */
  lemma GraphTextsDistinguish(h1: Heap, v1: Value, h2: Heap, v2: Value)
    requires Closed(h1) && Known(h1, v1) && Denote(h1, v1, {}).Ok?
    requires Closed(h2) && Known(h2, v2) && Denote(h2, v2, {}).Ok?
    ensures PrintResult(Denote(h1, v1, {})) == PrintResult(Denote(h2, v2, {}))
       <==> SameValue(Denote(h1, v1, {}).value, Denote(h2, v2, {}).value)
  {
    DenoteRepresents(h1, v1, {});
    DenoteRepresents(h2, v2, {});
    PrintDistinguishes(Denote(h1, v1, {}).value, Denote(h2, v2, {}).value);
  }

  /** The same arrays, and the same records up to the order in which keys were inserted. */
  ghost predicate Reordered(h1: Heap, h2: Heap) {
    && h1.Keys == h2.Keys
    && forall r :: r in h1 ==>
         if h1[r].Array? then h1[r] == h2[r]
         else h2[r].Record? && forall e :: e in h1[r].fields <==> e in h2[r].fields
  }

  /** Insertion order never matters, not even to which error is reported. */
  lemma {:induction false} InsertionOrderIrrelevant(h1: Heap, h2: Heap, v: Value, path: set<Ref>)
    requires Closed(h1) && Closed(h2) && Reordered(h1, h2) && Known(h1, v)
    ensures Denote(h1, v, path) == Denote(h2, v, path)
    decreases h1.Keys - path, 0, 0
  {
    if v.VRef? && v.r !in path {
      var below := path + {v.r};
      match h1[v.r]
      case Array(items) =>
        assert Children(h1[v.r]) == items;
        ItemsReordered(h1, h2, items, below);
      case Record(fields) =>
        KnownSorted(h1, v.r);
        SortForgetsOrder(fields, h2[v.r].fields);
        FieldsReordered(h1, h2, SortByKey(fields), below);
    }
  }

  lemma {:induction false} ItemsReordered(h1: Heap, h2: Heap, items: seq<Value>, path: set<Ref>)
    requires Closed(h1) && Closed(h2) && Reordered(h1, h2)
    requires forall i :: 0 <= i < |items| ==> Known(h1, items[i])
    ensures DenoteItems(h1, items, path) == DenoteItems(h2, items, path)
    decreases h1.Keys - path, 1, |items|
  {
    if items != [] {
      InsertionOrderIrrelevant(h1, h2, items[0], path);
      ItemsReordered(h1, h2, items[1..], path);
    }
  }

  lemma {:induction false} FieldsReordered(h1: Heap, h2: Heap, fields: seq<Entry<Value>>, path: set<Ref>)
    requires Closed(h1) && Closed(h2) && Reordered(h1, h2)
    requires forall i :: 0 <= i < |fields| ==> Known(h1, fields[i].val)
    ensures DenoteFields(h1, fields, path) == DenoteFields(h2, fields, path)
    decreases h1.Keys - path, 1, |fields|
  {
    if fields != [] {
      InsertionOrderIrrelevant(h1, h2, fields[0].val, path);
      FieldsReordered(h1, h2, fields[1..], path);
    }
  }

  // ---------------------------------------------------------------------- the whole serializer

  /** The text of some tree that the graph stands for, names in code-unit order at every depth. */
  ghost predicate SnapshotOf(text: Text, h: Heap, v: Value) {
    && (exists t :: Represents(h, v, t) && Writes(text, t))
    && Decode(text).Some? && NamesAscend(Decode(text).value) && Represents(h, v, Decode(text).value)
  }

  lemma DenotedSnapshot(h: Heap, v: Value)
    requires Closed(h) && Known(h, v) && Denote(h, v, {}).Ok?
    ensures SnapshotOf(Print(Denote(h, v, {}).value), h, v)
  {
    var t := Denote(h, v, {}).value;
    DenoteRepresents(h, v, {});
    PrintWrites(t);
    DecodedAscends(t);
    DecodePrint(t);
    CanonRepresents(h, v, t);
  }

  /** Reordering the fields of a tree does not change what it stands for. */
  lemma {:induction false} CanonRepresents(h: Heap, v: Value, t: Json)
    requires Represents(h, v, t)
    ensures Represents(h, v, Canon(t))
    decreases t
  {
    if v.VRef? {
      match h[v.r]
      case Array(items) =>
        forall i | 0 <= i < |items| ensures Represents(h, items[i], Canon(t.items[i])) {
          CanonRepresents(h, items[i], t.items[i]);
        }
      case Record(fields) =>
        CanonRecord(h, fields, t);
    }
  }

  lemma CanonRecord(h: Heap, fields: seq<Entry<Value>>, t: Json)
    requires t.Obj?
    requires Keys(t.fields) == Keys(fields)
    requires forall i, j :: 0 <= i < |fields| && 0 <= j < |t.fields| && fields[i].key == t.fields[j].key ==>
      Represents(h, fields[i].val, t.fields[j].val)
    ensures Keys(Canon(t).fields) == Keys(fields)
    ensures forall i, j :: 0 <= i < |fields| && 0 <= j < |Canon(t).fields| && fields[i].key == Canon(t).fields[j].key ==>
      Represents(h, fields[i].val, Canon(t).fields[j].val)
    decreases t, 0
  {
    var cs := CanonFields(t.fields);
    SortElements(cs);
    SortKeepsKeys(cs);
    SameKeysPointwise(t.fields, cs);
    forall i, j | 0 <= i < |fields| && 0 <= j < |Canon(t).fields| && fields[i].key == Canon(t).fields[j].key
      ensures Represents(h, fields[i].val, Canon(t).fields[j].val)
    {
      assert Canon(t).fields[j] in multiset(SortByKey(cs));
      var k :| 0 <= k < |cs| && cs[k] == Canon(t).fields[j];
      CanonRepresents(h, fields[i].val, t.fields[k].val);
    }
  }

  /** Serialization from an empty set: it succeeds exactly when no cycle and no refused value is reachable. */
  method SerializeForSnapshot(h: Heap, v: Value) returns (r: Result<Text, SerialError>)
    requires Closed(h) && Known(h, v)
    ensures r == PrintResult(Denote(h, v, {}))
    ensures r.Ok? <==> !ReachesCycle(h, v) && forall e :: !ReachesBadLeaf(h, v, e)
    ensures r.Ok? ==> SnapshotOf(r.value, h, v)
    ensures r.Err? ==> if r.error == Circular then ReachesCycle(h, v) else ReachesBadLeaf(h, v, r.error)
  {
    SerializationExact(h, v);
    if Denote(h, v, {}).Ok? {
      DenotedSnapshot(h, v);
    }
    var seen := new WeakSet();
    r := SerializeValue(h, v, seen);
  }
}
