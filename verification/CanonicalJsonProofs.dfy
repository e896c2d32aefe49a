/**
 * Unique decodability of the canonical text: the decoder recovers the value, so two values
 * print alike exactly when they are equal up to the order of object keys.
 */
module CanonicalJsonProofs {
  import opened Utf16
  import opened Wrappers
  import opened Entries
  import opened EcmaNumber
  import opened CanonicalJson

  /** Equal up to the order of object keys, at every depth. */
  predicate SameValue(a: Json, b: Json)
    decreases a
  {
    match (a, b)
    case (Arr(xs), Arr(ys)) =>
      |xs| == |ys| && forall i :: 0 <= i < |xs| ==> SameValue(xs[i], ys[i])
    case (Obj(fs), Obj(gs)) =>
      && Keys(fs) == Keys(gs)
      && forall i, j :: 0 <= i < |fs| && 0 <= j < |gs| && fs[i].key == gs[j].key ==> SameValue(fs[i].val, gs[j].val)
    case _ => a == b
  }

  /** The value with every object's fields in key order. */
  function Canon(v: Json): Json
    decreases v
  {
    match v
    case Arr(items) => Arr(CanonItems(items))
    case Obj(fields) => Obj(SortByKey(CanonFields(fields)))
    case _ => v
  }

  function CanonItems(items: seq<Json>): (r: seq<Json>)
    ensures |r| == |items|
    ensures forall i :: 0 <= i < |items| ==> r[i] == Canon(items[i])
    decreases items
  {
    if items == [] then [] else [Canon(items[0])] + CanonItems(items[1..])
  }

  function CanonFields(fields: seq<Entry<Json>>): (r: seq<Entry<Json>>)
    ensures |r| == |fields|
    ensures forall i :: 0 <= i < |fields| ==> r[i] == Entry(fields[i].key, Canon(fields[i].val))
    decreases fields
  {
    if fields == [] then [] else [Entry(fields[0].key, Canon(fields[0].val))] + CanonFields(fields[1..])
  }

  // ---------------------------------------------------------------------- strings

  lemma HexDigits(c: CodeUnit)
    ensures 4096 * (c / 4096) + 256 * (c / 256 % 16) + 16 * (c / 16 % 16) + c % 16 == c
  {
    assert c / 256 == c / 16 / 16;
    assert c / 4096 == c / 256 / 16;
  }

  lemma HexQuadEscape(c: CodeUnit)
    ensures HexQuad(UnicodeEscape(c)[2..]) == Some(c)
  {
    HexDigits(c);
    var t := UnicodeEscape(c)[2..];
    assert HexValue(t[0]) == Some(c / 4096);
    assert HexValue(t[1]) == Some(c / 256 % 16);
    assert HexValue(t[2]) == Some(c / 16 % 16);
    assert HexValue(t[3]) == Some(c % 16);
  }

  lemma ReadPlainUnit(c: CodeUnit, rest: Text)
    requires c != QUOTE && c != BACKSLASH
    ensures ReadString([c] + rest) == Prepend(c, ReadString(rest))
  {
    assert ([c] + rest)[1..] == rest;
  }

  lemma ReadUnicodeUnit(c: CodeUnit, rest: Text)
    ensures ReadString(UnicodeEscape(c) + rest) == Prepend(c, ReadString(rest))
  {
    var t := UnicodeEscape(c) + rest;
    HexQuadEscape(c);
    assert t[0] == BACKSLASH && t[1] == 117;
    assert t[2..6] == UnicodeEscape(c)[2..];
    assert t[6..] == rest;
  }

  lemma ReadShortUnit(c: CodeUnit, rest: Text)
    requires ShortEscape(c).Some?
    ensures ReadString([BACKSLASH, ShortEscape(c).value] + rest) == Prepend(c, ReadString(rest))
  {
    var t := [BACKSLASH, ShortEscape(c).value] + rest;
    assert t[0] == BACKSLASH && t[1] != 117;
    assert t[2..] == rest;
  }

  lemma ReadEscapedUnit(c: CodeUnit, rest: Text)
    ensures ReadString(EscapeUnit(c) + rest) == Prepend(c, ReadString(rest))
  {
    if ShortEscape(c).Some? {
      ReadShortUnit(c, rest);
    } else if c < 32 || IsHigh(c) || IsLow(c) {
      ReadUnicodeUnit(c, rest);
    } else {
      ReadPlainUnit(c, rest);
    }
  }

  lemma ReadEscapePair(s: Text, rest: Text)
    requires StartsPair(s)
    ensures ReadString(Escape(s) + rest) == Prepend(s[0], Prepend(s[1], ReadString(Escape(s[2..]) + rest)))
  {
    var more := Escape(s[2..]) + rest;
    assert s[..2] == [s[0]] + [s[1]];
    Assoc(s[..2], Escape(s[2..]), rest);
    Assoc([s[0]], [s[1]], more);
    ReadPlainUnit(s[0], [s[1]] + more);
    ReadPlainUnit(s[1], more);
  }

  lemma {:induction false} ReadEscape(s: Text, rest: Text)
    ensures ReadString(Escape(s) + ([QUOTE] + rest)) == Some((s, rest))
    decreases |s|
  {
    var tail := [QUOTE] + rest;
    if s == [] {
      assert Escape(s) + tail == tail;
      assert tail[1..] == rest;
    } else if StartsPair(s) {
      ReadEscape(s[2..], rest);
      ReadEscapePair(s, tail);
      assert [s[0]] + ([s[1]] + s[2..]) == s;
    } else {
      ReadEscape(s[1..], rest);
      Assoc(EscapeUnit(s[0]), Escape(s[1..]), tail);
      ReadEscapedUnit(s[0], Escape(s[1..]) + tail);
      assert [s[0]] + s[1..] == s;
    }
  }

  lemma ReadQuote(s: Text, rest: Text)
    ensures (Quote(s) + rest)[0] == QUOTE
    ensures ReadString((Quote(s) + rest)[1..]) == Some((s, rest))
  {
    ReadEscape(s, rest);
    assert (Quote(s) + rest)[1..] == Escape(s) + ([QUOTE] + rest);
  }

  // ---------------------------------------------------------------------- values

  /** What may follow a printed value inside a larger text. */
  predicate Follows(rest: Text) {
    rest == [] || rest[0] == COMMA || rest[0] == CLOSE_BRACKET || rest[0] == CLOSE_BRACE
  }

  lemma FormatStart(x: Number)
    ensures Format(x) != [] && (IsDigit(Format(x)[0]) || Format(x)[0] == MINUS)
  {
    var d := Layout(x);
    assert d.whole != [];
    assert Format(x) == (if d.neg then [MINUS] else []) + (DigitText(d.whole) + FracText(d.frac) + PowerText(d.power));
  }

  lemma LiteralStart(t: Text)
    ensures Lit("null") <= t ==> t[0] == 110
    ensures Lit("true") <= t ==> t[0] == 116
    ensures Lit("false") <= t ==> t[0] == 102
  {
    assert Lit("null")[0] == 110 && Lit("true")[0] == 116 && Lit("false")[0] == 102;
  }

  lemma ScalarBranch(t: Text)
    requires t != [] && t[0] !in {QUOTE, OPEN_BRACKET, OPEN_BRACE}
    ensures ReadValue(t) == ReadScalar(t)
  {
  }

  lemma ReadNumber(x: Number, rest: Text)
    requires Follows(rest)
    ensures ReadValue(Format(x) + rest) == Some((Num(x), rest))
  {
    var t := Format(x) + rest;
    FormatStart(x);
    ScanFormat(x, rest);
    assert t[0] == Format(x)[0];
    LiteralStart(t);
    ScalarBranch(t);
  }

  lemma ReadLiteral(l: Text, rest: Text)
    requires l in {Lit("null"), Lit("true"), Lit("false")}
    ensures ReadValue(l + rest) == Some((if l == Lit("null") then Null else Bool(l == Lit("true")), rest))
  {
    var t := l + rest;
    assert l <= t && t[|l|..] == rest;
    LiteralStart(l);
    LiteralStart(t);
    ScalarBranch(t);
  }

  lemma {:induction false} PrintFieldsMap(fields: seq<Entry<Json>>)
    ensures PrintFields(fields) == MapVals(Print, fields)
  {
    if fields != [] {
      PrintFieldsMap(fields[1..]);
    }
  }

  lemma PrintSorted(fields: seq<Entry<Json>>)
    ensures SortByKey(PrintFields(fields)) == PrintFields(SortByKey(fields))
  {
    PrintFieldsMap(fields);
    PrintFieldsMap(SortByKey(fields));
    SortMap(Print, fields);
  }

  lemma {:induction false} CanonFieldsMap(fields: seq<Entry<Json>>)
    ensures CanonFields(fields) == MapVals(Canon, fields)
  {
    if fields != [] {
      CanonFieldsMap(fields[1..]);
    }
  }

  lemma CanonSorted(fields: seq<Entry<Json>>)
    ensures SortByKey(CanonFields(fields)) == CanonFields(SortByKey(fields))
  {
    CanonFieldsMap(fields);
    CanonFieldsMap(SortByKey(fields));
    SortMap(Canon, fields);
  }

  lemma PrintStart(v: Json)
    ensures Print(v) != [] && Print(v)[0] != CLOSE_BRACKET
  {
    match v
    case Num(x) => FormatStart(x);
    case Null => assert Lit("null")[0] == 110;
    case Bool(b) => assert Lit("true")[0] == 116 && Lit("false")[0] == 102;
    case _ =>
  }

  lemma JoinStart(parts: seq<Text>)
    requires parts != [] && parts[0] != []
    ensures Join(parts) != [] && Join(parts)[0] == parts[0][0]
  {
  }

  /** The decoder undoes the printer, in front of any text that may follow a value. */
  lemma {:induction false} ReadPrint(v: Json, rest: Text)
    requires Follows(rest)
    ensures ReadValue(Print(v) + rest) == Some((Canon(v), rest))
    decreases v, 0
  {
    match v
    case Null => ReadLiteral(Lit("null"), rest);
    case Bool(_) =>
      LiteralStart(Print(v));
      ReadLiteral(Print(v), rest);
    case Num(x) => ReadNumber(x, rest);
    case Str(s) => ReadQuote(s, rest);
    case Arr(items) => ReadPrintArray(v, rest);
    case Obj(fields) => ReadPrintObject(v, rest);
  }

  lemma ReadArrayText(items: seq<Json>, more: Text, rest: Text)
    requires more != [] && more[0] != CLOSE_BRACKET && ReadItems(more) == Some((items, rest))
    ensures ReadValue([OPEN_BRACKET] + more) == Some((Arr(items), rest))
  {
    TailOfCons(OPEN_BRACKET, more);
  }

  lemma {:induction false} ReadPrintArray(v: Json, rest: Text)
    requires v.Arr? && Follows(rest)
    ensures ReadValue(Print(v) + rest) == Some((Canon(v), rest))
    decreases v, 0, |v.items| + 1
  {
    if v.items == [] {
      var t := [OPEN_BRACKET, CLOSE_BRACKET] + rest;
      assert Print(v) == [OPEN_BRACKET, CLOSE_BRACKET];
      assert t[2..] == rest;
    } else {
      var parts := PrintItems(v.items);
      var tail := [CLOSE_BRACKET] + rest;
      ReadPrintItems(v, v.items, rest);
      PrintStart(v.items[0]);
      JoinStart(parts);
      Assoc([OPEN_BRACKET] + Join(parts), [CLOSE_BRACKET], rest);
      Assoc([OPEN_BRACKET], Join(parts), tail);
      ReadArrayText(CanonItems(v.items), Join(parts) + tail, rest);
    }
  }

  lemma JoinStep(parts: seq<Text>, tail: Text)
    requires |parts| > 1
    ensures Join(parts) + tail == parts[0] + ([COMMA] + (Join(parts[1..]) + tail))
  {
    var more := Join(parts[1..]);
    Assoc(parts[0] + [COMMA], more, tail);
    Assoc(parts[0], [COMMA], more + tail);
  }

  lemma ReadItemsStep(v: Json, t: Text, more: Text)
    requires ReadValue(t) == Some((v, [COMMA] + more))
    ensures ReadItems(t) == match ReadItems(more) case Some((vs, rest)) => Some(([v] + vs, rest)) case None => None
  {
    assert ([COMMA] + more)[1..] == more;
  }

  lemma {:induction false} ReadPrintItems(parent: Json, items: seq<Json>, rest: Text)
    requires items != []
    requires forall i :: 0 <= i < |items| ==> items[i] < parent
    ensures ReadItems(Join(PrintItems(items)) + ([CLOSE_BRACKET] + rest)) == Some((CanonItems(items), rest))
    decreases parent, 0, |items|
  {
    var tail := [CLOSE_BRACKET] + rest;
    if |items| == 1 {
      ReadPrint(items[0], tail);
      assert Join(PrintItems(items)) == Print(items[0]);
      assert tail[1..] == rest;
      assert CanonItems(items) == [Canon(items[0])];
    } else {
      var more := Join(PrintItems(items[1..])) + tail;
      ReadPrintItems(parent, items[1..], rest);
      ReadPrint(items[0], [COMMA] + more);
      assert PrintItems(items)[1..] == PrintItems(items[1..]);
      JoinStep(PrintItems(items), tail);
      ReadItemsStep(Canon(items[0]), Print(items[0]) + ([COMMA] + more), more);
    }
  }

  lemma ReadObjectText(fields: seq<Entry<Json>>, more: Text, rest: Text)
    requires more != [] && more[0] == QUOTE && ReadFields(more) == Some((fields, rest))
    ensures ReadValue([OPEN_BRACE] + more) == Some((Obj(fields), rest))
  {
    assert ([OPEN_BRACE] + more)[1..] == more;
  }

  lemma {:induction false} ReadPrintObject(v: Json, rest: Text)
    requires v.Obj? && Follows(rest)
    ensures ReadValue(Print(v) + rest) == Some((Canon(v), rest))
    decreases v, 0, |v.fields| + 1
  {
    var es := SortByKey(v.fields);
    PrintSorted(v.fields);
    CanonSorted(v.fields);
    var parts := EntryTexts(PrintFields(es));
    if v.fields == [] {
      var t := [OPEN_BRACE, CLOSE_BRACE] + rest;
      assert Print(v) == [OPEN_BRACE, CLOSE_BRACE];
      assert t[2..] == rest;
    } else {
      var tail := [CLOSE_BRACE] + rest;
      SortElements(v.fields);
      forall i | 0 <= i < |es| ensures es[i].val < v {
        assert es[i] in es;
        assert es[i] in v.fields;
      }
      ReadPrintFields(v, es, rest);
      assert EntryText(PrintFields(es)[0])[0] == QUOTE;
      JoinStart(parts);
      Assoc([OPEN_BRACE] + Join(parts), [CLOSE_BRACE], rest);
      Assoc([OPEN_BRACE], Join(parts), tail);
      ReadObjectText(CanonFields(es), Join(parts) + tail, rest);
    }
  }

  /** One key-value pair, then a comma or the closing brace. */
  lemma ReadEntry(e: Entry<Json>, after: Text)
    requires after != [] && ReadValue(Print(e.val) + after) == Some((Canon(e.val), after))
    ensures ReadFields(EntryText(Entry(e.key, Print(e.val))) + after) ==
      var c := Entry(e.key, Canon(e.val));
      if after[0] == CLOSE_BRACE then Some(([c], after[1..]))
      else if after[0] == COMMA then
        match ReadFields(after[1..]) case Some((es, rest)) => Some(([c] + es, rest)) case None => None
      else None
  {
    var value := Print(e.val);
    var t := EntryText(Entry(e.key, value)) + after;
    var colon := [COLON] + (value + after);
    Assoc(Quote(e.key), [COLON], value);
    Assoc(Quote(e.key), [COLON] + value, after);
    Assoc([COLON], value, after);
    assert t == Quote(e.key) + colon;
    ReadQuote(e.key, colon);
    assert colon[1..] == value + after;
  }

  lemma {:induction false} ReadPrintFields(parent: Json, es: seq<Entry<Json>>, rest: Text)
    requires es != []
    requires forall i :: 0 <= i < |es| ==> es[i].val < parent
    ensures ReadFields(Join(EntryTexts(PrintFields(es))) + ([CLOSE_BRACE] + rest)) == Some((CanonFields(es), rest))
    decreases parent, 0, |es|
  {
    var tail := [CLOSE_BRACE] + rest;
    if |es| == 1 {
      assert PrintFields(es) == [Entry(es[0].key, Print(es[0].val))];
      assert Join(EntryTexts(PrintFields(es))) == EntryText(Entry(es[0].key, Print(es[0].val)));
      ReadPrint(es[0].val, tail);
      ReadEntry(es[0], tail);
      assert tail[1..] == rest;
      assert CanonFields(es) == [Entry(es[0].key, Canon(es[0].val))];
    } else {
      var more := Join(EntryTexts(PrintFields(es[1..]))) + tail;
      var after := [COMMA] + more;
      assert PrintFields(es)[1..] == PrintFields(es[1..]);
      assert EntryTexts(PrintFields(es))[1..] == EntryTexts(PrintFields(es[1..]));
      JoinStep(EntryTexts(PrintFields(es)), tail);
      ReadPrint(es[0].val, after);
      ReadEntry(es[0], after);
      ReadPrintFields(parent, es[1..], rest);
      assert after[1..] == more;
    }
  }

  // ---------------------------------------------------------------------- main results

  /** The decoder recovers every value from its text, with the keys in order. */
  lemma DecodePrint(v: Json)
    ensures Decode(Print(v)) == Some(Canon(v))
  {
    ReadPrint(v, []);
    assert Print(v) + [] == Print(v);
  }

  lemma {:induction false} PrintCanon(v: Json)
    requires WellKeyed(v)
    ensures Print(Canon(v)) == Print(v)
    decreases v, 0
  {
    match v
    case Arr(items) =>
      PrintCanonItems(v, items);
    case Obj(fields) =>
      PrintCanonFields(v, fields);
      var cs := CanonFields(fields);
      SortAscending(cs);
      SortSorted(SortByKey(cs));
      PrintSorted(cs);
      PrintSorted(SortByKey(cs));
    case _ =>
  }

  lemma {:induction false} PrintCanonItems(parent: Json, items: seq<Json>)
    requires forall i :: 0 <= i < |items| ==> items[i] < parent && WellKeyed(items[i])
    ensures PrintItems(CanonItems(items)) == PrintItems(items)
    decreases parent, 0, |items|
  {
    if items != [] {
      PrintCanon(items[0]);
      PrintCanonItems(parent, items[1..]);
    }
  }

  lemma {:induction false} PrintCanonFields(parent: Json, fields: seq<Entry<Json>>)
    requires forall i :: 0 <= i < |fields| ==> fields[i].val < parent && WellKeyed(fields[i].val)
    ensures PrintFields(CanonFields(fields)) == PrintFields(fields)
    decreases parent, 0, |fields|
  {
    if fields != [] {
      PrintCanon(fields[0].val);
      PrintCanonFields(parent, fields[1..]);
    }
  }

  lemma {:induction false} SameCanon(a: Json, b: Json)
    requires WellKeyed(a) && WellKeyed(b)
    ensures SameValue(a, b) <==> Canon(a) == Canon(b)
    decreases a
  {
    match (a, b)
    case (Arr(xs), Arr(ys)) =>
      if |xs| == |ys| {
        forall i | 0 <= i < |xs| ensures SameValue(xs[i], ys[i]) <==> Canon(xs[i]) == Canon(ys[i]) {
          SameCanon(xs[i], ys[i]);
        }
        assert (forall i :: 0 <= i < |xs| ==> CanonItems(xs)[i] == CanonItems(ys)[i]) <==> CanonItems(xs) == CanonItems(ys);
      }
    case (Obj(fs), Obj(gs)) =>
      forall i, j | 0 <= i < |fs| && 0 <= j < |gs|
        ensures SameValue(fs[i].val, gs[j].val) <==> Canon(fs[i].val) == Canon(gs[j].val)
      {
        SameCanon(fs[i].val, gs[j].val);
      }
      SameFields(fs, gs);
    case _ =>
  }

  ghost predicate CanonAgree(fs: seq<Entry<Json>>, gs: seq<Entry<Json>>) {
    forall i, j :: 0 <= i < |fs| && 0 <= j < |gs| && fs[i].key == gs[j].key ==> Canon(fs[i].val) == Canon(gs[j].val)
  }

  lemma SameFields(fs: seq<Entry<Json>>, gs: seq<Entry<Json>>)
    requires DistinctKeys(fs) && DistinctKeys(gs)
    ensures Keys(fs) == Keys(gs) && CanonAgree(fs, gs) <==> SortByKey(CanonFields(fs)) == SortByKey(CanonFields(gs))
  {
    var cs, ds := CanonFields(fs), CanonFields(gs);
    if Keys(fs) == Keys(gs) && CanonAgree(fs, gs) {
      AgreeMembers(fs, gs);
      AgreeMembers(gs, fs);
      SortForgetsOrder(cs, ds);
    }
    if SortByKey(cs) == SortByKey(ds) {
      SortElements(cs);
      SortElements(ds);
      MembersAgree(fs, gs);
      MembersAgree(gs, fs);
    }
  }

  lemma AgreeMembers(fs: seq<Entry<Json>>, gs: seq<Entry<Json>>)
    requires Keys(fs) <= Keys(gs)
    requires forall i, j :: 0 <= i < |fs| && 0 <= j < |gs| && fs[i].key == gs[j].key ==> Canon(fs[i].val) == Canon(gs[j].val)
    ensures forall e :: e in CanonFields(fs) ==> e in CanonFields(gs)
  {
    var cs, ds := CanonFields(fs), CanonFields(gs);
    forall i | 0 <= i < |fs| ensures cs[i] in ds {
      assert fs[i].key in Keys(fs);
      var j :| 0 <= j < |gs| && gs[j].key == fs[i].key;
      assert ds[j] == cs[i];
    }
  }

  lemma MembersAgree(fs: seq<Entry<Json>>, gs: seq<Entry<Json>>)
    requires DistinctKeys(gs)
    requires forall e :: e in CanonFields(fs) ==> e in CanonFields(gs)
    ensures Keys(fs) <= Keys(gs)
    ensures CanonAgree(fs, gs)
  {
    var cs, ds := CanonFields(fs), CanonFields(gs);
    forall i | 0 <= i < |fs|
      ensures fs[i].key in Keys(gs)
      ensures forall j :: 0 <= j < |gs| && fs[i].key == gs[j].key ==> Canon(fs[i].val) == Canon(gs[j].val)
    {
      assert cs[i] in cs;
      var k :| 0 <= k < |gs| && ds[k] == cs[i];
      assert gs[k].key == fs[i].key;
    }
  }

  /** Unique decodability: texts agree exactly when the values agree up to key order. */
  lemma PrintDistinguishes(a: Json, b: Json)
    requires WellKeyed(a) && WellKeyed(b)
    ensures Print(a) == Print(b) <==> SameValue(a, b)
  {
    DecodePrint(a);
    DecodePrint(b);
    PrintCanon(a);
    PrintCanon(b);
    SameCanon(a, b);
  }

  // ---------------------------------------------------------------------- UTF-8 safety

  predicate Plain(t: Text) {
    forall i :: 0 <= i < |t| ==> t[i] < 0xD800
  }

  lemma {:induction false} PlainWellFormed(t: Text)
    requires Plain(t)
    ensures WellFormed(t)
  {
    if t != [] {
      PlainWellFormed(t[1..]);
    }
  }

  lemma {:induction false} EscapeWellFormed(s: Text)
    ensures WellFormed(Escape(s))
    decreases |s|
  {
    if s == [] {
    } else if StartsPair(s) {
      EscapeWellFormed(s[2..]);
      assert s[..2][2..] == [];
      WellFormedConcat(s[..2], Escape(s[2..]));
    } else {
      EscapeWellFormed(s[1..]);
      assert WellFormed(EscapeUnit(s[0])) by {
        if Plain(EscapeUnit(s[0])) {
          PlainWellFormed(EscapeUnit(s[0]));
        } else {
          assert EscapeUnit(s[0])[1..] == [];
        }
      }
      WellFormedConcat(EscapeUnit(s[0]), Escape(s[1..]));
    }
  }

  lemma Enclosed(open: CodeUnit, t: Text, close: CodeUnit)
    requires open < 0xD800 && close < 0xD800 && WellFormed(t)
    ensures WellFormed([open] + t + [close])
  {
    PlainWellFormed([open]);
    PlainWellFormed([close]);
    WellFormedConcat([open], t);
    WellFormedConcat([open] + t, [close]);
  }

  lemma {:induction false} JoinWellFormed(parts: seq<Text>)
    requires forall i :: 0 <= i < |parts| ==> WellFormed(parts[i])
    ensures WellFormed(Join(parts))
  {
    if |parts| > 1 {
      JoinWellFormed(parts[1..]);
      PlainWellFormed([COMMA]);
      WellFormedConcat(parts[0], [COMMA]);
      WellFormedConcat(parts[0] + [COMMA], Join(parts[1..]));
    }
  }

  lemma EntryWellFormed(e: Entry<Text>)
    requires WellFormed(e.val)
    ensures WellFormed(EntryText(e))
  {
    EscapeWellFormed(e.key);
    Enclosed(QUOTE, Escape(e.key), QUOTE);
    PlainWellFormed([COLON]);
    WellFormedConcat(Quote(e.key), [COLON]);
    WellFormedConcat(Quote(e.key) + [COLON], e.val);
  }

  lemma {:induction false} EntriesWellFormed(es: seq<Entry<Text>>)
    requires forall i :: 0 <= i < |es| ==> WellFormed(es[i].val)
    ensures forall i :: 0 <= i < |es| ==> WellFormed(EntryTexts(es)[i])
  {
    if es != [] {
      EntryWellFormed(es[0]);
      EntriesWellFormed(es[1..]);
    }
  }

  lemma {:induction false} PrintItemsAre(items: seq<Json>)
    ensures forall i :: 0 <= i < |items| ==> PrintItems(items)[i] == Print(items[i])
  {
    if items != [] {
      PrintItemsAre(items[1..]);
    }
  }

  lemma ObjectWellFormed(fields: seq<Entry<Json>>)
    requires forall i :: 0 <= i < |fields| ==> WellFormed(Print(fields[i].val))
    ensures WellFormed(Print(Obj(fields)))
  {
    PrintFieldsMap(fields);
    var ps := PrintFields(fields);
    var es := SortByKey(ps);
    SortElements(ps);
    forall i | 0 <= i < |es| ensures WellFormed(es[i].val) {
      assert es[i] in multiset(es);
      assert es[i] in ps;
    }
    EntriesWellFormed(es);
    JoinWellFormed(EntryTexts(es));
    Enclosed(OPEN_BRACE, Join(EntryTexts(es)), CLOSE_BRACE);
  }

  lemma RenderPlain(d: Decimal)
    ensures Plain(Render(d))
  {
    assert Plain(DigitText(d.whole)) && Plain(FracText(d.frac)) && Plain(PowerText(d.power));
  }

  /**
   * The printed text holds no lone surrogate, so its UTF-8 encoding, which is what SHA-256
   * reads, determines it.
   */
  lemma {:induction false} PrintWellFormed(v: Json)
    ensures WellFormed(Print(v))
    decreases v
  {
    match v
    case Str(s) =>
      EscapeWellFormed(s);
      Enclosed(QUOTE, Escape(s), QUOTE);
    case Arr(items) =>
      forall i | 0 <= i < |items| ensures WellFormed(Print(items[i])) {
        PrintWellFormed(items[i]);
      }
      PrintItemsAre(items);
      JoinWellFormed(PrintItems(items));
      Enclosed(OPEN_BRACKET, Join(PrintItems(items)), CLOSE_BRACKET);
    case Obj(fields) =>
      forall i | 0 <= i < |fields| ensures WellFormed(Print(fields[i].val)) {
        PrintWellFormed(fields[i].val);
      }
      ObjectWellFormed(fields);
    case Num(x) =>
      RenderPlain(Layout(x));
      PlainWellFormed(Format(x));
    case _ => PlainWellFormed(Print(v));
  }
}
