/**
 * The canonical text written out once more, with every character given literally: the JSON
 * grammar (RFC 8259, sections 2 to 7) without white space, strings as QuoteJSONString and
 * numbers as Number::toString write them (ECMA-262 sections 25.5.2.3 and 6.1.6.1.20), and the
 * members of an object in code-unit order of their names. The printer writes just that text.
 */
module JsonGrammar {
  import opened Utf16
  import opened Wrappers
  import opened Entries
  import opened EcmaNumber
  import opened CanonicalJson
  import opened CanonicalJsonProofs

  // ---------------------------------------------------------------------- strings

  /** The hexadecimal digit a code unit shows: 0 to 9, or a to f. */
  predicate ShowsHex(u: int, d: int) {
    (48 <= u <= 57 && d == u - 48) || (97 <= u <= 102 && d == u - 87)
  }

  /** Four hexadecimal digits that show the code unit c. */
  ghost predicate HexOf(t: Text, c: int) {
    && |t| == 4
    && exists d0, d1, d2, d3 ::
         ShowsHex(t[0], d0) && ShowsHex(t[1], d1) && ShowsHex(t[2], d2) && ShowsHex(t[3], d3)
         && c == 4096 * d0 + 256 * d1 + 16 * d2 + d3
  }

  /** What stands in a string for a code unit that is no part of a surrogate pair. */
  ghost predicate WritesUnit(t: Text, c: int) {
    if c == 8 then t == [92, 98]
    else if c == 9 then t == [92, 116]
    else if c == 10 then t == [92, 110]
    else if c == 12 then t == [92, 102]
    else if c == 13 then t == [92, 114]
    else if c == 34 then t == [92, 34]
    else if c == 92 then t == [92, 92]
    else if c < 32 || 0xD800 <= c <= 0xDFFF then |t| == 6 && t[..2] == [92, 117] && HexOf(t[2..], c)
    else t == [c]
  }

  ghost predicate WritesBody(t: Text, s: Text)
    decreases |s|
  {
    if s == [] then t == []
    else if |s| > 1 && 0xD800 <= s[0] <= 0xDBFF && 0xDC00 <= s[1] <= 0xDFFF then
      |t| >= 2 && t[..2] == s[..2] && WritesBody(t[2..], s[2..])
    else exists n :: 0 <= n <= |t| && WritesUnit(t[..n], s[0]) && WritesBody(t[n..], s[1..])
  }

  ghost predicate WritesString(t: Text, s: Text) {
    |t| >= 2 && t[0] == 34 && t[|t| - 1] == 34 && WritesBody(t[1..|t| - 1], s)
  }

  // ---------------------------------------------------------------------- numbers

  /** Digits and nothing else, without a leading zero, that show n. */
  ghost predicate WritesNat(t: Text, n: nat) {
    exists ds: seq<Digit> :: WritesDigits(t, ds) && ds != [] && (|ds| > 1 ==> ds[0] != 0) && NatOf(ds) == n
  }

  predicate WritesDigits(t: Text, ds: seq<Digit>) {
    |t| == |ds| && forall i :: 0 <= i < |t| ==> t[i] as int == 48 + ds[i] as int
  }

  predicate ZerosText(t: Text) {
    forall i :: 0 <= i < |t| ==> t[i] == 48
  }

  /** An unsigned number with digits ds and decimal point after the n-th of them. */
  ghost predicate WritesUnsigned(t: Text, ds: seq<Digit>, n: int) {
    var k := |ds|;
    if k <= n <= 21 then |t| == n && WritesDigits(t[..k], ds) && ZerosText(t[k..])
    else if 0 < n <= 21 then |t| == k + 1 && WritesDigits(t[..n], ds[..n]) && t[n] == 46 && WritesDigits(t[n + 1..], ds[n..])
    else if -6 < n <= 0 then
      |t| == 2 - n + k && t[0] == 48 && t[1] == 46 && ZerosText(t[2..2 - n]) && WritesDigits(t[2 - n..], ds)
    else exists m :: 0 <= m <= |t| && WritesFirst(t[..m], ds) && WritesPower(t[m..], n - 1)
  }

  /** One digit, then a point and the others if there are any. */
  predicate WritesFirst(t: Text, ds: seq<Digit>) {
    && ds != []
    && if |ds| == 1 then WritesDigits(t, ds)
       else |t| == |ds| + 1 && WritesDigits(t[..1], ds[..1]) && t[1] == 46 && WritesDigits(t[2..], ds[1..])
  }

  /** The letter e, a sign, and the exponent. */
  ghost predicate WritesPower(t: Text, e: int) {
    |t| >= 2 && t[0] == 101 && t[1] == (if e < 0 then 45 else 43) && WritesNat(t[2..], if e < 0 then -e else e)
  }

  ghost predicate WritesNumber(t: Text, x: Number) {
    match x
    case Zero => t == [48]
    case Shortest(neg, ds, n) => if neg then t != [] && t[0] == 45 && WritesUnsigned(t[1..], ds, n) else WritesUnsigned(t, ds, n)
  }

  // ---------------------------------------------------------------------- values

  /** Parts with a comma between any two. */
  function Commas(parts: seq<Text>): Text {
    if parts == [] then []
    else if |parts| == 1 then parts[0]
    else parts[0] + [44] + Commas(parts[1..])
  }

  /** Every name comes before the names after it. */
  ghost predicate InNameOrder(es: seq<Entry<Json>>) {
    forall i, j :: 0 <= i < j < |es| ==> Before(es[i].key, es[j].key)
  }

  /** A name, a colon and a value text. */
  ghost predicate WritesMember(t: Text, name: Text, value: Text) {
    exists q :: WritesString(q, name) && t == q + [58] + value
  }

  ghost predicate Writes(t: Text, v: Json)
    decreases v, 1
  {
    match v
    case Null => t == [110, 117, 108, 108]
    case Bool(b) => t == if b then [116, 114, 117, 101] else [102, 97, 108, 115, 101]
    case Num(x) => WritesNumber(t, x)
    case Str(s) => WritesString(t, s)
    case Arr(items) => exists parts :: WritesItems(parts, items) && t == [91] + Commas(parts) + [93]
    case Obj(fields) =>
      exists es, parts :: multiset(es) == multiset(fields) && InNameOrder(es) && WritesFields(parts, es, v) && t == [123] + Commas(parts) + [125]
  }

  ghost predicate WritesItems(parts: seq<Text>, items: seq<Json>)
    decreases items, 0
  {
    |parts| == |items| && forall i :: 0 <= i < |items| ==> Writes(parts[i], items[i])
  }

  ghost predicate WritesFields(parts: seq<Text>, es: seq<Entry<Json>>, parent: Json)
    requires parent.Obj?
    decreases parent, 0
  {
    && |parts| == |es|
    && forall i :: 0 <= i < |es| ==> es[i] in parent.fields && exists value :: Writes(value, es[i].val) && WritesMember(parts[i], es[i].key, value)
  }

  // ---------------------------------------------------------------------- the printer writes it

  lemma HexWritten(c: CodeUnit)
    ensures HexOf(UnicodeEscape(c)[2..], c)
  {
    HexDigits(c);
    var t := UnicodeEscape(c)[2..];
    assert ShowsHex(t[0], c / 4096) && ShowsHex(t[1], c / 256 % 16) && ShowsHex(t[2], c / 16 % 16) && ShowsHex(t[3], c % 16);
  }

  lemma UnitWritten(c: CodeUnit)
    ensures WritesUnit(EscapeUnit(c), c)
  {
    if ShortEscape(c).None? && (c < 32 || IsHigh(c) || IsLow(c)) {
      HexWritten(c);
    }
  }

  lemma {:induction false} BodyWritten(s: Text)
    ensures WritesBody(Escape(s), s)
    decreases |s|
  {
    if s == [] {
    } else if StartsPair(s) {
      BodyWritten(s[2..]);
      assert Escape(s)[..2] == s[..2] && Escape(s)[2..] == Escape(s[2..]);
    } else {
      UnitWritten(s[0]);
      BodyWritten(s[1..]);
      var n := |EscapeUnit(s[0])|;
      assert Escape(s)[..n] == EscapeUnit(s[0]) && Escape(s)[n..] == Escape(s[1..]);
    }
  }

  lemma StringWritten(s: Text)
    ensures WritesString(Quote(s), s)
  {
    BodyWritten(s);
    assert Quote(s)[1..|Quote(s)| - 1] == Escape(s);
  }

  lemma PowerWritten(e: int)
    ensures WritesPower(PowerText(Some(e)), e)
  {
    var m := if e < 0 then -e else e;
    NatOfNatDigits(m);
    NoLeadingZero(m);
    var t := PowerText(Some(e));
    assert t[2..] == DigitText(NatDigits(m));
    assert WritesDigits(t[2..], NatDigits(m));
  }

  lemma {:induction false} NoLeadingZero(n: nat)
    ensures |NatDigits(n)| > 1 ==> NatDigits(n)[0] != 0
  {
  }

  /** A number without an exponent. */
  function PlainText(d: Decimal): Text {
    DigitText(d.whole) + FracText(d.frac)
  }

  lemma PointAt(ds: seq<Digit>, n: nat)
    requires 0 < n < |ds|
    ensures var t := DigitText(ds[..n]) + FracText(ds[n..]);
      |t| == |ds| + 1 && WritesDigits(t[..n], ds[..n]) && t[n] == 46 && WritesDigits(t[n + 1..], ds[n..])
  {
    var t := DigitText(ds[..n]) + ([DOT] + DigitText(ds[n..]));
    assert t[..n] == DigitText(ds[..n]) && t[n + 1..] == DigitText(ds[n..]);
  }

  lemma WholeWritten(ds: seq<Digit>, n: nat)
    requires |ds| <= n
    ensures var t := DigitText(ds + Zeros(n - |ds|)); |t| == n && WritesDigits(t[..|ds|], ds) && ZerosText(t[|ds|..])
  {
  }

  lemma FractionWritten(ds: seq<Digit>, z: nat)
    requires ds != []
    ensures var t := DigitText([0]) + FracText(Zeros(z) + ds);
      |t| == 2 + z + |ds| && t[0] == 48 && t[1] == 46 && ZerosText(t[2..2 + z]) && WritesDigits(t[2 + z..], ds)
  {
    var t := DigitText([0]) + ([DOT] + DigitText(Zeros(z) + ds));
    assert t[2..] == DigitText(Zeros(z) + ds);
    assert t[2..2 + z] == t[2..][..z] && t[2 + z..] == t[2..][z..];
  }

  lemma FirstWritten(ds: seq<Digit>)
    requires ds != []
    ensures WritesFirst(DigitText(ds[..1]) + FracText(ds[1..]), ds)
  {
    if |ds| > 1 {
      PointAt(ds, 1);
    } else {
      assert ds[..1] == ds && DigitText(ds) + [] == DigitText(ds);
    }
  }

  lemma NoPower(t: Text)
    ensures t + PowerText(None) == t
  {
  }

  lemma ScientificWritten(ds: seq<Digit>, n: int)
    requires ds != [] && (n > 21 || n <= -6)
    ensures WritesUnsigned(DigitText(ds[..1]) + FracText(ds[1..]) + PowerText(Some(n - 1)), ds, n)
  {
    hide WritesFirst, WritesPower, PowerText, DigitText, FracText;
    var p := DigitText(ds[..1]) + FracText(ds[1..]);
    var t := p + PowerText(Some(n - 1));
    FirstWritten(ds);
    PowerWritten(n - 1);
    assert t[..|p|] == p && t[|p|..] == PowerText(Some(n - 1));
  }

  lemma PlainWritten(ds: seq<Digit>, n: int)
    requires ds != [] && -6 < n <= 21
    ensures |ds| <= n ==> WritesUnsigned(DigitText(ds + Zeros(n - |ds|)), ds, n)
    ensures 0 < n < |ds| ==> WritesUnsigned(DigitText(ds[..n]) + FracText(ds[n..]), ds, n)
    ensures n <= 0 ==> WritesUnsigned(DigitText([0]) + FracText(Zeros(-n) + ds), ds, n)
  {
    hide WritesDigits, ZerosText, DigitText, FracText;
    if |ds| <= n {
      WholeWritten(ds, n);
    } else if 0 < n {
      PointAt(ds, n);
    } else {
      FractionWritten(ds, -n);
    }
  }

  /** What stands after the sign of a number. */
  function UnsignedText(ds: seq<Digit>, n: int): Text
    requires ds != []
  {
    if |ds| <= n <= 21 then DigitText(ds + Zeros(n - |ds|))
    else if 0 < n <= 21 then DigitText(ds[..n]) + FracText(ds[n..])
    else if -6 < n <= 0 then DigitText([0]) + FracText(Zeros(-n) + ds)
    else DigitText(ds[..1]) + FracText(ds[1..]) + PowerText(Some(n - 1))
  }

  lemma LayoutText(x: Number)
    requires x.Shortest?
    ensures PlainText(Layout(x)) + PowerText(Layout(x).power) == UnsignedText(x.digits, x.exponent)
  {
    hide DigitText;
    NoPower(PlainText(Layout(x)));
    var ds, n := x.digits, x.exponent;
    if |ds| <= n <= 21 {
      Assoc(DigitText(ds + Zeros(n - |ds|)), [], []);
    }
  }

  lemma UnsignedWritten(ds: seq<Digit>, n: int)
    requires ds != []
    ensures WritesUnsigned(UnsignedText(ds, n), ds, n)
  {
    hide WritesUnsigned;
    if -6 < n <= 21 {
      PlainWritten(ds, n);
    } else {
      ScientificWritten(ds, n);
    }
  }

  lemma NumberWritten(x: Number)
    ensures WritesNumber(Format(x), x)
  {
    var d := Layout(x);
    var t := PlainText(d) + PowerText(d.power);
    Assoc(if d.neg then [MINUS] else [], DigitText(d.whole), FracText(d.frac));
    Assoc(if d.neg then [MINUS] else [], PlainText(d), PowerText(d.power));
    assert Format(x) == (if d.neg then [MINUS] else []) + t;
    if x.Shortest? {
      LayoutText(x);
      UnsignedWritten(x.digits, x.exponent);
      if d.neg {
        assert Format(x)[1..] == t;
      } else {
        assert Format(x) == t;
      }
    } else {
      assert Format(x) == DigitText([0]);
    }
  }

  lemma {:induction false} CommasJoin(parts: seq<Text>)
    ensures Commas(parts) == Join(parts)
  {
    if |parts| > 1 {
      CommasJoin(parts[1..]);
    }
  }

  /** The printed text of a value is its text in the grammar. */
  lemma {:induction false} PrintWrites(v: Json)
    requires WellKeyed(v)
    ensures Writes(Print(v), v)
    decreases v
  {
    match v
    case Num(x) => NumberWritten(x);
    case Str(s) => StringWritten(s);
    case Arr(items) =>
      forall i | 0 <= i < |items| ensures Writes(PrintItems(items)[i], items[i]) {
        PrintItemsAre(items);
        PrintWrites(items[i]);
      }
      CommasJoin(PrintItems(items));
      assert WritesItems(PrintItems(items), items);
    case Obj(fields) =>
      forall i | 0 <= i < |fields| ensures Writes(Print(fields[i].val), fields[i].val) {
        PrintWrites(fields[i].val);
      }
      ObjectWrites(v);
    case _ =>
  }

  lemma SortedMembers(v: Json)
    requires v.Obj? && WellKeyed(v)
    ensures multiset(SortByKey(v.fields)) == multiset(v.fields) && InNameOrder(SortByKey(v.fields))
    ensures forall i :: 0 <= i < |v.fields| ==> SortByKey(v.fields)[i] in v.fields
  {
    var es := SortByKey(v.fields);
    SortElements(v.fields);
    SortAscending(v.fields);
    forall i, j | 0 <= i < j < |es| ensures Before(es[i].key, es[j].key) {
      LessIsBefore(es[i].key, es[j].key);
    }
    forall i | 0 <= i < |es| ensures es[i] in v.fields {
      assert es[i] in multiset(es);
    }
  }

  lemma ObjectWrites(v: Json)
    requires v.Obj? && WellKeyed(v) && forall i :: 0 <= i < |v.fields| ==> Writes(Print(v.fields[i].val), v.fields[i].val)
    ensures Writes(Print(v), v)
  {
    var es := SortByKey(v.fields);
    SortedMembers(v);
    PrintSorted(v.fields);
    PrintFieldsMap(es);
    var parts := EntryTexts(PrintFields(es));
    EntryTextsAre(PrintFields(es));
    forall i | 0 <= i < |es|
      ensures es[i] in v.fields && exists value :: Writes(value, es[i].val) && WritesMember(parts[i], es[i].key, value)
    {
      var k :| 0 <= k < |v.fields| && v.fields[k] == es[i];
      StringWritten(es[i].key);
      var value := Print(es[i].val);
      assert parts[i] == Quote(es[i].key) + [58] + value;
      assert Writes(value, es[i].val) && WritesMember(parts[i], es[i].key, value);
    }
    CommasJoin(parts);
    assert WritesFields(parts, es, v);
  }

  lemma {:induction false} EntryTextsAre(es: seq<Entry<Text>>)
    ensures forall i :: 0 <= i < |es| ==> EntryTexts(es)[i] == EntryText(es[i])
  {
    if es != [] {
      EntryTextsAre(es[1..]);
    }
  }

  // ---------------------------------------------------------------------- key order

  /** At every depth, the names of an object come in code-unit order. */
  ghost predicate NamesAscend(v: Json) {
    match v
    case Arr(items) => forall i :: 0 <= i < |items| ==> NamesAscend(items[i])
    case Obj(fields) => InNameOrder(fields) && forall i :: 0 <= i < |fields| ==> NamesAscend(fields[i].val)
    case _ => true
  }

  lemma {:induction false} CanonAscends(v: Json)
    requires WellKeyed(v)
    ensures NamesAscend(Canon(v))
    decreases v
  {
    match v
    case Arr(items) =>
      forall i | 0 <= i < |items| ensures NamesAscend(Canon(items[i])) {
        CanonAscends(items[i]);
      }
    case Obj(fields) =>
      var cs := CanonFields(fields);
      var es := SortByKey(cs);
      forall i | 0 <= i < |fields| ensures NamesAscend(cs[i].val) {
        CanonAscends(fields[i].val);
      }
      SortAscending(cs);
      SortElements(cs);
      forall i, j | 0 <= i < j < |es| ensures Before(es[i].key, es[j].key) {
        LessIsBefore(es[i].key, es[j].key);
      }
      forall i | 0 <= i < |es| ensures NamesAscend(es[i].val) {
        assert es[i] in multiset(es);
        assert es[i] in cs;
      }
    case _ =>
  }

  /** Whatever is decoded from a printed text has its names in code-unit order at every depth. */
  lemma DecodedAscends(v: Json)
    requires WellKeyed(v)
    ensures Decode(Print(v)).Some? && NamesAscend(Decode(Print(v)).value)
  {
    DecodePrint(v);
    CanonAscends(v);
  }

  // ---------------------------------------------------------------------- objects with plain names

  /** Printable ASCII without quotes and backslashes. */
  predicate PlainName(name: string) {
    forall i :: 0 <= i < |name| ==> ' ' <= name[i] <= '~' && name[i] != '"' && name[i] != '\\'
  }

  /** A plain name in quotes, a colon and a value text. */
  function Member(name: string, value: Text): Text {
    [34] + Lit(name) + [34, 58] + value
  }

  /** An opening brace, the members with commas between them, a closing brace. */
  function Braced(members: seq<Text>): Text {
    [123] + Commas(members) + [125]
  }

  lemma {:induction false} PlainEscape(t: Text)
    requires forall i :: 0 <= i < |t| ==> 32 <= t[i] < 127 && t[i] != 34 && t[i] != 92
    ensures Escape(t) == t
  {
    if t != [] {
      PlainEscape(t[1..]);
      assert EscapeUnit(t[0]) == [t[0]];
      assert t == [t[0]] + t[1..];
    }
  }

  lemma MemberWritten(name: string, value: Text)
    requires PlainName(name)
    ensures EntryText(Entry(Lit(name), value)) == Member(name, value)
  {
    PlainEscape(Lit(name));
    assert [34, 58] == [34] + [58];
  }

  /** Names that first differ in their k-th character. */
  lemma NamesOrdered(a: string, b: string, k: nat)
    requires k < |a| && k < |b| && a[..k] == b[..k] && a[k] < b[k] && PlainName(a) && PlainName(b)
    ensures Less(Lit(a), Lit(b))
  {
    LessIsBefore(Lit(a), Lit(b));
    forall i | 0 <= i < k ensures Lit(a)[i] == Lit(b)[i] {
      assert a[i] == a[..k][i] && b[i] == b[..k][i];
    }
    assert Lit(a)[..k] == Lit(b)[..k];
  }

  /** The members with those names and values. */
  function MemberTexts(names: seq<string>, values: seq<Json>): (ms: seq<Text>)
    requires |names| == |values|
    ensures |ms| == |names| && forall i :: 0 <= i < |ms| ==> ms[i] == Member(names[i], Print(values[i]))
  {
    seq(|names|, i requires 0 <= i < |names| => Member(names[i], Print(values[i])))
  }

  lemma EntryTextsMembers(es: seq<Entry<Json>>, names: seq<string>)
    requires |names| == |es| && forall i :: 0 <= i < |names| ==> PlainName(names[i]) && es[i].key == Lit(names[i])
    ensures EntryTexts(PrintFields(es)) == MemberTexts(names, Values(es))
  {
    EntryTextsAre(PrintFields(es));
    PrintFieldsMap(es);
    forall i | 0 <= i < |es| ensures EntryTexts(PrintFields(es))[i] == Member(names[i], Print(es[i].val)) {
      MemberWritten(names[i], Print(es[i].val));
    }
  }

  function Values(es: seq<Entry<Json>>): (vs: seq<Json>)
    ensures |vs| == |es| && forall i :: 0 <= i < |vs| ==> vs[i] == es[i].val
  {
    seq(|es|, i requires 0 <= i < |es| => es[i].val)
  }

  lemma ObjectPrinted(fields: seq<Entry<Json>>)
    ensures Print(Obj(fields)) == [123] + Join(EntryTexts(SortByKey(PrintFields(fields)))) + [125]
  {
  }

  /** Fields with plain names are printed one after the other, in ascending order. */
  lemma ObjectText(fields: seq<Entry<Json>>, sorted: seq<Entry<Json>>, names: seq<string>)
    requires DistinctKeys(fields) && Ascending(sorted) && |names| == |sorted|
    requires forall e :: e in fields <==> e in sorted
    requires forall i :: 0 <= i < |names| ==> PlainName(names[i]) && sorted[i].key == Lit(names[i])
    ensures Print(Obj(fields)) == Braced(MemberTexts(names, Values(sorted)))
  {
    hide Print, EntryTexts, MemberTexts, PlainName, Less;
    AscendingDistinct(sorted);
    SortForgetsOrder(fields, sorted);
    SortSorted(sorted);
    PrintSorted(fields);
    EntryTextsMembers(sorted, names);
    CommasJoin(EntryTexts(PrintFields(sorted)));
    ObjectPrinted(fields);
  }
}
