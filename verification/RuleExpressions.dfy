/**
 * Compiled rule expressions and their evaluator: field lookup, the verdict of each expression
 * type, diagnostics, and the inputs recorded with a result.
 */
module RuleExpressions {
  import opened Wrappers
  import opened Strings

  /**
   * Values of a decision context, and what looking a name up in one can find besides: a built-in
   * method, or the built-in object that plain objects inherit their methods from.
   */
  datatype Value =
    | VFunction
    | VPrototype
    | VUndefined
    | VNull
    | VBool(b: bool)
    | VNum(n: real)
    | VStr(s: string)
    | VArr(items: seq<Value>)
    | VObj(fields: map<string, Value>)

  type Context = map<string, Value>

  /** The built-in prototypes. */
  datatype Kind = OfObject | OfArray | OfString | OfNumber | OfBool | OfFunction

  /**
   * Library behaviour that is not modelled further: letter case, dates, regular expressions, the
   * names of inherited methods, rounded arithmetic, and the hash of an expression, None when
   * hashing it throws.
   */
  datatype Lib = Lib(
    lower: string -> string,
    upper: string -> string,
    parseDate: string -> Option<int>,
    isoDate: int -> Option<string>,
    regexTest: (string, string, string) -> Option<bool>,
    inherits: (Kind, string) -> bool,
    add: (real, real) -> real,
    half: real -> real,
    hash: Expression -> Option<string>)

  datatype Operator = Gt | Gte | Lt | Lte | Eq | Neq

  datatype Expression =
    | Threshold(field: string, op: Operator, value: real)
    | Range(field: string, min: real, max: real, inclusive: bool)
    | EnumMatch(field: string, allowed: seq<string>)
    | StringMatch(field: string, pattern: string, caseSensitive: bool)
    | BooleanRequired(field: string, required: bool)
    | FieldPresence(fields: seq<string>, allRequired: bool)
    | SanctionsMatch(field: string, lists: seq<string>)
    | RegexMatch(field: string, pattern: string, flags: Option<string>)
    | DateRange(field: string, after: Option<string>, before: Option<string>)
    | AmountLimit(field: string, maxAmount: real, currency: Option<string>)
    | CountLimit(field: string, maxCount: real)
    | RoleRequired(field: string, roles: seq<string>, anyOf: bool)
    | JurisdictionMatch(field: string, allowed: seq<string>)
    | ListMembership(field: string, listId: string, mustBePresent: bool)
    | CompositeAnd(rules: seq<Expression>)
    | CompositeOr(rules: seq<Expression>)

  /** The name that every object inherits as an accessor of its prototype. */
  const PROTO := "__proto__"

  const SANCTIONS_DATA := "_sanctionsData"
  const LIST_DATA := "_listData"

  function CurrencyField(field: string): string {
    field + "_currency"
  }

  // ---------------------------------------------------------------------- values

  predicate Truthy(v: Value) {
    match v
    case VUndefined => false
    case VNull => false
    case VBool(b) => b
    case VNum(n) => n != 0.0
    case VStr(s) => s != ""
    case _ => true
  }

  predicate Given(s: Option<string>) {
    s.Some? && s.value != ""
  }

  /** The number a canonical array-index text denotes. */
  function ArrayIndex(p: string): Option<nat> {
    if p == "" || (|p| > 1 && p[0] == '0') || exists i :: 0 <= i < |p| && !('0' <= p[i] <= '9') then None
    else Some(Digits(p))
  }

  function Digits(p: string): nat
    requires forall i :: 0 <= i < |p| ==> '0' <= p[i] <= '9'
  {
    if p == "" then 0 else 10 * Digits(p[..|p| - 1]) + (p[|p| - 1] as int - '0' as int)
  }

  function Inherited(lib: Lib, kind: Kind, p: string): Value {
    if p == PROTO then VPrototype else if lib.inherits(kind, p) then VFunction else VUndefined
  }

  /** Own properties first: fields of objects, length and elements of arrays and strings. */
  function Property(lib: Lib, v: Value, p: string): Value {
    match v
    case VObj(fields) => if p in fields then fields[p] else Inherited(lib, OfObject, p)
    case VArr(items) =>
      if p == "length" then VNum(|items| as real)
      else (match ArrayIndex(p)
            case Some(i) => if i < |items| then items[i] else Inherited(lib, OfArray, p)
            case None => Inherited(lib, OfArray, p))
    case VStr(s) =>
      if p == "length" then VNum(|s| as real)
      else (match ArrayIndex(p)
            case Some(i) => if i < |s| then VStr([s[i]]) else Inherited(lib, OfString, p)
            case None => Inherited(lib, OfString, p))
    case VNum(_) => Inherited(lib, OfNumber, p)
    case VBool(_) => Inherited(lib, OfBool, p)
    case VFunction => Inherited(lib, OfFunction, p)
    case VPrototype => if p == PROTO then VNull else Inherited(lib, OfObject, p)
    case _ => VUndefined
  }

  predicate IsObject(v: Value) {
    v.VObj? || v.VArr? || v.VPrototype?
  }

  function Descend(lib: Lib, v: Value, parts: seq<string>): Value
    decreases parts
  {
    if parts == [] then v
    else if !IsObject(v) then VUndefined
    else Descend(lib, Property(lib, v, parts[0]), parts[1..])
  }

  /** The value a dotted path denotes. */
  function FieldValue(lib: Lib, ctx: Context, field: string): Value {
    Descend(lib, VObj(ctx), Split(field, '.'))
  }

  method GetFieldValue(lib: Lib, ctx: Context, field: string) returns (current: Value)
    ensures current == FieldValue(lib, ctx, field)
  {
    var parts := Split(field, '.');
    current := VObj(ctx);
    var i := 0;
    while i < |parts|
      invariant 0 <= i <= |parts|
      invariant Descend(lib, current, parts[i..]) == FieldValue(lib, ctx, field)
    {
      if !IsObject(current) {
        return VUndefined;
      }
      current := Property(lib, current, parts[i]);
      i := i + 1;
    }
  }

  // ---------------------------------------------------------------------- what a path finds

  lemma {:induction false} IndexRead(i: nat)
    ensures ArrayIndex(Decimal(i)) == Some(i)
  {
    var t := Decimal(i);
    if i < 10 {
      assert t == ['0' + i as char] && Digits(t[..0]) == 0;
      assert t[0] as int - '0' as int == i;
    } else {
      IndexRead(i / 10);
      assert t[..|t| - 1] == Decimal(i / 10);
    }
  }

  lemma NotLength(i: nat)
    ensures Decimal(i) != "length"
  {
    assert "length"[0] == 'l';
  }

  lemma {:induction false} IndexText(p: string)
    requires ArrayIndex(p).Some?
    ensures Decimal(ArrayIndex(p).value) == p
    decreases |p|
  {
    var n := |p| - 1;
    assert p == p[..n] + [p[n]];
    if n > 0 {
      LeadingDigit(p);
      assert ArrayIndex(p[..n]) == Some(Digits(p[..n]));
      IndexText(p[..n]);
    }
  }

  lemma {:induction false} LeadingDigit(p: string)
    requires p != "" && p[0] != '0' && forall i :: 0 <= i < |p| ==> '0' <= p[i] <= '9'
    ensures Digits(p) >= 1 && (|p| > 1 ==> Digits(p) >= 10 && Digits(p[..|p| - 1]) >= 1)
  {
    if |p| > 1 {
      LeadingDigit(p[..|p| - 1]);
    } else {
      assert p[..0] == "";
    }
  }

  /** The text under which element i of a list or a text is found, or the name of its length. */
  ghost predicate ElementName(p: string, size: nat) {
    p == "length" || exists i: nat :: i < size && p == Decimal(i)
  }

  ghost predicate Owns(v: Value, p: string) {
    || (v.VObj? && p in v.fields) || (v.VPrototype? && p == "__proto__")
    || (v.VArr? && ElementName(p, |v.items|)) || (v.VStr? && ElementName(p, |v.s|))
  }

  /** Where a name is looked up that the value itself does not have. */
  ghost predicate KindOf(v: Value, kind: Kind) {
    match kind
    case OfObject => v.VObj? || v.VPrototype?
    case OfArray => v.VArr?
    case OfString => v.VStr?
    case OfNumber => v.VNum?
    case OfBool => v.VBool?
    case OfFunction => v.VFunction?
  }

  lemma ElementNames(p: string)
    ensures forall i: nat :: p == Decimal(i) ==> ArrayIndex(p) == Some(i) && p != "length"
    ensures ArrayIndex(p).Some? ==> p == Decimal(ArrayIndex(p).value)
  {
    forall i: nat | p == Decimal(i) ensures ArrayIndex(p) == Some(i) && p != "length" {
      IndexRead(i);
      NotLength(i);
    }
    if ArrayIndex(p).Some? {
      IndexText(p);
    }
  }

  /** What a value has of its own: fields of objects, length and elements of lists and texts. */
  lemma OwnFound(lib: Lib, v: Value, p: string)
    ensures v.VObj? && p in v.fields ==> Property(lib, v, p) == v.fields[p]
    ensures v.VArr? && p == "length" ==> Property(lib, v, p) == VNum(|v.items| as real)
    ensures v.VStr? && p == "length" ==> Property(lib, v, p) == VNum(|v.s| as real)
    ensures forall i: nat :: v.VArr? && i < |v.items| && p == Decimal(i) ==> Property(lib, v, p) == v.items[i]
    ensures forall i: nat :: v.VStr? && i < |v.s| && p == Decimal(i) ==> Property(lib, v, p) == VStr([v.s[i]])
    ensures v.VPrototype? && p == "__proto__" ==> Property(lib, v, p) == VNull
  {
    hide ArrayIndex, Decimal;
    ElementNames(p);
  }

  /** Any other name finds what the value's kind inherits, and nothing in null and undefined. */
  lemma InheritedFound(lib: Lib, v: Value, kind: Kind, p: string)
    ensures KindOf(v, kind) && !Owns(v, p) ==>
      Property(lib, v, p) == if p == "__proto__" then VPrototype else if lib.inherits(kind, p) then VFunction else VUndefined
    ensures v.VNull? || v.VUndefined? ==> Property(lib, v, p) == VUndefined
  {
    hide ArrayIndex, Decimal;
    ElementNames(p);
  }

  lemma {:induction false} SplitFirst(a: string, rest: string)
    requires '.' !in a
    ensures Split(a + ['.'] + rest, '.') == [a] + Split(rest, '.')
  {
    var s := a + ['.'] + rest;
    if a == "" {
      assert s[1..] == rest;
    } else {
      SplitFirst(a[1..], rest);
      assert s[1..] == a[1..] + ['.'] + rest;
      assert [a[0]] + a[1..] == a;
    }
  }

  /** A dotted path finds in a nested object what the rest of the path finds there, and nothing in a plain value. */
  lemma PathFound(lib: Lib, ctx: Context, a: string, rest: string)
    requires '.' !in a && a in ctx
    ensures ctx[a].VObj? ==> FieldValue(lib, ctx, a + ['.'] + rest) == FieldValue(lib, ctx[a].fields, rest)
    ensures !IsObject(ctx[a]) ==> FieldValue(lib, ctx, a + ['.'] + rest) == VUndefined
  {
    SplitFirst(a, rest);
    var parts := [a] + Split(rest, '.');
    assert parts[1..] == Split(rest, '.');
    assert FieldValue(lib, ctx, a + ['.'] + rest) == Descend(lib, Property(lib, VObj(ctx), a), Split(rest, '.'));
  }

  // ---------------------------------------------------------------------- verdicts

  /** list.includes(value); throws on a truthy value that has no such method. */
  function Includes(list: Value, value: string): Option<bool> {
    match list
    case VArr(items) => Some(VStr(value) in items)
    case VStr(s) => Some(Contains(s, value))
    case _ => None
  }

  function Compare(op: Operator, a: real, b: real): bool {
    match op
    case Gt => a > b
    case Gte => a >= b
    case Lt => a < b
    case Lte => a <= b
    case Eq => a == b
    case Neq => a != b
  }

  /** Stops at the first list that holds the value, or that cannot be searched. */
  function SanctionsVerdict(lib: Lib, lists: seq<string>, data: Value, value: string): Option<bool> {
    if lists == [] then Some(true)
    else
      var list := Property(lib, data, lists[0]);
      if !Truthy(list) then SanctionsVerdict(lib, lists[1..], data, value)
      else match Includes(list, value)
        case None => None
        case Some(found) => if found then Some(false) else SanctionsVerdict(lib, lists[1..], data, value)
  }

  function DateVerdict(lib: Lib, after: Option<string>, before: Option<string>, text: string): bool {
    match lib.parseDate(text)
    case None => false
    case Some(t) =>
      && (Given(after) ==> match lib.parseDate(after.value) case None => true case Some(a) => t > a)
      && (Given(before) ==> match lib.parseDate(before.value) case None => true case Some(b) => t < b)
  }

  function MembershipVerdict(lib: Lib, lists: Value, listId: string, value: string, mustBePresent: bool): Option<bool> {
    if !Truthy(lists) || !Truthy(Property(lib, lists, listId)) then Some(!mustBePresent)
    else match Includes(Property(lib, lists, listId), value)
      case None => None
      case Some(member) => Some(member == mustBePresent)
  }

  predicate Present(v: Value) {
    v != VUndefined && v != VNull
  }

  /** The second field an expression reads, if any. */
  function AuxField(e: Expression): string
    requires !e.CompositeAnd? && !e.CompositeOr? && !e.FieldPresence?
  {
    match e
    case SanctionsMatch(_, _) => SANCTIONS_DATA
    case ListMembership(_, _, _) => LIST_DATA
    case AmountLimit(field, _, _) => CurrencyField(field)
    case _ => e.field
  }

  /** The verdict on a field's value v and the second field's value aux; None stands for an exception. */
  function FieldVerdict(lib: Lib, e: Expression, v: Value, aux: Value): Option<bool>
    requires !e.CompositeAnd? && !e.CompositeOr? && !e.FieldPresence?
  {
    match e
    case Threshold(_, op, value) => Some(v.VNum? && Compare(op, v.n, value))
    case Range(_, min, max, inclusive) =>
      Some(v.VNum? && if inclusive then min <= v.n <= max else min < v.n < max)
    case EnumMatch(_, allowed) => Some(v.VStr? && v.s in allowed)
    case StringMatch(_, pattern, caseSensitive) =>
      Some(v.VStr? && if caseSensitive then v.s == pattern else lib.lower(v.s) == lib.lower(pattern))
    case BooleanRequired(_, required) => Some(v.VBool? && v.b == required)
    case SanctionsMatch(_, lists) =>
      if !v.VStr? then Some(false)
      else if !Truthy(aux) then Some(true)
      else SanctionsVerdict(lib, lists, aux, v.s)
    case RegexMatch(_, pattern, flags) =>
      if !v.VStr? then Some(false)
      else lib.regexTest(pattern, if flags.Some? then flags.value else "", v.s)
    case DateRange(_, after, before) => Some(v.VStr? && DateVerdict(lib, after, before, v.s))
    case AmountLimit(_, maxAmount, currency) =>
      Some(v.VNum? && (Given(currency) ==> aux == VStr(currency.value)) && v.n <= maxAmount)
    case CountLimit(_, maxCount) => Some(v.VNum? && v.n <= maxCount)
    case RoleRequired(_, roles, anyOf) =>
      Some(v.VArr? && if anyOf then exists i :: 0 <= i < |roles| && VStr(roles[i]) in v.items
                      else forall i :: 0 <= i < |roles| ==> VStr(roles[i]) in v.items)
    case JurisdictionMatch(_, allowed) => Some(v.VStr? && v.s in allowed)
    case ListMembership(_, listId, mustBePresent) =>
      if !v.VStr? then Some(false) else MembershipVerdict(lib, aux, listId, v.s, mustBePresent)
  }

  function PresenceVerdict(lib: Lib, fields: seq<string>, allRequired: bool, ctx: Context): bool {
    if allRequired then forall i :: 0 <= i < |fields| ==> Present(FieldValue(lib, ctx, fields[i]))
    else exists i :: 0 <= i < |fields| && Present(FieldValue(lib, ctx, fields[i]))
  }

  function LeafVerdict(lib: Lib, e: Expression, ctx: Context): Option<bool>
    requires !e.CompositeAnd? && !e.CompositeOr?
  {
    if e.FieldPresence? then Some(PresenceVerdict(lib, e.fields, e.allRequired, ctx))
    else FieldVerdict(lib, e, FieldValue(lib, ctx, e.field), FieldValue(lib, ctx, AuxField(e)))
  }

  /** AND is "all", OR is "any"; an exception in any part is an exception of the whole. */
  function Verdict(lib: Lib, e: Expression, ctx: Context): Option<bool> {
    match e
    case CompositeAnd(rules) =>
      if exists i :: 0 <= i < |rules| && Verdict(lib, rules[i], ctx) == None then None
      else Some(forall i :: 0 <= i < |rules| ==> Verdict(lib, rules[i], ctx) == Some(true))
    case CompositeOr(rules) =>
      if exists i :: 0 <= i < |rules| && Verdict(lib, rules[i], ctx) == None then None
      else Some(exists i :: 0 <= i < |rules| && Verdict(lib, rules[i], ctx) == Some(true))
    case _ => LeafVerdict(lib, e, ctx)
  }

  // ---------------------------------------------------------------------- what an outcome means

  predicate Falsy(v: Value) {
    v in {VUndefined, VNull, VBool(false), VNum(0.0), VStr("")}
  }

  /** A list, or a text searched as one, has the value. */
  ghost predicate Has(list: Value, value: string) {
    || (list.VArr? && exists i :: 0 <= i < |list.items| && list.items[i] == VStr(value))
    || (list.VStr? && list.s != "" && exists i, j :: 0 <= i <= j <= |list.s| && list.s[i..j] == value)
  }

  /** Searching it throws: it is there, and neither a list nor a text. */
  predicate Unsearchable(list: Value) {
    !Falsy(list) && !list.VArr? && !list.VStr?
  }

  /** The k-th list is the first that has the value or cannot be searched. */
  ghost predicate ScanStopsAt(lib: Lib, lists: seq<string>, data: Value, value: string, k: nat) {
    && k < |lists|
    && (Has(Property(lib, data, lists[k]), value) || Unsearchable(Property(lib, data, lists[k])))
    && forall j :: 0 <= j < k ==> !Has(Property(lib, data, lists[j]), value) && !Unsearchable(Property(lib, data, lists[j]))
  }

  /** The scan comes to a list that cannot be searched. */
  ghost predicate ScanThrows(lib: Lib, lists: seq<string>, data: Value, value: string) {
    exists k: nat :: ScanStopsAt(lib, lists, data, value, k) && Unsearchable(Property(lib, data, lists[k]))
  }

  /** The scan comes to a list that has the value. */
  ghost predicate ScanFinds(lib: Lib, lists: seq<string>, data: Value, value: string) {
    exists k: nat :: ScanStopsAt(lib, lists, data, value, k) && Has(Property(lib, data, lists[k]), value)
  }

  /** The time lies beyond the bound, or the bound is not given or no date. */
  ghost predicate Beyond(lib: Lib, bound: Option<string>, t: int, later: bool) {
    || bound.None? || bound.value == "" || lib.parseDate(bound.value).None?
    || if later then t > lib.parseDate(bound.value).value else t < lib.parseDate(bound.value).value
  }

  /** When an expression that is no composite passes; it does not say when it throws. */
  ghost predicate PassMeans(lib: Lib, e: Expression, ctx: Context)
    requires !e.CompositeAnd? && !e.CompositeOr?
  {
    match e
    case Threshold(field, op, value) =>
      var v := FieldValue(lib, ctx, field);
      && v.VNum?
      && (op == Gt ==> v.n > value) && (op == Gte ==> v.n >= value) && (op == Lt ==> v.n < value)
      && (op == Lte ==> v.n <= value) && (op == Eq ==> v.n == value) && (op == Neq ==> v.n != value)
    case Range(field, min, max, inclusive) =>
      var v := FieldValue(lib, ctx, field);
      v.VNum? && min <= v.n <= max && (inclusive || (v.n != min && v.n != max))
    case EnumMatch(field, allowed) => FieldValue(lib, ctx, field).VStr? && FieldValue(lib, ctx, field).s in allowed
    case StringMatch(field, pattern, caseSensitive) =>
      var v := FieldValue(lib, ctx, field);
      v.VStr? && (v.s == pattern || (!caseSensitive && lib.lower(v.s) == lib.lower(pattern)))
    case BooleanRequired(field, required) => FieldValue(lib, ctx, field) == VBool(required)
    case FieldPresence(fields, allRequired) =>
      if allRequired then forall f :: f in fields ==> FieldValue(lib, ctx, f) !in {VUndefined, VNull}
      else exists f :: f in fields && FieldValue(lib, ctx, f) !in {VUndefined, VNull}
    case SanctionsMatch(field, lists) =>
      var v, data := FieldValue(lib, ctx, field), FieldValue(lib, ctx, "_sanctionsData");
      v.VStr? && (Falsy(data) || (!ScanThrows(lib, lists, data, v.s) && !ScanFinds(lib, lists, data, v.s)))
    case RegexMatch(field, pattern, flags) =>
      var v := FieldValue(lib, ctx, field);
      v.VStr? && lib.regexTest(pattern, if flags.None? then "" else flags.value, v.s) == Some(true)
    case DateRange(field, after, before) =>
      var v := FieldValue(lib, ctx, field);
      v.VStr? && lib.parseDate(v.s).Some?
      && Beyond(lib, after, lib.parseDate(v.s).value, true) && Beyond(lib, before, lib.parseDate(v.s).value, false)
    case AmountLimit(field, maxAmount, currency) =>
      var v := FieldValue(lib, ctx, field);
      v.VNum? && v.n <= maxAmount
      && (currency.None? || currency.value == "" || FieldValue(lib, ctx, field + "_currency") == VStr(currency.value))
    case CountLimit(field, maxCount) => FieldValue(lib, ctx, field).VNum? && FieldValue(lib, ctx, field).n <= maxCount
    case RoleRequired(field, roles, anyOf) =>
      var v := FieldValue(lib, ctx, field);
      v.VArr? && if anyOf then exists role :: role in roles && VStr(role) in v.items
                 else forall role :: role in roles ==> VStr(role) in v.items
    case JurisdictionMatch(field, allowed) => FieldValue(lib, ctx, field).VStr? && FieldValue(lib, ctx, field).s in allowed
    case ListMembership(field, listId, mustBePresent) =>
      var v, lists := FieldValue(lib, ctx, field), FieldValue(lib, ctx, "_listData");
      && v.VStr? && !(!Falsy(lists) && Unsearchable(Property(lib, lists, listId)))
      && (mustBePresent <==> !Falsy(lists) && Has(Property(lib, lists, listId), v.s))
  }

  /** When evaluating an expression that is no composite throws. */
  ghost predicate ThrowMeans(lib: Lib, e: Expression, ctx: Context)
    requires !e.CompositeAnd? && !e.CompositeOr?
  {
    match e
    case SanctionsMatch(field, lists) =>
      var v, data := FieldValue(lib, ctx, field), FieldValue(lib, ctx, "_sanctionsData");
      v.VStr? && !Falsy(data) && ScanThrows(lib, lists, data, v.s)
    case RegexMatch(field, pattern, flags) =>
      var v := FieldValue(lib, ctx, field);
      v.VStr? && lib.regexTest(pattern, if flags.None? then "" else flags.value, v.s) == None
    case ListMembership(field, listId, _) =>
      var v, lists := FieldValue(lib, ctx, field), FieldValue(lib, ctx, "_listData");
      v.VStr? && !Falsy(lists) && Unsearchable(Property(lib, lists, listId))
    case _ => false
  }

  lemma TruthyExactly(v: Value)
    ensures Truthy(v) <==> !Falsy(v)
  {
  }

  lemma IncludesMeans(list: Value, value: string)
    requires Truthy(list)
    ensures Includes(list, value) == None <==> Unsearchable(list)
    ensures Includes(list, value) == Some(true) <==> Has(list, value)
    ensures Includes(list, value) == Some(false) <==> !Has(list, value) && !Unsearchable(list)
  {
    if list.VStr? {
      if i :| 0 <= i <= |list.s| && OccursAt(list.s, value, i) {
        assert list.s[i..i + |value|] == value;
      }
      if i, j :| 0 <= i <= j <= |list.s| && list.s[i..j] == value {
        assert OccursAt(list.s, value, i);
      }
    }
  }

  lemma FalsyHasNothing(list: Value, value: string)
    requires !Truthy(list)
    ensures !Has(list, value) && !Unsearchable(list)
  {
  }

  ghost predicate NoStopBefore(lib: Lib, lists: seq<string>, data: Value, value: string, i: nat)
    requires i <= |lists|
  {
    forall j :: 0 <= j < i ==> !Has(Property(lib, data, lists[j]), value) && !Unsearchable(Property(lib, data, lists[j]))
  }

  lemma StopIs(lib: Lib, lists: seq<string>, data: Value, value: string, i: nat, k: nat)
    requires ScanStopsAt(lib, lists, data, value, i) && ScanStopsAt(lib, lists, data, value, k)
    ensures i == k
  {
  }

  lemma {:induction false} SanctionsFrom(lib: Lib, lists: seq<string>, data: Value, value: string, i: nat)
    requires i <= |lists| && NoStopBefore(lib, lists, data, value, i)
    ensures SanctionsVerdict(lib, lists[i..], data, value) == None <==> ScanThrows(lib, lists, data, value)
    ensures SanctionsVerdict(lib, lists[i..], data, value) == Some(false) <==> ScanFinds(lib, lists, data, value)
    decreases |lists| - i
  {
    hide Property, Has, Unsearchable, Includes, Truthy;
    if i < |lists| {
      var list := Property(lib, data, lists[i]);
      assert lists[i..][0] == lists[i] && lists[i..][1..] == lists[i + 1..];
      if Truthy(list) { IncludesMeans(list, value); } else { FalsyHasNothing(list, value); }
      if Has(list, value) || Unsearchable(list) {
        assert ScanStopsAt(lib, lists, data, value, i);
        forall k: nat | ScanStopsAt(lib, lists, data, value, k) ensures k == i {
          StopIs(lib, lists, data, value, i, k);
        }
      } else {
        SanctionsFrom(lib, lists, data, value, i + 1);
      }
    }
  }

  lemma SanctionsMeans(lib: Lib, lists: seq<string>, data: Value, value: string)
    ensures SanctionsVerdict(lib, lists, data, value) == None <==> ScanThrows(lib, lists, data, value)
    ensures SanctionsVerdict(lib, lists, data, value) == Some(false) <==> ScanFinds(lib, lists, data, value)
    ensures SanctionsVerdict(lib, lists, data, value) == Some(true) <==>
      !ScanThrows(lib, lists, data, value) && !ScanFinds(lib, lists, data, value)
  {
    SanctionsFrom(lib, lists, data, value, 0);
    assert lists[0..] == lists;
  }

  lemma SanctionsLeaf(lib: Lib, e: Expression, ctx: Context)
    requires e.SanctionsMatch?
    ensures LeafVerdict(lib, e, ctx) == Some(true) <==> PassMeans(lib, e, ctx)
    ensures LeafVerdict(lib, e, ctx) == None <==> ThrowMeans(lib, e, ctx)
  {
    hide FieldValue, SanctionsVerdict, ScanThrows, ScanFinds;
    var v, data := FieldValue(lib, ctx, e.field), FieldValue(lib, ctx, SANCTIONS_DATA);
    TruthyExactly(data);
    if v.VStr? {
      SanctionsMeans(lib, e.lists, data, v.s);
    }
  }

  lemma MembershipMeans(lib: Lib, lists: Value, listId: string, value: string, mustBePresent: bool)
    ensures MembershipVerdict(lib, lists, listId, value, mustBePresent) == Some(true) <==>
      (mustBePresent <==> !Falsy(lists) && Has(Property(lib, lists, listId), value)) && !(!Falsy(lists) && Unsearchable(Property(lib, lists, listId)))
    ensures MembershipVerdict(lib, lists, listId, value, mustBePresent) == None <==> !Falsy(lists) && Unsearchable(Property(lib, lists, listId))
  {
    hide Property, Has, Unsearchable, Includes, Truthy, Falsy;
    var list := Property(lib, lists, listId);
    TruthyExactly(lists);
    if Truthy(list) { IncludesMeans(list, value); } else { FalsyHasNothing(list, value); }
  }

  lemma MembershipLeaf(lib: Lib, e: Expression, ctx: Context)
    requires e.ListMembership?
    ensures LeafVerdict(lib, e, ctx) == Some(true) <==> PassMeans(lib, e, ctx)
    ensures LeafVerdict(lib, e, ctx) == None <==> ThrowMeans(lib, e, ctx)
  {
    hide FieldValue, MembershipVerdict, Has, Unsearchable, Property, Falsy;
    var v, lists := FieldValue(lib, ctx, e.field), FieldValue(lib, ctx, LIST_DATA);
    if v.VStr? {
      MembershipMeans(lib, lists, e.listId, v.s, e.mustBePresent);
    }
  }

  lemma RolesLeaf(lib: Lib, e: Expression, ctx: Context)
    requires e.RoleRequired? || e.FieldPresence?
    ensures LeafVerdict(lib, e, ctx) == Some(PassMeans(lib, e, ctx))
  {
    if e.RoleRequired? {
      assert forall i :: 0 <= i < |e.roles| ==> e.roles[i] in e.roles;
    } else {
      assert forall i :: 0 <= i < |e.fields| ==> e.fields[i] in e.fields;
    }
  }

  lemma PlainLeaf(lib: Lib, e: Expression, ctx: Context)
    requires !e.CompositeAnd? && !e.CompositeOr? && !e.SanctionsMatch? && !e.ListMembership? && !e.RoleRequired? && !e.FieldPresence?
    ensures LeafVerdict(lib, e, ctx) == Some(true) <==> PassMeans(lib, e, ctx)
    ensures LeafVerdict(lib, e, ctx) == None <==> ThrowMeans(lib, e, ctx)
  {
    hide FieldValue;
  }

  /** The verdict of an expression that is no composite, by what passes and what throws. */
  lemma LeafMeans(lib: Lib, e: Expression, ctx: Context)
    requires !e.CompositeAnd? && !e.CompositeOr?
    ensures Verdict(lib, e, ctx) == Some(true) <==> PassMeans(lib, e, ctx)
    ensures Verdict(lib, e, ctx) == None <==> ThrowMeans(lib, e, ctx)
  {
    hide PassMeans, LeafVerdict, FieldVerdict;
    match e
    case SanctionsMatch(_, _) => SanctionsLeaf(lib, e, ctx);
    case ListMembership(_, _, _) => MembershipLeaf(lib, e, ctx);
    case RoleRequired(_, _, _) => RolesLeaf(lib, e, ctx);
    case FieldPresence(_, _) => RolesLeaf(lib, e, ctx);
    case _ => PlainLeaf(lib, e, ctx);
  }

  // ---------------------------------------------------------------------- evaluation

  /** Diagnostic of an evaluation, without its prose. */
  datatype Diagnostic = Diagnostic(ruleId: string, about: Expression, valueFound: Value, subDiagnostics: seq<Diagnostic>)

  /** The diagnostic tree has the shape of the expression tree and reports the values looked at. */
  ghost predicate Mirrors(lib: Lib, d: Diagnostic, ruleId: string, e: Expression, ctx: Context)
    decreases e
  {
    && d.ruleId == ruleId && d.about == e
    && match e
       case CompositeAnd(rules) => MirrorsAll(lib, d.subDiagnostics, ruleId, rules, ctx) && d.valueFound == VUndefined
       case CompositeOr(rules) => MirrorsAll(lib, d.subDiagnostics, ruleId, rules, ctx) && d.valueFound == VUndefined
       case FieldPresence(_, _) => d.subDiagnostics == [] && d.valueFound == VUndefined
       case _ => d.subDiagnostics == [] && d.valueFound == FieldValue(lib, ctx, e.field)
  }

  ghost predicate MirrorsAll(lib: Lib, ds: seq<Diagnostic>, ruleId: string, rules: seq<Expression>, ctx: Context)
    decreases rules
  {
    |ds| == |rules| && forall i :: 0 <= i < |rules| ==> Mirrors(lib, ds[i], ruleId, rules[i], ctx)
  }

  datatype EvalOutcome = EvalOutcome(passed: bool, diagnostic: Diagnostic)

  ghost predicate Evaluates(r: Option<EvalOutcome>, lib: Lib, ruleId: string, e: Expression, ctx: Context) {
    match r
    case None => Verdict(lib, e, ctx) == None
    case Some(o) => Verdict(lib, e, ctx) == Some(o.passed) && Mirrors(lib, o.diagnostic, ruleId, e, ctx)
  }

  /** What the outcome of a single expression is: an exception, a pass or a fail. */
  ghost predicate LeafOutcome(r: Option<EvalOutcome>, lib: Lib, e: Expression, ctx: Context)
    requires !e.CompositeAnd? && !e.CompositeOr?
  {
    && (r.None? <==> ThrowMeans(lib, e, ctx))
    && (r.Some? ==> (r.value.passed <==> PassMeans(lib, e, ctx)))
  }

  /** None when an exception is thrown. */
  method EvaluateWithDiagnostic(lib: Lib, ruleId: string, e: Expression, ctx: Context) returns (r: Option<EvalOutcome>)
    ensures Evaluates(r, lib, ruleId, e, ctx)
    ensures !e.CompositeAnd? && !e.CompositeOr? ==> LeafOutcome(r, lib, e, ctx)
    decreases e, 1
  {
    hide LeafOutcome;
    if e.CompositeAnd? || e.CompositeOr? {
      r := EvaluateComposite(lib, ruleId, e, ctx);
    } else {
      r := EvaluateLeaf(lib, ruleId, e, ctx);
    }
  }

  method EvaluateLeaf(lib: Lib, ruleId: string, e: Expression, ctx: Context) returns (r: Option<EvalOutcome>)
    requires !e.CompositeAnd? && !e.CompositeOr?
    ensures Evaluates(r, lib, ruleId, e, ctx) && LeafOutcome(r, lib, e, ctx)
  {
    hide PassMeans, ThrowMeans, LeafVerdict;
    LeafMeans(lib, e, ctx);
    var value := VUndefined;
    if !e.FieldPresence? {
      value := GetFieldValue(lib, ctx, e.field);
    }
    match LeafVerdict(lib, e, ctx)
    case None => return None;
    case Some(passed) => return Some(EvalOutcome(passed, Diagnostic(ruleId, e, value, [])));
  }

  ghost predicate Passes(lib: Lib, e: Expression, ctx: Context) {
    Verdict(lib, e, ctx) == Some(true)
  }

  lemma CompositeVerdict(lib: Lib, e: Expression, ctx: Context)
    requires e.CompositeAnd? || e.CompositeOr?
    requires forall k :: 0 <= k < |e.rules| ==> Verdict(lib, e.rules[k], ctx) != None
    ensures e.CompositeAnd? ==> Verdict(lib, e, ctx) == Some(forall k :: 0 <= k < |e.rules| ==> Passes(lib, e.rules[k], ctx))
    ensures e.CompositeOr? ==> Verdict(lib, e, ctx) == Some(exists k :: 0 <= k < |e.rules| && Passes(lib, e.rules[k], ctx))
  {
  }

  /** The parts evaluated so far, one diagnostic each: none threw, whether all passed, whether any did. */
  ghost predicate Collected(lib: Lib, ruleId: string, rules: seq<Expression>, ctx: Context, ds: seq<Diagnostic>,
                            allPassed: bool, anyPassed: bool) {
    && |ds| <= |rules|
    && (forall k :: 0 <= k < |ds| ==> Verdict(lib, rules[k], ctx) != None && Mirrors(lib, ds[k], ruleId, rules[k], ctx))
    && (allPassed <==> forall k :: 0 <= k < |ds| ==> Passes(lib, rules[k], ctx))
    && (anyPassed <==> exists k :: 0 <= k < |ds| && Passes(lib, rules[k], ctx))
  }

  lemma CollectedNext(lib: Lib, ruleId: string, rules: seq<Expression>, ctx: Context, ds: seq<Diagnostic>,
                      allPassed: bool, anyPassed: bool, o: EvalOutcome)
    requires Collected(lib, ruleId, rules, ctx, ds, allPassed, anyPassed) && |ds| < |rules|
    requires Evaluates(Some(o), lib, ruleId, rules[|ds|], ctx)
    ensures Collected(lib, ruleId, rules, ctx, ds + [o.diagnostic], allPassed && o.passed, anyPassed || o.passed)
  {
    hide Verdict, Mirrors;
    var ds' := ds + [o.diagnostic];
    assert o.passed <==> Passes(lib, rules[|ds|], ctx);
    forall k | 0 <= k < |ds'| ensures Verdict(lib, rules[k], ctx) != None && Mirrors(lib, ds'[k], ruleId, rules[k], ctx) {
      assert k < |ds| ==> ds'[k] == ds[k];
    }
  }

  lemma CollectedAll(lib: Lib, ruleId: string, e: Expression, ctx: Context, ds: seq<Diagnostic>, allPassed: bool, anyPassed: bool)
    requires e.CompositeAnd? || e.CompositeOr?
    requires Collected(lib, ruleId, e.rules, ctx, ds, allPassed, anyPassed) && |ds| == |e.rules|
    ensures Evaluates(Some(EvalOutcome(if e.CompositeAnd? then allPassed else anyPassed, Diagnostic(ruleId, e, VUndefined, ds))),
                      lib, ruleId, e, ctx)
  {
    CompositeVerdict(lib, e, ctx);
  }

  lemma PartThrows(lib: Lib, e: Expression, ctx: Context, i: nat)
    requires (e.CompositeAnd? || e.CompositeOr?) && i < |e.rules| && Verdict(lib, e.rules[i], ctx) == None
    ensures Verdict(lib, e, ctx) == None
  {
  }

  /** Evaluates every part, whatever the earlier ones gave. */
  method EvaluateComposite(lib: Lib, ruleId: string, e: Expression, ctx: Context) returns (r: Option<EvalOutcome>)
    requires e.CompositeAnd? || e.CompositeOr?
    ensures Evaluates(r, lib, ruleId, e, ctx)
    decreases e, 0
  {
    var rules := e.rules;
    var subDiagnostics: seq<Diagnostic> := [];
    var allPassed, anyPassed := true, false;
    var i := 0;
    while i < |rules|
      invariant 0 <= i <= |rules| && |subDiagnostics| == i
      invariant Collected(lib, ruleId, rules, ctx, subDiagnostics, allPassed, anyPassed)
    {
      var outcome := EvaluateWithDiagnostic(lib, ruleId, rules[i], ctx);
      if outcome == None {
        PartThrows(lib, e, ctx, i);
        return None;
      }
      CollectedNext(lib, ruleId, rules, ctx, subDiagnostics, allPassed, anyPassed, outcome.value);
      subDiagnostics := subDiagnostics + [outcome.value.diagnostic];
      if !outcome.value.passed {
        allPassed := false;
      }
      if outcome.value.passed {
        anyPassed := true;
      }
      i := i + 1;
    }
    CollectedAll(lib, ruleId, e, ctx, subDiagnostics, allPassed, anyPassed);
    return Some(EvalOutcome(if e.CompositeAnd? then allPassed else anyPassed, Diagnostic(ruleId, e, VUndefined, subDiagnostics)));
  }

  // ---------------------------------------------------------------------- recorded inputs

  function OrNull(v: Value): Value {
    if v == VUndefined then VNull else v
  }

  /**
   * Assignment to a key of a plain record. Assigning to the name of the prototype accessor sets
   * no key.
   */
  function Assign(record: map<string, Value>, key: string, v: Value): map<string, Value> {
    if key == PROTO then record else record[key := v]
  }

  /** The fields recorded with a result: all but the prototype accessor and, outside presence checks, the empty name. */
  function RecordedFields(e: Expression): set<string>
    decreases e
  {
    match e
    case CompositeAnd(rules) => RecordedOf(rules, |rules|)
    case CompositeOr(rules) => RecordedOf(rules, |rules|)
    case FieldPresence(fields, _) => PresenceNames(fields)
    case _ => if e.field == "" || e.field == PROTO then {} else {e.field}
  }

  function RecordedOf(rules: seq<Expression>, n: nat): set<string>
    requires n <= |rules|
    decreases rules, n
  {
    if n == 0 then {} else RecordedOf(rules, n - 1) + RecordedFields(rules[n - 1])
  }

  lemma {:induction false} RecordedPart(rules: seq<Expression>, n: nat, i: nat)
    requires i < n <= |rules|
    ensures RecordedFields(rules[i]) <= RecordedOf(rules, n)
  {
    if i < n - 1 {
      RecordedPart(rules, n - 1, i);
    }
  }

  function InputFields(lib: Lib, e: Expression, ctx: Context): map<string, Value> {
    Record(lib, RecordedFields(e), ctx)
  }

  function Record(lib: Lib, names: set<string>, ctx: Context): map<string, Value> {
    map f | f in names :: OrNull(FieldValue(lib, ctx, f))
  }

  lemma RecordOne(lib: Lib, f: string, ctx: Context)
    ensures Record(lib, if f == "" || f == PROTO then {} else {f}, ctx) ==
      if f == "" then map[] else Assign(map[], f, OrNull(FieldValue(lib, ctx, f)))
  {
  }

  lemma InputsByKind(lib: Lib, e: Expression, ctx: Context)
    ensures e.CompositeAnd? || e.CompositeOr? ==> InputFields(lib, e, ctx) == Record(lib, RecordedOf(e.rules, |e.rules|), ctx)
    ensures e.FieldPresence? ==> InputFields(lib, e, ctx) == Record(lib, PresenceNames(e.fields), ctx)
    ensures !e.CompositeAnd? && !e.CompositeOr? && !e.FieldPresence? ==>
      InputFields(lib, e, ctx) == if e.field == "" then map[] else Assign(map[], e.field, OrNull(FieldValue(lib, ctx, e.field)))
  {
    if !e.CompositeAnd? && !e.CompositeOr? && !e.FieldPresence? {
      RecordOne(lib, e.field, ctx);
    }
  }

  /** The name is recorded: some part names it, and it is not the prototype accessor nor, outside presence checks, empty. */
  ghost predicate Records(e: Expression, name: string) {
    match e
    case CompositeAnd(rules) => exists i :: 0 <= i < |rules| && Records(rules[i], name)
    case CompositeOr(rules) => exists i :: 0 <= i < |rules| && Records(rules[i], name)
    case FieldPresence(fields, _) => name in fields && name != "__proto__"
    case _ => name == e.field && name != "" && name != "__proto__"
  }

  /** The record: each of those names with the value found, or null where nothing is found. */
  ghost predicate RecordMeans(fields: map<string, Value>, lib: Lib, e: Expression, ctx: Context) {
    && (forall name :: name in fields <==> Records(e, name))
    && forall name :: name in fields ==>
      var v := FieldValue(lib, ctx, name);
      (v.VUndefined? && fields[name] == VNull) || (!v.VUndefined? && fields[name] == v)
  }

  lemma {:induction false} RecordedExactly(e: Expression, name: string)
    ensures name in RecordedFields(e) <==> Records(e, name)
  {
    if e.CompositeAnd? || e.CompositeOr? {
      RecordedOfExactly(e.rules, |e.rules|, name);
    }
  }

  lemma {:induction false} RecordedOfExactly(rules: seq<Expression>, n: nat, name: string)
    requires n <= |rules|
    ensures name in RecordedOf(rules, n) <==> exists i :: 0 <= i < n && Records(rules[i], name)
  {
    if n > 0 {
      RecordedExactly(rules[n - 1], name);
      RecordedOfExactly(rules, n - 1, name);
    }
  }

  lemma InputsMean(lib: Lib, e: Expression, ctx: Context)
    ensures RecordMeans(InputFields(lib, e, ctx), lib, e, ctx)
  {
    forall name ensures name in InputFields(lib, e, ctx) <==> Records(e, name) {
      RecordedExactly(e, name);
    }
  }

  /** Field by field, merging the fields of the parts. */
  method CollectInputFields(lib: Lib, e: Expression, ctx: Context) returns (fields: map<string, Value>)
    ensures fields == InputFields(lib, e, ctx) && RecordMeans(fields, lib, e, ctx)
    decreases e, 1
  {
    hide *;
    InputsMean(lib, e, ctx);
    InputsByKind(lib, e, ctx);
    fields := map[];
    if e.CompositeAnd? || e.CompositeOr? {
      fields := CollectParts(lib, e.rules, ctx);
    } else if e.FieldPresence? {
      fields := CollectPresence(lib, e.fields, ctx);
    } else if e.field != "" {
      var value := GetFieldValue(lib, ctx, e.field);
      fields := Assign(fields, e.field, OrNull(value));
    }
  }

  lemma RecordedNext(lib: Lib, rules: seq<Expression>, i: nat, ctx: Context)
    requires i < |rules|
    ensures Record(lib, RecordedOf(rules, i + 1), ctx) == Record(lib, RecordedOf(rules, i), ctx) + InputFields(lib, rules[i], ctx)
  {
    MergeRecorded(lib, RecordedOf(rules, i), RecordedFields(rules[i]), ctx);
    assert RecordedOf(rules, i + 1) == RecordedOf(rules, i) + RecordedFields(rules[i]);
  }

  lemma RecordedNone(lib: Lib, rules: seq<Expression>, ctx: Context)
    ensures Record(lib, RecordedOf(rules, 0), ctx) == map[]
  {
  }

  method CollectParts(lib: Lib, rules: seq<Expression>, ctx: Context) returns (fields: map<string, Value>)
    ensures fields == Record(lib, RecordedOf(rules, |rules|), ctx)
    decreases rules, 0
  {
    hide *;
    fields := map[];
    RecordedNone(lib, rules, ctx);
    var i := 0;
    while i < |rules|
      invariant 0 <= i <= |rules|
      invariant fields == Record(lib, RecordedOf(rules, i), ctx)
    {
      var sub := CollectInputFields(lib, rules[i], ctx);
      RecordedNext(lib, rules, i, ctx);
      fields := fields + sub;
      i := i + 1;
    }
  }

  lemma MergeRecorded(lib: Lib, a: set<string>, b: set<string>, ctx: Context)
    ensures Record(lib, a, ctx) + Record(lib, b, ctx) == Record(lib, a + b, ctx)
  {
  }

  function PresenceNames(names: seq<string>): set<string> {
    set f | f in names && f != PROTO
  }

  lemma PresenceStart(lib: Lib, ctx: Context)
    ensures Record(lib, PresenceNames([]), ctx) == map[]
  {
  }

  lemma PresenceNext(lib: Lib, names: seq<string>, i: nat, ctx: Context)
    requires i < |names|
    ensures Record(lib, PresenceNames(names[..i + 1]), ctx) ==
      Assign(Record(lib, PresenceNames(names[..i]), ctx), names[i], OrNull(FieldValue(lib, ctx, names[i])))
  {
    assert names[..i + 1] == names[..i] + [names[i]];
  }

  method CollectPresence(lib: Lib, names: seq<string>, ctx: Context) returns (fields: map<string, Value>)
    ensures fields == Record(lib, PresenceNames(names), ctx)
  {
    hide *;
    fields := map[];
    var i := 0;
    assert names[..0] == [];
    PresenceStart(lib, ctx);
    while i < |names|
      invariant 0 <= i <= |names|
      invariant fields == Record(lib, PresenceNames(names[..i]), ctx)
    {
      var value := GetFieldValue(lib, ctx, names[i]);
      PresenceNext(lib, names, i, ctx);
      fields := Assign(fields, names[i], OrNull(value));
      i := i + 1;
    }
    assert names[..|names|] == names;
  }

  /** Everything a verdict looks at is the same in both contexts, undefined and null alike. */
  ghost predicate Agree(lib: Lib, e: Expression, a: Context, b: Context) {
    match e
    case CompositeAnd(rules) => forall i :: 0 <= i < |rules| ==> Agree(lib, rules[i], a, b)
    case CompositeOr(rules) => forall i :: 0 <= i < |rules| ==> Agree(lib, rules[i], a, b)
    case FieldPresence(fields, _) => forall i :: 0 <= i < |fields| ==> AgreeAt(lib, fields[i], a, b)
    case _ => AgreeAt(lib, e.field, a, b) && AgreeAt(lib, AuxField(e), a, b)
  }

  ghost predicate AgreeAt(lib: Lib, field: string, a: Context, b: Context) {
    OrNull(FieldValue(lib, a, field)) == OrNull(FieldValue(lib, b, field))
  }

  /** Not a boolean, a number, a text or a list: no expression on a single field accepts it. */
  predicate Inert(v: Value) {
    !v.VBool? && !v.VNum? && !v.VStr? && !v.VArr?
  }

  /** No expression accepts a missing field, nor an object or a method. */
  lemma AbsentFails(lib: Lib, e: Expression, v: Value, aux: Value)
    requires !e.CompositeAnd? && !e.CompositeOr? && !e.FieldPresence? && Inert(v)
    ensures FieldVerdict(lib, e, v, aux) == Some(false)
  {
  }

  lemma AuxUpToNull(lib: Lib, e: Expression, v: Value, x: Value, y: Value)
    requires !e.CompositeAnd? && !e.CompositeOr? && !e.FieldPresence? && OrNull(x) == OrNull(y)
    ensures FieldVerdict(lib, e, v, x) == FieldVerdict(lib, e, v, y)
  {
    assert x == y || (!Truthy(x) && !Truthy(y));
  }

  lemma AgreeDeterminesLeaf(lib: Lib, e: Expression, a: Context, b: Context)
    requires !e.CompositeAnd? && !e.CompositeOr? && Agree(lib, e, a, b)
    ensures LeafVerdict(lib, e, a) == LeafVerdict(lib, e, b)
  {
    if e.FieldPresence? {
      forall i | 0 <= i < |e.fields| ensures Present(FieldValue(lib, a, e.fields[i])) == Present(FieldValue(lib, b, e.fields[i])) {
        assert AgreeAt(lib, e.fields[i], a, b);
      }
    } else {
      var va, vb := FieldValue(lib, a, e.field), FieldValue(lib, b, e.field);
      AuxUpToNull(lib, e, vb, FieldValue(lib, a, AuxField(e)), FieldValue(lib, b, AuxField(e)));
      if va != vb {
        AbsentFails(lib, e, va, FieldValue(lib, a, AuxField(e)));
        AbsentFails(lib, e, vb, FieldValue(lib, a, AuxField(e)));
      }
    }
  }

  lemma SameParts(lib: Lib, e: Expression, a: Context, b: Context)
    requires e.CompositeAnd? || e.CompositeOr?
    requires forall i :: 0 <= i < |e.rules| ==> Verdict(lib, e.rules[i], a) == Verdict(lib, e.rules[i], b)
    ensures Verdict(lib, e, a) == Verdict(lib, e, b)
  {
  }

  /** A verdict depends on nothing else. */
  lemma {:induction false} AgreeDetermines(lib: Lib, e: Expression, a: Context, b: Context)
    requires Agree(lib, e, a, b)
    ensures Verdict(lib, e, a) == Verdict(lib, e, b)
  {
    if e.CompositeAnd? || e.CompositeOr? {
      forall i | 0 <= i < |e.rules| ensures Verdict(lib, e.rules[i], a) == Verdict(lib, e.rules[i], b) {
        AgreeDetermines(lib, e.rules[i], a, b);
      }
      SameParts(lib, e, a, b);
    } else {
      AgreeDeterminesLeaf(lib, e, a, b);
    }
  }

  lemma OneStep(lib: Lib, ctx: Context, field: string)
    requires '.' !in field
    ensures FieldValue(lib, ctx, field) == Property(lib, VObj(ctx), field)
  {
    hide Property;
    assert Split(field, '.') == [field];
    assert [field][1..] == [];
    assert Descend(lib, Property(lib, VObj(ctx), field), []) == Property(lib, VObj(ctx), field);
  }

  /** A name without a dot is a key of the context itself, or inherited. */
  lemma TopLevelField(lib: Lib, ctx: Context, field: string)
    requires '.' !in field
    ensures FieldValue(lib, ctx, field) == if field in ctx then ctx[field] else Inherited(lib, OfObject, field)
  {
    hide FieldValue;
    OneStep(lib, ctx, field);
  }
}
