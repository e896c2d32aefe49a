/**
 * What the inputs recorded with a result tell about the outcome: for every expression that is
 * neither a composite nor a regular expression, exactly when they determine it.
 */
module RuleInputs {
  import opened Wrappers
  import opened Strings
  import opened RuleExpressions

  // ---------------------------------------------------------------------- the question

  /** Fields of amount limits, whose currency is read but not recorded. */
  function AmountFields(e: Expression): set<string> {
    match e
    case CompositeAnd(rules) => set i, f | 0 <= i < |rules| && f in AmountFields(rules[i]) :: f
    case CompositeOr(rules) => set i, f | 0 <= i < |rules| && f in AmountFields(rules[i]) :: f
    case AmountLimit(field, _, _) => {field}
    case _ => {}
  }

  /** The recorded inputs, the two data tables and the currencies are the same. */
  ghost predicate SameInputs(lib: Lib, e: Expression, a: Context, b: Context) {
    && InputFields(lib, e, a) == InputFields(lib, e, b)
    && AgreeAt(lib, SANCTIONS_DATA, a, b)
    && AgreeAt(lib, LIST_DATA, a, b)
    && forall f :: f in AmountFields(e) ==> AgreeAt(lib, CurrencyField(f), a, b)
  }

  /** The same inputs always give the same verdict. */
  ghost predicate Determined(lib: Lib, e: Expression) {
    forall a, b :: SameInputs(lib, e, a, b) ==> Verdict(lib, e, a) == Verdict(lib, e, b)
  }

  // ---------------------------------------------------------------------- the answer

  predicate Leaf(e: Expression) {
    !e.CompositeAnd? && !e.CompositeOr?
  }

  /** A path that starts at the prototype accessor and goes on. */
  predicate UnderProto(field: string) {
    |Split(field, '.')| > 1 && Split(field, '.')[0] == PROTO
  }

  /** Every field read is recorded or, for a field the record cannot hold, one below it has to be there too. */
  predicate FieldsRecorded(e: Expression)
    requires Leaf(e)
  {
    if e.FieldPresence? then PROTO !in e.fields || (e.allRequired && exists i :: 0 <= i < |e.fields| && UnderProto(e.fields[i]))
    else e.field != "" && e.field != PROTO
  }

  /** The range of time values, section "Time Values and Time Range" of ECMA-262. */
  const MAX_TIME := 8640000000000000

  /** What is assumed of dates: they are those of the range, and each is printed as a text that parses back. */
  ghost predicate ValidDates(lib: Lib) {
    && (forall t :: lib.isoDate(t).Some? <==> -8640000000000000 <= t <= 8640000000000000)
    && (forall t :: lib.isoDate(t).Some? ==> lib.parseDate(lib.isoDate(t).value) == Some(t))
    && (forall s :: lib.parseDate(s).Some? ==> -MAX_TIME <= lib.parseDate(s).value <= MAX_TIME)
  }

  /** A bound that is given and parses. */
  function Bound(lib: Lib, text: Option<string>): Option<int> {
    if Given(text) then lib.parseDate(text.value) else None
  }

  function Earliest(lib: Lib, after: Option<string>): int {
    match Bound(lib, after)
    case None => -MAX_TIME
    case Some(a) => a + 1
  }

  function Latest(lib: Lib, before: Option<string>): int {
    match Bound(lib, before)
    case None => MAX_TIME
    case Some(b) => b - 1
  }

  /** An expression that asks for something of an empty range or of an empty list. */
  predicate AsksNothing(lib: Lib, e: Expression) {
    match e
    case Range(_, min, max, inclusive) => if inclusive then min > max else min >= max
    case EnumMatch(_, allowed) => allowed == []
    case JurisdictionMatch(_, allowed) => allowed == []
    case RoleRequired(_, roles, anyOf) => anyOf && roles == []
    case DateRange(_, after, before) => Earliest(lib, after) > Latest(lib, before)
    case _ => false
  }

  // ---------------------------------------------------------------------- recorded inputs determine

  lemma PlainKeys(f: string)
    requires f == "" || f == PROTO
    ensures '.' !in f && '.' !in SANCTIONS_DATA && '.' !in LIST_DATA && '.' !in CurrencyField(f)
    ensures f != SANCTIONS_DATA && f != LIST_DATA && f != CurrencyField(f)
  {
    assert |PROTO| == 9 && PROTO[8] == '_' && |SANCTIONS_DATA| == 14 && |LIST_DATA| == 9 && LIST_DATA[8] == 'a';
    assert |CurrencyField(f)| == |f| + 9;
  }

  lemma NothingPasses(lib: Lib, e: Expression, v: Value, aux: Value)
    requires Leaf(e) && AsksNothing(lib, e) && ValidDates(lib)
    ensures FieldVerdict(lib, e, v, aux) == Some(false)
  {
  }

  lemma RecordsAgree(lib: Lib, names: set<string>, a: Context, b: Context)
    ensures Record(lib, names, a) == Record(lib, names, b) <==> forall f :: f in names ==> AgreeAt(lib, f, a, b)
  {
    if Record(lib, names, a) == Record(lib, names, b) {
      forall f | f in names ensures AgreeAt(lib, f, a, b) {
        assert Record(lib, names, a)[f] == Record(lib, names, b)[f];
      }
    }
  }

  /** A path that leads somewhere leads through something. */
  lemma PresentBelow(lib: Lib, ctx: Context, f: string, head: string)
    requires |Split(f, '.')| > 1 && Split(f, '.')[0] == head && '.' !in head
    requires Present(FieldValue(lib, ctx, f))
    ensures Present(FieldValue(lib, ctx, head))
  {
    var v, rest := Property(lib, VObj(ctx), head), Split(f, '.')[1..];
    assert FieldValue(lib, ctx, f) == Descend(lib, v, rest);
    assert Split(head, '.') == [head] && [head][1..] == [];
    assert FieldValue(lib, ctx, head) == Descend(lib, v, []) == v;
  }

  lemma PresentAlike(lib: Lib, a: Context, b: Context, f: string)
    requires AgreeAt(lib, f, a, b)
    ensures Present(FieldValue(lib, a, f)) <==> Present(FieldValue(lib, b, f))
  {
  }

  ghost predicate AgreeBut(lib: Lib, fields: seq<string>, a: Context, b: Context) {
    forall i :: 0 <= i < |fields| && fields[i] != PROTO ==> AgreeAt(lib, fields[i], a, b)
  }

  /** A presence check that needs the prototype accessor and something below it. */
  lemma ProtoFollows(lib: Lib, fields: seq<string>, a: Context, b: Context)
    requires AgreeBut(lib, fields, a, b) && exists i :: 0 <= i < |fields| && UnderProto(fields[i])
    ensures PresenceVerdict(lib, fields, true, a) ==> PresenceVerdict(lib, fields, true, b)
  {
    var k :| 0 <= k < |fields| && UnderProto(fields[k]);
    if PresenceVerdict(lib, fields, true, a) {
      PresentAlike(lib, a, b, fields[k]);
      PlainKeys(PROTO);
      PresentBelow(lib, b, fields[k], PROTO);
      forall i | 0 <= i < |fields| ensures Present(FieldValue(lib, b, fields[i])) {
        if fields[i] != PROTO {
          PresentAlike(lib, a, b, fields[i]);
        }
      }
    }
  }

  lemma PresenceDetermined(lib: Lib, e: Expression, a: Context, b: Context)
    requires e.FieldPresence? && FieldsRecorded(e) && InputFields(lib, e, a) == InputFields(lib, e, b)
    ensures Verdict(lib, e, a) == Verdict(lib, e, b)
  {
    RecordsAgree(lib, RecordedFields(e), a, b);
    if PROTO in e.fields {
      assert AgreeBut(lib, e.fields, a, b) && AgreeBut(lib, e.fields, b, a);
      ProtoFollows(lib, e.fields, a, b);
      ProtoFollows(lib, e.fields, b, a);
    } else {
      AgreeDetermines(lib, e, a, b);
    }
  }

  lemma FieldDetermined(lib: Lib, e: Expression, a: Context, b: Context)
    requires Leaf(e) && !e.FieldPresence? && FieldsRecorded(e) && SameInputs(lib, e, a, b)
    ensures Verdict(lib, e, a) == Verdict(lib, e, b)
  {
    RecordsAgree(lib, RecordedFields(e), a, b);
    assert AgreeAt(lib, e.field, a, b);
    assert AgreeAt(lib, AuxField(e), a, b);
    AgreeDetermines(lib, e, a, b);
  }

  lemma NothingDetermined(lib: Lib, e: Expression, a: Context, b: Context)
    requires Leaf(e) && AsksNothing(lib, e) && ValidDates(lib)
    ensures Verdict(lib, e, a) == Verdict(lib, e, b)
  {
    NothingPasses(lib, e, FieldValue(lib, a, e.field), FieldValue(lib, a, AuxField(e)));
    NothingPasses(lib, e, FieldValue(lib, b, e.field), FieldValue(lib, b, AuxField(e)));
  }

  lemma LeafDetermined(lib: Lib, e: Expression, a: Context, b: Context)
    requires Leaf(e) && SameInputs(lib, e, a, b)
    requires FieldsRecorded(e) || (AsksNothing(lib, e) && ValidDates(lib))
    ensures Verdict(lib, e, a) == Verdict(lib, e, b)
  {
    if !FieldsRecorded(e) {
      NothingDetermined(lib, e, a, b);
    } else if e.FieldPresence? {
      PresenceDetermined(lib, e, a, b);
    } else {
      FieldDetermined(lib, e, a, b);
    }
  }

  // ---------------------------------------------------------------------- an unrecorded field matters

  /** A value, and a value of the second field, that the expression accepts. */
  lemma AcceptedValue(lib: Lib, e: Expression) returns (v: Value, aux: Value)
    requires Leaf(e) && !e.FieldPresence? && !e.RegexMatch? && !AsksNothing(lib, e) && ValidDates(lib)
    ensures FieldVerdict(lib, e, v, aux) == Some(true)
  {
    aux := VNull;
    match e {
      case Threshold(_, op, value) =>
        v := VNum(if op == Gt || op == Neq then value + 1.0 else if op == Lt then value - 1.0 else value);
      case Range(_, min, max, _) => v := VNum((min + max) / 2.0);
      case EnumMatch(_, allowed) => v := VStr(allowed[0]);
      case StringMatch(_, pattern, _) => v := VStr(pattern);
      case BooleanRequired(_, required) => v := VBool(required);
      case SanctionsMatch(_, _) => v := VStr("");
      case DateRange(_, after, before) =>
        var t := Earliest(lib, after);
        assert lib.isoDate(t).Some?;
        v := VStr(lib.isoDate(t).value);
      case AmountLimit(_, maxAmount, currency) =>
        v, aux := VNum(maxAmount), VStr(if Given(currency) then currency.value else "");
      case CountLimit(_, maxCount) => v := VNum(maxCount);
      case RoleRequired(_, roles, _) =>
        v := VArr(seq(|roles|, i requires 0 <= i < |roles| => VStr(roles[i])));
        forall i | 0 <= i < |roles| ensures VStr(roles[i]) in v.items {
          assert v.items[i] == VStr(roles[i]);
        }
        assert roles != [] ==> VStr(roles[0]) in v.items;
      case JurisdictionMatch(_, allowed) => v := VStr(allowed[0]);
      case ListMembership(_, listId, _) =>
        v, aux := VStr(""), VObj(map[listId := VArr(if e.mustBePresent then [VStr("")] else [])]);
        assert Property(lib, aux, listId) == aux.fields[listId];
      case _ =>
    }
  }

  /** Contexts that differ only at a field the record leaves out have the same inputs. */
  lemma UnseenField(lib: Lib, e: Expression, base: Context, v: Value, w: Value)
    requires Leaf(e) && !e.FieldPresence? && (e.field == "" || e.field == PROTO)
    ensures SameInputs(lib, e, base[e.field := v], base[e.field := w])
  {
    var a, b := base[e.field := v], base[e.field := w];
    PlainKeys(e.field);
    forall g | g in {SANCTIONS_DATA, LIST_DATA, CurrencyField(e.field)} ensures AgreeAt(lib, g, a, b) {
      TopLevelField(lib, a, g);
      TopLevelField(lib, b, g);
    }
    RecordsAgree(lib, {}, a, b);
    assert RecordedFields(e) == {};
  }

  lemma FieldMatters(lib: Lib, e: Expression) returns (a: Context, b: Context)
    requires Leaf(e) && !e.FieldPresence? && !e.RegexMatch? && ValidDates(lib)
    requires !FieldsRecorded(e) && !AsksNothing(lib, e)
    ensures SameInputs(lib, e, a, b) && Verdict(lib, e, a) != Verdict(lib, e, b)
  {
    var v, aux := AcceptedValue(lib, e);
    var base: Context := map[AuxField(e) := aux];
    a, b := base[e.field := v], base[e.field := VNull];
    UnseenField(lib, e, base, v, VNull);
    OnlyField(lib, e, v, aux, a);
    OnlyField(lib, e, VNull, aux, b);
    AbsentFails(lib, e, VNull, aux);
  }

  lemma OnlyField(lib: Lib, e: Expression, v: Value, aux: Value, ctx: Context)
    requires Leaf(e) && !e.FieldPresence? && (e.field == "" || e.field == PROTO)
    requires ctx == map[AuxField(e) := aux][e.field := v]
    ensures Verdict(lib, e, ctx) == FieldVerdict(lib, e, v, aux)
  {
    PlainKeys(e.field);
    TopLevelField(lib, ctx, e.field);
    TopLevelField(lib, ctx, AuxField(e));
  }

  // ---------------------------------------------------------------------- presence of the prototype accessor

  lemma {:induction false} SingleHead(s: string, sep: char)
    requires |Split(s, sep)| == 1
    ensures Split(s, sep) == [s]
  {
    if sep in s {
      SplitDotted(s, sep);
    }
  }

  /** A tree in which every path over these names up to that length is there. */
  function Nest(names: set<string>, depth: nat): Value {
    if depth == 0 then VBool(true) else VObj(map n | n in names :: Nest(names, depth - 1))
  }

  lemma {:induction false} NestHolds(lib: Lib, names: set<string>, depth: nat, parts: seq<string>)
    requires |parts| <= depth && forall i :: 0 <= i < |parts| ==> parts[i] in names
    ensures Present(Descend(lib, Nest(names, depth), parts))
  {
    if parts != [] {
      NestHolds(lib, names, depth - 1, parts[1..]);
    }
  }

  function Deepest(fields: seq<string>): (d: nat)
    ensures forall i :: 0 <= i < |fields| ==> |Split(fields[i], '.')| <= d
  {
    if fields == [] then 0
    else
      var d := Deepest(fields[1..]);
      if |Split(fields[0], '.')| > d then |Split(fields[0], '.')| else d
  }

  function PartsOf(fields: seq<string>): set<string> {
    set i, j | 0 <= i < |fields| && 0 <= j < |Split(fields[i], '.')| :: Split(fields[i], '.')[j]
  }

  /** Everything but the prototype accessor is there, or nothing is. */
  function Surroundings(e: Expression): Context
    requires e.FieldPresence?
  {
    var names := PartsOf(e.fields);
    map n | n in names :: if e.allRequired then Nest(names, Deepest(e.fields)) else VNull
  }

  /** What another field shows, by the part of its path below the first name. */
  lemma Below(lib: Lib, e: Expression, i: nat, v: Value)
    requires e.FieldPresence? && i < |e.fields| && e.fields[i] != PROTO
    ensures var parts := Split(e.fields[i], '.');
      var head := if parts[0] == PROTO then v else if e.allRequired then Nest(PartsOf(e.fields), Deepest(e.fields)) else VNull;
      && FieldValue(lib, Surroundings(e)[PROTO := v], e.fields[i]) == Descend(lib, head, parts[1..])
      && (parts[0] == PROTO ==> UnderProto(e.fields[i]))
  {
    var parts, ctx := Split(e.fields[i], '.'), Surroundings(e)[PROTO := v];
    if |parts| == 1 {
      SingleHead(e.fields[i], '.');
    }
    assert parts[0] in PartsOf(e.fields);
    assert FieldValue(lib, ctx, e.fields[i]) == Descend(lib, Property(lib, VObj(ctx), parts[0]), parts[1..]);
  }

  /** What the other fields show does not depend on the prototype accessor. */
  lemma OtherFields(lib: Lib, e: Expression, i: nat, v: Value)
    requires e.FieldPresence? && !FieldsRecorded(e) && i < |e.fields| && e.fields[i] != PROTO && (v == VNull || v == VBool(true))
    ensures Present(FieldValue(lib, Surroundings(e)[PROTO := v], e.fields[i])) <==> e.allRequired
    ensures AgreeAt(lib, e.fields[i], Surroundings(e)[PROTO := v], Surroundings(e)[PROTO := VNull])
  {
    var parts, names := Split(e.fields[i], '.'), PartsOf(e.fields);
    Below(lib, e, i, v);
    Below(lib, e, i, VNull);
    if parts[0] != PROTO && e.allRequired {
      forall j | 0 <= j < |parts[1..]| ensures parts[1..][j] in names {
        assert parts[1..][j] == Split(e.fields[i], '.')[j + 1];
      }
      NestHolds(lib, names, Deepest(e.fields), parts[1..]);
    }
  }

  lemma ProtoUnseen(lib: Lib, e: Expression)
    requires e.FieldPresence? && !FieldsRecorded(e)
    ensures SameInputs(lib, e, Surroundings(e)[PROTO := VBool(true)], Surroundings(e)[PROTO := VNull])
  {
    var a, b := Surroundings(e)[PROTO := VBool(true)], Surroundings(e)[PROTO := VNull];
    PlainKeys(PROTO);
    forall f | f in {SANCTIONS_DATA, LIST_DATA} ensures AgreeAt(lib, f, a, b) {
      TopLevelField(lib, a, f);
      TopLevelField(lib, b, f);
    }
    forall f | f in RecordedFields(e) ensures AgreeAt(lib, f, a, b) {
      var i :| 0 <= i < |e.fields| && e.fields[i] == f;
      OtherFields(lib, e, i, VBool(true));
    }
    RecordsAgree(lib, RecordedFields(e), a, b);
  }

  /** Contexts that differ only in whether the prototype accessor is there. */
  lemma ProtoMatters(lib: Lib, e: Expression) returns (a: Context, b: Context)
    requires e.FieldPresence? && !FieldsRecorded(e)
    ensures SameInputs(lib, e, a, b) && Verdict(lib, e, a) != Verdict(lib, e, b)
  {
    a, b := Surroundings(e)[PROTO := VBool(true)], Surroundings(e)[PROTO := VNull];
    ProtoUnseen(lib, e);
    ProtoShows(lib, e, VBool(true));
    ProtoShows(lib, e, VNull);
  }

  lemma ProtoShows(lib: Lib, e: Expression, v: Value)
    requires e.FieldPresence? && !FieldsRecorded(e) && (v == VNull || v == VBool(true))
    ensures PresenceVerdict(lib, e.fields, e.allRequired, Surroundings(e)[PROTO := v]) <==> v == VBool(true)
  {
    var ctx := Surroundings(e)[PROTO := v];
    PlainKeys(PROTO);
    TopLevelField(lib, ctx, PROTO);
    forall i | 0 <= i < |e.fields| && e.fields[i] != PROTO ensures Present(FieldValue(lib, ctx, e.fields[i])) <==> e.allRequired {
      OtherFields(lib, e, i, v);
    }
    var k :| 0 <= k < |e.fields| && e.fields[k] == PROTO;
    assert Present(FieldValue(lib, ctx, e.fields[k])) <==> v == VBool(true);
  }

  // ---------------------------------------------------------------------- main results

  /**
   * The recorded inputs, with the data tables and currencies, determine the outcome of a single
   * expression exactly when the fields it reads can be recorded or it asks nothing.
   */
  lemma RecordedInputsExactly(lib: Lib, e: Expression)
    requires Leaf(e) && !e.RegexMatch? && ValidDates(lib)
    ensures Determined(lib, e) <==> FieldsRecorded(e) || AsksNothing(lib, e)
  {
    if FieldsRecorded(e) || AsksNothing(lib, e) {
      forall a, b | SameInputs(lib, e, a, b) ensures Verdict(lib, e, a) == Verdict(lib, e, b) {
        LeafDetermined(lib, e, a, b);
      }
    } else {
      var a, b;
      if e.FieldPresence? {
        a, b := ProtoMatters(lib, e);
      } else {
        a, b := FieldMatters(lib, e);
      }
      assert SameInputs(lib, e, a, b) && Verdict(lib, e, a) != Verdict(lib, e, b);
    }
  }

  /** Every part that is not itself a composite is determined by its record. */
  predicate PartsRecorded(lib: Lib, e: Expression) {
    match e
    case CompositeAnd(rules) => forall i :: 0 <= i < |rules| ==> PartsRecorded(lib, rules[i])
    case CompositeOr(rules) => forall i :: 0 <= i < |rules| ==> PartsRecorded(lib, rules[i])
    case _ => FieldsRecorded(e) || AsksNothing(lib, e)
  }

  /** A record of the whole holds the record of each part. */
  lemma PartInputs(lib: Lib, e: Expression, i: nat, a: Context, b: Context)
    requires !Leaf(e) && i < |e.rules| && SameInputs(lib, e, a, b)
    ensures SameInputs(lib, e.rules[i], a, b)
  {
    var part := e.rules[i];
    RecordedPart(e.rules, |e.rules|, i);
    RecordsAgree(lib, RecordedFields(e), a, b);
    RecordsAgree(lib, RecordedFields(part), a, b);
    AmountPart(e, i);
  }

  lemma AmountPart(e: Expression, i: nat)
    requires !Leaf(e) && i < |e.rules|
    ensures AmountFields(e.rules[i]) <= AmountFields(e)
  {
  }

  /** The recorded inputs of nested AND and OR expressions over such parts determine the outcome. */
  lemma {:induction false} RecordedInputsDetermine(lib: Lib, e: Expression, a: Context, b: Context)
    requires PartsRecorded(lib, e) && ValidDates(lib) && SameInputs(lib, e, a, b)
    ensures Verdict(lib, e, a) == Verdict(lib, e, b)
  {
    if Leaf(e) {
      LeafDetermined(lib, e, a, b);
    } else {
      forall i | 0 <= i < |e.rules| ensures Verdict(lib, e.rules[i], a) == Verdict(lib, e.rules[i], b) {
        PartInputs(lib, e, i, a, b);
        RecordedInputsDetermine(lib, e.rules[i], a, b);
      }
      SameParts(lib, e, a, b);
    }
  }
}
