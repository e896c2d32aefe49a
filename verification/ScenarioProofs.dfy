/**
 * Generator and evaluator agree: for a single expression that is neither a composite nor a
 * regular expression, exactly when a check made on the expression before generating holds.
 */
module ScenarioProofs {
  import opened Wrappers
  import opened Strings
  import opened RuleExpressions
  import opened RuleInputs
  import opened ScenarioGenerator

  /**
   * What is assumed of the library: the laws of dates, ASCII letter case, rounded addition that
   * does not go the wrong way, and no built-in method with the name of a data table.
   */
  ghost predicate ValidLib(lib: Lib) {
    && ValidDates(lib)
    && lib.parseDate(DEFAULT_DATE).Some?
    && (forall s :: Ascii(s) ==> lib.lower(s) == AsciiLower(s))
    && (forall s :: Ascii(s) ==> lib.upper(s) == AsciiUpper(s))
    && (forall v :: lib.add(v, -1.0) <= v <= lib.add(v, 1.0))
    && !lib.inherits(OfObject, SANCTIONS_DATA) && !lib.inherits(OfObject, LIST_DATA)
  }

  predicate Agrees(lib: Lib, e: Expression, s: Scenario) {
    Verdict(lib, e, s.context) == Some(s.expected)
  }

  /** Generation does not throw and every scenario comes out as expected. */
  ghost predicate AllAgree(lib: Lib, e: Expression, cases: Option<seq<Scenario>>) {
    cases.Some? && EachAgrees(lib, e, cases.value)
  }

  // ---------------------------------------------------------------------- the exact class of leaves

  predicate TopLevel(f: string) {
    '.' !in f
  }

  predicate StringSound(lib: Lib, pattern: string) {
    && lib.lower(pattern + "_x") != lib.lower(pattern)
    && (match FlipCase(lib, pattern)
        case None => true
        case Some(flipped) => flipped == "" || lib.lower(flipped) == lib.lower(pattern))
  }

  /** Bounds that are given parse, lie at least two milliseconds apart, and all dates made from them exist. */
  predicate DateSound(lib: Lib, after: Option<string>, before: Option<string>) {
    var a, b := Bound(lib, after), Bound(lib, before);
    && (Given(after) ==> a.Some? && lib.isoDate(a.value - DAY).Some?)
    && (Given(before) ==> b.Some? && lib.isoDate(b.value + DAY).Some?)
    && (if Given(after) && Given(before) then b.value - a.value >= 2 && lib.isoDate(MidTime(a.value, b.value)).Some?
        else (Given(after) ==> lib.isoDate(a.value + DAY).Some?) && (Given(before) ==> lib.isoDate(b.value - DAY).Some?))
  }

  predicate TwoDistinct(xs: seq<string>) {
    exists i :: 0 <= i < |xs| && xs[i] != xs[0]
  }

  /** Found even in the empty context: inherited. */
  predicate FoundInEmpty(lib: Lib, f: string) {
    Present(FieldValue(lib, map[], f))
  }

  function FoundAnyway(lib: Lib): string -> bool {
    f => FoundInEmpty(lib, f)
  }

  /** By which fields are found anyway. */
  predicate PresenceSound(anyway: string -> bool, fields: seq<string>, allRequired: bool) {
    if allRequired then
      && |fields| > 0
      && (forall i :: 0 <= i < |fields| ==> TopLevel(fields[i]) || anyway(fields[i]))
      && (if |fields| == 1 then !anyway(fields[0])
          else exists i :: 0 <= i < |fields| && fields[i] != fields[0] && !anyway(fields[i]))
    else
      && (exists i :: 0 <= i < |fields| && TopLevel(fields[i]))
      && (forall i :: 0 <= i < |fields| ==> !anyway(fields[i]))
  }

  /** Adding one makes a difference. */
  predicate Raises(lib: Lib, v: real) {
    lib.add(v, 1.0) != v
  }

  /** Subtracting one makes a difference. */
  predicate Lowers(lib: Lib, v: real) {
    lib.add(v, -1.0) != v
  }

  predicate RangeSound(lib: Lib, min: real, max: real, inclusive: bool) {
    var mid := lib.half(lib.add(min, max));
    if inclusive then min <= mid <= max && Lowers(lib, min) && Raises(lib, max) else min < mid < max
  }

  predicate RolesSound(roles: seq<string>, anyOf: bool) {
    |roles| > 0 && if anyOf || |roles| == 1 then "__invalid__" !in roles else TwoDistinct(roles)
  }

  /** A check on the expression alone, made before generating anything. */
  predicate LeafSound(lib: Lib, e: Expression)
    requires Leaf(e)
  {
    match e
    case Threshold(f, op, value) => TopLevel(f) && if op == Gt || op == Lte || op == Eq then Raises(lib, value) else Lowers(lib, value)
    case Range(f, min, max, inclusive) => TopLevel(f) && RangeSound(lib, min, max, inclusive)
    case EnumMatch(f, allowed) => allowed == [] || (TopLevel(f) && "__invalid__" !in allowed && "" !in allowed)
    case StringMatch(f, pattern, caseSensitive) => TopLevel(f) && (caseSensitive || StringSound(lib, pattern))
    case BooleanRequired(f, _) => TopLevel(f)
    case FieldPresence(fields, allRequired) => PresenceSound(FoundAnyway(lib), fields, allRequired)
    case SanctionsMatch(f, lists) => TopLevel(f) && f != SANCTIONS_DATA && |lists| > 0
    case RegexMatch(_, _, _) => false
    case DateRange(f, after, before) => TopLevel(f) && DateSound(lib, after, before)
    case AmountLimit(f, maxAmount, currency) => TopLevel(f) && Raises(lib, maxAmount) && currency != Some("__wrong__")
    case CountLimit(f, maxCount) => TopLevel(f) && Raises(lib, maxCount)
    case RoleRequired(f, roles, anyOf) => TopLevel(f) && RolesSound(roles, anyOf)
    case JurisdictionMatch(f, allowed) => allowed == [] || (TopLevel(f) && "__forbidden__" !in allowed)
    case ListMembership(f, _, _) => TopLevel(f) && f != LIST_DATA
  }

  // ---------------------------------------------------------------------- field lookup

  /** A dotted name never reaches the key that carries it, so the value stored there is ignored. */
  lemma DottedIgnores(lib: Lib, f: string, g: string, x: Value, y: Value, rest: Context)
    requires Split(g, '.')[0] != f
    ensures FieldValue(lib, map[f := x] + rest, g) == FieldValue(lib, map[f := y] + rest, g)
  {
    var p := Split(g, '.')[0];
    assert Property(lib, VObj(map[f := x] + rest), p) == Property(lib, VObj(map[f := y] + rest), p);
  }

  lemma DottedHead(f: string)
    requires !TopLevel(f)
    ensures Split(f, '.')[0] != f && '.' !in Split(f, '.')[0]
  {
    SplitDotted(f, '.');
    HeadHasNoSeparator(f, '.');
  }

  lemma {:induction false} HeadHasNoSeparator(s: string, sep: char)
    ensures sep !in Split(s, sep)[0]
  {
    if s != [] && s[0] != sep {
      HeadHasNoSeparator(s[1..], sep);
    }
  }

  lemma {:induction false} HeadOfExtension(s: string, t: string, sep: char)
    requires sep in s
    ensures Split(s + t, sep)[0] == Split(s, sep)[0]
  {
    assert (s + t)[1..] == s[1..] + t;
    if s[0] != sep {
      HeadOfExtension(s[1..], t, sep);
    }
  }

  /** What can be found in an object that has no properties of its own. */
  predicate BuiltIn(v: Value) {
    v.VFunction? || v.VPrototype? || v.VNull? || v.VUndefined?
  }

  lemma {:induction false} BuiltInBelow(lib: Lib, v: Value, parts: seq<string>)
    requires BuiltIn(v)
    ensures BuiltIn(Descend(lib, v, parts))
    ensures Present(Descend(lib, v, parts)) && parts != [] ==> v.VPrototype?
    decreases parts
  {
    if parts != [] && IsObject(v) {
      BuiltInBelow(lib, Property(lib, v, parts[0]), parts[1..]);
    }
  }

  lemma FirstStep(lib: Lib, ctx: Context, f: string)
    ensures FieldValue(lib, ctx, f) == Descend(lib, Property(lib, VObj(ctx), Split(f, '.')[0]), Split(f, '.')[1..])
  {
  }

  /** A path whose first name is not a key of the context. */
  lemma NotOwn(lib: Lib, ctx: Context, f: string)
    requires Split(f, '.')[0] !in ctx
    ensures FieldValue(lib, ctx, f) == FieldValue(lib, map[], f) && BuiltIn(FieldValue(lib, ctx, f))
  {
    FirstStep(lib, ctx, f);
    FirstStep(lib, map[], f);
    BuiltInBelow(lib, Inherited(lib, OfObject, Split(f, '.')[0]), Split(f, '.')[1..]);
  }

  lemma Single(lib: Lib, f: string, x: Value)
    requires TopLevel(f)
    ensures FieldValue(lib, map[f := x], f) == x
  {
    TopLevelField(lib, map[f := x], f);
  }

  lemma DottedSingle(lib: Lib, f: string, x: Value)
    requires !TopLevel(f)
    ensures BuiltIn(FieldValue(lib, map[f := x], f))
  {
    DottedHead(f);
    NotOwn(lib, map[f := x], f);
  }

  /** Two-key contexts of the generator. */
  lemma Pair(lib: Lib, f: string, x: Value, k: string, d: Value)
    requires TopLevel(f) && TopLevel(k) && f != k
    ensures FieldValue(lib, map[f := x][k := d], f) == x && FieldValue(lib, map[f := x][k := d], k) == d
  {
    TopLevelField(lib, map[f := x][k := d], f);
    TopLevelField(lib, map[f := x][k := d], k);
  }

  /** When the field is dotted or is the data key itself, the value given to it makes no difference. */
  lemma PairIgnores(lib: Lib, f: string, x: Value, y: Value, k: string, d: Value)
    requires TopLevel(k) && (!TopLevel(f) || f == k)
    ensures FieldValue(lib, map[f := x][k := d], f) == FieldValue(lib, map[f := y][k := d], f)
    ensures FieldValue(lib, map[f := x][k := d], k) == FieldValue(lib, map[f := y][k := d], k)
  {
    if f == k {
      assert map[f := x][k := d] == map[k := d] == map[f := y][k := d];
    } else {
      DottedHead(f);
      assert map[f := x][k := d] == map[f := x] + map[k := d];
      assert map[f := y][k := d] == map[f := y] + map[k := d];
      DottedIgnores(lib, f, f, x, y, map[k := d]);
      DottedIgnores(lib, f, k, x, y, map[k := d]);
    }
  }

  lemma DataKeys()
    ensures TopLevel(SANCTIONS_DATA) && TopLevel(LIST_DATA)
  {
  }

  // ---------------------------------------------------------------------- one leaf at a time

  /** A verdict, by the values found. */
  lemma ByValues(lib: Lib, e: Expression, ctx: Context, v: Value, aux: Value)
    requires Leaf(e) && !e.FieldPresence? && FieldValue(lib, ctx, e.field) == v && FieldValue(lib, ctx, AuxField(e)) == aux
    ensures Verdict(lib, e, ctx) == FieldVerdict(lib, e, v, aux)
  {
  }

  /** A context that sets the two keys an expression reads. */
  lemma TwoKeys(lib: Lib, e: Expression, v: Value, aux: Value)
    requires Leaf(e) && !e.FieldPresence? && TopLevel(e.field) && TopLevel(AuxField(e)) && e.field != AuxField(e)
    ensures Verdict(lib, e, map[e.field := v][AuxField(e) := aux]) == FieldVerdict(lib, e, v, aux)
  {
    Pair(lib, e.field, v, AuxField(e), aux);
    ByValues(lib, e, map[e.field := v][AuxField(e) := aux], v, aux);
  }

  lemma AgreesBy(lib: Lib, e: Expression, s: Scenario, passed: bool)
    requires Verdict(lib, e, s.context) == Some(passed)
    ensures Agrees(lib, e, s) <==> (passed <==> s.expected)
  {
  }

  /** Expressions that read a single field. */
  predicate OneField(e: Expression) {
    Leaf(e) && !e.FieldPresence? && !e.SanctionsMatch? && !e.ListMembership? && !e.AmountLimit?
  }

  /** A scenario that sets the one field read. */
  lemma SingleAgrees(lib: Lib, e: Expression, x: Value, expected: bool)
    requires OneField(e)
    ensures Agrees(lib, e, Scenario(map[e.field := x], expected)) <==>
      (if TopLevel(e.field) then FieldVerdict(lib, e, x, x) else Some(false)) == Some(expected)
  {
    if TopLevel(e.field) {
      Single(lib, e.field, x);
    } else {
      DottedSingle(lib, e.field, x);
      AbsentFails(lib, e, FieldValue(lib, map[e.field := x], e.field), FieldValue(lib, map[e.field := x], e.field));
    }
  }

  lemma MissingAgrees(lib: Lib, e: Expression)
    requires Leaf(e) && !e.FieldPresence?
    ensures Agrees(lib, e, Scenario(map[], false))
  {
    NotOwn(lib, map[], e.field);
    AbsentFails(lib, e, FieldValue(lib, map[], e.field), FieldValue(lib, map[], AuxField(e)));
  }

  ghost predicate Every(p: Scenario -> bool, cases: seq<Scenario>) {
    forall i :: 0 <= i < |cases| ==> p(cases[i])
  }

  function Judge(lib: Lib, e: Expression): Scenario -> bool {
    s => Agrees(lib, e, s)
  }

  ghost predicate EachAgrees(lib: Lib, e: Expression, cases: seq<Scenario>) {
    Every(Judge(lib, e), cases)
  }

  lemma Concat(p: Scenario -> bool, a: seq<Scenario>, b: seq<Scenario>)
    ensures Every(p, a + b) <==> Every(p, a) && Every(p, b)
  {
    var all := a + b;
    if Every(p, all) {
      forall i | 0 <= i < |a| ensures p(a[i]) {
        assert all[i] == a[i];
      }
      forall i | 0 <= i < |b| ensures p(b[i]) {
        assert all[|a| + i] == b[i];
      }
    }
  }

  lemma One(p: Scenario -> bool, s: Scenario)
    ensures Every(p, [s]) <==> p(s)
  {
    assert [s][0] == s;
  }

  lemma Cons(p: Scenario -> bool, s: Scenario, more: seq<Scenario>)
    ensures Every(p, [s] + more) <==> p(s) && Every(p, more)
  {
    Concat(p, [s], more);
    One(p, s);
  }

  lemma Three(p: Scenario -> bool, cases: seq<Scenario>, a: Scenario, b: Scenario, c: Scenario)
    requires cases == [a, b, c]
    ensures Every(p, cases) <==> p(a) && p(b) && p(c)
  {
    assert cases[0] == a && cases[1] == b && cases[2] == c;
  }

  lemma Four(p: Scenario -> bool, cases: seq<Scenario>, a: Scenario, b: Scenario, c: Scenario, d: Scenario)
    requires cases == [a, b, c, d]
    ensures Every(p, cases) <==> p(a) && p(b) && p(c) && p(d)
  {
    assert cases[0] == a && cases[1] == b && cases[2] == c && cases[3] == d;
  }

  lemma Five(p: Scenario -> bool, cases: seq<Scenario>, a: Scenario, b: Scenario, c: Scenario, d: Scenario, e: Scenario)
    requires cases == [a, b, c, d, e]
    ensures Every(p, cases) <==> p(a) && p(b) && p(c) && p(d) && p(e)
  {
    assert cases[0] == a && cases[1] == b && cases[2] == c && cases[3] == d && cases[4] == e;
  }

  lemma ThresholdExact(lib: Lib, e: Expression)
    requires e.Threshold? && ValidLib(lib)
    ensures EachAgrees(lib, e, ThresholdScenarios(lib, e.field, e.op, e.value, ALL)) <==> LeafSound(lib, e)
  {
    var f, v := e.field, e.value;
    var upward := e.op == Gt || e.op == Gte;
    var pass := VNum(if e.op == Eq then v else if upward then lib.add(v, 1.0) else lib.add(v, -1.0));
    var fail := VNum(if e.op == Neq then v else if upward then lib.add(v, -1.0) else lib.add(v, 1.0));
    var edge := e.op == Gte || e.op == Lte || e.op == Eq;
    Four(Judge(lib, e), ThresholdScenarios(lib, f, e.op, v, ALL), Scenario(map[f := pass], true), Scenario(map[f := fail], false),
         Scenario(map[f := VNum(v)], edge), Scenario(map[], false));
    SingleAgrees(lib, e, pass, true);
    SingleAgrees(lib, e, fail, false);
    SingleAgrees(lib, e, VNum(v), edge);
    MissingAgrees(lib, e);
  }

  lemma RangeExact(lib: Lib, e: Expression)
    requires e.Range? && ValidLib(lib)
    ensures EachAgrees(lib, e, RangeScenarios(lib, e.field, e.min, e.max, e.inclusive, ALL)) <==> LeafSound(lib, e)
  {
    var f, mid, lo, hi := e.field, VNum(lib.half(lib.add(e.min, e.max))), VNum(lib.add(e.min, -1.0)), VNum(lib.add(e.max, 1.0));
    var inside := Scenario(map[f := mid], true);
    var more := [Scenario(map[f := lo], false), Scenario(map[f := hi], false), Scenario(map[f := VNum(e.min)], e.inclusive),
                 Scenario(map[f := VNum(e.max)], e.inclusive), Scenario(map[], false)];
    assert RangeScenarios(lib, f, e.min, e.max, e.inclusive, ALL) == [inside] + more;
    Cons(Judge(lib, e), inside, more);
    Five(Judge(lib, e), more, more[0], more[1], more[2], more[3], more[4]);
    SingleAgrees(lib, e, mid, true);
    SingleAgrees(lib, e, lo, false);
    SingleAgrees(lib, e, hi, false);
    SingleAgrees(lib, e, VNum(e.min), e.inclusive);
    SingleAgrees(lib, e, VNum(e.max), e.inclusive);
    MissingAgrees(lib, e);
  }

  lemma EnumExact(lib: Lib, e: Expression)
    requires e.EnumMatch?
    ensures EachAgrees(lib, e, EnumScenarios(e.field, e.allowed, ALL)) <==> LeafSound(lib, e)
  {
    var f := e.field;
    var more := [Scenario(map[f := VStr("__invalid__")], false), Scenario(map[f := VStr("")], false), Scenario(map[], false)];
    Three(Judge(lib, e), more, more[0], more[1], more[2]);
    SingleAgrees(lib, e, VStr("__invalid__"), false);
    SingleAgrees(lib, e, VStr(""), false);
    MissingAgrees(lib, e);
    if e.allowed == [] {
      assert EnumScenarios(f, e.allowed, ALL) == more;
    } else {
      var member := Scenario(map[f := VStr(e.allowed[0])], true);
      assert EnumScenarios(f, e.allowed, ALL) == [member] + more;
      Cons(Judge(lib, e), member, more);
      SingleAgrees(lib, e, VStr(e.allowed[0]), true);
    }
  }

  lemma JurisdictionExact(lib: Lib, e: Expression)
    requires e.JurisdictionMatch?
    ensures EachAgrees(lib, e, JurisdictionScenarios(e.field, e.allowed, ALL)) <==> LeafSound(lib, e)
  {
    var f := e.field;
    var forbidden, missing := Scenario(map[f := VStr("__forbidden__")], false), Scenario(map[], false);
    Cons(Judge(lib, e), forbidden, [missing]);
    assert [forbidden] + [missing] == [forbidden, missing];
    SingleAgrees(lib, e, VStr("__forbidden__"), false);
    MissingAgrees(lib, e);
    if e.allowed == [] {
      assert JurisdictionScenarios(f, e.allowed, ALL) == [forbidden, missing];
    } else {
      var member := Scenario(map[f := VStr(e.allowed[0])], true);
      assert JurisdictionScenarios(f, e.allowed, ALL) == [member] + [forbidden, missing];
      Cons(Judge(lib, e), member, [forbidden, missing]);
      SingleAgrees(lib, e, VStr(e.allowed[0]), true);
    }
  }

  lemma StringExact(lib: Lib, e: Expression)
    requires e.StringMatch?
    ensures EachAgrees(lib, e, StringScenarios(lib, e.field, e.pattern, e.caseSensitive, ALL)) <==> LeafSound(lib, e)
  {
    var f, longer, flip := e.field, e.pattern + "_x", FlipCase(lib, e.pattern);
    assert |longer| > |e.pattern|;
    var same, other, missing := Scenario(map[f := VStr(e.pattern)], true), Scenario(map[f := VStr(longer)], false), Scenario(map[], false);
    SingleAgrees(lib, e, VStr(e.pattern), true);
    SingleAgrees(lib, e, VStr(longer), false);
    MissingAgrees(lib, e);
    if flip.Some? && flip.value != "" {
      var flipped := Scenario(map[f := VStr(flip.value)], !e.caseSensitive);
      SingleAgrees(lib, e, VStr(flip.value), !e.caseSensitive);
      Four(Judge(lib, e), StringScenarios(lib, f, e.pattern, e.caseSensitive, ALL), same, other, flipped, missing);
    } else {
      Three(Judge(lib, e), StringScenarios(lib, f, e.pattern, e.caseSensitive, ALL), same, other, missing);
    }
  }

  lemma BooleanExact(lib: Lib, e: Expression)
    requires e.BooleanRequired?
    ensures EachAgrees(lib, e, BooleanScenarios(e.field, e.required, ALL)) <==> LeafSound(lib, e)
  {
    Three(Judge(lib, e), BooleanScenarios(e.field, e.required, ALL), Scenario(map[e.field := VBool(e.required)], true),
          Scenario(map[e.field := VBool(!e.required)], false), Scenario(map[], false));
    SingleAgrees(lib, e, VBool(e.required), true);
    SingleAgrees(lib, e, VBool(!e.required), false);
    MissingAgrees(lib, e);
  }

  lemma CountExact(lib: Lib, e: Expression)
    requires e.CountLimit? && ValidLib(lib)
    ensures EachAgrees(lib, e, CountScenarios(lib, e.field, e.maxCount, ALL)) <==> LeafSound(lib, e)
  {
    var f, under, limit, over := e.field, VNum(lib.add(e.maxCount, -1.0)), VNum(e.maxCount), VNum(lib.add(e.maxCount, 1.0));
    Four(Judge(lib, e), CountScenarios(lib, f, e.maxCount, ALL), Scenario(map[f := under], true), Scenario(map[f := limit], true),
         Scenario(map[f := over], false), Scenario(map[], false));
    SingleAgrees(lib, e, under, true);
    SingleAgrees(lib, e, limit, true);
    SingleAgrees(lib, e, over, false);
    MissingAgrees(lib, e);
  }

  /** All roles: passes unless any-of is asked of an empty list. */
  lemma RolesAccepted(lib: Lib, e: Expression)
    requires e.RoleRequired?
    ensures FieldVerdict(lib, e, RoleValue(e.roles), RoleValue(e.roles)) == Some(!e.anyOf || |e.roles| > 0)
  {
    var all := RoleValue(e.roles).items;
    forall i | 0 <= i < |e.roles| ensures VStr(e.roles[i]) in all {
      assert all[i] == VStr(e.roles[i]);
    }
    assert |e.roles| > 0 ==> VStr(e.roles[0]) in all;
  }

  lemma OneRoleVerdict(lib: Lib, e: Expression, role: string)
    requires e.RoleRequired?
    ensures FieldVerdict(lib, e, VArr([VStr(role)]), VArr([VStr(role)])) ==
      Some(if e.anyOf then role in e.roles else forall i :: 0 <= i < |e.roles| ==> e.roles[i] == role)
  {
  }

  /** The role of the failing scenario. */
  function OtherRole(roles: seq<string>, anyOf: bool): string {
    if !anyOf && |roles| > 1 then roles[0] else "__invalid__"
  }

  /** The role of the failing scenario is enough. */
  predicate OtherAccepted(roles: seq<string>, anyOf: bool) {
    var role := OtherRole(roles, anyOf);
    if anyOf then role in roles else forall i :: 0 <= i < |roles| ==> roles[i] == role
  }

  /** All roles pass and that one role fails exactly when the list is sound. */
  lemma RolesMeaning(roles: seq<string>, anyOf: bool)
    ensures RolesSound(roles, anyOf) <==> (!anyOf || |roles| > 0) && !OtherAccepted(roles, anyOf)
  {
    if !anyOf && |roles| > 1 && TwoDistinct(roles) {
      var i :| 0 <= i < |roles| && roles[i] != roles[0];
    }
    if |roles| == 1 {
      assert roles == [roles[0]];
    }
  }

  lemma RoleCases(p: Scenario -> bool, f: string, roles: seq<string>, anyOf: bool)
    ensures Every(p, RoleScenarios(f, roles, anyOf, ALL)) <==>
      && p(Scenario(map[f := RoleValue(roles)], true))
      && p(Scenario(map[f := VArr([VStr(OtherRole(roles, anyOf))])], false))
      && p(Scenario(map[f := VStr("__invalid__")], false))
      && p(Scenario(map[], false))
  {
    Four(p, RoleScenarios(f, roles, anyOf, ALL), Scenario(map[f := RoleValue(roles)], true),
         Scenario(map[f := VArr([VStr(OtherRole(roles, anyOf))])], false), Scenario(map[f := VStr("__invalid__")], false),
         Scenario(map[], false));
  }

  lemma AllRolesAgree(lib: Lib, e: Expression)
    requires e.RoleRequired?
    ensures Agrees(lib, e, Scenario(map[e.field := RoleValue(e.roles)], true)) <==> TopLevel(e.field) && (!e.anyOf || |e.roles| > 0)
  {
    SingleAgrees(lib, e, RoleValue(e.roles), true);
    RolesAccepted(lib, e);
  }

  lemma OtherRoleAgrees(lib: Lib, e: Expression)
    requires e.RoleRequired?
    ensures Agrees(lib, e, Scenario(map[e.field := VArr([VStr(OtherRole(e.roles, e.anyOf))])], false)) <==>
      !(TopLevel(e.field) && OtherAccepted(e.roles, e.anyOf))
  {
    var role := OtherRole(e.roles, e.anyOf);
    SingleAgrees(lib, e, VArr([VStr(role)]), false);
    OneRoleVerdict(lib, e, role);
  }

  lemma NoRolesAgree(lib: Lib, e: Expression)
    requires e.RoleRequired?
    ensures Agrees(lib, e, Scenario(map[e.field := VStr("__invalid__")], false))
  {
    SingleAgrees(lib, e, VStr("__invalid__"), false);
  }

  lemma RoleExact(lib: Lib, e: Expression)
    requires e.RoleRequired?
    ensures EachAgrees(lib, e, RoleScenarios(e.field, e.roles, e.anyOf, ALL)) <==> LeafSound(lib, e)
  {
    RolesMeaning(e.roles, e.anyOf);
    RoleCases(Judge(lib, e), e.field, e.roles, e.anyOf);
    AllRolesAgree(lib, e);
    OtherRoleAgrees(lib, e);
    NoRolesAgree(lib, e);
    MissingAgrees(lib, e);
  }

  lemma MidTimeBetween(a: int, b: int)
    ensures a < MidTime(a, b) < b <==> b - a >= 2
  {
  }

  predicate InWindow(lib: Lib, e: Expression, t: int)
    requires e.DateRange?
  {
    && (Bound(lib, e.after).Some? ==> t > Bound(lib, e.after).value)
    && (Bound(lib, e.before).Some? ==> t < Bound(lib, e.before).value)
  }

  lemma DateAgrees(lib: Lib, e: Expression, text: string, expected: bool)
    requires e.DateRange? && lib.parseDate(text).Some?
    ensures Agrees(lib, e, Scenario(map[e.field := VStr(text)], expected)) <==>
      ((TopLevel(e.field) && InWindow(lib, e, lib.parseDate(text).value)) <==> expected)
  {
    SingleAgrees(lib, e, VStr(text), expected);
  }

  /** One generated date: it exists exactly when its text does, and agrees when it falls where it should. */
  lemma DateCaseAgrees(lib: Lib, e: Expression, text: Option<string>, expected: bool)
    requires e.DateRange? && (text.Some? ==> lib.parseDate(text.value).Some?)
    ensures AllAgree(lib, e, DateCase(true, e.field, text, expected)) <==>
      text.Some? && ((TopLevel(e.field) && InWindow(lib, e, lib.parseDate(text.value).value)) <==> expected)
  {
    if text.Some? {
      DateAgrees(lib, e, text.value, expected);
      One(Judge(lib, e), Scenario(map[e.field := VStr(text.value)], expected));
    }
  }

  lemma Append3Agrees(lib: Lib, e: Expression, a: Option<seq<Scenario>>, b: Option<seq<Scenario>>, c: Option<seq<Scenario>>, d: Scenario)
    ensures AllAgree(lib, e, match Append3(a, b, c) case None => None case Some(cs) => Some(cs + [d])) <==>
      AllAgree(lib, e, a) && AllAgree(lib, e, b) && AllAgree(lib, e, c) && Agrees(lib, e, d)
  {
    if a.Some? && b.Some? && c.Some? {
      Concat(Judge(lib, e), a.value + b.value + c.value, [d]);
      Concat(Judge(lib, e), a.value + b.value, c.value);
      Concat(Judge(lib, e), a.value, b.value);
      One(Judge(lib, e), d);
    }
  }

  lemma IsoParses(lib: Lib, t: Option<int>)
    requires ValidLib(lib) && IsoText(lib, t).Some?
    ensures lib.parseDate(IsoText(lib, t).value) == t
  {
  }

  /** The positive scenario's date. */
  lemma WithinAgrees(lib: Lib, e: Expression)
    requires e.DateRange? && ValidLib(lib)
    ensures AllAgree(lib, e, DateCase(true, e.field, WithinText(lib, e.after, e.before), true)) <==>
      var a, b := Bound(lib, e.after), Bound(lib, e.before);
      && TopLevel(e.field)
      && (Given(e.after) ==> a.Some?)
      && (Given(e.before) ==> b.Some?)
      && (if Given(e.after) && Given(e.before) then b.value - a.value >= 2 && lib.isoDate(MidTime(a.value, b.value)).Some?
          else (Given(e.after) ==> lib.isoDate(a.value + DAY).Some?) && (Given(e.before) ==> lib.isoDate(b.value - DAY).Some?))
  {
    var a, b := Bound(lib, e.after), Bound(lib, e.before);
    var text := WithinText(lib, e.after, e.before);
    if Given(e.after) && Given(e.before) {
      if a.Some? && b.Some? {
        MidTimeBetween(a.value, b.value);
        if text.Some? { IsoParses(lib, Some(MidTime(a.value, b.value))); }
      }
    } else if Given(e.after) {
      if text.Some? { IsoParses(lib, Shift(a, DAY)); }
    } else if Given(e.before) {
      if text.Some? { IsoParses(lib, Shift(b, -DAY)); }
    }
    DateCaseAgrees(lib, e, text, true);
  }

  /** A day outside a bound that is given. */
  lemma OutsideAgrees(lib: Lib, e: Expression, bound: Option<int>, delta: int)
    requires e.DateRange? && ValidLib(lib)
    requires (Given(e.after) && bound == Bound(lib, e.after) && delta == -DAY) || (Given(e.before) && bound == Bound(lib, e.before) && delta == DAY)
    ensures AllAgree(lib, e, DateCase(true, e.field, IsoText(lib, Shift(bound, delta)), false)) <==>
      bound.Some? && lib.isoDate(bound.value + delta).Some?
  {
    var text := IsoText(lib, Shift(bound, delta));
    if text.Some? { IsoParses(lib, Shift(bound, delta)); }
    DateCaseAgrees(lib, e, text, false);
  }

  lemma DateExact(lib: Lib, e: Expression)
    requires e.DateRange? && ValidLib(lib)
    ensures AllAgree(lib, e, DateScenarios(lib, e.field, e.after, e.before, ALL)) <==> LeafSound(lib, e)
  {
    var a, b := Bound(lib, e.after), Bound(lib, e.before);
    var early := if Given(e.after) then IsoText(lib, Shift(a, -DAY)) else None;
    var late := if Given(e.before) then IsoText(lib, Shift(b, DAY)) else None;
    var p := DateCase(true, e.field, WithinText(lib, e.after, e.before), true);
    var n1 := DateCase(Given(e.after), e.field, early, false);
    var n2 := DateCase(Given(e.before), e.field, late, false);
    Append3Agrees(lib, e, p, n1, n2, Scenario(map[], false));
    MissingAgrees(lib, e);
    WithinAgrees(lib, e);
    if Given(e.after) { OutsideAgrees(lib, e, a, -DAY); }
    if Given(e.before) { OutsideAgrees(lib, e, b, DAY); }
    assert DateScenarios(lib, e.field, e.after, e.before, ALL) ==
      match Append3(p, n1, n2) case None => None case Some(cs) => Some(cs + [Scenario(map[], false)]);
  }

  /** In a context of plain strings, a dotted path finds only what is inherited. */
  lemma DottedInFlat(lib: Lib, ctx: Context, f: string)
    requires (forall k :: k in ctx ==> ctx[k].VStr?) && !TopLevel(f)
    ensures Present(FieldValue(lib, ctx, f)) <==> FoundInEmpty(lib, f) && PROTO !in ctx
  {
    SplitDotted(f, '.');
    var head, rest := Split(f, '.')[0], Split(f, '.')[1..];
    assert FieldValue(lib, map[], f) == Descend(lib, Inherited(lib, OfObject, head), rest);
    BuiltInBelow(lib, Inherited(lib, OfObject, head), rest);
    if head in ctx {
      assert FieldValue(lib, ctx, f) == Descend(lib, ctx[head], rest) == VUndefined;
    } else {
      NotOwn(lib, ctx, f);
    }
  }

  lemma TopInFlat(lib: Lib, ctx: Context, f: string)
    requires (forall k :: k in ctx ==> ctx[k].VStr?) && TopLevel(f)
    ensures Present(FieldValue(lib, ctx, f)) <==> f in ctx || FoundInEmpty(lib, f)
  {
    TopLevelField(lib, ctx, f);
    TopLevelField(lib, map[], f);
  }

  lemma ProtoFound(lib: Lib)
    ensures TopLevel(PROTO) && FoundInEmpty(lib, PROTO)
  {
    TopLevelField(lib, map[], PROTO);
  }

  /** With every field set, enough of them are found: they are keys or found anyway. */
  predicate FoundWhenSet(anyway: string -> bool, fields: seq<string>, allRequired: bool) {
    if allRequired then forall i :: 0 <= i < |fields| ==> TopLevel(fields[i]) || anyway(fields[i])
    else exists i :: 0 <= i < |fields| && (TopLevel(fields[i]) || anyway(fields[i]))
  }

  /** With no field set, too few of them are found. */
  predicate MissingInEmpty(anyway: string -> bool, fields: seq<string>, allRequired: bool) {
    if allRequired then exists i :: 0 <= i < |fields| && !anyway(fields[i])
    else forall i :: 0 <= i < |fields| ==> !anyway(fields[i])
  }

  /** Some field other than the first is not found anyway. */
  predicate AnotherMissing(anyway: string -> bool, fields: seq<string>) {
    exists i :: 0 <= i < |fields| && fields[i] != fields[0] && !anyway(fields[i])
  }

  lemma PresencePositive(lib: Lib, e: Expression)
    requires e.FieldPresence?
    ensures Agrees(lib, e, Scenario(AllPresent(e.fields), true)) <==> FoundWhenSet(FoundAnyway(lib), e.fields, e.allRequired)
  {
    var all := AllPresent(e.fields);
    ProtoFound(lib);
    forall i | 0 <= i < |e.fields|
      ensures Present(FieldValue(lib, all, e.fields[i])) <==> TopLevel(e.fields[i]) || FoundInEmpty(lib, e.fields[i])
    {
      if TopLevel(e.fields[i]) {
        TopInFlat(lib, all, e.fields[i]);
      } else {
        DottedInFlat(lib, all, e.fields[i]);
      }
    }
  }

  lemma PresenceMissing(lib: Lib, e: Expression)
    requires e.FieldPresence?
    ensures Agrees(lib, e, Scenario(map[], false)) <==> MissingInEmpty(FoundAnyway(lib), e.fields, e.allRequired)
  {
  }

  /** With the first field set alone, some other field has to be missing. */
  lemma PresenceFirstOnly(lib: Lib, e: Expression)
    requires e.FieldPresence? && e.allRequired && |e.fields| > 0
    requires FoundWhenSet(FoundAnyway(lib), e.fields, true) && MissingInEmpty(FoundAnyway(lib), e.fields, true)
    ensures Agrees(lib, e, Scenario(map[e.fields[0] := VStr("present")], false)) <==> AnotherMissing(FoundAnyway(lib), e.fields)
  {
    var first: Context := map[e.fields[0] := VStr("present")];
    ProtoFound(lib);
    var k :| 0 <= k < |e.fields| && !FoundInEmpty(lib, e.fields[k]);
    forall i | 0 <= i < |e.fields|
      ensures Present(FieldValue(lib, first, e.fields[i])) <==>
        if TopLevel(e.fields[i]) then e.fields[i] == e.fields[0] || FoundInEmpty(lib, e.fields[i]) else e.fields[0] != PROTO
    {
      if TopLevel(e.fields[i]) {
        TopInFlat(lib, first, e.fields[i]);
      } else {
        DottedInFlat(lib, first, e.fields[i]);
      }
    }
  }

  lemma PresenceCases(p: Scenario -> bool, fields: seq<string>, allRequired: bool)
    ensures Every(p, PresenceScenarios(fields, allRequired, ALL)) <==>
      && p(Scenario(AllPresent(fields), true))
      && (allRequired && |fields| > 1 ==> p(Scenario(map[fields[0] := VStr("present")], false)))
      && p(Scenario(map[], false))
  {
    var cases := PresenceScenarios(fields, allRequired, ALL);
    var all, none := Scenario(AllPresent(fields), true), Scenario(map[], false);
    if allRequired && |fields| > 1 {
      Three(p, cases, all, Scenario(map[fields[0] := VStr("present")], false), none);
    } else if !allRequired && |fields| > 0 {
      Three(p, cases, all, none, none);
    } else {
      assert cases == [all] + [none];
      Cons(p, all, [none]);
      One(p, none);
    }
  }

  lemma JudgeAgrees(lib: Lib, e: Expression, s: Scenario)
    ensures Judge(lib, e)(s) <==> Agrees(lib, e, s)
  {
  }

  /** Whether the "one missing" scenario, generated for several required fields, agrees. */
  predicate FirstOnlyAgrees(lib: Lib, e: Expression)
    requires e.FieldPresence?
  {
    e.allRequired && |e.fields| > 1 ==> Agrees(lib, e, Scenario(map[e.fields[0] := VStr("present")], false))
  }

  lemma PresenceByCases(lib: Lib, e: Expression)
    requires e.FieldPresence?
    ensures EachAgrees(lib, e, PresenceScenarios(e.fields, e.allRequired, ALL)) <==>
      && Agrees(lib, e, Scenario(AllPresent(e.fields), true))
      && FirstOnlyAgrees(lib, e)
      && Agrees(lib, e, Scenario(map[], false))
  {
    PresenceCases(Judge(lib, e), e.fields, e.allRequired);
    JudgeAgrees(lib, e, Scenario(AllPresent(e.fields), true));
    JudgeAgrees(lib, e, Scenario(map[], false));
    if e.allRequired && |e.fields| > 1 {
      JudgeAgrees(lib, e, Scenario(map[e.fields[0] := VStr("present")], false));
    }
  }

  lemma PresenceParts(anyway: string -> bool, fields: seq<string>, allRequired: bool)
    ensures PresenceSound(anyway, fields, allRequired) <==>
      && FoundWhenSet(anyway, fields, allRequired) && MissingInEmpty(anyway, fields, allRequired)
      && (allRequired && |fields| > 1 ==> AnotherMissing(anyway, fields))
  {
    if |fields| == 1 {
      assert MissingInEmpty(anyway, fields, allRequired) <==> !anyway(fields[0]);
    }
  }

  lemma PresenceFirst(lib: Lib, e: Expression)
    requires e.FieldPresence? && FoundWhenSet(FoundAnyway(lib), e.fields, e.allRequired) && MissingInEmpty(FoundAnyway(lib), e.fields, e.allRequired)
    ensures FirstOnlyAgrees(lib, e) <==> (e.allRequired && |e.fields| > 1 ==> AnotherMissing(FoundAnyway(lib), e.fields))
  {
    if e.allRequired && |e.fields| > 1 {
      PresenceFirstOnly(lib, e);
    }
  }

  lemma PresenceExact(lib: Lib, e: Expression)
    requires e.FieldPresence?
    ensures EachAgrees(lib, e, PresenceScenarios(e.fields, e.allRequired, ALL)) <==> LeafSound(lib, e)
  {
    PresenceByCases(lib, e);
    PresencePositive(lib, e);
    PresenceMissing(lib, e);
    PresenceParts(FoundAnyway(lib), e.fields, e.allRequired);
    if Agrees(lib, e, Scenario(AllPresent(e.fields), true)) && Agrees(lib, e, Scenario(map[], false)) {
      PresenceFirst(lib, e);
    }
  }

  lemma {:induction false} TableVerdict(lib: Lib, lists: seq<string>, names: seq<string>, value: string)
    requires forall i :: 0 <= i < |lists| ==> lists[i] in names
    ensures SanctionsVerdict(lib, lists, SanctionsTable(names), value) == Some(value != "bad_entity" || |lists| == 0)
  {
    if lists != [] {
      assert Property(lib, SanctionsTable(names), lists[0]) == VArr([VStr("bad_entity")]);
      TableVerdict(lib, lists[1..], names, value);
    }
  }

  lemma TabledVerdict(lib: Lib, e: Expression, x: string)
    requires e.SanctionsMatch?
    ensures FieldVerdict(lib, e, VStr(x), SanctionsTable(e.lists)) == Some(x != "bad_entity" || |e.lists| == 0)
  {
    TableVerdict(lib, e.lists, e.lists, x);
  }

  lemma SanctionsAgrees(lib: Lib, e: Expression, x: string, expected: bool)
    requires e.SanctionsMatch? && TopLevel(e.field) && e.field != SANCTIONS_DATA
    ensures Agrees(lib, e, Scenario(map[e.field := VStr(x)][SANCTIONS_DATA := SanctionsTable(e.lists)], expected)) <==>
      ((x != "bad_entity" || |e.lists| == 0) <==> expected)
  {
    hide Verdict, FieldVerdict, Agrees;
    DataKeys();
    TwoKeys(lib, e, VStr(x), SanctionsTable(e.lists));
    TabledVerdict(lib, e, x);
    AgreesBy(lib, e, Scenario(map[e.field := VStr(x)][AuxField(e) := SanctionsTable(e.lists)], expected), x != "bad_entity" || |e.lists| == 0);
  }

  /** When the field's own value is ignored, two scenarios that expect different results cannot both agree. */
  lemma IgnoredValue(lib: Lib, e: Expression, k: string, x: Value, y: Value, d: Value)
    requires (e.SanctionsMatch? && k == SANCTIONS_DATA) || (e.ListMembership? && k == LIST_DATA)
    requires !TopLevel(e.field) || e.field == k
    ensures !(Agrees(lib, e, Scenario(map[e.field := x][k := d], true)) && Agrees(lib, e, Scenario(map[e.field := y][k := d], false)))
  {
    DataKeys();
    PairIgnores(lib, e.field, x, y, k, d);
  }

  lemma SanctionsExact(lib: Lib, e: Expression)
    requires e.SanctionsMatch?
    ensures EachAgrees(lib, e, SanctionsScenarios(e.field, e.lists, ALL)) <==> LeafSound(lib, e)
  {
    var table := SanctionsTable(e.lists);
    Three(Judge(lib, e), SanctionsScenarios(e.field, e.lists, ALL), Scenario(map[e.field := VStr("safe_entity")][SANCTIONS_DATA := table], true),
          Scenario(map[e.field := VStr("bad_entity")][SANCTIONS_DATA := table], false), Scenario(map[], false));
    MissingAgrees(lib, e);
    if TopLevel(e.field) && e.field != SANCTIONS_DATA {
      assert |"safe_entity"| == 11 && |"bad_entity"| == 10;
      SanctionsAgrees(lib, e, "safe_entity", true);
      SanctionsAgrees(lib, e, "bad_entity", false);
    } else {
      IgnoredValue(lib, e, SANCTIONS_DATA, VStr("safe_entity"), VStr("bad_entity"), table);
    }
  }

  lemma MembershipAgrees(lib: Lib, e: Expression, x: string, expected: bool)
    requires e.ListMembership? && TopLevel(e.field) && e.field != LIST_DATA
    ensures Agrees(lib, e, Scenario(map[e.field := VStr(x)][LIST_DATA := ListTable(e.listId)], expected)) <==>
      (((x == "item") <==> e.mustBePresent) <==> expected)
  {
    hide Verdict, FieldVerdict, Agrees;
    DataKeys();
    TwoKeys(lib, e, VStr(x), ListTable(e.listId));
    ListedVerdict(lib, e, x);
    AgreesBy(lib, e, Scenario(map[e.field := VStr(x)][AuxField(e) := ListTable(e.listId)], expected), (x == "item") == e.mustBePresent);
  }

  lemma ListedVerdict(lib: Lib, e: Expression, x: string)
    requires e.ListMembership?
    ensures FieldVerdict(lib, e, VStr(x), ListTable(e.listId)) == Some((x == "item") == e.mustBePresent)
  {
    ListTableVerdict(lib, e.listId, x, e.mustBePresent);
  }

  lemma ListTableVerdict(lib: Lib, listId: string, x: string, mustBePresent: bool)
    ensures MembershipVerdict(lib, ListTable(listId), listId, x, mustBePresent) == Some((x == "item") == mustBePresent)
  {
    assert Property(lib, ListTable(listId), listId) == VArr([VStr("item")]);
  }

  lemma MembershipCases(p: Scenario -> bool, f: string, listId: string, mustBePresent: bool)
    ensures var x, y := if mustBePresent then "item" else "other", if mustBePresent then "other" else "item";
      Every(p, MembershipScenarios(f, listId, mustBePresent, ALL)) <==>
        && p(Scenario(map[f := VStr(x)][LIST_DATA := ListTable(listId)], true))
        && p(Scenario(map[f := VStr(y)][LIST_DATA := ListTable(listId)], false))
        && p(Scenario(map[], false))
  {
    var x, y := if mustBePresent then "item" else "other", if mustBePresent then "other" else "item";
    Three(p, MembershipScenarios(f, listId, mustBePresent, ALL), Scenario(map[f := VStr(x)][LIST_DATA := ListTable(listId)], true),
          Scenario(map[f := VStr(y)][LIST_DATA := ListTable(listId)], false), Scenario(map[], false));
  }

  lemma MembershipExact(lib: Lib, e: Expression)
    requires e.ListMembership?
    ensures EachAgrees(lib, e, MembershipScenarios(e.field, e.listId, e.mustBePresent, ALL)) <==> LeafSound(lib, e)
  {
    var x, y := if e.mustBePresent then "item" else "other", if e.mustBePresent then "other" else "item";
    MembershipCases(Judge(lib, e), e.field, e.listId, e.mustBePresent);
    MissingAgrees(lib, e);
    if TopLevel(e.field) && e.field != LIST_DATA {
      assert |"item"| == 4 && |"other"| == 5;
      MembershipAgrees(lib, e, x, true);
      MembershipAgrees(lib, e, y, false);
    } else {
      IgnoredValue(lib, e, LIST_DATA, VStr(x), VStr(y), ListTable(e.listId));
    }
  }

  lemma CurrencyFieldFacts(f: string)
    ensures CurrencyField(f) != f
    ensures TopLevel(f) ==> TopLevel(CurrencyField(f))
    ensures !TopLevel(f) ==> Split(CurrencyField(f), '.')[0] == Split(f, '.')[0]
  {
    assert |CurrencyField(f)| == |f| + 9;
    if !TopLevel(f) {
      HeadOfExtension(f, "_currency", '.');
    } else {
      assert '.' !in "_currency";
    }
  }

  lemma AmountAgrees(lib: Lib, e: Expression, amount: real, currency: Option<string>, expected: bool)
    requires e.AmountLimit? && TopLevel(e.field)
    ensures Agrees(lib, e, Scenario(AmountContext(e.field, amount, currency), expected)) <==>
      (((Given(e.currency) ==> currency == e.currency) && amount <= e.maxAmount) <==> expected)
  {
    CurrencyFieldFacts(e.field);
    var f, k, ctx := e.field, CurrencyField(e.field), AmountContext(e.field, amount, currency);
    if Given(currency) {
      Pair(lib, f, VNum(amount), k, VStr(currency.value));
      ByValues(lib, e, ctx, VNum(amount), VStr(currency.value));
    } else {
      Single(lib, f, VNum(amount));
      TopLevelField(lib, ctx, k);
      ByValues(lib, e, ctx, VNum(amount), Inherited(lib, OfObject, k));
    }
  }

  lemma AmountIgnored(lib: Lib, f: string, x: real, y: real, currency: Option<string>, g: string)
    requires !TopLevel(f) && (g == f || g == CurrencyField(f))
    ensures FieldValue(lib, AmountContext(f, x, currency), g) == FieldValue(lib, AmountContext(f, y, currency), g)
  {
    var k := CurrencyField(f);
    var rest: Context := if Given(currency) then map[k := VStr(currency.value)] else map[];
    CurrencyFieldFacts(f);
    DottedHead(f);
    assert AmountContext(f, x, currency) == map[f := VNum(x)] + rest;
    assert AmountContext(f, y, currency) == map[f := VNum(y)] + rest;
    DottedIgnores(lib, f, g, VNum(x), VNum(y), rest);
  }

  lemma AmountDotted(lib: Lib, e: Expression, x: real, y: real, currency: Option<string>)
    requires e.AmountLimit? && !TopLevel(e.field)
    ensures !(Agrees(lib, e, Scenario(AmountContext(e.field, x, currency), true)) && Agrees(lib, e, Scenario(AmountContext(e.field, y, currency), false)))
  {
    AmountIgnored(lib, e.field, x, y, currency, e.field);
    AmountIgnored(lib, e.field, x, y, currency, CurrencyField(e.field));
  }

  lemma AmountCases(lib: Lib, p: Scenario -> bool, f: string, m: real, currency: Option<string>)
    ensures Every(p, AmountScenarios(lib, f, m, currency, ALL)) <==>
      && p(Scenario(AmountContext(f, lib.add(m, -1.0), currency), true))
      && p(Scenario(AmountContext(f, m, currency), true))
      && p(Scenario(AmountContext(f, lib.add(m, 1.0), currency), false))
      && (Given(currency) ==> p(Scenario(AmountContext(f, lib.add(m, -1.0), Some("__wrong__")), false)))
      && p(Scenario(map[], false))
  {
    var cases := AmountScenarios(lib, f, m, currency, ALL);
    var under, limit := Scenario(AmountContext(f, lib.add(m, -1.0), currency), true), Scenario(AmountContext(f, m, currency), true);
    var over, wrong := Scenario(AmountContext(f, lib.add(m, 1.0), currency), false), Scenario(AmountContext(f, lib.add(m, -1.0), Some("__wrong__")), false);
    if Given(currency) {
      Five(p, cases, under, limit, over, wrong, Scenario(map[], false));
    } else {
      Four(p, cases, under, limit, over, Scenario(map[], false));
    }
  }

  lemma AmountExact(lib: Lib, e: Expression)
    requires e.AmountLimit? && ValidLib(lib)
    ensures EachAgrees(lib, e, AmountScenarios(lib, e.field, e.maxAmount, e.currency, ALL)) <==> LeafSound(lib, e)
  {
    var m := e.maxAmount;
    AmountCases(lib, Judge(lib, e), e.field, m, e.currency);
    MissingAgrees(lib, e);
    if TopLevel(e.field) {
      AmountAgrees(lib, e, lib.add(m, -1.0), e.currency, true);
      AmountAgrees(lib, e, m, e.currency, true);
      AmountAgrees(lib, e, lib.add(m, 1.0), e.currency, false);
      AmountAgrees(lib, e, lib.add(m, -1.0), Some("__wrong__"), false);
    } else {
      AmountDotted(lib, e, lib.add(m, -1.0), lib.add(m, 1.0), e.currency);
    }
  }

  /** Generator and evaluator agree on a leaf exactly when a check made before generating holds. */
  lemma LeafExact(lib: Lib, e: Expression)
    requires Leaf(e) && !e.RegexMatch? && ValidLib(lib)
    ensures AllAgree(lib, e, LeafScenarios(lib, e, ALL)) <==> LeafSound(lib, e)
  {
    match e
    case Threshold(_, _, _) => ThresholdExact(lib, e);
    case Range(_, _, _, _) => RangeExact(lib, e);
    case EnumMatch(_, _) => EnumExact(lib, e);
    case StringMatch(_, _, _) => StringExact(lib, e);
    case BooleanRequired(_, _) => BooleanExact(lib, e);
    case FieldPresence(_, _) => PresenceExact(lib, e);
    case SanctionsMatch(_, _) => SanctionsExact(lib, e);
    case DateRange(_, _, _) => DateExact(lib, e);
    case AmountLimit(_, _, _) => AmountExact(lib, e);
    case CountLimit(_, _) => CountExact(lib, e);
    case RoleRequired(_, _, _) => RoleExact(lib, e);
    case JurisdictionMatch(_, _) => JurisdictionExact(lib, e);
    case ListMembership(_, _, _) => MembershipExact(lib, e);
  }
}
