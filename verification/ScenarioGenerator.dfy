/**
 * Test scenarios generated from rule expressions, and the harness that runs compiled rules
 * against them.
 */
module ScenarioGenerator {
  import opened Wrappers
  import opened Strings
  import opened RuleExpressions

  datatype Options = Options(positive: bool, negative: bool, boundary: bool, missing: bool)

  const ALL := Options(true, true, true, true)
  const POSITIVE_ONLY := Options(true, false, false, false)
  const NEGATIVE_ONLY := Options(false, true, false, false)

  /** A context and whether the rule it was generated from is expected to pass in it. */
  datatype Scenario = Scenario(context: Context, expected: bool)

  const DAY := 86400000
  const DEFAULT_DATE := "2025-06-15T00:00:00Z"

  function When(wanted: bool, context: Context, expected: bool): (r: seq<Scenario>)
    ensures |r| <= 1
  {
    if wanted then [Scenario(context, expected)] else []
  }

  // ---------------------------------------------------------------------- leaves

  function ThresholdScenarios(lib: Lib, f: string, op: Operator, value: real, o: Options): seq<Scenario> {
    var above, below := lib.add(value, 1.0), lib.add(value, -1.0);
    var upward := op == Gt || op == Gte;
    When(o.positive, map[f := VNum(if op == Eq then value else if upward then above else below)], true)
    + When(o.negative, map[f := VNum(if op == Neq then value else if upward then below else above)], false)
    + When(o.boundary, map[f := VNum(value)], op == Gte || op == Lte || op == Eq)
    + When(o.missing, map[], false)
  }

  function RangeScenarios(lib: Lib, f: string, min: real, max: real, inclusive: bool, o: Options): seq<Scenario> {
    When(o.positive, map[f := VNum(lib.half(lib.add(min, max)))], true)
    + When(o.negative, map[f := VNum(lib.add(min, -1.0))], false)
    + When(o.negative, map[f := VNum(lib.add(max, 1.0))], false)
    + When(o.boundary, map[f := VNum(min)], inclusive)
    + When(o.boundary, map[f := VNum(max)], inclusive)
    + When(o.missing, map[], false)
  }

  function EnumScenarios(f: string, allowed: seq<string>, o: Options): seq<Scenario> {
    (if o.positive && |allowed| > 0 then [Scenario(map[f := VStr(allowed[0])], true)] else [])
    + When(o.negative, map[f := VStr("__invalid__")], false)
    + When(o.boundary, map[f := VStr("")], false)
    + When(o.missing, map[], false)
  }

  function FlipChar(lib: Lib, c: char): string {
    var lower, upper := lib.lower([c]), lib.upper([c]);
    if lower == upper then [c] else if [c] == lower then upper else lower
  }

  function FlipChars(lib: Lib, s: string): string {
    if s == "" then "" else FlipChar(lib, s[0]) + FlipChars(lib, s[1..])
  }

  function FlipCase(lib: Lib, s: string): Option<string> {
    if FlipChars(lib, s) == s then None else Some(FlipChars(lib, s))
  }

  function StringScenarios(lib: Lib, f: string, pattern: string, caseSensitive: bool, o: Options): seq<Scenario> {
    When(o.positive, map[f := VStr(pattern)], true)
    + When(o.negative, map[f := VStr(pattern + "_x")], false)
    + (match FlipCase(lib, pattern)
       case Some(flipped) => if flipped != "" then When(o.boundary, map[f := VStr(flipped)], !caseSensitive) else []
       case None => [])
    + When(o.missing, map[], false)
  }

  function BooleanScenarios(f: string, required: bool, o: Options): seq<Scenario> {
    When(o.positive, map[f := VBool(required)], true)
    + When(o.negative, map[f := VBool(!required)], false)
    + When(o.missing, map[], false)
  }

  function AllPresent(fields: seq<string>): Context {
    map f | f in fields && f != PROTO :: VStr("present")
  }

  function PresenceScenarios(fields: seq<string>, allRequired: bool, o: Options): seq<Scenario> {
    When(o.positive, AllPresent(fields), true)
    + (if allRequired && |fields| > 1 then When(o.negative, map[fields[0] := VStr("present")], false)
       else When(o.negative && !allRequired && |fields| > 0, map[], false))
    + When(o.missing, map[], false)
  }

  function SanctionsTable(lists: seq<string>): Value {
    VObj(map l | l in lists :: VArr([VStr("bad_entity")]))
  }

  function SanctionsScenarios(f: string, lists: seq<string>, o: Options): seq<Scenario> {
    When(o.positive, map[f := VStr("safe_entity")][SANCTIONS_DATA := SanctionsTable(lists)], true)
    + When(o.negative, map[f := VStr("bad_entity")][SANCTIONS_DATA := SanctionsTable(lists)], false)
    + When(o.missing, map[], false)
  }

  /** The flags are not used here, unlike in the evaluator; None when the pattern does not parse. */
  function RegexScenarios(lib: Lib, f: string, pattern: string, o: Options): Option<seq<Scenario>> {
    var hit := lib.regexTest(pattern, "", "test_match_123");
    var text := if hit == Some(true) then "test_match_123" else "a";
    var onText, onNul := lib.regexTest(pattern, "", text), lib.regexTest(pattern, "", "\0");
    if (o.positive && (hit == None || onText == None)) || (o.negative && onNul == None) then None
    else Some(
      (if o.positive then [Scenario(map[f := VStr(text)], onText.value)] else [])
      + (if o.negative then [Scenario(map[f := VStr("\0")], onNul.value)] else [])
      + When(o.missing, map[], false))
  }

  /** Half the sum, truncated toward zero as a Date truncates its time value. */
  function MidTime(a: int, b: int): (m: int)
    ensures if a + b >= 0 then 0 <= a + b - 2 * m <= 1 else -1 <= a + b - 2 * m <= 0
  {
    if a + b >= 0 then (a + b) / 2 else -((-(a + b)) / 2)
  }

  /** toISOString; None stands for the RangeError on an invalid date. */
  function IsoText(lib: Lib, t: Option<int>): Option<string> {
    match t
    case None => None
    case Some(time) => lib.isoDate(time)
  }

  function Shift(t: Option<int>, delta: int): Option<int> {
    match t
    case None => None
    case Some(time) => Some(time + delta)
  }

  function WithinText(lib: Lib, after: Option<string>, before: Option<string>): Option<string> {
    if Given(after) && Given(before) then
      match (lib.parseDate(after.value), lib.parseDate(before.value))
      case (Some(a), Some(b)) => IsoText(lib, Some(MidTime(a, b)))
      case _ => None
    else if Given(after) then IsoText(lib, Shift(lib.parseDate(after.value), DAY))
    else if Given(before) then IsoText(lib, Shift(lib.parseDate(before.value), -DAY))
    else Some(DEFAULT_DATE)
  }

  /** One scenario for a date text, nothing when it is not wanted, None when making the text throws. */
  function DateCase(wanted: bool, f: string, text: Option<string>, expected: bool): Option<seq<Scenario>> {
    if !wanted then Some([])
    else match text
      case None => None
      case Some(t) => Some([Scenario(map[f := VStr(t)], expected)])
  }

  function Append3(a: Option<seq<Scenario>>, b: Option<seq<Scenario>>, c: Option<seq<Scenario>>): Option<seq<Scenario>> {
    match (a, b, c)
    case (Some(x), Some(y), Some(z)) => Some(x + y + z)
    case _ => None
  }

  function DateScenarios(lib: Lib, f: string, after: Option<string>, before: Option<string>, o: Options): Option<seq<Scenario>> {
    match Append3(
      DateCase(o.positive, f, WithinText(lib, after, before), true),
      DateCase(o.negative && Given(after), f, if Given(after) then IsoText(lib, Shift(lib.parseDate(after.value), -DAY)) else None, false),
      DateCase(o.negative && Given(before), f, if Given(before) then IsoText(lib, Shift(lib.parseDate(before.value), DAY)) else None, false))
    case None => None
    case Some(cs) => Some(cs + When(o.missing, map[], false))
  }

  function AmountContext(f: string, amount: real, currency: Option<string>): Context {
    if Given(currency) then map[f := VNum(amount)][CurrencyField(f) := VStr(currency.value)] else map[f := VNum(amount)]
  }

  function AmountScenarios(lib: Lib, f: string, maxAmount: real, currency: Option<string>, o: Options): seq<Scenario> {
    When(o.positive, AmountContext(f, lib.add(maxAmount, -1.0), currency), true)
    + When(o.boundary, AmountContext(f, maxAmount, currency), true)
    + When(o.negative, AmountContext(f, lib.add(maxAmount, 1.0), currency), false)
    + When(o.boundary && Given(currency), map[f := VNum(lib.add(maxAmount, -1.0))][CurrencyField(f) := VStr("__wrong__")], false)
    + When(o.missing, map[], false)
  }

  function CountScenarios(lib: Lib, f: string, maxCount: real, o: Options): seq<Scenario> {
    When(o.positive, map[f := VNum(lib.add(maxCount, -1.0))], true)
    + When(o.boundary, map[f := VNum(maxCount)], true)
    + When(o.negative, map[f := VNum(lib.add(maxCount, 1.0))], false)
    + When(o.missing, map[], false)
  }

  function RoleValue(roles: seq<string>): Value {
    VArr(seq(|roles|, i requires 0 <= i < |roles| => VStr(roles[i])))
  }

  function RoleScenarios(f: string, roles: seq<string>, anyOf: bool, o: Options): seq<Scenario> {
    When(o.positive, map[f := RoleValue(roles)], true)
    + (if !anyOf && |roles| > 1 then When(o.negative, map[f := VArr([VStr(roles[0])])], false)
       else When(o.negative, map[f := VArr([VStr("__invalid__")])], false))
    + When(o.boundary, map[f := VStr("__invalid__")], false)
    + When(o.missing, map[], false)
  }

  function JurisdictionScenarios(f: string, allowed: seq<string>, o: Options): seq<Scenario> {
    (if o.positive && |allowed| > 0 then [Scenario(map[f := VStr(allowed[0])], true)] else [])
    + When(o.negative, map[f := VStr("__forbidden__")], false)
    + When(o.missing, map[], false)
  }

  function ListTable(listId: string): Value {
    VObj(map[listId := VArr([VStr("item")])])
  }

  function MembershipScenarios(f: string, listId: string, mustBePresent: bool, o: Options): seq<Scenario> {
    When(o.positive, map[f := VStr(if mustBePresent then "item" else "other")][LIST_DATA := ListTable(listId)], true)
    + When(o.negative, map[f := VStr(if mustBePresent then "other" else "item")][LIST_DATA := ListTable(listId)], false)
    + When(o.missing, map[], false)
  }

  /** Scenarios of a non-composite expression; None when generating them throws. */
  function LeafScenarios(lib: Lib, e: Expression, o: Options): Option<seq<Scenario>>
    requires !e.CompositeAnd? && !e.CompositeOr?
  {
    match e
    case Threshold(f, op, value) => Some(ThresholdScenarios(lib, f, op, value, o))
    case Range(f, min, max, inclusive) => Some(RangeScenarios(lib, f, min, max, inclusive, o))
    case EnumMatch(f, allowed) => Some(EnumScenarios(f, allowed, o))
    case StringMatch(f, pattern, caseSensitive) => Some(StringScenarios(lib, f, pattern, caseSensitive, o))
    case BooleanRequired(f, required) => Some(BooleanScenarios(f, required, o))
    case FieldPresence(fields, allRequired) => Some(PresenceScenarios(fields, allRequired, o))
    case SanctionsMatch(f, lists) => Some(SanctionsScenarios(f, lists, o))
    case RegexMatch(f, pattern, _) => RegexScenarios(lib, f, pattern, o)
    case DateRange(f, after, before) => DateScenarios(lib, f, after, before, o)
    case AmountLimit(f, maxAmount, currency) => Some(AmountScenarios(lib, f, maxAmount, currency, o))
    case CountLimit(f, maxCount) => Some(CountScenarios(lib, f, maxCount, o))
    case RoleRequired(f, roles, anyOf) => Some(RoleScenarios(f, roles, anyOf, o))
    case JurisdictionMatch(f, allowed) => Some(JurisdictionScenarios(f, allowed, o))
    case ListMembership(f, listId, mustBePresent) => Some(MembershipScenarios(f, listId, mustBePresent, o))
  }

  // ---------------------------------------------------------------------- composites

  function Scenarios(lib: Lib, e: Expression, o: Options): Option<seq<Scenario>>
    decreases e, 0
  {
    match e
    case CompositeAnd(rules) =>
      (match (if o.positive then AndPositive(lib, rules) else Some([]), if o.negative then AndNegative(lib, rules) else Some([]))
       case (Some(p), Some(n)) => Some(p + n)
       case _ => None)
    case CompositeOr(rules) =>
      (match if o.positive then OrPositive(lib, rules) else Some([])
       case Some(p) => Some(p + When(o.negative, map[], false))
       case None => None)
    case _ => LeafScenarios(lib, e, o)
  }

  /** Assigns every key of the second context to the first. */
  function Merge(ctx: Context, more: Context): Context {
    ctx + (more - {PROTO})
  }

  /** The first positive context of each part, later keys overriding earlier ones. */
  function AndContext(lib: Lib, rules: seq<Expression>, n: nat): Option<Context>
    requires n <= |rules|
    decreases rules, n
  {
    if n == 0 then Some(map[])
    else
      match (AndContext(lib, rules, n - 1), Scenarios(lib, rules[n - 1], POSITIVE_ONLY))
      case (Some(ctx), Some(cases)) => Some(if |cases| > 0 then Merge(ctx, cases[0].context) else ctx)
      case _ => None
  }

  function AndPositive(lib: Lib, rules: seq<Expression>): Option<seq<Scenario>>
    decreases rules, |rules| + 1
  {
    match AndContext(lib, rules, |rules|)
    case Some(ctx) => Some([Scenario(ctx, true)])
    case None => None
  }

  function AndNegative(lib: Lib, rules: seq<Expression>): Option<seq<Scenario>>
    decreases rules, 0
  {
    if |rules| == 0 then Some([])
    else
      match Scenarios(lib, rules[0], NEGATIVE_ONLY)
      case Some(cases) => Some(if |cases| > 0 then [Scenario(cases[0].context, false)] else [])
      case None => None
  }

  function OrPositive(lib: Lib, rules: seq<Expression>): Option<seq<Scenario>>
    decreases rules, 0
  {
    if |rules| == 0 then Some([])
    else
      match Scenarios(lib, rules[0], POSITIVE_ONLY)
      case Some(cases) => Some(if |cases| > 0 then [Scenario(cases[0].context, true)] else [])
      case None => None
  }

  // ---------------------------------------------------------------------- generation

  method GenerateFieldPresence(fields: seq<string>, allRequired: bool, o: Options) returns (cases: seq<Scenario>)
    ensures cases == PresenceScenarios(fields, allRequired, o)
  {
    cases := [];
    if o.positive {
      var ctx: Context := map[];
      var i := 0;
      while i < |fields|
        invariant 0 <= i <= |fields|
        invariant ctx == AllPresent(fields[..i])
      {
        ctx := Assign(ctx, fields[i], VStr("present"));
        i := i + 1;
      }
      assert fields[..|fields|] == fields;
      cases := cases + [Scenario(ctx, true)];
    }
    if o.negative {
      if allRequired && |fields| > 1 {
        cases := cases + [Scenario(map[fields[0] := VStr("present")], false)];
      } else if !allRequired && |fields| > 0 {
        cases := cases + [Scenario(map[], false)];
      }
    }
    if o.missing {
      cases := cases + [Scenario(map[], false)];
    }
  }

  /** None when generation throws. */
  method GenerateForExpression(lib: Lib, e: Expression, o: Options) returns (r: Option<seq<Scenario>>)
    ensures r == Scenarios(lib, e, o)
    decreases e, 1
  {
    match e
    case CompositeAnd(rules) => r := GenerateCompositeAnd(lib, e, o);
    case CompositeOr(rules) => r := GenerateCompositeOr(lib, e, o);
    case FieldPresence(fields, allRequired) =>
      var cases := GenerateFieldPresence(fields, allRequired, o);
      r := Some(cases);
    case _ => r := LeafScenarios(lib, e, o);
  }

  method GenerateCompositeAnd(lib: Lib, e: Expression, o: Options) returns (r: Option<seq<Scenario>>)
    requires e.CompositeAnd?
    ensures r == Scenarios(lib, e, o)
    decreases e, 0
  {
    var p: Option<seq<Scenario>>, n: Option<seq<Scenario>> := Some([]), Some([]);
    if o.positive {
      p := PositiveOfAnd(lib, e.rules);
      if p == None {
        return None;
      }
    }
    if o.negative {
      n := NegativeOfAnd(lib, e.rules);
      if n == None {
        return None;
      }
    }
    return Some(p.value + n.value);
  }

  lemma AndContextStart(lib: Lib, rules: seq<Expression>)
    ensures AndContext(lib, rules, 0) == Some(map[])
  {
  }

  lemma AndContextNone(lib: Lib, rules: seq<Expression>, i: nat)
    requires i < |rules| && Scenarios(lib, rules[i], POSITIVE_ONLY) == None
    ensures AndContext(lib, rules, i + 1) == None
  {
  }

  lemma AndContextNext(lib: Lib, rules: seq<Expression>, i: nat, ctx: Context, cases: seq<Scenario>)
    requires i < |rules| && AndContext(lib, rules, i) == Some(ctx) && Scenarios(lib, rules[i], POSITIVE_ONLY) == Some(cases)
    ensures AndContext(lib, rules, i + 1) == Some(if |cases| > 0 then Merge(ctx, cases[0].context) else ctx)
  {
  }

  /** The loop that merges the first positive context of every part. */
  method PositiveOfAnd(lib: Lib, rules: seq<Expression>) returns (r: Option<seq<Scenario>>)
    ensures r == AndPositive(lib, rules)
    decreases rules
  {
    hide Scenarios, AndContext;
    var ctx: Context := map[];
    AndContextStart(lib, rules);
    var i := 0;
    while i < |rules|
      invariant 0 <= i <= |rules|
      invariant AndContext(lib, rules, i) == Some(ctx)
    {
      var subCases := GenerateForExpression(lib, rules[i], POSITIVE_ONLY);
      if subCases == None {
        AndContextNone(lib, rules, i);
        AndContextThrows(lib, rules, i + 1, |rules|);
        return None;
      }
      AndContextNext(lib, rules, i, ctx, subCases.value);
      if |subCases.value| > 0 {
        ctx := Merge(ctx, subCases.value[0].context);
      }
      i := i + 1;
    }
    return Some([Scenario(ctx, true)]);
  }

  method NegativeOfAnd(lib: Lib, rules: seq<Expression>) returns (r: Option<seq<Scenario>>)
    ensures r == AndNegative(lib, rules)
    decreases rules
  {
    if |rules| == 0 {
      return Some([]);
    }
    var failCases := GenerateForExpression(lib, rules[0], NEGATIVE_ONLY);
    if failCases == None {
      return None;
    }
    return Some(if |failCases.value| > 0 then [Scenario(failCases.value[0].context, false)] else []);
  }

  lemma {:induction false} AndContextThrows(lib: Lib, rules: seq<Expression>, m: nat, n: nat)
    requires m <= n <= |rules| && AndContext(lib, rules, m) == None
    ensures AndContext(lib, rules, n) == None
    decreases n
  {
    if m < n {
      AndContextThrows(lib, rules, m, n - 1);
    }
  }

  method GenerateCompositeOr(lib: Lib, e: Expression, o: Options) returns (r: Option<seq<Scenario>>)
    requires e.CompositeOr?
    ensures r == Scenarios(lib, e, o)
    decreases e, 0
  {
    var rules := e.rules;
    var cases: seq<Scenario> := [];
    if o.positive && |rules| > 0 {
      var subCases := GenerateForExpression(lib, rules[0], POSITIVE_ONLY);
      if subCases == None {
        return None;
      }
      if |subCases.value| > 0 {
        cases := cases + [Scenario(subCases.value[0].context, true)];
      }
    }
    assert cases == if o.positive then OrPositive(lib, rules).value else [];
    ghost var positive := cases;
    if o.negative {
      cases := cases + [Scenario(map[], false)];
    }
    assert cases == positive + When(o.negative, map[], false);
    return Some(cases);
  }

  // ---------------------------------------------------------------------- rules and harness

  datatype CompiledRule = CompiledRule(id: string, clauseId: string, controlId: Option<string>, expression: Expression)

  datatype Expectation = Expectation(ruleId: string, expectedPass: bool)

  datatype TestCase = TestCase(context: Context, expectedResults: seq<Expectation>)

  function TestCases(ruleId: string, cases: seq<Scenario>): (r: seq<TestCase>)
    ensures |r| == |cases|
  {
    seq(|cases|, i requires 0 <= i < |cases| => TestCase(cases[i].context, [Expectation(ruleId, cases[i].expected)]))
  }

  /** Test cases of the first n rules, by what is generated for an expression; None when that throws. */
  function CasesBy(generate: Expression -> Option<seq<Scenario>>, rules: seq<CompiledRule>, n: nat): Option<seq<TestCase>>
    requires n <= |rules|
  {
    if n == 0 then Some([])
    else
      match (CasesBy(generate, rules, n - 1), generate(rules[n - 1].expression))
      case (Some(before), Some(cases)) => Some(before + TestCases(rules[n - 1].id, cases))
      case _ => None
  }

  function Generator(lib: Lib, o: Options): Expression -> Option<seq<Scenario>> {
    e => Scenarios(lib, e, o)
  }

  function RuleTestCases(lib: Lib, rules: seq<CompiledRule>, o: Options): Option<seq<TestCase>> {
    CasesBy(Generator(lib, o), rules, |rules|)
  }

  /** Where a test case comes from: the position of its rule, and of its scenario among that rule's. */
  datatype Origin = Origin(rule: nat, scenario: nat)

  predicate Exists(generate: Expression -> Option<seq<Scenario>>, rules: seq<CompiledRule>, at: Origin) {
    at.rule < |rules| && generate(rules[at.rule].expression).Some? && at.scenario < |generate(rules[at.rule].expression).value|
  }

  predicate Precedes(a: Origin, b: Origin) {
    a.rule < b.rule || (a.rule == b.rule && a.scenario < b.scenario)
  }

  /** The test case shows the scenario, and expects of the rule what the scenario does. */
  predicate ComesFrom(tc: TestCase, generate: Expression -> Option<seq<Scenario>>, rules: seq<CompiledRule>, at: Origin)
    requires Exists(generate, rules, at)
  {
    var scenario := generate(rules[at.rule].expression).value[at.scenario];
    && tc.context == scenario.context && |tc.expectedResults| == 1
    && tc.expectedResults[0].ruleId == rules[at.rule].id && tc.expectedResults[0].expectedPass == scenario.expected
  }

  /** One test case for every scenario of every rule, rule by rule and in the scenarios' order. */
  ghost predicate CasesFrom(cases: seq<TestCase>, generate: Expression -> Option<seq<Scenario>>, rules: seq<CompiledRule>,
                            origins: seq<Origin>) {
    && |origins| == |cases|
    && (forall k :: 0 <= k < |origins| ==> Exists(generate, rules, origins[k]) && ComesFrom(cases[k], generate, rules, origins[k]))
    && (forall k, l :: 0 <= k < l < |origins| ==> Precedes(origins[k], origins[l]))
    && forall at :: Exists(generate, rules, at) ==> at in origins
  }

  lemma MoreCases(before: seq<TestCase>, generate: Expression -> Option<seq<Scenario>>, rules: seq<CompiledRule>,
                  origins: seq<Origin>, rule: CompiledRule) returns (more: seq<Origin>)
    requires CasesFrom(before, generate, rules, origins) && generate(rule.expression).Some?
    ensures CasesFrom(before + TestCases(rule.id, generate(rule.expression).value), generate, rules + [rule], more)
  {
    var scenarios, all := generate(rule.expression).value, rules + [rule];
    var own := seq(|scenarios|, j requires 0 <= j < |scenarios| => Origin(|rules|, j));
    more := origins + own;
    forall at | Exists(generate, all, at) ensures at in more {
      if at.rule < |rules| {
        assert Exists(generate, rules, at);
      } else {
        assert own[at.scenario] == at;
      }
    }
    var cases := before + TestCases(rule.id, scenarios);
    forall k | 0 <= k < |more| ensures Exists(generate, all, more[k]) && ComesFrom(cases[k], generate, all, more[k]) {
      if k < |origins| {
        assert Exists(generate, rules, origins[k]);
      }
    }
  }

  lemma {:induction false} CasesOrigins(generate: Expression -> Option<seq<Scenario>>, rules: seq<CompiledRule>, n: nat)
    returns (origins: seq<Origin>)
    requires n <= |rules| && CasesBy(generate, rules, n).Some?
    ensures CasesFrom(CasesBy(generate, rules, n).value, generate, rules[..n], origins)
  {
    if n == 0 {
      origins := [];
    } else {
      var before := CasesOrigins(generate, rules, n - 1);
      origins := MoreCases(CasesBy(generate, rules, n - 1).value, generate, rules[..n - 1], before, rules[n - 1]);
      assert rules[..n] == rules[..n - 1] + [rules[n - 1]];
    }
  }

  lemma {:induction false} CasesThrown(generate: Expression -> Option<seq<Scenario>>, rules: seq<CompiledRule>, n: nat)
    requires n <= |rules|
    ensures CasesBy(generate, rules, n) == None <==> exists i :: 0 <= i < n && generate(rules[i].expression) == None
  {
    if n > 0 {
      CasesThrown(generate, rules, n - 1);
    }
  }

  /** Generation throws exactly when it throws on some rule; otherwise each scenario becomes a test case. */
  ghost predicate Generated(r: Option<seq<TestCase>>, generate: Expression -> Option<seq<Scenario>>, rules: seq<CompiledRule>) {
    && (r == None <==> exists i :: 0 <= i < |rules| && generate(rules[i].expression) == None)
    && (r.Some? ==> exists origins :: CasesFrom(r.value, generate, rules, origins))
  }

  lemma AllCases(generate: Expression -> Option<seq<Scenario>>, rules: seq<CompiledRule>)
    ensures Generated(CasesBy(generate, rules, |rules|), generate, rules)
  {
    CasesThrown(generate, rules, |rules|);
    if CasesBy(generate, rules, |rules|).Some? {
      var origins := CasesOrigins(generate, rules, |rules|);
      assert rules[..|rules|] == rules;
    }
  }

  method GenerateScenarios(lib: Lib, rules: seq<CompiledRule>, o: Options) returns (r: Option<seq<TestCase>>)
    ensures r == RuleTestCases(lib, rules, o)
    ensures exists generate: Expression -> Option<seq<Scenario>> ::
      (forall e :: generate(e) == Scenarios(lib, e, o)) && Generated(r, generate, rules)
  {
    hide Scenarios, CasesBy, Generator, Generated;
    ghost var generate := Generator(lib, o);
    forall e ensures generate(e) == Scenarios(lib, e, o) {
      Generates(lib, o, e);
    }
    AllCases(generate, rules);
    var cases: seq<TestCase> := [];
    CasesStart(generate, rules);
    var i := 0;
    while i < |rules|
      invariant 0 <= i <= |rules|
      invariant CasesBy(generate, rules, i) == Some(cases)
    {
      var more := GenerateForExpression(lib, rules[i].expression, o);
      Generates(lib, o, rules[i].expression);
      if more == None {
        CasesNone(generate, rules, i);
        CasesThrow(generate, rules, i + 1, |rules|);
        return None;
      }
      CasesNext(generate, rules, i, cases);
      cases := cases + TestCases(rules[i].id, more.value);
      i := i + 1;
    }
    return Some(cases);
  }

  lemma Generates(lib: Lib, o: Options, e: Expression)
    ensures Generator(lib, o)(e) == Scenarios(lib, e, o)
  {
  }

  lemma CasesStart(generate: Expression -> Option<seq<Scenario>>, rules: seq<CompiledRule>)
    ensures CasesBy(generate, rules, 0) == Some([])
  {
  }

  lemma CasesNone(generate: Expression -> Option<seq<Scenario>>, rules: seq<CompiledRule>, i: nat)
    requires i < |rules| && generate(rules[i].expression) == None
    ensures CasesBy(generate, rules, i + 1) == None
  {
  }

  lemma CasesNext(generate: Expression -> Option<seq<Scenario>>, rules: seq<CompiledRule>, i: nat, cases: seq<TestCase>)
    requires i < |rules| && CasesBy(generate, rules, i) == Some(cases) && generate(rules[i].expression).Some?
    ensures CasesBy(generate, rules, i + 1) == Some(cases + TestCases(rules[i].id, generate(rules[i].expression).value))
  {
  }

  lemma {:induction false} CasesThrow(generate: Expression -> Option<seq<Scenario>>, rules: seq<CompiledRule>, m: nat, n: nat)
    requires m <= n <= |rules| && CasesBy(generate, rules, m) == None
    ensures CasesBy(generate, rules, n) == None
    decreases n
  {
    if m < n {
      CasesThrow(generate, rules, m, n - 1);
    }
  }

  datatype ResultKind = Pass | Fail | Error

  datatype RuleEvalResult = RuleEvalResult(
    passed: bool,
    ruleId: string,
    clauseId: string,
    controlId: Option<string>,
    inputFields: map<string, Value>,
    result: ResultKind,
    diagnostic: Option<Diagnostic>,
    conditionHash: string)

  ghost predicate ReportsVerdict(r: RuleEvalResult, lib: Lib, rule: CompiledRule, ctx: Context) {
    && r.ruleId == rule.id && r.clauseId == rule.clauseId && r.controlId == rule.controlId
    && r.inputFields == InputFields(lib, rule.expression, ctx) && Some(r.conditionHash) == lib.hash(rule.expression)
    && (match Verdict(lib, rule.expression, ctx)
        case None => !r.passed && r.result == Error && r.diagnostic == None
        case Some(passed) =>
          && r.passed == passed && r.result == (if passed then Pass else Fail)
          && r.diagnostic.Some? && Mirrors(lib, r.diagnostic.value, rule.id, rule.expression, ctx))
  }

  /** An exception while hashing the condition is thrown on; one during evaluation becomes an error result that does not pass. */
  method Evaluate(lib: Lib, rule: CompiledRule, ctx: Context) returns (r: Option<RuleEvalResult>)
    ensures r.Some? <==> lib.hash(rule.expression).Some?
    ensures r.Some? ==> ReportsVerdict(r.value, lib, rule, ctx)
  {
    var inputFields := CollectInputFields(lib, rule.expression, ctx);
    var conditionHash := lib.hash(rule.expression);
    if conditionHash.None? {
      return None;
    }
    var outcome := EvaluateWithDiagnostic(lib, rule.id, rule.expression, ctx);
    match outcome
    case Some(o) =>
      return Some(RuleEvalResult(o.passed, rule.id, rule.clauseId, rule.controlId, inputFields, if o.passed then Pass else Fail,
                                 Some(o.diagnostic), conditionHash.value));
    case None =>
      return Some(RuleEvalResult(false, rule.id, rule.clauseId, rule.controlId, inputFields, Error, None, conditionHash.value));
  }

  /** Every condition can be hashed. */
  predicate Hashable(lib: Lib, rules: seq<CompiledRule>) {
    forall i :: 0 <= i < |rules| ==> lib.hash(rules[i].expression).Some?
  }

  /** Result by result, the verdict of each rule. */
  ghost predicate ReportsEach(rs: seq<RuleEvalResult>, lib: Lib, rules: seq<CompiledRule>, ctx: Context) {
    |rs| <= |rules| && forall i :: 0 <= i < |rs| ==> ReportsVerdict(rs[i], lib, rules[i], ctx)
  }

  lemma ReportsNext(rs: seq<RuleEvalResult>, r: RuleEvalResult, lib: Lib, rules: seq<CompiledRule>, ctx: Context)
    requires ReportsEach(rs, lib, rules, ctx) && |rs| < |rules| && ReportsVerdict(r, lib, rules[|rs|], ctx)
    ensures ReportsEach(rs + [r], lib, rules, ctx)
  {
    forall i | 0 <= i < |rs| + 1 ensures ReportsVerdict((rs + [r])[i], lib, rules[i], ctx) {
      if i < |rs| { assert ReportsVerdict(rs[i], lib, rules[i], ctx); }
    }
  }

  lemma ReportedHash(r: RuleEvalResult, lib: Lib, rule: CompiledRule, ctx: Context)
    requires ReportsVerdict(r, lib, rule, ctx)
    ensures lib.hash(rule.expression).Some?
  {
  }

  method EvaluateAll(lib: Lib, rules: seq<CompiledRule>, ctx: Context) returns (rs: Option<seq<RuleEvalResult>>)
    ensures rs.Some? <==> Hashable(lib, rules)
    ensures rs.Some? ==> |rs.value| == |rules| && ReportsEach(rs.value, lib, rules, ctx)
  {
    var results: seq<RuleEvalResult> := [];
    while |results| < |rules|
      invariant ReportsEach(results, lib, rules, ctx)
    {
      var r := Evaluate(lib, rules[|results|], ctx);
      if r.None? {
        return None;
      }
      ReportsNext(results, r.value, lib, rules, ctx);
      results := results + [r.value];
    }
    forall i | 0 <= i < |rules| ensures lib.hash(rules[i].expression).Some? {
      ReportedHash(results[i], lib, rules[i], ctx);
    }
    return Some(results);
  }

  datatype Failure = Failure(ruleId: string, expected: bool, actual: bool)

  datatype TestCaseResult = TestCaseResult(passed: bool, ruleResults: seq<RuleEvalResult>, failures: seq<Failure>)

  predicate Passed(lib: Lib, rule: CompiledRule, ctx: Context) {
    Verdict(lib, rule.expression, ctx) == Some(true)
  }

  /** Whether the first rule with that id passes; None when there is none. */
  function ActualOf(lib: Lib, rules: seq<CompiledRule>, ctx: Context, ruleId: string): Option<bool> {
    if rules == [] then None
    else if rules[0].id == ruleId then Some(Passed(lib, rules[0], ctx))
    else ActualOf(lib, rules[1..], ctx, ruleId)
  }

  /** The unmet expectations among the first n, in order; None is no result. */
  function FailuresBy(actual: string -> Option<bool>, expected: seq<Expectation>, n: nat): seq<Failure>
    requires n <= |expected|
  {
    if n == 0 then []
    else
      var exp := expected[n - 1];
      FailuresBy(actual, expected, n - 1) +
      match actual(exp.ruleId)
      case None => [Failure(exp.ruleId, exp.expectedPass, false)]
      case Some(a) => if a != exp.expectedPass then [Failure(exp.ruleId, exp.expectedPass, a)] else []
  }

  lemma {:induction false} SameFailures(f: string -> Option<bool>, g: string -> Option<bool>, expected: seq<Expectation>, n: nat)
    requires n <= |expected| && forall id :: f(id) == g(id)
    ensures FailuresBy(f, expected, n) == FailuresBy(g, expected, n)
  {
    if n > 0 {
      SameFailures(f, g, expected, n - 1);
    }
  }

  function Actuals(lib: Lib, rules: seq<CompiledRule>, ctx: Context): string -> Option<bool> {
    ruleId => ActualOf(lib, rules, ctx, ruleId)
  }

  function FailuresOf(lib: Lib, rules: seq<CompiledRule>, tc: TestCase): seq<Failure> {
    FailuresBy(Actuals(lib, rules, tc.context), tc.expectedResults, |tc.expectedResults|)
  }

  predicate Succeeds(lib: Lib, rules: seq<CompiledRule>, tc: TestCase) {
    FailuresOf(lib, rules, tc) == []
  }

  /** The first result with that id. */
  function ResultOf(rs: seq<RuleEvalResult>, ruleId: string): Option<bool> {
    if rs == [] then None
    else if rs[0].ruleId == ruleId then Some(rs[0].passed)
    else ResultOf(rs[1..], ruleId)
  }

  function Results(rs: seq<RuleEvalResult>): string -> Option<bool> {
    ruleId => ResultOf(rs, ruleId)
  }

  method FindResult(rs: seq<RuleEvalResult>, ruleId: string) returns (r: Option<RuleEvalResult>)
    ensures r.Some? <==> ResultOf(rs, ruleId).Some?
    ensures r.Some? ==> ResultOf(rs, ruleId) == Some(r.value.passed)
  {
    var i := 0;
    while i < |rs|
      invariant 0 <= i <= |rs|
      invariant ResultOf(rs, ruleId) == ResultOf(rs[i..], ruleId)
    {
      if rs[i].ruleId == ruleId {
        return Some(rs[i]);
      }
      i := i + 1;
    }
    return None;
  }

  method CollectFailures(rs: seq<RuleEvalResult>, expected: seq<Expectation>) returns (failures: seq<Failure>)
    ensures failures == FailuresBy(Results(rs), expected, |expected|)
  {
    failures := [];
    var i := 0;
    while i < |expected|
      invariant 0 <= i <= |expected|
      invariant failures == FailuresBy(Results(rs), expected, i)
    {
      var exp := expected[i];
      var actual := FindResult(rs, exp.ruleId);
      if actual == None {
        failures := failures + [Failure(exp.ruleId, exp.expectedPass, false)];
      } else if actual.value.passed != exp.expectedPass {
        failures := failures + [Failure(exp.ruleId, exp.expectedPass, actual.value.passed)];
      }
      i := i + 1;
    }
  }

  /** The results show the verdicts. */
  lemma {:induction false} ResultsShow(rs: seq<RuleEvalResult>, lib: Lib, rules: seq<CompiledRule>, ctx: Context, ruleId: string)
    requires |rs| == |rules| && ReportsEach(rs, lib, rules, ctx)
    ensures ResultOf(rs, ruleId) == ActualOf(lib, rules, ctx, ruleId)
  {
    if rs != [] {
      assert ReportsVerdict(rs[0], lib, rules[0], ctx);
      forall i | 0 <= i < |rs[1..]| ensures ReportsVerdict(rs[1..][i], lib, rules[1..][i], ctx) {
        assert ReportsVerdict(rs[i + 1], lib, rules[i + 1], ctx);
      }
      ResultsShow(rs[1..], lib, rules[1..], ctx, ruleId);
    }
  }

  lemma UnmetAreFailures(rs: seq<RuleEvalResult>, lib: Lib, rules: seq<CompiledRule>, tc: TestCase)
    requires |rs| == |rules| && ReportsEach(rs, lib, rules, tc.context)
    ensures FailuresBy(Results(rs), tc.expectedResults, |tc.expectedResults|) == FailuresOf(lib, rules, tc)
  {
    forall id ensures Results(rs)(id) == Actuals(lib, rules, tc.context)(id) {
      ResultsShow(rs, lib, rules, tc.context, id);
    }
    SameFailures(Results(rs), Actuals(lib, rules, tc.context), tc.expectedResults, |tc.expectedResults|);
  }

  /** The first result with that id. */
  predicate FirstWith(rs: seq<RuleEvalResult>, id: string, i: int) {
    0 <= i < |rs| && rs[i].ruleId == id && forall j :: 0 <= j < i ==> rs[j].ruleId != id
  }

  /** An expectation is met when the first result with its id shows the expected outcome. */
  ghost predicate Met(rs: seq<RuleEvalResult>, exp: Expectation) {
    exists i :: FirstWith(rs, exp.ruleId, i) && rs[i].passed == exp.expectedPass
  }

  ghost predicate FailureFor(f: Failure, rs: seq<RuleEvalResult>, exp: Expectation) {
    f.ruleId == exp.ruleId && f.expected == exp.expectedPass && (f.actual <==> exists i :: FirstWith(rs, exp.ruleId, i) && rs[i].passed)
  }

  /** One failure for each unmet expectation, in their order. */
  ghost predicate FailuresAt(failures: seq<Failure>, rs: seq<RuleEvalResult>, expected: seq<Expectation>, places: seq<nat>) {
    && |places| == |failures|
    && (forall k :: 0 <= k < |places| ==> places[k] < |expected| && FailureFor(failures[k], rs, expected[places[k]]))
    && (forall k, l :: 0 <= k < l < |places| ==> places[k] < places[l])
    && forall p: nat :: p < |expected| ==> (p in places <==> !Met(rs, expected[p]))
  }

  lemma FirstShifts(rs: seq<RuleEvalResult>, id: string, i: nat)
    requires rs != [] && rs[0].ruleId != id
    ensures FirstWith(rs, id, i + 1) <==> FirstWith(rs[1..], id, i)
  {
    if FirstWith(rs[1..], id, i) {
      forall j | 0 <= j < i + 1 ensures rs[j].ruleId != id {
        assert j > 0 ==> rs[j] == rs[1..][j - 1];
      }
    }
  }

  lemma {:induction false} FirstResult(rs: seq<RuleEvalResult>, id: string) returns (i: int)
    ensures if ResultOf(rs, id) == None then i == -1 else FirstWith(rs, id, i) && ResultOf(rs, id) == Some(rs[i].passed)
    ensures i == -1 ==> forall k :: 0 <= k < |rs| ==> rs[k].ruleId != id
  {
    if rs == [] {
      i := -1;
    } else if rs[0].ruleId == id {
      i := 0;
    } else {
      var k := FirstResult(rs[1..], id);
      if k >= 0 {
        FirstShifts(rs, id, k);
        i := k + 1;
      } else {
        i := -1;
      }
    }
  }

  lemma MetOrNot(rs: seq<RuleEvalResult>, exp: Expectation)
    ensures Met(rs, exp) <==> ResultOf(rs, exp.ruleId) == Some(exp.expectedPass)
    ensures (exists i :: FirstWith(rs, exp.ruleId, i) && rs[i].passed) <==> ResultOf(rs, exp.ruleId) == Some(true)
  {
    hide ResultOf;
    var i := FirstResult(rs, exp.ruleId);
    if k :| FirstWith(rs, exp.ruleId, k) {
      assert k == i;
    }
  }

  lemma MoreFailures(failures: seq<Failure>, rs: seq<RuleEvalResult>, expected: seq<Expectation>, places: seq<nat>, exp: Expectation,
                     f: Failure)
    requires FailuresAt(failures, rs, expected, places)
    requires !Met(rs, exp) ==> FailureFor(f, rs, exp)
    ensures Met(rs, exp) ==> FailuresAt(failures, rs, expected + [exp], places)
    ensures !Met(rs, exp) ==> FailuresAt(failures + [f], rs, expected + [exp], places + [|expected|])
  {
    hide Met, FailureFor;
    var more: seq<nat> := places + [|expected|];
    assert |expected| in more;
    forall p: nat | p < |expected| ensures p in more <==> p in places {
    }
  }

  lemma FailuresStep(rs: seq<RuleEvalResult>, expected: seq<Expectation>, n: nat)
    requires 0 < n <= |expected|
    ensures var exp, before := expected[n - 1], FailuresBy(Results(rs), expected, n - 1);
      FailuresBy(Results(rs), expected, n) ==
        if ResultOf(rs, exp.ruleId) == Some(exp.expectedPass) then before
        else before + [Failure(exp.ruleId, exp.expectedPass, ResultOf(rs, exp.ruleId) == Some(true))]
  {
    hide ResultOf;
  }

  lemma {:induction false} FailurePlaces(rs: seq<RuleEvalResult>, expected: seq<Expectation>, n: nat) returns (places: seq<nat>)
    requires n <= |expected|
    ensures FailuresAt(FailuresBy(Results(rs), expected, n), rs, expected[..n], places)
  {
    hide ResultOf, Met, FailuresAt, FailuresBy, FailureFor;
    if n == 0 {
      places := [];
      NoFailures(rs, expected);
    } else {
      var exp := expected[n - 1];
      var before := FailurePlaces(rs, expected, n - 1);
      MetOrNot(rs, exp);
      FailuresStep(rs, expected, n);
      var f := Failure(exp.ruleId, exp.expectedPass, ResultOf(rs, exp.ruleId) == Some(true));
      FailureShown(f, rs, exp);
      MoreFailures(FailuresBy(Results(rs), expected, n - 1), rs, expected[..n - 1], before, exp, f);
      assert expected[..n - 1] + [exp] == expected[..n];
      places := if Met(rs, exp) then before else before + [n - 1];
    }
  }

  lemma FailureShown(f: Failure, rs: seq<RuleEvalResult>, exp: Expectation)
    requires f == Failure(exp.ruleId, exp.expectedPass, ResultOf(rs, exp.ruleId) == Some(true))
    ensures FailureFor(f, rs, exp)
  {
    MetOrNot(rs, exp);
  }

  lemma NoFailures(rs: seq<RuleEvalResult>, expected: seq<Expectation>)
    ensures FailuresAt(FailuresBy(Results(rs), expected, 0), rs, expected[..0], [])
  {
  }

  /** The failures of a test case are its unmet expectations, and it passes when there are none. */
  ghost predicate Ran(r: TestCaseResult, lib: Lib, rules: seq<CompiledRule>, tc: TestCase) {
    && r.failures == FailuresOf(lib, rules, tc)
    && (r.passed <==> Succeeds(lib, rules, tc))
    && (r.passed <==> r.failures == []) && (exists places :: FailuresAt(r.failures, r.ruleResults, tc.expectedResults, places))
    && |r.ruleResults| == |rules| && ReportsEach(r.ruleResults, lib, rules, tc.context)
  }

  /** None when an exception is thrown on. */
  method RunTestCase(lib: Lib, rules: seq<CompiledRule>, tc: TestCase) returns (r: Option<TestCaseResult>)
    ensures r.Some? <==> Hashable(lib, rules)
    ensures r.Some? ==> Ran(r.value, lib, rules, tc)
  {
    var ruleResults := EvaluateAll(lib, rules, tc.context);
    if ruleResults.None? {
      return None;
    }
    var failures := CollectFailures(ruleResults.value, tc.expectedResults);
    UnmetAreFailures(ruleResults.value, lib, rules, tc);
    ghost var places := FailurePlaces(ruleResults.value, tc.expectedResults, |tc.expectedResults|);
    assert tc.expectedResults[..|tc.expectedResults|] == tc.expectedResults;
    return Some(TestCaseResult(|failures| == 0, ruleResults.value, failures));
  }

  datatype HarnessReport = HarnessReport(totalTests: nat, passed: nat, failed: nat, results: seq<TestCaseResult>)

  /** How many of the first n test cases succeed. */
  function CountBy(ok: TestCase -> bool, cases: seq<TestCase>, n: nat): (count: nat)
    requires n <= |cases|
    ensures count <= n
    ensures count == n <==> forall i :: 0 <= i < n ==> ok(cases[i])
  {
    if n == 0 then 0 else CountBy(ok, cases, n - 1) + if ok(cases[n - 1]) then 1 else 0
  }

  function Succeeding(lib: Lib, rules: seq<CompiledRule>): TestCase -> bool {
    tc => Succeeds(lib, rules, tc)
  }

  function CountPassed(lib: Lib, rules: seq<CompiledRule>, cases: seq<TestCase>): nat {
    CountBy(Succeeding(lib, rules), cases, |cases|)
  }

  /** What a report of these test cases says. */
  ghost predicate Reports(report: HarnessReport, lib: Lib, rules: seq<CompiledRule>, cases: seq<TestCase>) {
    && report.totalTests == |cases| == |report.results|
    && report.passed == CountPassed(lib, rules, cases) && report.passed + report.failed == |cases|
    && report.passed == |set i | 0 <= i < |report.results| && report.results[i].passed|
    && forall i :: 0 <= i < |cases| ==> Ran(report.results[i], lib, rules, cases[i])
  }

  /** How many of the first n results passed. */
  function PassedResults(results: seq<TestCaseResult>, n: nat): nat
    requires n <= |results|
  {
    if n == 0 then 0 else PassedResults(results, n - 1) + if results[n - 1].passed then 1 else 0
  }

  lemma {:induction false} ResultsCount(results: seq<TestCaseResult>, ok: TestCase -> bool, cases: seq<TestCase>, n: nat)
    requires n <= |results| == |cases| && forall k :: 0 <= k < |results| ==> results[k].passed == ok(cases[k])
    ensures PassedResults(results, n) == CountBy(ok, cases, n)
  {
    if n > 0 {
      ResultsCount(results, ok, cases, n - 1);
    }
  }

  lemma RanPassed(r: TestCaseResult, lib: Lib, rules: seq<CompiledRule>, tc: TestCase)
    requires Ran(r, lib, rules, tc)
    ensures r.passed == Succeeding(lib, rules)(tc)
  {
  }

  lemma {:induction false} PassedIndices(results: seq<TestCaseResult>, n: nat)
    requires n <= |results|
    ensures PassedResults(results, n) == |set i | 0 <= i < n && results[i].passed|
  {
    var all := set i | 0 <= i < n && results[i].passed;
    if n > 0 {
      PassedIndices(results, n - 1);
      var before := set i | 0 <= i < n - 1 && results[i].passed;
      assert all == if results[n - 1].passed then before + {n - 1} else before;
    }
  }

  method RunAllTests(lib: Lib, rules: seq<CompiledRule>, cases: seq<TestCase>) returns (report: Option<HarnessReport>)
    ensures report.Some? <==> cases == [] || Hashable(lib, rules)
    ensures report.Some? ==> Reports(report.value, lib, rules, cases)
  {
    hide Ran, PassedResults, CountBy, Succeeding;
    var results: seq<TestCaseResult> := [];
    var i := 0;
    while i < |cases|
      invariant 0 <= i <= |cases| && |results| == i && (i > 0 ==> Hashable(lib, rules))
      invariant forall k :: 0 <= k < i ==> Ran(results[k], lib, rules, cases[k])
    {
      var r := RunTestCase(lib, rules, cases[i]);
      if r.None? {
        return None;
      }
      results := results + [r.value];
      i := i + 1;
    }
    forall k | 0 <= k < |results| ensures results[k].passed == Succeeding(lib, rules)(cases[k]) {
      RanPassed(results[k], lib, rules, cases[k]);
    }
    ResultsCount(results, Succeeding(lib, rules), cases, |cases|);
    PassedIndices(results, |results|);
    var passed := PassedResults(results, |results|);
    return Some(HarnessReport(|results|, passed, |results| - passed, results));
  }
}
