/**
 * The generated scenarios of one expression as a table of rows, each of a kind. The table does
 * not know the options: generation is proved to select the rows of the wanted kinds, in order.
 */
module ScenarioTable {
  import opened Wrappers
  import opened Strings
  import opened RuleExpressions
  import opened ScenarioGenerator

  datatype Kind = Positive | Negative | Boundary | Missing

  /** A scenario of a kind; none stands for an exception while it is made. */
  datatype Row = Row(kind: Kind, scenario: Option<Scenario>)

  predicate Wanted(o: Options, kind: Kind) {
    match kind
    case Positive => o.positive
    case Negative => o.negative
    case Boundary => o.boundary
    case Missing => o.missing
  }

  function Chosen(row: Row, o: Options): seq<Scenario> {
    if Wanted(o, row.kind) && row.scenario.Some? then [row.scenario.value] else []
  }

  function ChosenOf(rows: seq<Row>, o: Options): seq<Scenario> {
    if rows == [] then [] else Chosen(rows[0], o) + ChosenOf(rows[1..], o)
  }

  /** The rows of the wanted kinds; None when one of them throws. */
  function Select(rows: seq<Row>, o: Options): Option<seq<Scenario>> {
    if exists i :: 0 <= i < |rows| && Wanted(o, rows[i].kind) && rows[i].scenario.None? then None else Some(ChosenOf(rows, o))
  }

  // ---------------------------------------------------------------------- the table

  function Case(kind: Kind, context: Context, expected: bool): Row {
    Row(kind, Some(Scenario(context, expected)))
  }

  const ABSENT := Row(Missing, Some(Scenario(map[], false)))

  /** A scenario with a moment as text; a moment that is no date throws. */
  function Moment(lib: Lib, kind: Kind, f: string, time: Option<int>, expected: bool): Row {
    if time.Some? && lib.isoDate(time.value).Some? then Case(kind, map[f := VStr(lib.isoDate(time.value).value)], expected)
    else Row(kind, None)
  }

  /** The moment a text denotes, that many milliseconds later. */
  function Later(lib: Lib, text: string, delta: int): Option<int> {
    if lib.parseDate(text).Some? then Some(lib.parseDate(text).value + delta) else None
  }

  function Between(lib: Lib, a: string, b: string): Option<int> {
    if lib.parseDate(a).Some? && lib.parseDate(b).Some? then Some(MidTime(lib.parseDate(a).value, lib.parseDate(b).value)) else None
  }

  /** Every letter in the other case. */
  function Flipped(lib: Lib, s: string): string {
    Join(seq(|s|, i requires 0 <= i < |s| =>
      if lib.lower([s[i]]) == lib.upper([s[i]]) then [s[i]]
      else if lib.lower([s[i]]) == [s[i]] then lib.upper([s[i]]) else lib.lower([s[i]])), "")
  }

  function LimitRows(f: string, currency: Option<string>, under: Value, at: Value, over: Value): seq<Row> {
    if currency.None? || currency.value == "" then
      [Case(Positive, map[f := under], true), Case(Boundary, map[f := at], true), Case(Negative, map[f := over], false), ABSENT]
    else
      var c := VStr(currency.value);
      [Case(Positive, map[f := under][f + "_currency" := c], true), Case(Boundary, map[f := at][f + "_currency" := c], true),
       Case(Negative, map[f := over][f + "_currency" := c], false),
       Case(Boundary, map[f := under][f + "_currency" := VStr("__wrong__")], false), ABSENT]
  }

  function ThresholdRows(f: string, op: Operator, below: Value, at: Value, above: Value): seq<Row> {
    match op
    case Gt => [Case(Positive, map[f := above], true), Case(Negative, map[f := below], false), Case(Boundary, map[f := at], false), ABSENT]
    case Gte => [Case(Positive, map[f := above], true), Case(Negative, map[f := below], false), Case(Boundary, map[f := at], true), ABSENT]
    case Lt => [Case(Positive, map[f := below], true), Case(Negative, map[f := above], false), Case(Boundary, map[f := at], false), ABSENT]
    case Lte => [Case(Positive, map[f := below], true), Case(Negative, map[f := above], false), Case(Boundary, map[f := at], true), ABSENT]
    case Eq => [Case(Positive, map[f := at], true), Case(Negative, map[f := above], false), Case(Boundary, map[f := at], true), ABSENT]
    case Neq => [Case(Positive, map[f := below], true), Case(Negative, map[f := at], false), Case(Boundary, map[f := at], false), ABSENT]
  }

  function RegexRows(lib: Lib, f: string, pattern: string): seq<Row> {
    var text := if lib.regexTest(pattern, "", "test_match_123") == Some(true) then "test_match_123" else "a";
    var onText, onNul := lib.regexTest(pattern, "", text), lib.regexTest(pattern, "", "\0");
    [if lib.regexTest(pattern, "", "test_match_123").Some? && onText.Some? then Case(Positive, map[f := VStr(text)], onText.value)
     else Row(Positive, None),
     if onNul.Some? then Case(Negative, map[f := VStr("\0")], onNul.value) else Row(Negative, None), ABSENT]
  }

  function DateRows(lib: Lib, f: string, after: Option<string>, before: Option<string>): seq<Row> {
    match (if after == Some("") then None else after, if before == Some("") then None else before)
    case (None, None) => [Case(Positive, map[f := VStr("2025-06-15T00:00:00Z")], true), ABSENT]
    case (Some(a), None) =>
      [Moment(lib, Positive, f, Later(lib, a, 86400000), true), Moment(lib, Negative, f, Later(lib, a, -86400000), false), ABSENT]
    case (None, Some(b)) =>
      [Moment(lib, Positive, f, Later(lib, b, -86400000), true), Moment(lib, Negative, f, Later(lib, b, 86400000), false), ABSENT]
    case (Some(a), Some(b)) =>
      [Moment(lib, Positive, f, Between(lib, a, b), true), Moment(lib, Negative, f, Later(lib, a, -86400000), false),
       Moment(lib, Negative, f, Later(lib, b, 86400000), false), ABSENT]
  }

  function Table(lib: Lib, e: Expression): seq<Row>
    requires !e.CompositeAnd? && !e.CompositeOr?
  {
    match e
    case Threshold(f, op, value) => ThresholdRows(f, op, VNum(lib.add(value, -1.0)), VNum(value), VNum(lib.add(value, 1.0)))
    case Range(f, min, max, inclusive) =>
      [Case(Positive, map[f := VNum(lib.half(lib.add(min, max)))], true),
       Case(Negative, map[f := VNum(lib.add(min, -1.0))], false), Case(Negative, map[f := VNum(lib.add(max, 1.0))], false),
       Case(Boundary, map[f := VNum(min)], inclusive), Case(Boundary, map[f := VNum(max)], inclusive), ABSENT]
    case EnumMatch(f, allowed) =>
      (if allowed == [] then [] else [Case(Positive, map[f := VStr(allowed[0])], true)])
      + [Case(Negative, map[f := VStr("__invalid__")], false), Case(Boundary, map[f := VStr("")], false), ABSENT]
    case StringMatch(f, pattern, caseSensitive) =>
      var flipped := Flipped(lib, pattern);
      [Case(Positive, map[f := VStr(pattern)], true), Case(Negative, map[f := VStr(pattern + "_x")], false)]
      + (if flipped == pattern || flipped == "" then [] else [Case(Boundary, map[f := VStr(flipped)], !caseSensitive)])
      + [ABSENT]
    case BooleanRequired(f, required) =>
      [Case(Positive, map[f := VBool(required)], true), Case(Negative, map[f := VBool(!required)], false), ABSENT]
    case FieldPresence(fields, allRequired) =>
      [Case(Positive, map f | f in fields && f != "__proto__" :: VStr("present"), true)]
      + (if allRequired && |fields| > 1 then [Case(Negative, map[fields[0] := VStr("present")], false)]
         else if !allRequired && |fields| > 0 then [Case(Negative, map[], false)] else [])
      + [ABSENT]
    case SanctionsMatch(f, lists) =>
      var data := VObj(map l | l in lists :: VArr([VStr("bad_entity")]));
      [Case(Positive, map[f := VStr("safe_entity")]["_sanctionsData" := data], true),
       Case(Negative, map[f := VStr("bad_entity")]["_sanctionsData" := data], false), ABSENT]
    case RegexMatch(f, pattern, _) => RegexRows(lib, f, pattern)
    case DateRange(f, after, before) => DateRows(lib, f, after, before)
    case AmountLimit(f, maxAmount, currency) =>
      LimitRows(f, currency, VNum(lib.add(maxAmount, -1.0)), VNum(maxAmount), VNum(lib.add(maxAmount, 1.0)))
    case CountLimit(f, maxCount) =>
      LimitRows(f, None, VNum(lib.add(maxCount, -1.0)), VNum(maxCount), VNum(lib.add(maxCount, 1.0)))
    case RoleRequired(f, roles, anyOf) =>
      var all := VArr(seq(|roles|, i requires 0 <= i < |roles| => VStr(roles[i])));
      [Case(Positive, map[f := all], true),
       Case(Negative, map[f := VArr([VStr(if anyOf || |roles| <= 1 then "__invalid__" else roles[0])])], false),
       Case(Boundary, map[f := VStr("__invalid__")], false), ABSENT]
    case JurisdictionMatch(f, allowed) =>
      (if allowed == [] then [] else [Case(Positive, map[f := VStr(allowed[0])], true)])
      + [Case(Negative, map[f := VStr("__forbidden__")], false), ABSENT]
    case ListMembership(f, listId, mustBePresent) =>
      var data := VObj(map[listId := VArr([VStr("item")])]);
      var on, off := map[f := VStr("item")]["_listData" := data], map[f := VStr("other")]["_listData" := data];
      if mustBePresent then [Case(Positive, on, true), Case(Negative, off, false), ABSENT]
      else [Case(Positive, off, true), Case(Negative, on, false), ABSENT]
  }

  // ---------------------------------------------------------------------- generation selects

  lemma {:induction false} ChosenConcat(a: seq<Row>, b: seq<Row>, o: Options)
    ensures ChosenOf(a + b, o) == ChosenOf(a, o) + ChosenOf(b, o)
  {
    if a == [] {
      assert a + b == b;
    } else {
      ChosenConcat(a[1..], b, o);
      assert (a + b)[1..] == a[1..] + b;
    }
  }

  lemma Chosen1(a: Row, o: Options)
    ensures ChosenOf([a], o) == Chosen(a, o)
  {
    assert ChosenOf([a], o) == Chosen(a, o) + ChosenOf([], o);
  }

  lemma Regroup<T>(a: seq<T>, b: seq<T>, c: seq<T>, d: seq<T>)
    ensures a + (b + c + d) == a + b + c + d && a + (b + c) == a + b + c
  {
  }

  lemma Chosen2(a: Row, b: Row, o: Options)
    ensures ChosenOf([a, b], o) == Chosen(a, o) + Chosen(b, o)
  {
    assert [a, b][1..] == [b] && [b][1..] == [];
    assert ChosenOf([b], o) == Chosen(b, o) + ChosenOf([], o);
  }

  lemma Chosen3(a: Row, b: Row, c: Row, o: Options)
    ensures ChosenOf([a, b, c], o) == Chosen(a, o) + Chosen(b, o) + Chosen(c, o)
  {
    Chosen2(b, c, o);
    assert [a, b, c][1..] == [b, c];
  }

  lemma Chosen4(a: Row, b: Row, c: Row, d: Row, o: Options)
    ensures ChosenOf([a, b, c, d], o) == Chosen(a, o) + Chosen(b, o) + Chosen(c, o) + Chosen(d, o)
  {
    Chosen3(b, c, d, o);
    assert [a, b, c, d][1..] == [b, c, d];
  }

  lemma Chosen5(a: Row, b: Row, c: Row, d: Row, e: Row, o: Options)
    ensures ChosenOf([a, b, c, d, e], o) == Chosen(a, o) + Chosen(b, o) + Chosen(c, o) + Chosen(d, o) + Chosen(e, o)
  {
    Chosen4(b, c, d, e, o);
    assert [a, b, c, d, e][1..] == [b, c, d, e];
  }

  lemma Chosen6(a: Row, b: Row, c: Row, d: Row, e: Row, f: Row, o: Options)
    ensures ChosenOf([a, b, c, d, e, f], o) == Chosen(a, o) + Chosen(b, o) + Chosen(c, o) + Chosen(d, o) + Chosen(e, o) + Chosen(f, o)
  {
    Chosen5(b, c, d, e, f, o);
    assert [a, b, c, d, e, f][1..] == [b, c, d, e, f];
  }

  lemma ThresholdSelected(lib: Lib, f: string, op: Operator, value: real, o: Options)
    ensures Some(ThresholdScenarios(lib, f, op, value, o)) ==
      Select(ThresholdRows(f, op, VNum(lib.add(value, -1.0)), VNum(value), VNum(lib.add(value, 1.0))), o)
  {
    hide ChosenOf;
    var rows := ThresholdRows(f, op, VNum(lib.add(value, -1.0)), VNum(value), VNum(lib.add(value, 1.0)));
    assert rows == [rows[0], rows[1], rows[2], rows[3]];
    Chosen4(rows[0], rows[1], rows[2], rows[3], o);
  }

  lemma LimitSelected(f: string, currency: Option<string>, under: Value, at: Value, over: Value, o: Options)
    ensures Select(LimitRows(f, currency, under, at, over), o).Some?
    ensures var rows := LimitRows(f, currency, under, at, over);
      if Given(currency) then
        Select(rows, o).value == Chosen(rows[0], o) + Chosen(rows[1], o) + Chosen(rows[2], o) + Chosen(rows[3], o) + Chosen(rows[4], o)
      else Select(rows, o).value == Chosen(rows[0], o) + Chosen(rows[1], o) + Chosen(rows[2], o) + Chosen(rows[3], o)
  {
    hide ChosenOf;
    var rows := LimitRows(f, currency, under, at, over);
    if Given(currency) {
      assert rows == [rows[0], rows[1], rows[2], rows[3], rows[4]];
      Chosen5(rows[0], rows[1], rows[2], rows[3], rows[4], o);
    } else {
      assert rows == [rows[0], rows[1], rows[2], rows[3]];
      Chosen4(rows[0], rows[1], rows[2], rows[3], o);
    }
  }

  lemma {:induction false} FlippedChars(lib: Lib, s: string)
    ensures FlipChars(lib, s) == Flipped(lib, s)
  {
    if s != "" {
      var parts := seq(|s|, i requires 0 <= i < |s| => FlipChar(lib, s[i]));
      var rest := seq(|s| - 1, i requires 0 <= i < |s| - 1 => FlipChar(lib, s[1..][i]));
      FlippedChars(lib, s[1..]);
      assert parts == [FlipChar(lib, s[0])] + rest;
      FlippedParts(lib, s);
      FlippedParts(lib, s[1..]);
      JoinCons(FlipChar(lib, s[0]), rest);
    }
  }

  lemma FlippedParts(lib: Lib, s: string)
    ensures Flipped(lib, s) == Join(seq(|s|, i requires 0 <= i < |s| => FlipChar(lib, s[i])), "")
  {
    var parts := seq(|s|, i requires 0 <= i < |s| => FlipChar(lib, s[i]));
    assert parts == seq(|s|, i requires 0 <= i < |s| =>
      if lib.lower([s[i]]) == lib.upper([s[i]]) then [s[i]]
      else if lib.lower([s[i]]) == [s[i]] then lib.upper([s[i]]) else lib.lower([s[i]]));
  }

  lemma JoinCons(part: string, rest: seq<string>)
    ensures Join([part] + rest, "") == part + Join(rest, "")
  {
    assert ([part] + rest)[1..] == rest;
  }

  lemma StringSelected(lib: Lib, f: string, pattern: string, caseSensitive: bool, o: Options)
    ensures Some(StringScenarios(lib, f, pattern, caseSensitive, o)) == Select(Table(lib, StringMatch(f, pattern, caseSensitive)), o)
  {
    hide ChosenOf, Flipped, FlipChars;
    FlippedChars(lib, pattern);
    var flipped := Flipped(lib, pattern);
    var first, second := Case(Positive, map[f := VStr(pattern)], true), Case(Negative, map[f := VStr(pattern + "_x")], false);
    var middle := if flipped == pattern || flipped == "" then [] else [Case(Boundary, map[f := VStr(flipped)], !caseSensitive)];
    Chosen2(first, second, o);
    MaybeChosen(middle, o);
    Chosen1(ABSENT, o);
    ChosenConcat([first, second], middle, o);
    ChosenConcat([first, second] + middle, [ABSENT], o);
  }

  lemma MaybeChosen(rows: seq<Row>, o: Options)
    requires |rows| <= 1
    ensures ChosenOf(rows, o) == if rows == [] then [] else Chosen(rows[0], o)
  {
    if rows != [] {
      Chosen1(rows[0], o);
      assert rows == [rows[0]];
    }
  }

  lemma PresenceSelected(lib: Lib, fields: seq<string>, allRequired: bool, o: Options)
    ensures Some(PresenceScenarios(fields, allRequired, o)) == Select(Table(lib, FieldPresence(fields, allRequired)), o)
  {
    hide ChosenOf;
    var all := map f | f in fields && f != "__proto__" :: VStr("present");
    assert all == AllPresent(fields);
    var middle := if allRequired && |fields| > 1 then [Case(Negative, map[fields[0] := VStr("present")], false)]
                  else if !allRequired && |fields| > 0 then [Case(Negative, map[], false)] else [];
    Chosen1(Case(Positive, all, true), o);
    MaybeChosen(middle, o);
    Chosen1(ABSENT, o);
    ChosenConcat([Case(Positive, all, true)], middle, o);
    ChosenConcat([Case(Positive, all, true)] + middle, [ABSENT], o);
  }

  lemma RegexSelected(lib: Lib, f: string, pattern: string, o: Options)
    ensures RegexScenarios(lib, f, pattern, o) == Select(RegexRows(lib, f, pattern), o)
  {
    hide ChosenOf;
    var rows := RegexRows(lib, f, pattern);
    assert rows == [rows[0], rows[1], rows[2]];
    Chosen3(rows[0], rows[1], rows[2], o);
  }

  lemma MomentCase(lib: Lib, kind: Kind, f: string, time: Option<int>, expected: bool, o: Options)
    ensures DateCase(Wanted(o, kind), f, IsoText(lib, time), expected) ==
      if Wanted(o, kind) && Moment(lib, kind, f, time, expected).scenario.None? then None
      else Some(Chosen(Moment(lib, kind, f, time, expected), o))
  {
  }

  lemma DateBoth(lib: Lib, f: string, a: string, b: string, o: Options)
    requires a != "" && b != ""
    ensures DateScenarios(lib, f, Some(a), Some(b), o) == Select(DateRows(lib, f, Some(a), Some(b)), o)
  {
    hide ChosenOf, Moment, DateCase, IsoText, Chosen;
    var rows := DateRows(lib, f, Some(a), Some(b));
    assert rows == [rows[0], rows[1], rows[2], rows[3]];
    Chosen4(rows[0], rows[1], rows[2], rows[3], o);
    MomentCase(lib, Positive, f, Between(lib, a, b), true, o);
    MomentCase(lib, Negative, f, Later(lib, a, -86400000), false, o);
    MomentCase(lib, Negative, f, Later(lib, b, 86400000), false, o);
    BetweenText(lib, a, b);
    AbsentChosen(o);
    MomentKinds(lib, f);
  }

  lemma BetweenText(lib: Lib, a: string, b: string)
    requires a != "" && b != ""
    ensures WithinText(lib, Some(a), Some(b)) == IsoText(lib, Between(lib, a, b))
  {
  }

  lemma AbsentChosen(o: Options)
    ensures Chosen(ABSENT, o) == When(o.missing, map[], false)
  {
  }

  lemma MomentKinds(lib: Lib, f: string)
    ensures forall k, t, x :: Moment(lib, k, f, t, x).kind == k
  {
  }

  lemma DateOne(lib: Lib, f: string, after: Option<string>, before: Option<string>, o: Options)
    requires Given(after) != Given(before)
    ensures DateScenarios(lib, f, after, before, o) == Select(DateRows(lib, f, after, before), o)
  {
    hide ChosenOf, Moment, DateCase, IsoText, Chosen;
    var rows := DateRows(lib, f, after, before);
    assert rows == [rows[0], rows[1], rows[2]];
    Chosen3(rows[0], rows[1], rows[2], o);
    var (text, sign) := if Given(after) then (after.value, 1) else (before.value, -1);
    MomentCase(lib, Positive, f, Later(lib, text, sign * 86400000), true, o);
    MomentCase(lib, Negative, f, Later(lib, text, -sign * 86400000), false, o);
    AbsentChosen(o);
    MomentKinds(lib, f);
    NothingDated(f);
    NothingBetween(Chosen(rows[0], o), Chosen(rows[1], o), Chosen(rows[2], o));
  }

  lemma NothingDated(f: string)
    ensures forall t, x :: DateCase(false, f, t, x) == Some([])
  {
  }

  lemma DateSelected(lib: Lib, f: string, after: Option<string>, before: Option<string>, o: Options)
    ensures DateScenarios(lib, f, after, before, o) == Select(DateRows(lib, f, after, before), o)
  {
    if Given(after) && Given(before) {
      DateBoth(lib, f, after.value, before.value, o);
    } else if Given(after) || Given(before) {
      DateOne(lib, f, after, before, o);
    } else {
      hide ChosenOf;
      var rows := DateRows(lib, f, after, before);
      assert rows == [rows[0], rows[1]];
      Chosen2(rows[0], rows[1], o);
      NothingBetween(Chosen(rows[0], o), [], Chosen(rows[1], o));
    }
  }

  lemma NothingBetween<T>(a: seq<T>, b: seq<T>, c: seq<T>)
    ensures a + [] + b + c == a + b + [] + c == a + b + c
    ensures a + [] == a
  {
  }

  lemma AmountSelected(lib: Lib, f: string, maxAmount: real, currency: Option<string>, o: Options)
    ensures Some(AmountScenarios(lib, f, maxAmount, currency, o)) == Select(Table(lib, AmountLimit(f, maxAmount, currency)), o)
  {
    hide ChosenOf;
    LimitSelected(f, currency, VNum(lib.add(maxAmount, -1.0)), VNum(maxAmount), VNum(lib.add(maxAmount, 1.0)), o);
    if !Given(currency) {
      var at := AmountScenarios(lib, f, maxAmount, currency, o);
      var three := When(o.positive, map[f := VNum(lib.add(maxAmount, -1.0))], true) + When(o.boundary, map[f := VNum(maxAmount)], true)
                 + When(o.negative, map[f := VNum(lib.add(maxAmount, 1.0))], false);
      assert three + [] == three;
    }
  }

  lemma CountSelected(lib: Lib, f: string, maxCount: real, o: Options)
    ensures Some(CountScenarios(lib, f, maxCount, o)) == Select(Table(lib, CountLimit(f, maxCount)), o)
  {
    hide ChosenOf;
    LimitSelected(f, None, VNum(lib.add(maxCount, -1.0)), VNum(maxCount), VNum(lib.add(maxCount, 1.0)), o);
  }

  lemma RangeSelected(lib: Lib, f: string, min: real, max: real, inclusive: bool, o: Options)
    ensures Some(RangeScenarios(lib, f, min, max, inclusive, o)) == Select(Table(lib, Range(f, min, max, inclusive)), o)
  {
    hide ChosenOf;
    var rows := Table(lib, Range(f, min, max, inclusive));
    Chosen6(rows[0], rows[1], rows[2], rows[3], rows[4], rows[5], o);
  }

  lemma EnumSelected(lib: Lib, f: string, allowed: seq<string>, o: Options)
    ensures Some(EnumScenarios(f, allowed, o)) == Select(Table(lib, EnumMatch(f, allowed)), o)
  {
    hide ChosenOf;
    var first := if allowed == [] then [] else [Case(Positive, map[f := VStr(allowed[0])], true)];
    var wrong, empty := Case(Negative, map[f := VStr("__invalid__")], false), Case(Boundary, map[f := VStr("")], false);
    MaybeChosen(first, o);
    Chosen3(wrong, empty, ABSENT, o);
    ChosenConcat(first, [wrong, empty, ABSENT], o);
    Regroup(ChosenOf(first, o), Chosen(wrong, o), Chosen(empty, o), Chosen(ABSENT, o));
  }

  lemma JurisdictionSelected(lib: Lib, f: string, allowed: seq<string>, o: Options)
    ensures Some(JurisdictionScenarios(f, allowed, o)) == Select(Table(lib, JurisdictionMatch(f, allowed)), o)
  {
    hide ChosenOf;
    var first := if allowed == [] then [] else [Case(Positive, map[f := VStr(allowed[0])], true)];
    var wrong := Case(Negative, map[f := VStr("__forbidden__")], false);
    MaybeChosen(first, o);
    Chosen2(wrong, ABSENT, o);
    ChosenConcat(first, [wrong, ABSENT], o);
    Regroup(ChosenOf(first, o), Chosen(wrong, o), Chosen(ABSENT, o), []);
  }

  lemma RoleSelected(lib: Lib, f: string, roles: seq<string>, anyOf: bool, o: Options)
    ensures Some(RoleScenarios(f, roles, anyOf, o)) == Select(Table(lib, RoleRequired(f, roles, anyOf)), o)
  {
    hide ChosenOf;
    var rows := Table(lib, RoleRequired(f, roles, anyOf));
    Chosen4(rows[0], rows[1], rows[2], rows[3], o);
  }

  lemma PairSelected(lib: Lib, e: Expression, o: Options)
    requires e.BooleanRequired? || e.SanctionsMatch? || e.ListMembership?
    ensures LeafScenarios(lib, e, o) == Select(Table(lib, e), o)
  {
    hide ChosenOf;
    var rows := Table(lib, e);
    Chosen3(rows[0], rows[1], rows[2], o);
  }

  /** The scenarios of a leaf are the rows of the table that the options want. */
  lemma LeafSelects(lib: Lib, e: Expression, o: Options)
    requires !e.CompositeAnd? && !e.CompositeOr?
    ensures LeafScenarios(lib, e, o) == Select(Table(lib, e), o)
  {
    hide Select;
    match e
    case Threshold(f, op, value) => ThresholdSelected(lib, f, op, value, o);
    case Range(f, min, max, inclusive) => RangeSelected(lib, f, min, max, inclusive, o);
    case StringMatch(f, pattern, caseSensitive) => StringSelected(lib, f, pattern, caseSensitive, o);
    case FieldPresence(fields, allRequired) => PresenceSelected(lib, fields, allRequired, o);
    case RegexMatch(f, pattern, _) => RegexSelected(lib, f, pattern, o);
    case DateRange(f, after, before) => DateSelected(lib, f, after, before, o);
    case AmountLimit(f, maxAmount, currency) => AmountSelected(lib, f, maxAmount, currency, o);
    case CountLimit(f, maxCount) => CountSelected(lib, f, maxCount, o);
    case BooleanRequired(_, _) => PairSelected(lib, e, o);
    case SanctionsMatch(_, _) => PairSelected(lib, e, o);
    case ListMembership(_, _, _) => PairSelected(lib, e, o);
    case EnumMatch(f, allowed) => EnumSelected(lib, f, allowed, o);
    case JurisdictionMatch(f, allowed) => JurisdictionSelected(lib, f, allowed, o);
    case RoleRequired(f, roles, anyOf) => RoleSelected(lib, f, roles, anyOf, o);
  }

  // ---------------------------------------------------------------------- composites

  /** The scenarios of an expression that are expected to pass, and those that are not. */
  function Passing(lib: Lib, e: Expression): Option<seq<Scenario>> {
    Scenarios(lib, e, Options(positive := true, negative := false, boundary := false, missing := false))
  }

  function Failing(lib: Lib, e: Expression): Option<seq<Scenario>> {
    Scenarios(lib, e, Options(positive := false, negative := true, boundary := false, missing := false))
  }

  /** The first passing context sets the key. */
  predicate Sets(lib: Lib, e: Expression, k: string) {
    Passing(lib, e).Some? && Passing(lib, e).value != [] && k in Passing(lib, e).value[0].context
  }

  /** No later part among the first n sets the key. */
  predicate SetsLast(lib: Lib, rules: seq<Expression>, n: nat, i: nat, k: string)
    requires i < n <= |rules|
  {
    Sets(lib, rules[i], k) && forall j :: i < j < n ==> !Sets(lib, rules[j], k)
  }

  /** Every key that some part's first passing context sets, the prototype accessor aside, as the last such part sets it. */
  ghost predicate MergedFrom(lib: Lib, rules: seq<Expression>, n: nat, ctx: Context)
    requires n <= |rules|
  {
    && (forall k :: k in ctx <==> k != "__proto__" && exists i :: 0 <= i < n && Sets(lib, rules[i], k))
    && forall k, i :: 0 <= i < n && k in ctx && SetsLast(lib, rules, n, i, k) ==> ctx[k] == Passing(lib, rules[i]).value[0].context[k]
  }

  lemma MergeStep(lib: Lib, rules: seq<Expression>, n: nat, before: Context, ctx: Context)
    requires n < |rules| && MergedFrom(lib, rules, n, before) && Passing(lib, rules[n]).Some?
    requires ctx == if Passing(lib, rules[n]).value != [] then Merge(before, Passing(lib, rules[n]).value[0].context) else before
    ensures MergedFrom(lib, rules, n + 1, ctx)
  {
    hide Passing;
    forall k ensures k in ctx <==> k != "__proto__" && exists i :: 0 <= i < n + 1 && Sets(lib, rules[i], k) {
      assert k in ctx <==> k in before || (k != "__proto__" && Sets(lib, rules[n], k));
    }
    forall k, i | 0 <= i < n + 1 && k in ctx && SetsLast(lib, rules, n + 1, i, k)
      ensures ctx[k] == Passing(lib, rules[i]).value[0].context[k]
    {
      if i < n {
        assert !Sets(lib, rules[n], k);
        assert SetsLast(lib, rules, n, i, k) && k in before;
      }
    }
  }

  lemma {:induction false} ContextMerged(lib: Lib, rules: seq<Expression>, n: nat)
    requires n <= |rules|
    ensures AndContext(lib, rules, n) == None <==> exists i :: 0 <= i < n && Passing(lib, rules[i]) == None
    ensures AndContext(lib, rules, n).Some? ==> MergedFrom(lib, rules, n, AndContext(lib, rules, n).value)
  {
    hide Scenarios, AndContext, MergedFrom;
    if n == 0 {
      AndContextStart(lib, rules);
      MergedNone(lib, rules);
    } else {
      ContextMerged(lib, rules, n - 1);
      var before, cases := AndContext(lib, rules, n - 1), Passing(lib, rules[n - 1]);
      if before == None {
        AndContextThrows(lib, rules, n - 1, n);
      } else if cases == None {
        AndContextNone(lib, rules, n - 1);
      } else {
        AndContextNext(lib, rules, n - 1, before.value, cases.value);
        MergeStep(lib, rules, n - 1, before.value, AndContext(lib, rules, n).value);
      }
    }
  }

  lemma MergedNone(lib: Lib, rules: seq<Expression>)
    ensures MergedFrom(lib, rules, 0, map[])
  {
  }

  /** The first scenario, with that expectation, if there is one. */
  function Lead(cases: seq<Scenario>, expected: bool): seq<Scenario> {
    if cases == [] then [] else [Scenario(cases[0].context, expected)]
  }

  /** A conjunction generates one passing scenario, merged from its parts, and one failing scenario, from its first part. */
  ghost predicate AndMeans(lib: Lib, rules: seq<Expression>, o: Options, r: Option<seq<Scenario>>) {
    var throws := (o.positive && exists i :: 0 <= i < |rules| && Passing(lib, rules[i]) == None)
                  || (o.negative && rules != [] && Failing(lib, rules[0]) == None);
    && (r == None <==> throws)
    && (r.Some? ==> exists ctx :: AndIs(r.value, ctx, lib, rules, o))
  }

  ghost predicate AndIs(cases: seq<Scenario>, ctx: Context, lib: Lib, rules: seq<Expression>, o: Options)
    requires o.negative && rules != [] ==> Failing(lib, rules[0]).Some?
  {
    && (o.positive ==> MergedFrom(lib, rules, |rules|, ctx))
    && cases == (if o.positive then [Scenario(ctx, true)] else [])
                + (if o.negative && rules != [] then Lead(Failing(lib, rules[0]).value, false) else [])
  }

  /** A disjunction generates the first passing scenario of its first part, and the empty context as failing. */
  ghost predicate OrMeans(lib: Lib, rules: seq<Expression>, o: Options, r: Option<seq<Scenario>>) {
    && (r == None <==> o.positive && rules != [] && Passing(lib, rules[0]) == None)
    && (r.Some? ==>
          r.value == (if o.positive && rules != [] then Lead(Passing(lib, rules[0]).value, true) else [])
                     + (if o.negative then [Scenario(map[], false)] else []))
  }

  lemma AndParts(lib: Lib, rules: seq<Expression>, o: Options)
    ensures AndPositive(lib, rules) ==
      if AndContext(lib, rules, |rules|).Some? then Some([Scenario(AndContext(lib, rules, |rules|).value, true)]) else None
    ensures AndNegative(lib, rules) ==
      if rules == [] then Some([]) else if Failing(lib, rules[0]).Some? then Some(Lead(Failing(lib, rules[0]).value, false)) else None
  {
  }

  lemma AndWhole(lib: Lib, rules: seq<Expression>, o: Options)
    ensures Scenarios(lib, CompositeAnd(rules), o) ==
      match (if o.positive then AndPositive(lib, rules) else Some([]), if o.negative then AndNegative(lib, rules) else Some([]))
      case (Some(p), Some(n)) => Some(p + n)
      case _ => None
  {
    hide AndPositive, AndNegative;
  }

  lemma AndScenarios(lib: Lib, rules: seq<Expression>, o: Options)
    ensures AndMeans(lib, rules, o, Scenarios(lib, CompositeAnd(rules), o))
  {
    hide Scenarios, AndContext, AndPositive, AndNegative, MergedFrom, Passing, Failing;
    ContextMerged(lib, rules, |rules|);
    AndParts(lib, rules, o);
    AndWhole(lib, rules, o);
    var r := Scenarios(lib, CompositeAnd(rules), o);
    var ctx := if o.positive && AndContext(lib, rules, |rules|).Some? then AndContext(lib, rules, |rules|).value else map[];
    if r.Some? {
      assert AndIs(r.value, ctx, lib, rules, o);
    }
  }

  lemma OrScenarios(lib: Lib, rules: seq<Expression>, o: Options)
    ensures OrMeans(lib, rules, o, Scenarios(lib, CompositeOr(rules), o))
  {
  }
}
