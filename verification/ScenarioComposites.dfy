/**
 * Generator and evaluator agree on nested AND and OR expressions of a syntactic class, under
 * every choice of options, so that the harness reports no failure on generated scenarios.
 */
module ScenarioComposites {
  import opened Wrappers
  import opened Strings
  import opened RuleExpressions
  import opened RuleInputs
  import opened ScenarioGenerator
  import opened ScenarioProofs

  /** The context keys an expression reads. */
  function Footprint(e: Expression): set<string>
    decreases e
  {
    match e
    case CompositeAnd(rules) => FootprintOf(rules, |rules|)
    case CompositeOr(rules) => FootprintOf(rules, |rules|)
    case FieldPresence(fields, _) => set f | f in fields
    case _ => {e.field, AuxField(e)}
  }

  function FootprintOf(rules: seq<Expression>, n: nat): set<string>
    requires n <= |rules|
    decreases rules, n
  {
    if n == 0 then {} else FootprintOf(rules, n - 1) + Footprint(rules[n - 1])
  }

  /** Names that are context keys and neither one of the two data tables nor the prototype accessor. */
  predicate PlainName(f: string) {
    TopLevel(f) && f != SANCTIONS_DATA && f != LIST_DATA && f != PROTO
  }

  predicate PlainNames(e: Expression)
    requires Leaf(e)
  {
    if e.FieldPresence? then forall i :: 0 <= i < |e.fields| ==> PlainName(e.fields[i]) else PlainName(e.field)
  }

  /** A name under which an object without such a property finds nothing. */
  predicate Uninherited(lib: Lib, p: string) {
    p != PROTO && !lib.inherits(OfObject, p)
  }

  /** Looking a list up in a table that lacks it finds no built-in method instead. */
  predicate PlainLists(lib: Lib, e: Expression) {
    match e
    case SanctionsMatch(_, lists) => forall i :: 0 <= i < |lists| ==> Uninherited(lib, lists[i])
    case ListMembership(_, listId, _) => Uninherited(lib, listId)
    case _ => true
  }

  /** A positive scenario is generated. */
  predicate HasPositive(e: Expression) {
    match e
    case EnumMatch(_, allowed) => |allowed| > 0
    case JurisdictionMatch(_, allowed) => |allowed| > 0
    case CompositeOr(rules) => |rules| > 0 && HasPositive(rules[0])
    case _ => true
  }

  /** The class: sound leaves, non-empty ANDs whose parts have a positive scenario and read disjoint keys. */
  predicate WellFormed(lib: Lib, e: Expression) {
    match e
    case CompositeAnd(rules) =>
      && |rules| > 0
      && (forall i :: 0 <= i < |rules| ==> WellFormed(lib, rules[i]) && HasPositive(rules[i]))
      && forall i, j :: 0 <= i < j < |rules| ==> Footprint(rules[i]) !! Footprint(rules[j])
    case CompositeOr(rules) => forall i :: 0 <= i < |rules| ==> WellFormed(lib, rules[i])
    case RegexMatch(_, _, _) => false
    case _ => LeafSound(lib, e) && PlainNames(e) && PlainLists(lib, e)
  }

  // ---------------------------------------------------------------------- contexts

  predicate TableOfLists(data: Value) {
    data.VObj? && forall l :: l in data.fields ==> data.fields[l].VArr?
  }

  /** A data table, if there is one, holds only lists, so looking a value up cannot throw. */
  predicate SafeTable(ctx: Context, key: string) {
    key in ctx ==> TableOfLists(ctx[key])
  }

  predicate Safe(ctx: Context) {
    PROTO !in ctx && SafeTable(ctx, SANCTIONS_DATA) && SafeTable(ctx, LIST_DATA)
  }

  lemma {:induction false} SafeScan(lib: Lib, lists: seq<string>, data: Value, value: string)
    requires TableOfLists(data)
    requires forall i :: 0 <= i < |lists| ==> Uninherited(lib, lists[i])
    ensures SanctionsVerdict(lib, lists, data, value).Some?
  {
    if lists != [] {
      SafeScan(lib, lists[1..], data, value);
    }
  }

  lemma TableFound(lib: Lib, ctx: Context, key: string)
    requires ValidLib(lib) && Safe(ctx) && (key == SANCTIONS_DATA || key == LIST_DATA)
    ensures FieldValue(lib, ctx, key) == VUndefined || TableOfLists(FieldValue(lib, ctx, key))
  {
    PlainKeys(PROTO);
    TopLevelField(lib, ctx, key);
  }

  lemma SafeLookup(lib: Lib, lists: Value, listId: string, value: string, mustBePresent: bool)
    requires lists == VUndefined || TableOfLists(lists)
    requires Uninherited(lib, listId)
    ensures MembershipVerdict(lib, lists, listId, value, mustBePresent).Some?
  {
  }

  lemma SafeLeaf(lib: Lib, e: Expression, ctx: Context)
    requires Leaf(e) && !e.RegexMatch? && PlainLists(lib, e) && ValidLib(lib) && Safe(ctx)
    ensures LeafVerdict(lib, e, ctx).Some?
  {
    if e.SanctionsMatch? || e.ListMembership? {
      TableFound(lib, ctx, AuxField(e));
      var v, data := FieldValue(lib, ctx, e.field), FieldValue(lib, ctx, AuxField(e));
      if v.VStr? {
        if e.ListMembership? {
          SafeLookup(lib, data, e.listId, v.s, e.mustBePresent);
        } else if data.VObj? {
          SafeScan(lib, e.lists, data, v.s);
        }
      }
    }
  }

  /** No exception in a safe context. */
  lemma {:induction false} SafeVerdict(lib: Lib, e: Expression, ctx: Context)
    requires ValidLib(lib) && WellFormed(lib, e) && Safe(ctx)
    ensures Verdict(lib, e, ctx).Some?
  {
    if Leaf(e) {
      SafeLeaf(lib, e, ctx);
    } else {
      forall i | 0 <= i < |e.rules| ensures Verdict(lib, e.rules[i], ctx).Some? {
        SafeVerdict(lib, e.rules[i], ctx);
      }
    }
  }

  /** Nothing of the class passes in the empty context. */
  lemma {:induction false} EmptyFails(lib: Lib, e: Expression)
    requires WellFormed(lib, e)
    ensures Verdict(lib, e, map[]) == Some(false)
  {
    if Leaf(e) {
      if e.FieldPresence? {
        PresenceMissing(lib, e);
      } else {
        MissingAgrees(lib, e);
      }
    } else {
      forall i | 0 <= i < |e.rules| ensures Verdict(lib, e.rules[i], map[]) == Some(false) {
        EmptyFails(lib, e.rules[i]);
      }
      CompositeVerdict(lib, e, map[]);
      assert e.CompositeAnd? ==> !Passes(lib, e.rules[0], map[]);
    }
  }

  ghost predicate SameOn(keys: set<string>, a: Context, b: Context) {
    forall k :: k in keys ==> (k in a <==> k in b) && (k in a ==> a[k] == b[k])
  }

  lemma SameOnAgreeAt(lib: Lib, f: string, keys: set<string>, a: Context, b: Context)
    requires TopLevel(f) && f in keys && SameOn(keys, a, b)
    ensures AgreeAt(lib, f, a, b)
  {
    TopLevelField(lib, a, f);
    TopLevelField(lib, b, f);
  }

  lemma {:induction false} FootprintPart(rules: seq<Expression>, n: nat, i: nat)
    requires i < n <= |rules|
    ensures Footprint(rules[i]) <= FootprintOf(rules, n)
  {
    if i < n - 1 {
      FootprintPart(rules, n - 1, i);
    }
  }

  lemma AuxTopLevel(e: Expression)
    requires Leaf(e) && !e.FieldPresence? && TopLevel(e.field)
    ensures TopLevel(AuxField(e))
  {
    DataKeys();
    CurrencyFieldFacts(e.field);
  }

  /** Contexts that agree on the footprint give the same verdict. */
  lemma {:induction false} FootprintAgree(lib: Lib, e: Expression, a: Context, b: Context)
    requires WellFormed(lib, e) && SameOn(Footprint(e), a, b)
    ensures Agree(lib, e, a, b)
  {
    if !Leaf(e) {
      forall i | 0 <= i < |e.rules| ensures Agree(lib, e.rules[i], a, b) {
        FootprintPart(e.rules, |e.rules|, i);
        FootprintAgree(lib, e.rules[i], a, b);
      }
    } else if e.FieldPresence? {
      forall i | 0 <= i < |e.fields| ensures AgreeAt(lib, e.fields[i], a, b) {
        SameOnAgreeAt(lib, e.fields[i], Footprint(e), a, b);
      }
    } else {
      AuxTopLevel(e);
      SameOnAgreeAt(lib, e.field, Footprint(e), a, b);
      SameOnAgreeAt(lib, AuxField(e), Footprint(e), a, b);
    }
  }

  // ---------------------------------------------------------------------- shapes of leaf scenarios

  /** Every context is safe and sets only keys of the footprint. */
  predicate Contained(e: Expression, cases: seq<Scenario>) {
    forall i :: 0 <= i < |cases| ==> Safe(cases[i].context) && cases[i].context.Keys <= Footprint(e)
  }

  predicate AllExpected(cases: seq<Scenario>, expected: bool) {
    forall i :: 0 <= i < |cases| ==> cases[i].expected == expected
  }

  /** A scenario generated under options o: contained, of the right polarity, and also generated under all options. */
  ghost predicate Selected(e: Expression, o: Options, s: Scenario, all: seq<Scenario>) {
    && s in all
    && Safe(s.context) && s.context.Keys <= Footprint(e)
    && (o == POSITIVE_ONLY ==> s.expected)
    && (o == NEGATIVE_ONLY ==> !s.expected)
  }

  lemma FieldContext(e: Expression, ctx: Context)
    requires Leaf(e) && !e.FieldPresence? && PlainNames(e) && ctx.Keys <= {e.field}
    ensures Safe(ctx) && ctx.Keys <= Footprint(e)
  {
  }

  lemma NumericSelected(lib: Lib, e: Expression, o: Options, s: Scenario, all: seq<Scenario>)
    requires e.Threshold? || e.Range? || e.BooleanRequired? || e.CountLimit?
    requires PlainNames(e)
    requires e.Threshold? ==> s in ThresholdScenarios(lib, e.field, e.op, e.value, o) && all == ThresholdScenarios(lib, e.field, e.op, e.value, ALL)
    requires e.Range? ==> s in RangeScenarios(lib, e.field, e.min, e.max, e.inclusive, o) && all == RangeScenarios(lib, e.field, e.min, e.max, e.inclusive, ALL)
    requires e.BooleanRequired? ==> s in BooleanScenarios(e.field, e.required, o) && all == BooleanScenarios(e.field, e.required, ALL)
    requires e.CountLimit? ==> s in CountScenarios(lib, e.field, e.maxCount, o) && all == CountScenarios(lib, e.field, e.maxCount, ALL)
    ensures Selected(e, o, s, all)
  {
    FieldContext(e, s.context);
  }

  lemma TextSelected(lib: Lib, e: Expression, o: Options, s: Scenario, all: seq<Scenario>)
    requires e.EnumMatch? || e.JurisdictionMatch? || e.StringMatch? || e.RoleRequired?
    requires PlainNames(e)
    requires e.EnumMatch? ==> s in EnumScenarios(e.field, e.allowed, o) && all == EnumScenarios(e.field, e.allowed, ALL)
    requires e.JurisdictionMatch? ==> s in JurisdictionScenarios(e.field, e.allowed, o) && all == JurisdictionScenarios(e.field, e.allowed, ALL)
    requires e.StringMatch? ==> s in StringScenarios(lib, e.field, e.pattern, e.caseSensitive, o)
    requires e.StringMatch? ==> all == StringScenarios(lib, e.field, e.pattern, e.caseSensitive, ALL)
    requires e.RoleRequired? ==> s in RoleScenarios(e.field, e.roles, e.anyOf, o) && all == RoleScenarios(e.field, e.roles, e.anyOf, ALL)
    ensures Selected(e, o, s, all)
  {
    FieldContext(e, s.context);
  }

  lemma PresenceSelected(e: Expression, o: Options, s: Scenario)
    requires e.FieldPresence? && PlainNames(e) && s in PresenceScenarios(e.fields, e.allRequired, o)
    ensures Selected(e, o, s, PresenceScenarios(e.fields, e.allRequired, ALL))
  {
  }

  lemma SanctionsSelected(e: Expression, o: Options, s: Scenario)
    requires e.SanctionsMatch? && PlainNames(e) && s in SanctionsScenarios(e.field, e.lists, o)
    ensures Selected(e, o, s, SanctionsScenarios(e.field, e.lists, ALL))
  {
    assert SANCTIONS_DATA != LIST_DATA by { assert |SANCTIONS_DATA| == 14 && |LIST_DATA| == 9; }
  }

  lemma MembershipSelected(e: Expression, o: Options, s: Scenario)
    requires e.ListMembership? && PlainNames(e) && s in MembershipScenarios(e.field, e.listId, e.mustBePresent, o)
    ensures Selected(e, o, s, MembershipScenarios(e.field, e.listId, e.mustBePresent, ALL))
  {
    assert SANCTIONS_DATA != LIST_DATA by { assert |SANCTIONS_DATA| == 14 && |LIST_DATA| == 9; }
  }

  lemma CurrencyKeyIsPlain(f: string)
    ensures CurrencyField(f) != SANCTIONS_DATA && CurrencyField(f) != LIST_DATA && CurrencyField(f) != PROTO
  {
    assert CurrencyField(f)[|f| + 8] == 'y';
    assert SANCTIONS_DATA[13] == 'a' && LIST_DATA[8] == 'a' && PROTO[8] == '_';
  }

  lemma AmountContextKeys(f: string, amount: real, currency: Option<string>)
    requires PlainName(f)
    ensures Safe(AmountContext(f, amount, currency)) && AmountContext(f, amount, currency).Keys <= {f, CurrencyField(f)}
  {
    CurrencyKeyIsPlain(f);
  }

  lemma AmountSelected(lib: Lib, e: Expression, o: Options, s: Scenario)
    requires e.AmountLimit? && PlainNames(e) && s in AmountScenarios(lib, e.field, e.maxAmount, e.currency, o)
    ensures Selected(e, o, s, AmountScenarios(lib, e.field, e.maxAmount, e.currency, ALL))
  {
    var m := e.maxAmount;
    AmountContextKeys(e.field, lib.add(m, -1.0), e.currency);
    AmountContextKeys(e.field, m, e.currency);
    AmountContextKeys(e.field, lib.add(m, 1.0), e.currency);
    AmountContextKeys(e.field, lib.add(m, -1.0), Some("__wrong__"));
  }

  lemma DateSelected(lib: Lib, e: Expression, o: Options)
    requires e.DateRange? && PlainNames(e) && DateScenarios(lib, e.field, e.after, e.before, ALL).Some?
    ensures DateScenarios(lib, e.field, e.after, e.before, o).Some?
    ensures forall s :: s in DateScenarios(lib, e.field, e.after, e.before, o).value ==>
      Selected(e, o, s, DateScenarios(lib, e.field, e.after, e.before, ALL).value)
  {
    var cases := DateScenarios(lib, e.field, e.after, e.before, o).value;
    forall s | s in cases
      ensures s.context.Keys <= {e.field}
      ensures Selected(e, o, s, DateScenarios(lib, e.field, e.after, e.before, ALL).value)
    {
      FieldContext(e, s.context);
    }
  }

  lemma LeafSelected(lib: Lib, e: Expression, o: Options)
    requires Leaf(e) && !e.RegexMatch? && PlainNames(e) && LeafScenarios(lib, e, ALL).Some?
    ensures LeafScenarios(lib, e, o).Some?
    ensures forall s :: s in LeafScenarios(lib, e, o).value ==> Selected(e, o, s, LeafScenarios(lib, e, ALL).value)
  {
    if e.DateRange? {
      DateSelected(lib, e, o);
    } else {
      forall s | s in LeafScenarios(lib, e, o).value ensures Selected(e, o, s, LeafScenarios(lib, e, ALL).value) {
        var all := LeafScenarios(lib, e, ALL).value;
        match e
        case FieldPresence(_, _) => PresenceSelected(e, o, s);
        case SanctionsMatch(_, _) => SanctionsSelected(e, o, s);
        case AmountLimit(_, _, _) => AmountSelected(lib, e, o, s);
        case ListMembership(_, _, _) => MembershipSelected(e, o, s);
        case Threshold(_, _, _) => NumericSelected(lib, e, o, s, all);
        case Range(_, _, _, _) => NumericSelected(lib, e, o, s, all);
        case BooleanRequired(_, _) => NumericSelected(lib, e, o, s, all);
        case CountLimit(_, _) => NumericSelected(lib, e, o, s, all);
        case _ => TextSelected(lib, e, o, s, all);
      }
    }
  }

  lemma LeafPositive(lib: Lib, e: Expression)
    requires Leaf(e) && LeafScenarios(lib, e, POSITIVE_ONLY).Some?
    ensures |LeafScenarios(lib, e, POSITIVE_ONLY).value| > 0 <==> HasPositive(e)
  {
  }

  // ---------------------------------------------------------------------- the class is sound

  /** Everything proved of the scenarios of one expression under one choice of options. */
  ghost predicate Sound(lib: Lib, e: Expression, o: Options) {
    && AllAgree(lib, e, Scenarios(lib, e, o))
    && var cases := Scenarios(lib, e, o).value;
       && Contained(e, cases)
       && (o == POSITIVE_ONLY ==> AllExpected(cases, true) && (|cases| > 0 <==> HasPositive(e)))
       && (o == NEGATIVE_ONLY ==> AllExpected(cases, false))
  }

  /** A generated scenario that agrees, is contained, and expects the given result. */
  ghost predicate Good(lib: Lib, e: Expression, s: Scenario, expected: bool) {
    s.expected == expected && Agrees(lib, e, s) && Safe(s.context) && s.context.Keys <= Footprint(e)
  }

  ghost function GoodJudge(lib: Lib, e: Expression): Scenario -> bool {
    (s: Scenario) => Good(lib, e, s, s.expected)
  }

  lemma SoundFromGood(lib: Lib, e: Expression, o: Options, cases: seq<Scenario>)
    requires Scenarios(lib, e, o) == Some(cases)
    requires Every(GoodJudge(lib, e), cases)
    requires o == POSITIVE_ONLY ==> AllExpected(cases, true) && (|cases| > 0 <==> HasPositive(e))
    requires o == NEGATIVE_ONLY ==> AllExpected(cases, false)
    ensures Sound(lib, e, o)
  {
  }

  lemma SelectedIsGood(lib: Lib, e: Expression, o: Options, s: Scenario, all: seq<Scenario>)
    requires Selected(e, o, s, all) && EachAgrees(lib, e, all)
    ensures Good(lib, e, s, s.expected)
  {
    var j :| 0 <= j < |all| && all[j] == s;
  }

  lemma LeafIsSound(lib: Lib, e: Expression, o: Options)
    requires ValidLib(lib) && Leaf(e) && WellFormed(lib, e)
    ensures Sound(lib, e, o)
  {
    LeafExact(lib, e);
    LeafSelected(lib, e, o);
    var all, cases := LeafScenarios(lib, e, ALL).value, LeafScenarios(lib, e, o).value;
    forall i | 0 <= i < |cases|
      ensures Selected(e, o, cases[i], all) && GoodJudge(lib, e)(cases[i])
    {
      assert cases[i] in cases;
      SelectedIsGood(lib, e, o, cases[i], all);
    }
    if o == POSITIVE_ONLY {
      LeafPositive(lib, e);
    }
    SoundFromGood(lib, e, o, cases);
  }

  /** The positive scenarios of a part exist, and the first one is good. */
  ghost predicate Ready(lib: Lib, e: Expression) {
    var cases := Scenarios(lib, e, POSITIVE_ONLY);
    cases.Some? && |cases.value| > 0 && Good(lib, e, cases.value[0], true)
  }

  lemma SoundIsReady(lib: Lib, e: Expression)
    requires Sound(lib, e, POSITIVE_ONLY) && HasPositive(e)
    ensures Ready(lib, e)
  {
    assert Agrees(lib, e, Scenarios(lib, e, POSITIVE_ONLY).value[0]);
  }

  /** The first positive context of a part. */
  ghost function First(lib: Lib, e: Expression): Context
    requires Ready(lib, e)
  {
    Scenarios(lib, e, POSITIVE_ONLY).value[0].context
  }

  ghost predicate Disjoint(rules: seq<Expression>) {
    forall i, j :: 0 <= i < j < |rules| ==> Footprint(rules[i]) !! Footprint(rules[j])
  }

  /** ctx is safe, holds nothing foreign, and shows each of the first n parts its own values. */
  ghost predicate Merged(lib: Lib, rules: seq<Expression>, n: nat, ctx: Context)
    requires n <= |rules|
  {
    && Safe(ctx)
    && ctx.Keys <= FootprintOf(rules, n)
    && forall i :: 0 <= i < n ==> Ready(lib, rules[i]) && SameOn(Footprint(rules[i]), ctx, First(lib, rules[i]))
  }

  lemma MergeStep(lib: Lib, rules: seq<Expression>, n: nat, before: Context)
    requires n < |rules| && Disjoint(rules) && Merged(lib, rules, n, before) && Ready(lib, rules[n])
    ensures Merged(lib, rules, n + 1, Merge(before, First(lib, rules[n])))
  {
    DisjointPrefix(rules, n, n);
    var ctx := Merge(before, First(lib, rules[n]));
    assert First(lib, rules[n]) - {PROTO} == First(lib, rules[n]);
    forall i | 0 <= i < n + 1 ensures Ready(lib, rules[i]) && SameOn(Footprint(rules[i]), ctx, First(lib, rules[i])) {
      if i < n {
        assert Footprint(rules[i]) !! Footprint(rules[n]);
      }
    }
  }

  /** Merging the first positive contexts disturbs no part: each still sees its own values. */
  lemma {:induction false} MergedContext(lib: Lib, rules: seq<Expression>, n: nat)
    requires n <= |rules| && Disjoint(rules)
    requires forall i :: 0 <= i < n ==> Ready(lib, rules[i])
    ensures AndContext(lib, rules, n).Some? && Merged(lib, rules, n, AndContext(lib, rules, n).value)
  {
    if n > 0 {
      MergedContext(lib, rules, n - 1);
      assert Ready(lib, rules[n - 1]);
      MergeStep(lib, rules, n - 1, AndContext(lib, rules, n - 1).value);
      AndContextStep(lib, rules, n);
    }
  }

  lemma AndContextStep(lib: Lib, rules: seq<Expression>, n: nat)
    requires 0 < n <= |rules| && Ready(lib, rules[n - 1]) && AndContext(lib, rules, n - 1).Some?
    ensures AndContext(lib, rules, n) == Some(Merge(AndContext(lib, rules, n - 1).value, First(lib, rules[n - 1])))
  {
  }

  lemma {:induction false} DisjointPrefix(rules: seq<Expression>, n: nat, k: nat)
    requires n <= k < |rules| && Disjoint(rules)
    ensures FootprintOf(rules, n) !! Footprint(rules[k])
  {
    if n > 0 {
      DisjointPrefix(rules, n - 1, k);
      assert Footprint(rules[n - 1]) !! Footprint(rules[k]);
    }
  }

  /** The "all true" scenario of an AND. */
  lemma AndPositiveAgrees(lib: Lib, e: Expression)
    requires ValidLib(lib) && e.CompositeAnd? && WellFormed(lib, e)
    requires forall i :: 0 <= i < |e.rules| ==> Ready(lib, e.rules[i])
    ensures AndPositive(lib, e.rules).Some? && |AndPositive(lib, e.rules).value| == 1
    ensures Good(lib, e, AndPositive(lib, e.rules).value[0], true)
  {
    MergedContext(lib, e.rules, |e.rules|);
    var ctx := AndContext(lib, e.rules, |e.rules|).value;
    forall i | 0 <= i < |e.rules| ensures Passes(lib, e.rules[i], ctx) {
      assert Ready(lib, e.rules[i]);
      FootprintAgree(lib, e.rules[i], ctx, First(lib, e.rules[i]));
      AgreeDetermines(lib, e.rules[i], ctx, First(lib, e.rules[i]));
    }
    CompositeVerdict(lib, e, ctx);
  }

  /** A scenario of the first part decides an AND it fails and an OR it passes. */
  lemma FirstPartDecides(lib: Lib, e: Expression, s: Scenario)
    requires ValidLib(lib) && !Leaf(e) && WellFormed(lib, e) && |e.rules| > 0 && Good(lib, e.rules[0], s, e.CompositeOr?)
    ensures Good(lib, e, Scenario(s.context, e.CompositeOr?), e.CompositeOr?)
  {
    FootprintPart(e.rules, |e.rules|, 0);
    forall i | 0 <= i < |e.rules| ensures Verdict(lib, e.rules[i], s.context) != None {
      SafeVerdict(lib, e.rules[i], s.context);
    }
    CompositeVerdict(lib, e, s.context);
    assert Passes(lib, e.rules[0], s.context) <==> e.CompositeOr?;
  }

  lemma AndNegativeAgrees(lib: Lib, e: Expression)
    requires ValidLib(lib) && e.CompositeAnd? && WellFormed(lib, e) && Sound(lib, e.rules[0], NEGATIVE_ONLY)
    ensures AndNegative(lib, e.rules).Some? && |AndNegative(lib, e.rules).value| <= 1
    ensures |AndNegative(lib, e.rules).value| == 1 ==> Good(lib, e, AndNegative(lib, e.rules).value[0], false)
  {
    var cases := Scenarios(lib, e.rules[0], NEGATIVE_ONLY).value;
    if |cases| > 0 {
      assert Agrees(lib, e.rules[0], cases[0]);
      FirstPartDecides(lib, e, cases[0]);
    }
  }

  lemma OrPositiveAgrees(lib: Lib, e: Expression)
    requires ValidLib(lib) && e.CompositeOr? && WellFormed(lib, e)
    requires |e.rules| > 0 ==> Sound(lib, e.rules[0], POSITIVE_ONLY)
    ensures OrPositive(lib, e.rules).Some? && |OrPositive(lib, e.rules).value| == if HasPositive(e) then 1 else 0
    ensures HasPositive(e) ==> Good(lib, e, OrPositive(lib, e.rules).value[0], true)
  {
    if HasPositive(e) {
      SoundIsReady(lib, e.rules[0]);
      FirstPartDecides(lib, e, Scenarios(lib, e.rules[0], POSITIVE_ONLY).value[0]);
    }
  }

  /** An expression whose scenarios are at most one positive and at most one negative one, both good. */
  lemma SoundFromParts(lib: Lib, e: Expression, o: Options, p: seq<Scenario>, n: seq<Scenario>)
    requires Scenarios(lib, e, o) == Some(p + n)
    requires |p| <= 1 && AllExpected(p, true) && (|p| == 1 ==> Good(lib, e, p[0], true))
    requires |n| <= 1 && AllExpected(n, false) && (|n| == 1 ==> Good(lib, e, n[0], false))
    requires o == POSITIVE_ONLY ==> |n| == 0 && (|p| == 1 <==> HasPositive(e))
    requires o == NEGATIVE_ONLY ==> |p| == 0
    ensures Sound(lib, e, o)
  {
    AtMostOne(GoodJudge(lib, e), p);
    AtMostOne(GoodJudge(lib, e), n);
    Concat(GoodJudge(lib, e), p, n);
    if o == POSITIVE_ONLY {
      assert p + n == p;
    } else if o == NEGATIVE_ONLY {
      assert p + n == n;
    }
    SoundFromGood(lib, e, o, p + n);
  }

  lemma AtMostOne(p: Scenario -> bool, cases: seq<Scenario>)
    requires |cases| <= 1 && (|cases| == 1 ==> p(cases[0]))
    ensures Every(p, cases)
  {
  }

  lemma PartsReady(lib: Lib, e: Expression)
    requires e.CompositeAnd? && WellFormed(lib, e)
    requires forall i :: 0 <= i < |e.rules| ==> Sound(lib, e.rules[i], POSITIVE_ONLY)
    ensures forall i :: 0 <= i < |e.rules| ==> Ready(lib, e.rules[i])
  {
    forall i | 0 <= i < |e.rules| ensures Ready(lib, e.rules[i]) {
      SoundIsReady(lib, e.rules[i]);
    }
  }

  lemma AndScenarios(lib: Lib, e: Expression, o: Options)
    requires e.CompositeAnd? && AndPositive(lib, e.rules).Some? && AndNegative(lib, e.rules).Some?
    ensures Scenarios(lib, e, o) ==
      Some((if o.positive then AndPositive(lib, e.rules).value else []) + if o.negative then AndNegative(lib, e.rules).value else [])
  {
  }

  lemma AndIsSound(lib: Lib, e: Expression, o: Options)
    requires ValidLib(lib) && e.CompositeAnd? && WellFormed(lib, e)
    requires forall i :: 0 <= i < |e.rules| ==> Ready(lib, e.rules[i])
    requires Sound(lib, e.rules[0], NEGATIVE_ONLY)
    ensures Sound(lib, e, o)
  {
    AndPositiveAgrees(lib, e);
    AndNegativeAgrees(lib, e);
    AndScenarios(lib, e, o);
    SoundFromParts(lib, e, o, if o.positive then AndPositive(lib, e.rules).value else [],
                   if o.negative then AndNegative(lib, e.rules).value else []);
  }

  lemma OrIsSound(lib: Lib, e: Expression, o: Options)
    requires ValidLib(lib) && e.CompositeOr? && WellFormed(lib, e)
    requires |e.rules| > 0 ==> Sound(lib, e.rules[0], POSITIVE_ONLY)
    ensures Sound(lib, e, o)
  {
    OrPositiveAgrees(lib, e);
    EmptyFails(lib, e);
    SoundFromParts(lib, e, o, if o.positive then OrPositive(lib, e.rules).value else [], When(o.negative, map[], false));
  }

  /** Generator and evaluator agree on the whole class, under every choice of options. */
  lemma {:induction false} GeneratorAgrees(lib: Lib, e: Expression, o: Options)
    requires ValidLib(lib) && WellFormed(lib, e)
    ensures Sound(lib, e, o)
    decreases e
  {
    if Leaf(e) {
      LeafIsSound(lib, e, o);
    } else {
      forall i | 0 <= i < |e.rules| ensures Sound(lib, e.rules[i], POSITIVE_ONLY) {
        GeneratorAgrees(lib, e.rules[i], POSITIVE_ONLY);
      }
      if e.CompositeAnd? {
        GeneratorAgrees(lib, e.rules[0], NEGATIVE_ONLY);
        PartsReady(lib, e);
        AndIsSound(lib, e, o);
      } else {
        OrIsSound(lib, e, o);
      }
    }
  }

  // ---------------------------------------------------------------------- rules and harness

  ghost predicate WellFormedRules(lib: Lib, rules: seq<CompiledRule>) {
    && (forall i :: 0 <= i < |rules| ==> WellFormed(lib, rules[i].expression))
    && forall i, j :: 0 <= i < j < |rules| ==> rules[i].id != rules[j].id
  }

  lemma {:induction false} ActualOfDistinct(lib: Lib, rules: seq<CompiledRule>, ctx: Context, k: nat)
    requires k < |rules| && forall i, j :: 0 <= i < j < |rules| ==> rules[i].id != rules[j].id
    ensures ActualOf(lib, rules, ctx, rules[k].id) == Some(Passed(lib, rules[k], ctx))
  {
    if k > 0 {
      assert rules[0].id != rules[k].id;
      ActualOfDistinct(lib, rules[1..], ctx, k - 1);
    }
  }

  lemma ScenarioSucceeds(lib: Lib, rules: seq<CompiledRule>, k: nat, s: Scenario)
    requires WellFormedRules(lib, rules) && k < |rules| && Agrees(lib, rules[k].expression, s)
    ensures Succeeds(lib, rules, TestCase(s.context, [Expectation(rules[k].id, s.expected)]))
  {
    ActualOfDistinct(lib, rules, s.context, k);
    var tc := TestCase(s.context, [Expectation(rules[k].id, s.expected)]);
    assert Actuals(lib, rules, s.context)(rules[k].id) == Some(s.expected);
    assert FailuresBy(Actuals(lib, rules, s.context), tc.expectedResults, 0) == [];
  }

  ghost predicate AllSucceed(lib: Lib, rules: seq<CompiledRule>, cases: seq<TestCase>) {
    forall i :: 0 <= i < |cases| ==> Succeeds(lib, rules, cases[i])
  }

  lemma RuleCasesSucceed(lib: Lib, rules: seq<CompiledRule>, k: nat, cases: seq<Scenario>)
    requires WellFormedRules(lib, rules) && k < |rules| && EachAgrees(lib, rules[k].expression, cases)
    ensures AllSucceed(lib, rules, TestCases(rules[k].id, cases))
  {
    forall i | 0 <= i < |cases| ensures Succeeds(lib, rules, TestCase(cases[i].context, [Expectation(rules[k].id, cases[i].expected)])) {
      assert Judge(lib, rules[k].expression)(cases[i]);
      ScenarioSucceeds(lib, rules, k, cases[i]);
    }
  }

  lemma BothSucceed(lib: Lib, rules: seq<CompiledRule>, a: seq<TestCase>, b: seq<TestCase>)
    requires AllSucceed(lib, rules, a) && AllSucceed(lib, rules, b)
    ensures AllSucceed(lib, rules, a + b)
  {
  }

  lemma SoundCasesAgree(lib: Lib, e: Expression, o: Options)
    requires Sound(lib, e, o)
    ensures Scenarios(lib, e, o).Some? && EachAgrees(lib, e, Scenarios(lib, e, o).value)
  {
  }

  lemma OneRuleSucceeds(lib: Lib, rules: seq<CompiledRule>, o: Options, k: nat)
    requires ValidLib(lib) && WellFormedRules(lib, rules) && k < |rules|
    ensures Scenarios(lib, rules[k].expression, o).Some?
    ensures AllSucceed(lib, rules, TestCases(rules[k].id, Scenarios(lib, rules[k].expression, o).value))
  {
    GeneratorAgrees(lib, rules[k].expression, o);
    SoundCasesAgree(lib, rules[k].expression, o);
    RuleCasesSucceed(lib, rules, k, Scenarios(lib, rules[k].expression, o).value);
  }

  /** Case by case: when every rule's generated cases succeed, so do all of them. */
  lemma {:induction false} CasesSucceed(lib: Lib, rules: seq<CompiledRule>, generate: Expression -> Option<seq<Scenario>>, n: nat)
    requires n <= |rules|
    requires forall k :: 0 <= k < |rules| ==> generate(rules[k].expression).Some?
    requires forall k :: 0 <= k < |rules| ==> AllSucceed(lib, rules, TestCases(rules[k].id, generate(rules[k].expression).value))
    ensures CasesBy(generate, rules, n).Some? && AllSucceed(lib, rules, CasesBy(generate, rules, n).value)
  {
    if n > 0 {
      CasesSucceed(lib, rules, generate, n - 1);
      BothSucceed(lib, rules, CasesBy(generate, rules, n - 1).value, TestCases(rules[n - 1].id, generate(rules[n - 1].expression).value));
    }
  }

  /** Running the harness on the generated scenarios of well-formed rules reports no failure. */
  lemma NoFailuresReported(lib: Lib, rules: seq<CompiledRule>, o: Options)
    requires ValidLib(lib) && WellFormedRules(lib, rules)
    ensures RuleTestCases(lib, rules, o).Some?
    ensures var cases := RuleTestCases(lib, rules, o).value; CountPassed(lib, rules, cases) == |cases|
  {
    var generate := Generator(lib, o);
    forall k | 0 <= k < |rules|
      ensures generate(rules[k].expression).Some?
      ensures AllSucceed(lib, rules, TestCases(rules[k].id, generate(rules[k].expression).value))
    {
      OneRuleSucceeds(lib, rules, o, k);
    }
    CasesSucceed(lib, rules, generate, |rules|);
  }

  /** Generating scenarios from well-formed rules whose conditions can be hashed, and running them: no case fails. */
  method RunGenerated(lib: Lib, rules: seq<CompiledRule>, o: Options) returns (report: HarnessReport)
    requires ValidLib(lib) && WellFormedRules(lib, rules) && Hashable(lib, rules)
    ensures RuleTestCases(lib, rules, o).Some? && report.totalTests == |RuleTestCases(lib, rules, o).value|
    ensures report.failed == 0 && forall i :: 0 <= i < |report.results| ==> report.results[i].failures == []
  {
    hide Scenarios, CasesBy, WellFormed;
    NoFailuresReported(lib, rules, o);
    var cases := GenerateScenarios(lib, rules, o);
    var run := RunAllTests(lib, rules, cases.value);
    report := run.value;
    assert forall i :: 0 <= i < |cases.value| ==> Succeeding(lib, rules)(cases.value[i]);
  }
}
