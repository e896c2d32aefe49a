/**
 * Policy rules: the ordered checks of one rule, what its verdict depends on, and the strictest
 * verdict over a list of rules.
 */
module PolicyDecision {
  import opened Wrappers
  import opened Strings
  import GlobMatcher
  import GlobMeaning

  datatype Verdict = Allow | ApproveRequired | Deny

  function Rank(v: Verdict): nat {
    match v
    case Allow => 0
    case ApproveRequired => 1
    case Deny => 2
  }

  datatype RoleMatchMode = AnyRole | AllRoles

  datatype PolicyRule = PolicyRule(
    id: string,
    tenantId: string,
    name: string,
    actionTypePattern: string,
    enforcementPoint: string,
    enabled: bool,
    priority: int,
    requiredRoles: Option<seq<string>>,
    roleMatchMode: Option<RoleMatchMode>,
    maxAmountUsd: Option<real>,
    minDataQuality: Option<real>,
    minConfidence: Option<real>,
    timeWindowStart: Option<string>,
    timeWindowEnd: Option<string>,
    requireApproval: bool,
    defaultVerdict: Option<Verdict>,
    createdAt: string,
    updatedAt: string)

  datatype PolicyContext = PolicyContext(
    enforcementPoint: string,
    actionType: string,
    callerRoles: Option<seq<string>>,
    financialImpact: Option<real>,
    dataQualityScore: Option<real>,
    confidence: Option<real>)

  // ---------------------------------------------------------------------- time of day

  datatype RawTime = TimeOfDay(hours: nat, minutes: nat)

  type TimeOfDay = t: RawTime | t.hours < 24 && t.minutes < 60 witness TimeOfDay(0, 0)

  function Digit(n: nat): char
    requires n < 10
  {
    '0' + n as char
  }

  /** HH:MM, padded with zeros. */
  function ClockText(t: TimeOfDay): (r: string)
    ensures |r| == 5 && r[2] == ':' && forall i :: 0 <= i < 5 && i != 2 ==> '0' <= r[i] <= '9'
    ensures 10 * (r[0] as int - '0' as int) + (r[1] as int - '0' as int) == t.hours
    ensures 10 * (r[3] as int - '0' as int) + (r[4] as int - '0' as int) == t.minutes
  {
    [Digit(t.hours / 10), Digit(t.hours % 10), ':', Digit(t.minutes / 10), Digit(t.minutes % 10)]
  }

  predicate OutsideWindow(now: string, start: string, end: string) {
    TextLess(now, start) || TextLess(end, now)
  }

  function MinuteOfDay(t: TimeOfDay): nat {
    60 * t.hours + t.minutes
  }

  /** Two digits and more text compare as the number they show, then as the text after it. */
  lemma TwoDigitOrder(m: nat, n: nat, a: string, b: string)
    requires m < 100 && n < 100
    ensures TextLess([Digit(m / 10), Digit(m % 10)] + a, [Digit(n / 10), Digit(n % 10)] + b) <==>
      m < n || (m == n && TextLess(a, b))
  {
    assert [Digit(m / 10), Digit(m % 10)] + a == [Digit(m / 10)] + ([Digit(m % 10)] + a);
    assert [Digit(n / 10), Digit(n % 10)] + b == [Digit(n / 10)] + ([Digit(n % 10)] + b);
    TextOrderCons(Digit(m / 10), Digit(n / 10), [Digit(m % 10)] + a, [Digit(n % 10)] + b);
    TextOrderCons(Digit(m % 10), Digit(n % 10), a, b);
  }

  lemma ClockOrder(a: TimeOfDay, b: TimeOfDay)
    ensures TextLess(ClockText(a), ClockText(b)) <==> MinuteOfDay(a) < MinuteOfDay(b)
  {
    var x, y := [Digit(a.minutes / 10), Digit(a.minutes % 10)], [Digit(b.minutes / 10), Digit(b.minutes % 10)];
    assert ClockText(a) == [Digit(a.hours / 10), Digit(a.hours % 10)] + ([':'] + x);
    assert ClockText(b) == [Digit(b.hours / 10), Digit(b.hours % 10)] + ([':'] + y);
    TwoDigitOrder(a.hours, b.hours, [':'] + x, [':'] + y);
    TextOrderCons(':', ':', x, y);
    assert x + "" == x && y + "" == y;
    TwoDigitOrder(a.minutes, b.minutes, "", "");
  }

  /** Comparing clock texts is comparing times. */
  lemma WindowMeaning(now: TimeOfDay, start: TimeOfDay, end: TimeOfDay)
    ensures OutsideWindow(ClockText(now), ClockText(start), ClockText(end)) <==>
      !(MinuteOfDay(start) <= MinuteOfDay(now) <= MinuteOfDay(end))
  {
    ClockOrder(now, start);
    ClockOrder(end, now);
  }

  /** Nothing lies within a window whose end text comes before its start text. */
  lemma ReversedWindow(now: string, start: string, end: string)
    requires TextLess(end, start)
    ensures OutsideWindow(now, start, end)
  {
    TextOrder(end, start, now);
    TextOrder(start, now, end);
    TextOrder(end, now, start);
  }

  /** A window admits some time exactly when it does not end before it starts; one over midnight admits none. */
  lemma OvernightWindow(start: TimeOfDay, end: TimeOfDay)
    ensures (exists now: TimeOfDay :: !OutsideWindow(ClockText(now), ClockText(start), ClockText(end))) <==>
      MinuteOfDay(start) <= MinuteOfDay(end)
  {
    WindowMeaning(start, start, end);
    ClockOrder(end, start);
    if MinuteOfDay(start) <= MinuteOfDay(end) {
      assert !OutsideWindow(ClockText(start), ClockText(start), ClockText(end));
    } else {
      forall now: TimeOfDay ensures OutsideWindow(ClockText(now), ClockText(start), ClockText(end)) {
        ReversedWindow(ClockText(now), ClockText(start), ClockText(end));
      }
    }
  }

  // ---------------------------------------------------------------------- one rule

  datatype Reason =
    | RuleDisabled
    | ActionTypeDoesNotMatch
    | EnforcementPointDoesNotMatch
    | CallerHasNoRoles
    | CallerLacksRoles(roles: seq<string>)
    | FinancialImpactExceeds(impact: real, limit: real)
    | DataQualityBelow(score: real, minimum: real)
    | ConfidenceBelow(confidence: real, minimum: real)
    | OutsideTimeWindow(start: string, end: string)
    | RequiresApproval(name: string)
    | DefaultVerdict(name: string, verdict: Verdict)

  datatype RuleEvaluation = RuleEvaluation(
    ruleId: string,
    ruleName: string,
    verdict: Verdict,
    reason: Reason,
    applies: bool)

  predicate HasRoles(rule: PolicyRule, required: seq<string>, held: seq<string>) {
    if rule.roleMatchMode == Some(AllRoles) then forall i :: 0 <= i < |required| ==> required[i] in held
    else exists i :: 0 <= i < |required| && required[i] in held
  }

  predicate Truthy(s: Option<string>) {
    s.Some? && s.value != ""
  }

  function Decided(rule: PolicyRule, verdict: Verdict, reason: Reason): RuleEvaluation {
    RuleEvaluation(rule.id, rule.name, verdict, reason, true)
  }

  function OnBreach(rule: PolicyRule): Verdict {
    if rule.requireApproval then ApproveRequired else Deny
  }

  /** The thresholds and defaults of a rule that is in scope, in the order they are checked. */
  function EvaluateThresholds(rule: PolicyRule, context: PolicyContext, now: TimeOfDay): RuleEvaluation {
    if rule.maxAmountUsd.Some? && context.financialImpact.Some? && context.financialImpact.value > rule.maxAmountUsd.value then
      Decided(rule, OnBreach(rule), FinancialImpactExceeds(context.financialImpact.value, rule.maxAmountUsd.value))
    else if rule.minDataQuality.Some? && context.dataQualityScore.Some? && context.dataQualityScore.value < rule.minDataQuality.value then
      Decided(rule, OnBreach(rule), DataQualityBelow(context.dataQualityScore.value, rule.minDataQuality.value))
    else if rule.minConfidence.Some? && context.confidence.Some? && context.confidence.value < rule.minConfidence.value then
      Decided(rule, OnBreach(rule), ConfidenceBelow(context.confidence.value, rule.minConfidence.value))
    else if Truthy(rule.timeWindowStart) && Truthy(rule.timeWindowEnd)
         && OutsideWindow(ClockText(now), rule.timeWindowStart.value, rule.timeWindowEnd.value) then
      Decided(rule, Deny, OutsideTimeWindow(rule.timeWindowStart.value, rule.timeWindowEnd.value))
    else if rule.requireApproval then
      Decided(rule, ApproveRequired, RequiresApproval(rule.name))
    else
      var verdict := if rule.defaultVerdict.Some? then rule.defaultVerdict.value else Allow;
      Decided(rule, verdict, DefaultVerdict(rule.name, verdict))
  }

  /** Why a rule is skipped, None when it is in scope; throws (the outer None) when its pattern does not compile. */
  function Skip(rule: PolicyRule, context: PolicyContext): Option<Option<Reason>> {
    if !rule.enabled then Some(Some(RuleDisabled))
    else
      match GlobMatcher.GlobMatches(rule.actionTypePattern, context.actionType)
      case None => None
      case Some(matches) =>
        if !matches then Some(Some(ActionTypeDoesNotMatch))
        else if rule.enforcementPoint != context.enforcementPoint then Some(Some(EnforcementPointDoesNotMatch))
        else if rule.requiredRoles.Some? && rule.requiredRoles.value != [] then
          if context.callerRoles.None? || context.callerRoles.value == [] then Some(Some(CallerHasNoRoles))
          else if !HasRoles(rule, rule.requiredRoles.value, context.callerRoles.value) then
            Some(Some(CallerLacksRoles(rule.requiredRoles.value)))
          else Some(None)
        else Some(None)
  }

  /** One rule on one context: first its scope, then its thresholds. */
  function EvaluateRule(rule: PolicyRule, context: PolicyContext, now: TimeOfDay): Option<RuleEvaluation> {
    match Skip(rule, context)
    case None => None
    case Some(None) => Some(EvaluateThresholds(rule, context, now))
    case Some(Some(reason)) => Some(RuleEvaluation(rule.id, rule.name, Allow, reason, false))
  }

  predicate Applies(rule: PolicyRule, context: PolicyContext, now: TimeOfDay) {
    var e := EvaluateRule(rule, context, now);
    e.Some? && e.value.applies
  }

  function VerdictOf(rule: PolicyRule, context: PolicyContext, now: TimeOfDay): Verdict
    requires Applies(rule, context, now)
  {
    EvaluateRule(rule, context, now).value.verdict
  }

  /** The caller is among those the rule is about. */
  predicate InRoleScope(rule: PolicyRule, context: PolicyContext) {
    var required := if rule.requiredRoles.Some? then rule.requiredRoles.value else [];
    var held := if context.callerRoles.Some? then context.callerRoles.value else [];
    required == [] || if rule.roleMatchMode == Some(AllRoles) then forall r :: r in required ==> r in held
                      else exists r :: r in required && r in held
  }

  /** A rule applies exactly when it is enabled and its pattern, enforcement point and roles all cover the context. */
  lemma AppliesExactly(rule: PolicyRule, context: PolicyContext, now: TimeOfDay)
    requires '?' !in rule.actionTypePattern
    ensures Applies(rule, context, now) <==>
      && rule.enabled && GlobMatcher.MatchesGlob(rule.actionTypePattern, context.actionType)
      && rule.enforcementPoint == context.enforcementPoint && InRoleScope(rule, context)
  {
    GlobMeaning.TranslationFaithful(rule.actionTypePattern);
    assert GlobMatcher.GlobMatches(rule.actionTypePattern, context.actionType) ==
      Some(GlobMatcher.MatchesGlob(rule.actionTypePattern, context.actionType));
    SkipExactly(rule, context);
    RolesInScope(rule, context);
  }

  /** The role check of a rule that requires some. */
  predicate PassesRoles(rule: PolicyRule, context: PolicyContext) {
    rule.requiredRoles.Some? && rule.requiredRoles.value != [] ==>
      && context.callerRoles.Some? && context.callerRoles.value != []
      && HasRoles(rule, rule.requiredRoles.value, context.callerRoles.value)
  }

  lemma RolesInScope(rule: PolicyRule, context: PolicyContext)
    ensures InRoleScope(rule, context) <==> PassesRoles(rule, context)
  {
    if rule.requiredRoles.Some? && context.callerRoles.Some? {
      var required, held := rule.requiredRoles.value, context.callerRoles.value;
      if i :| 0 <= i < |required| && required[i] in held {
        assert required[i] in required;
      }
      if r :| r in required && r in held {
        var i :| 0 <= i < |required| && required[i] == r;
      }
      assert (forall i :: 0 <= i < |required| ==> required[i] in held) ==> forall r :: r in required ==> r in held;
    }
    if rule.requiredRoles.Some? && rule.requiredRoles.value != [] {
      assert rule.requiredRoles.value[0] in rule.requiredRoles.value;
    }
  }

  lemma SkipExactly(rule: PolicyRule, context: PolicyContext)
    ensures Skip(rule, context) == Some(None) <==>
      && rule.enabled && GlobMatcher.GlobMatches(rule.actionTypePattern, context.actionType) == Some(true)
      && rule.enforcementPoint == context.enforcementPoint && PassesRoles(rule, context)
  {
  }

  /** A quality or confidence score below its minimum. */
  predicate ScoreTooLow(rule: PolicyRule, context: PolicyContext) {
    || (rule.minDataQuality.Some? && context.dataQualityScore.Some? && context.dataQualityScore.value < rule.minDataQuality.value)
    || (rule.minConfidence.Some? && context.confidence.Some? && context.confidence.value < rule.minConfidence.value)
  }

  predicate OutsideHours(rule: PolicyRule, now: TimeOfDay) {
    && Truthy(rule.timeWindowStart) && Truthy(rule.timeWindowEnd)
    && OutsideWindow(ClockText(now), rule.timeWindowStart.value, rule.timeWindowEnd.value)
  }

  predicate OverLimit(rule: PolicyRule, context: PolicyContext) {
    rule.maxAmountUsd.Some? && context.financialImpact.Some? && context.financialImpact.value > rule.maxAmountUsd.value
  }

  /** Any breached threshold answers first; then closed hours deny; then approval is asked; then the default decides. */
  lemma VerdictExactly(rule: PolicyRule, context: PolicyContext, now: TimeOfDay)
    requires Applies(rule, context, now)
    ensures var breached := OverLimit(rule, context) || ScoreTooLow(rule, context);
      && (VerdictOf(rule, context, now) == ApproveRequired <==>
            || (rule.requireApproval && (breached || !OutsideHours(rule, now)))
            || (!rule.requireApproval && !breached && !OutsideHours(rule, now) && rule.defaultVerdict == Some(ApproveRequired)))
      && (VerdictOf(rule, context, now) == Allow <==>
            && !breached && !OutsideHours(rule, now) && !rule.requireApproval && rule.defaultVerdict in {None, Some(Allow)})
  {
    assert VerdictOf(rule, context, now) == EvaluateThresholds(rule, context, now).verdict;
  }

  // ---------------------------------------------------------------------- what an evaluation says

  /** The caller, the action and the place are what the rule is about. */
  predicate InScope(rule: PolicyRule, context: PolicyContext) {
    && rule.enabled && GlobMatcher.GlobMatches(rule.actionTypePattern, context.actionType) == Some(true)
    && rule.enforcementPoint == context.enforcementPoint && InRoleScope(rule, context)
  }

  predicate LowQuality(rule: PolicyRule, context: PolicyContext) {
    rule.minDataQuality.Some? && context.dataQualityScore.Some? && context.dataQualityScore.value < rule.minDataQuality.value
  }

  predicate LowConfidence(rule: PolicyRule, context: PolicyContext) {
    rule.minConfidence.Some? && context.confidence.Some? && context.confidence.value < rule.minConfidence.value
  }

  /** Both ends of the time window are given, and the clock shows a time before the one or after the other. */
  predicate ClosedAt(rule: PolicyRule, now: TimeOfDay) {
    && rule.timeWindowStart.Some? && |rule.timeWindowStart.value| > 0 && rule.timeWindowEnd.Some? && |rule.timeWindowEnd.value| > 0
    && (TextLess(ClockText(now), rule.timeWindowStart.value) || TextLess(rule.timeWindowEnd.value, ClockText(now)))
  }

  /** A breached limit, with the value found and the limit: the verdict is deny, or approval when the rule asks for it. */
  predicate Breach(rule: PolicyRule, verdict: Verdict, found: Reason, expected: Reason) {
    found == expected && (if rule.requireApproval then verdict == ApproveRequired else verdict == Deny)
  }

  /** What a rule in scope answers: its own id and name, and the first check in order that it does not pass. */
  ghost predicate AnswersFor(e: RuleEvaluation, rule: PolicyRule, context: PolicyContext, now: TimeOfDay) {
    var over, quality, confidence, closed :=
      OverLimit(rule, context), LowQuality(rule, context), LowConfidence(rule, context), ClosedAt(rule, now);
    && e.ruleId == rule.id && e.ruleName == rule.name && e.applies
    && (over ==> Breach(rule, e.verdict, e.reason, FinancialImpactExceeds(context.financialImpact.value, rule.maxAmountUsd.value)))
    && (!over && quality ==> Breach(rule, e.verdict, e.reason, DataQualityBelow(context.dataQualityScore.value, rule.minDataQuality.value)))
    && (!over && !quality && confidence ==> Breach(rule, e.verdict, e.reason, ConfidenceBelow(context.confidence.value, rule.minConfidence.value)))
    && (!over && !quality && !confidence && closed ==>
          e.verdict == Deny && e.reason == OutsideTimeWindow(rule.timeWindowStart.value, rule.timeWindowEnd.value))
    && (!over && !quality && !confidence && !closed && rule.requireApproval ==>
          e.verdict == ApproveRequired && e.reason == RequiresApproval(rule.name))
    && (!over && !quality && !confidence && !closed && !rule.requireApproval ==>
          e.reason == DefaultVerdict(rule.name, e.verdict)
          && (rule.defaultVerdict == Some(e.verdict) || (rule.defaultVerdict == None && e.verdict == Allow)))
  }

  /** Why a rule that is not in scope is skipped: the first scope check it does not pass. */
  ghost predicate SkippedFor(e: RuleEvaluation, rule: PolicyRule, context: PolicyContext) {
    var matches := GlobMatcher.GlobMatches(rule.actionTypePattern, context.actionType) == Some(true);
    var here := rule.enforcementPoint == context.enforcementPoint;
    var rolesHeld := context.callerRoles.Some? && |context.callerRoles.value| > 0;
    && e.ruleId == rule.id && e.ruleName == rule.name && !e.applies && e.verdict == Allow
    && (e.reason == RuleDisabled <==> !rule.enabled)
    && (e.reason == ActionTypeDoesNotMatch <==> rule.enabled && !matches)
    && (e.reason == EnforcementPointDoesNotMatch <==> rule.enabled && matches && !here)
    && (e.reason == CallerHasNoRoles <==> rule.enabled && matches && here && !rolesHeld)
    && (rule.enabled && matches && here && rolesHeld ==>
          rule.requiredRoles.Some? && e.reason == CallerLacksRoles(rule.requiredRoles.value))
  }

  lemma ClosedOutsideHours(rule: PolicyRule, now: TimeOfDay)
    ensures ClosedAt(rule, now) <==> OutsideHours(rule, now)
  {
  }

  lemma ThresholdsMean(rule: PolicyRule, context: PolicyContext, now: TimeOfDay)
    ensures AnswersFor(EvaluateThresholds(rule, context, now), rule, context, now)
  {
    ClosedOutsideHours(rule, now);
    hide ClosedAt, ClockText, OutsideWindow;
  }

  lemma SkippedMeans(rule: PolicyRule, context: PolicyContext, reason: Reason)
    requires Skip(rule, context) == Some(Some(reason))
    ensures SkippedFor(RuleEvaluation(rule.id, rule.name, Allow, reason, false), rule, context)
  {
    hide HasRoles;
  }

  /** The evaluation of a rule throws, answers or skips just so. */
  lemma EvaluateRuleMeans(rule: PolicyRule, context: PolicyContext, now: TimeOfDay)
    ensures match EvaluateRule(rule, context, now)
            case None => rule.enabled && GlobMatcher.GlobMatches(rule.actionTypePattern, context.actionType) == None
            case Some(e) => if InScope(rule, context) then AnswersFor(e, rule, context, now) else SkippedFor(e, rule, context)
  {
    AppliesInScope(rule, context, now);
    hide AnswersFor, EvaluateThresholds, SkippedFor, InScope;
    ThresholdsMean(rule, context, now);
    if Skip(rule, context).Some? && Skip(rule, context).value.Some? {
      SkippedMeans(rule, context, Skip(rule, context).value.value);
    }
  }

  /** A rule applies exactly when it is in scope. */
  lemma AppliesInScope(rule: PolicyRule, context: PolicyContext, now: TimeOfDay)
    ensures Applies(rule, context, now) <==> InScope(rule, context)
    ensures InScope(rule, context) <==> Skip(rule, context) == Some(None)
  {
    RolesInScope(rule, context);
    SkipExactly(rule, context);
  }

  predicate LoosenedByLimit(rule: PolicyRule, context: PolicyContext, now: TimeOfDay, low: real, high: real) {
    && rule.requireApproval && OutsideHours(rule, now) && !ScoreTooLow(rule, context)
    && rule.maxAmountUsd.Some? && low <= rule.maxAmountUsd.value < high
  }

  lemma ThresholdsByImpact(rule: PolicyRule, context: PolicyContext, now: TimeOfDay, low: real, high: real)
    requires low <= high
    ensures Rank(EvaluateThresholds(rule, context.(financialImpact := Some(high)), now).verdict)
      < Rank(EvaluateThresholds(rule, context.(financialImpact := Some(low)), now).verdict)
      <==> LoosenedByLimit(rule, context, now, low, high)
  {
  }

  lemma ScopeIgnoresImpact(rule: PolicyRule, context: PolicyContext, now: TimeOfDay, impact: real)
    requires Applies(rule, context, now)
    ensures Applies(rule, context.(financialImpact := Some(impact)), now)
    ensures VerdictOf(rule, context.(financialImpact := Some(impact)), now) ==
      EvaluateThresholds(rule, context.(financialImpact := Some(impact)), now).verdict
  {
    assert Skip(rule, context.(financialImpact := Some(impact))) == Skip(rule, context);
  }

  /**
   * Raising the financial impact loosens a rule's verdict exactly when the rule asks for
   * approval, is closed at this hour, and the raise crosses its limit with no other threshold
   * breached: the exceeded limit answers before the closed hours would deny.
   */
  lemma RaisingImpact(rule: PolicyRule, context: PolicyContext, now: TimeOfDay, low: real, high: real)
    requires low <= high
    requires Applies(rule, context, now)
    ensures Applies(rule, context.(financialImpact := Some(low)), now) && Applies(rule, context.(financialImpact := Some(high)), now)
    ensures Rank(VerdictOf(rule, context.(financialImpact := Some(high)), now))
      < Rank(VerdictOf(rule, context.(financialImpact := Some(low)), now))
      <==> LoosenedByLimit(rule, context, now, low, high)
  {
    ScopeIgnoresImpact(rule, context, now, low);
    ScopeIgnoresImpact(rule, context, now, high);
    ThresholdsByImpact(rule, context, now, low, high);
  }

  // ---------------------------------------------------------------------- arbitration

  function Arbitrate(results: seq<RuleEvaluation>): Verdict {
    if exists i :: 0 <= i < |results| && results[i].verdict == Deny then Deny
    else if exists i :: 0 <= i < |results| && results[i].verdict == ApproveRequired then ApproveRequired
    else Allow
  }

  /** The time of day at which the rule with an id is checked: every rule reads the clock anew. */
  type Clock = string -> TimeOfDay

  /** v is the strictest verdict among the applicable rules, allow when there is none. */
  ghost predicate IsStrictest(rules: seq<PolicyRule>, context: PolicyContext, clock: Clock, v: Verdict) {
    && (v == Allow || exists r :: r in rules && AppliesWith(r, context, clock, v))
    && forall r, w :: r in rules && AppliesWith(r, context, clock, w) ==> Rank(w) <= Rank(v)
  }

  predicate AppliesWith(r: PolicyRule, context: PolicyContext, clock: Clock, v: Verdict) {
    Applies(r, context, clock(r.id)) && VerdictOf(r, context, clock(r.id)) == v
  }

  /** Every verdict an applicable rule of `fewer` gives, one of `more` gives too. */
  ghost predicate Covers(more: seq<PolicyRule>, fewer: seq<PolicyRule>, context: PolicyContext, clock: Clock) {
    forall r, v :: r in fewer && AppliesWith(r, context, clock, v) ==> exists s :: s in more && AppliesWith(s, context, clock, v)
  }

  /** Covering rules never loosen the verdict. */
  lemma AddingNeverLoosens(fewer: seq<PolicyRule>, more: seq<PolicyRule>, context: PolicyContext, clock: Clock,
                           v: Verdict, w: Verdict)
    requires Covers(more, fewer, context, clock)
    requires IsStrictest(fewer, context, clock, v) && IsStrictest(more, context, clock, w)
    ensures Rank(v) <= Rank(w)
  {
    if v != Allow {
      var r :| r in fewer && AppliesWith(r, context, clock, v);
      var s :| s in more && AppliesWith(s, context, clock, v);
    }
  }

  /** Adding rules never loosens the verdict. */
  lemma AddingRulesNeverLoosens(fewer: seq<PolicyRule>, more: seq<PolicyRule>, context: PolicyContext, clock: Clock,
                                v: Verdict, w: Verdict)
    requires forall r :: r in fewer ==> r in more
    requires IsStrictest(fewer, context, clock, v) && IsStrictest(more, context, clock, w)
    ensures Rank(v) <= Rank(w)
  {
    AddingNeverLoosens(fewer, more, context, clock, v, w);
  }

  /** The rules with their priorities forgotten. */
  function Unranked(rules: seq<PolicyRule>): (r: seq<PolicyRule>)
    ensures |r| == |rules|
  {
    seq(|rules|, i requires 0 <= i < |rules| => rules[i].(priority := 0))
  }

  /** Every rule of a is in b, but for its priority. */
  ghost predicate WithinUpToPriority(a: seq<PolicyRule>, b: seq<PolicyRule>) {
    forall r :: r in Unranked(a) ==> r in Unranked(b)
  }

  predicate SameButPriority(r: PolicyRule, s: PolicyRule) {
    s.(priority := r.priority) == r
  }

  lemma SameVerdict(r: PolicyRule, s: PolicyRule, context: PolicyContext, clock: Clock, v: Verdict)
    requires SameButPriority(r, s)
    ensures AppliesWith(r, context, clock, v) <==> AppliesWith(s, context, clock, v)
  {
    assert Skip(r, context) == Skip(s, context);
    assert EvaluateThresholds(r, context, clock(r.id)) == EvaluateThresholds(s, context, clock(s.id));
  }

  lemma PriorityIgnored(a: seq<PolicyRule>, b: seq<PolicyRule>, context: PolicyContext, clock: Clock)
    requires WithinUpToPriority(a, b)
    ensures Covers(b, a, context, clock)
  {
    forall r, v | r in a && AppliesWith(r, context, clock, v)
      ensures exists s :: s in b && AppliesWith(s, context, clock, v)
    {
      var i :| 0 <= i < |a| && a[i] == r;
      assert Unranked(a)[i] in Unranked(b);
      var j :| 0 <= j < |b| && Unranked(b)[j] == Unranked(a)[i];
      var s := b[j];
      SameVerdict(r, s, context, clock, v);
    }
  }

  lemma ReorderedNotLooser(a: seq<PolicyRule>, b: seq<PolicyRule>, context: PolicyContext, clock: Clock,
                           v: Verdict, w: Verdict)
    requires WithinUpToPriority(a, b)
    requires IsStrictest(a, context, clock, v) && IsStrictest(b, context, clock, w)
    ensures Rank(v) <= Rank(w)
  {
    PriorityIgnored(a, b, context, clock);
    AddingNeverLoosens(a, b, context, clock, v, w);
  }

  /** Neither the order nor the priorities of the rules matter to the verdict. */
  lemma OrderAndPriorityIrrelevant(a: seq<PolicyRule>, b: seq<PolicyRule>, context: PolicyContext, clock: Clock,
                                   v: Verdict, w: Verdict)
    requires WithinUpToPriority(a, b) && WithinUpToPriority(b, a)
    requires IsStrictest(a, context, clock, v) && IsStrictest(b, context, clock, w)
    ensures v == w
  {
    ReorderedNotLooser(a, b, context, clock, v, w);
    ReorderedNotLooser(b, a, context, clock, w, v);
  }
}
