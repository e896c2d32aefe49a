/**
 * The tenant's rule store and the decision point over it. Evaluation prefilters by glob,
 * sorts by priority, records one audit entry per applicable rule, and arbitrates.
 */
module PolicyDecisionPoints {
  import opened Wrappers
  import opened PolicyDecision
  import opened StableSort
  import GlobMatcher

  function SortByPriority(rules: seq<PolicyRule>): seq<PolicyRule> {
    Sort((r: PolicyRule) => r.priority, rules)
  }

  // ---------------------------------------------------------------------- the rule store

  predicate DistinctIds(rules: seq<PolicyRule>) {
    forall i, j :: 0 <= i < j < |rules| ==> rules[i].id != rules[j].id
  }

  predicate HasId(rules: seq<PolicyRule>, id: string) {
    exists i :: 0 <= i < |rules| && rules[i].id == id
  }

  /** Map.set on an insertion-ordered map: in place when the id is known, at the end otherwise. */
  function SetRule(rules: seq<PolicyRule>, rule: PolicyRule): seq<PolicyRule> {
    if rules == [] then [rule]
    else if rules[0].id == rule.id then [rule] + rules[1..]
    else [rules[0]] + SetRule(rules[1..], rule)
  }

  function DeleteRule(rules: seq<PolicyRule>, id: string): seq<PolicyRule> {
    Filter((r: PolicyRule) => r.id != id, rules)
  }

  lemma {:induction false} SetRuleMeaning(rules: seq<PolicyRule>, rule: PolicyRule)
    requires DistinctIds(rules)
    ensures DistinctIds(SetRule(rules, rule))
    ensures |SetRule(rules, rule)| == if HasId(rules, rule.id) then |rules| else |rules| + 1
    ensures forall i :: 0 <= i < |SetRule(rules, rule)| ==>
      SetRule(rules, rule)[i] == if i < |rules| && rules[i].id != rule.id then rules[i] else rule
  {
    if rules != [] && rules[0].id != rule.id {
      SetRuleMeaning(rules[1..], rule);
      var s := SetRule(rules[1..], rule);
      assert HasId(rules, rule.id) <==> HasId(rules[1..], rule.id) by {
        if i :| 0 <= i < |rules| && rules[i].id == rule.id { assert rules[1..][i - 1].id == rule.id; }
      }
      forall i | 0 <= i < |s| ensures s[i].id != rules[0].id {
      }
    } else if rules != [] {
      assert HasId(rules, rule.id);
    }
  }

  lemma {:induction false} FilterKeepsDistinct(keep: PolicyRule -> bool, rules: seq<PolicyRule>)
    requires DistinctIds(rules)
    ensures DistinctIds(Filter(keep, rules))
  {
    if rules != [] {
      FilterKeepsDistinct(keep, rules[1..]);
      FilterElements(keep, rules[1..]);
      var rest := Filter(keep, rules[1..]);
      forall j | 0 <= j < |rest| ensures rest[j].id != rules[0].id {
        assert rest[j] in rules[1..];
      }
    }
  }

  lemma DeleteStep(rules: seq<PolicyRule>, id: string)
    requires rules != []
    ensures DeleteRule(rules, id) == if rules[0].id == id then DeleteRule(rules[1..], id) else [rules[0]] + DeleteRule(rules[1..], id)
  {
  }

  /** Rule k has that id, and the others are left in their order. */
  ghost predicate TakenOut(rules: seq<PolicyRule>, id: string, k: nat, left: seq<PolicyRule>) {
    k < |rules| && rules[k].id == id && left == rules[..k] + rules[k + 1..]
  }

  lemma {:induction false} DeleteNone(rules: seq<PolicyRule>, id: string)
    requires !HasId(rules, id)
    ensures DeleteRule(rules, id) == rules
  {
    if rules != [] {
      DeleteStep(rules, id);
      assert forall i :: 0 <= i < |rules[1..]| ==> rules[1..][i] == rules[i + 1];
      DeleteNone(rules[1..], id);
    }
  }

  /** Deleting takes out the one rule with that id. */
  lemma {:induction false} DeleteExactly(rules: seq<PolicyRule>, id: string) returns (k: nat)
    requires DistinctIds(rules) && HasId(rules, id)
    ensures TakenOut(rules, id, k, DeleteRule(rules, id))
  {
    hide DeleteRule;
    var rest := rules[1..];
    DeleteStep(rules, id);
    if rules[0].id == id {
      k := 0;
      forall i | 0 <= i < |rest| ensures rest[i].id != id {
        assert rest[i] == rules[i + 1];
      }
      DeleteNone(rest, id);
    } else {
      var i :| 0 <= i < |rules| && rules[i].id == id;
      assert rest[i - 1].id == id;
      var j := DeleteExactly(rest, id);
      k := j + 1;
      assert rules[..k] == [rules[0]] + rest[..j] && rules[k + 1..] == rest[j + 1..];
    }
  }

  function Patched(r: PolicyRule, patch: PolicyRule -> PolicyRule, now: string): PolicyRule {
    patch(r).(id := r.id, tenantId := r.tenantId, createdAt := r.createdAt, updatedAt := now)
  }

  predicate Compiles(rules: seq<PolicyRule>, actionType: string) {
    forall i :: 0 <= i < |rules| ==> GlobMatcher.GlobMatches(rules[i].actionTypePattern, actionType).Some?
  }

  predicate MatchesAction(r: PolicyRule, actionType: string) {
    GlobMatcher.GlobMatches(r.actionTypePattern, actionType) == Some(true)
  }

  class PolicyRuleRepository {
    var store: map<string, seq<PolicyRule>>

    constructor ()
      ensures Valid() && forall t :: Rules(t) == []
    {
      store := map[];
    }

    /** Every tenant's rules carry distinct ids and that tenant's id. */
    ghost predicate Valid()
      reads this
    {
      forall t :: t in store ==> DistinctIds(store[t]) && forall i :: 0 <= i < |store[t]| ==> store[t][i].tenantId == t
    }

    function Rules(t: string): seq<PolicyRule>
      reads this
    {
      if t in store then store[t] else []
    }

    method Create(t: string, input: PolicyRule, id: string, now: string) returns (rule: PolicyRule)
      requires Valid()
      modifies this
      ensures Valid()
      ensures rule == input.(id := id, tenantId := t, createdAt := now, updatedAt := now)
      ensures Rules(t) == SetRule(old(Rules(t)), rule)
      ensures forall u :: u != t ==> Rules(u) == old(Rules(u))
    {
      rule := input.(id := id, tenantId := t, createdAt := now, updatedAt := now);
      SetRuleMeaning(Rules(t), rule);
      store := store[t := SetRule(Rules(t), rule)];
    }

    method FindById(t: string, id: string) returns (rule: Option<PolicyRule>)
      requires Valid()
      ensures rule.None? <==> !HasId(Rules(t), id)
      ensures rule.Some? ==> rule.value in Rules(t) && rule.value.id == id
    {
      var rules := Rules(t);
      var i := 0;
      while i < |rules|
        invariant 0 <= i <= |rules|
        invariant forall k :: 0 <= k < i ==> rules[k].id != id
      {
        if rules[i].id == id {
          return Some(rules[i]);
        }
        i := i + 1;
      }
      return None;
    }

    /** The caller's partial input is `patch`; identity, tenant and creation time survive it. */
    method Update(t: string, id: string, patch: PolicyRule -> PolicyRule, now: string) returns (updated: Option<PolicyRule>)
      requires Valid()
      modifies this
      ensures Valid()
      ensures updated.None? <==> !HasId(old(Rules(t)), id)
      ensures updated.None? ==> store == old(store)
      ensures updated.Some? ==> Rules(t) == SetRule(old(Rules(t)), updated.value)
      ensures updated.Some? ==>
        exists r :: r in old(Rules(t)) && r.id == id
          && updated.value == patch(r).(id := id, tenantId := t, createdAt := r.createdAt, updatedAt := now)
      ensures forall u :: u != t ==> Rules(u) == old(Rules(u))
    {
      var existing := FindById(t, id);
      if existing.None? {
        return None;
      }
      var r := existing.value;
      var rule := Patched(r, patch, now);
      SetRuleMeaning(Rules(t), rule);
      store := store[t := SetRule(Rules(t), rule)];
      return Some(rule);
    }

    method Delete(t: string, id: string) returns (existed: bool)
      requires Valid()
      modifies this
      ensures Valid()
      ensures existed <==> HasId(old(Rules(t)), id)
      ensures existed ==> exists k :: TakenOut(old(Rules(t)), id, k, Rules(t))
      ensures !existed ==> Rules(t) == old(Rules(t))
      ensures forall u :: u != t ==> Rules(u) == old(Rules(u))
    {
      var existing := FindById(t, id);
      existed := existing.Some?;
      var keep := (r: PolicyRule) => r.id != id;
      FilterKeepsDistinct(keep, Rules(t));
      FilterElements(keep, Rules(t));
      var left := DeleteRule(Rules(t), id);
      ghost var k: nat := 0;
      if existed {
        k := DeleteExactly(Rules(t), id);
      } else {
        DeleteNone(Rules(t), id);
      }
      assert left == Filter(keep, Rules(t));
      forall i | 0 <= i < |left| ensures left[i].tenantId == t {
        assert left[i] in Rules(t);
      }
      store := store[t := left];
      assert existed ==> TakenOut(old(Rules(t)), id, k, Rules(t));
    }

    /** The matching rules in store order; None when any of the tenant's patterns does not compile. */
    method FindByActionType(t: string, actionType: string) returns (found: Option<seq<PolicyRule>>)
      ensures found.Some? <==> Compiles(Rules(t), actionType)
      ensures found.Some? ==> found.value == Matching(Rules(t), actionType)
    {
      found := KeepMatching(Rules(t), (r: PolicyRule) => GlobMatcher.GlobMatches(r.actionTypePattern, actionType),
                            (r: PolicyRule) => MatchesAction(r, actionType));
    }
  }

  /** Array.filter with a test that may throw. */
  method KeepMatching(rules: seq<PolicyRule>, test: PolicyRule -> Option<bool>, ghost keep: PolicyRule -> bool)
    returns (found: Option<seq<PolicyRule>>)
    requires forall r :: keep(r) <==> test(r) == Some(true)
    ensures found.Some? <==> forall i :: 0 <= i < |rules| ==> test(rules[i]).Some?
    ensures found.Some? ==> found.value == Filter(keep, rules)
  {
    var matching: seq<PolicyRule> := [];
    var i := 0;
    while i < |rules|
      invariant 0 <= i <= |rules|
      invariant forall k :: 0 <= k < i ==> test(rules[k]).Some?
      invariant matching == Filter(keep, rules[..i])
    {
      var matches := test(rules[i]);
      if matches.None? {
        return None;
      }
      FilterSnoc(keep, rules[..i], rules[i]);
      assert rules[..i + 1] == rules[..i] + [rules[i]];
      if matches.value {
        matching := matching + [rules[i]];
      }
      i := i + 1;
    }
    assert rules[..i] == rules;
    return Some(matching);
  }

  // ---------------------------------------------------------------------- audit

  datatype AuditEntry = AuditEntry(
    ruleId: string,
    ruleName: string,
    actionType: string,
    verdict: Verdict,
    reason: Reason,
    correlationId: string,
    tenantId: string)

  datatype Event =
    | PolicyEvaluated(ruleId: string, actionType: string, verdict: Verdict, correlationId: string, tenantId: string)
    | PolicyDecided(verdict: Verdict, actionType: string, rulesEvaluated: nat, correlationId: string, tenantId: string)

  function EntryFor(e: RuleEvaluation, actionType: string, correlationId: string, tenantId: string): AuditEntry {
    AuditEntry(e.ruleId, e.ruleName, actionType, e.verdict, e.reason, correlationId, tenantId)
  }

  function EventFor(e: RuleEvaluation, actionType: string, correlationId: string, tenantId: string): Event {
    PolicyEvaluated(e.ruleId, actionType, e.verdict, correlationId, tenantId)
  }

  /** One entry per evaluation, in order. */
  function EntriesFor(es: seq<RuleEvaluation>, actionType: string, correlationId: string, tenantId: string): seq<AuditEntry> {
    seq(|es|, i requires 0 <= i < |es| => EntryFor(es[i], actionType, correlationId, tenantId))
  }

  function EventsFor(es: seq<RuleEvaluation>, actionType: string, correlationId: string, tenantId: string): seq<Event> {
    seq(|es|, i requires 0 <= i < |es| => EventFor(es[i], actionType, correlationId, tenantId))
  }

  class PolicyAuditService {
    var entries: seq<AuditEntry>
    var events: seq<Event>

    constructor ()
      ensures entries == [] && events == []
    {
      entries := [];
      events := [];
    }

    method Record(entry: AuditEntry)
      modifies this
      ensures entries == old(entries) + [entry]
      ensures events == old(events) + [PolicyEvaluated(entry.ruleId, entry.actionType, entry.verdict, entry.correlationId, entry.tenantId)]
    {
      entries := entries + [entry];
      events := events + [PolicyEvaluated(entry.ruleId, entry.actionType, entry.verdict, entry.correlationId, entry.tenantId)];
    }

    method Emit(event: Event)
      modifies this
      ensures entries == old(entries) && events == old(events) + [event]
    {
      events := events + [event];
    }
  }

  // ---------------------------------------------------------------------- evaluation

  /** A rule's evaluation, when the rule applies. */
  function Applied(r: PolicyRule, context: PolicyContext, clock: Clock): Option<RuleEvaluation> {
    if Applies(r, context, clock(r.id)) then EvaluateRule(r, context, clock(r.id)) else None
  }

  function AppliedIn(context: PolicyContext, clock: Clock): PolicyRule -> Option<RuleEvaluation> {
    r => Applied(r, context, clock)
  }

  /** The evaluations of the applicable rules, in the rules' order. */
  function Evaluations(rules: seq<PolicyRule>, context: PolicyContext, clock: Clock): seq<RuleEvaluation> {
    Collect(AppliedIn(context, clock), rules)
  }

  /** Arbitrating the evaluations of the rules gives the strictest verdict among the applicable ones. */
  lemma ArbitrationIsStrictest(rules: seq<PolicyRule>, context: PolicyContext, clock: Clock)
    ensures IsStrictest(rules, context, clock, Arbitrate(Evaluations(rules, context, clock)))
  {
    var es := Evaluations(rules, context, clock);
    var v := Arbitrate(es);
    if v != Allow {
      var i :| 0 <= i < |es| && es[i].verdict == v;
      CollectElements(AppliedIn(context, clock), rules, es[i]);
      var r :| r in rules && AppliedIn(context, clock)(r) == Some(es[i]);
      assert AppliesWith(r, context, clock, v);
    }
    forall r, w | r in rules && AppliesWith(r, context, clock, w) ensures Rank(w) <= Rank(v) {
      var e := EvaluateRule(r, context, clock(r.id)).value;
      assert AppliedIn(context, clock)(r) == Some(e);
      CollectElements(AppliedIn(context, clock), rules, e);
    }
  }

  lemma StrictestOfSameRules(a: seq<PolicyRule>, b: seq<PolicyRule>, context: PolicyContext, clock: Clock, v: Verdict)
    requires forall r :: r in a <==> r in b
    requires IsStrictest(a, context, clock, v)
    ensures IsStrictest(b, context, clock, v)
  {
  }

  predicate Eligible(r: PolicyRule, actionType: string) {
    r.enabled && MatchesAction(r, actionType)
  }

  predicate AnyEligible(rules: seq<PolicyRule>, actionType: string) {
    exists i :: 0 <= i < |rules| && Eligible(rules[i], actionType)
  }

  function Matching(rules: seq<PolicyRule>, actionType: string): seq<PolicyRule> {
    Filter((r: PolicyRule) => MatchesAction(r, actionType), rules)
  }

  function EnabledOnly(rules: seq<PolicyRule>): seq<PolicyRule> {
    Filter((r: PolicyRule) => r.enabled, rules)
  }

  function EligibleOnly(rules: seq<PolicyRule>, actionType: string): seq<PolicyRule> {
    Filter((r: PolicyRule) => Eligible(r, actionType), rules)
  }

  lemma EnabledMatching(rules: seq<PolicyRule>, actionType: string)
    ensures EnabledOnly(Matching(rules, actionType)) == EligibleOnly(rules, actionType)
  {
    FilterTwice((r: PolicyRule) => r.enabled, (r: PolicyRule) => MatchesAction(r, actionType),
                (r: PolicyRule) => Eligible(r, actionType), rules);
  }

  lemma EligibleElements(rules: seq<PolicyRule>, context: PolicyContext, clock: Clock)
    ensures EligibleOnly(rules, context.actionType) != [] <==> AnyEligible(rules, context.actionType)
    ensures forall r :: r in SortByPriority(EligibleOnly(rules, context.actionType)) ==> EvaluateRule(r, context, clock(r.id)).Some?
  {
    FilterEmpty((r: PolicyRule) => Eligible(r, context.actionType), rules);
    FilterElements((r: PolicyRule) => Eligible(r, context.actionType), rules);
    SortOrders((r: PolicyRule) => r.priority, EligibleOnly(rules, context.actionType));
  }

  /** Prefiltering, dropping disabled rules and sorting loses no applicable rule and keeps their order. */
  lemma PrefilterLosesNothing(rules: seq<PolicyRule>, context: PolicyContext, clock: Clock)
    ensures Evaluations(SortByPriority(EligibleOnly(rules, context.actionType)), context, clock) ==
      Evaluations(SortByPriority(rules), context, clock)
  {
    var keep := (r: PolicyRule) => Eligible(r, context.actionType);
    SortFilter(keep, (r: PolicyRule) => r.priority, rules);
    CollectFilter(AppliedIn(context, clock), keep, SortByPriority(rules));
  }

  lemma SortKeepsStrictest(rules: seq<PolicyRule>, context: PolicyContext, clock: Clock)
    ensures IsStrictest(rules, context, clock, Arbitrate(Evaluations(SortByPriority(rules), context, clock)))
  {
    ArbitrationIsStrictest(SortByPriority(rules), context, clock);
    SortOrders((r: PolicyRule) => r.priority, rules);
    StrictestOfSameRules(SortByPriority(rules), rules, context, clock, Arbitrate(Evaluations(SortByPriority(rules), context, clock)));
  }

  datatype PolicyVerdict = PolicyVerdict(verdict: Verdict, matchedPolicies: seq<RuleEvaluation>)

  /** The verdict is the strictest, and the matches are the applicable rules by falling priority. */
  ghost predicate DecidesOn(rules: seq<PolicyRule>, context: PolicyContext, clock: Clock, v: PolicyVerdict) {
    && IsStrictest(rules, context, clock, v.verdict)
    && v.matchedPolicies == Evaluations(SortByPriority(rules), context, clock)
  }

  /**
   * The matches are the answers of the rules in scope, each at its place in the store, by falling
   * priority and in the store's order within a priority.
   */
  ghost predicate Answers(rules: seq<PolicyRule>, context: PolicyContext, clock: Clock, matches: seq<RuleEvaluation>, places: seq<nat>) {
    && |matches| == |places|
    && (forall i :: 0 <= i < |places| ==> places[i] < |rules| && InScope(rules[places[i]], context))
    && (forall i :: 0 <= i < |places| ==> AnswersFor(matches[i], rules[places[i]], context, clock(rules[places[i]].id)))
    && (forall k: nat :: k < |rules| && InScope(rules[k], context) ==> k in places)
    && forall i, j :: 0 <= i < j < |places| ==>
      rules[places[i]].priority > rules[places[j]].priority
      || (rules[places[i]].priority == rules[places[j]].priority && places[i] < places[j])
  }

  lemma AppliedAnswers(rule: PolicyRule, context: PolicyContext, clock: Clock)
    ensures Applied(rule, context, clock).Some? <==> InScope(rule, context)
    ensures InScope(rule, context) ==> AnswersFor(Applied(rule, context, clock).value, rule, context, clock(rule.id))
  {
    hide AnswersFor, SkippedFor, InScope;
    AppliesInScope(rule, context, clock(rule.id));
    EvaluateRuleMeans(rule, context, clock(rule.id));
  }

  /** The evaluations of the sorted rules are the answers of the rules in scope. */
  lemma EvaluationsAnswer(rules: seq<PolicyRule>, context: PolicyContext, clock: Clock) returns (places: seq<nat>)
    ensures Answers(rules, context, clock, Evaluations(SortByPriority(rules), context, clock), places)
  {
    hide AnswersFor, InScope, Applied;
    var rank := (r: PolicyRule) => r.priority;
    places := SortedResults(AppliedIn(context, clock), rank, rules);
    forall k: nat | k < |rules|
      ensures AppliedIn(context, clock)(rules[k]).Some? <==> InScope(rules[k], context)
      ensures InScope(rules[k], context) ==>
        AnswersFor(AppliedIn(context, clock)(rules[k]).value, rules[k], context, clock(rules[k].id))
    {
      AppliedAnswers(rules[k], context, clock);
    }
    assert forall i, j :: 0 <= i < j < |places| ==> RanksBefore(rank, rules, places[i], places[j]);
  }

  /** Any denial denies; otherwise any request for approval asks for it; otherwise the action is allowed. */
  predicate Overall(matches: seq<RuleEvaluation>, v: Verdict) {
    var denies := exists i :: 0 <= i < |matches| && matches[i].verdict == Deny;
    var asks := exists i :: 0 <= i < |matches| && matches[i].verdict == ApproveRequired;
    && (v == Deny <==> denies) && (v == ApproveRequired <==> asks && !denies) && (v == Allow <==> !asks && !denies)
  }

  /** One audit entry is added for each match, in order, and names that match. */
  predicate Audited(before: seq<AuditEntry>, after: seq<AuditEntry>, matches: seq<RuleEvaluation>,
                    actionType: string, correlationId: string, tenantId: string) {
    && |after| == |before| + |matches| && after[..|before|] == before
    && forall i :: 0 <= i < |matches| ==>
      after[|before| + i] ==
        AuditEntry(matches[i].ruleId, matches[i].ruleName, actionType, matches[i].verdict, matches[i].reason, correlationId, tenantId)
  }

  /** One event is added for each match, in order, and at last one for the decision when any enabled rule matches the action. */
  predicate Announced(before: seq<Event>, after: seq<Event>, rules: seq<PolicyRule>, v: PolicyVerdict,
                      actionType: string, correlationId: string, tenantId: string) {
    var matches := v.matchedPolicies;
    var decided := exists i :: 0 <= i < |rules| && rules[i].enabled && GlobMatcher.GlobMatches(rules[i].actionTypePattern, actionType) == Some(true);
    && |after| == |before| + |matches| + (if decided then 1 else 0) && after[..|before|] == before
    && (forall i :: 0 <= i < |matches| ==>
          after[|before| + i] == PolicyEvaluated(matches[i].ruleId, actionType, matches[i].verdict, correlationId, tenantId))
    && (decided ==> after[|before| + |matches|] == PolicyDecided(v.verdict, actionType, |matches|, correlationId, tenantId))
  }

  /** The strictest verdict over the rules in scope, and their answers. */
  ghost predicate Decides(rules: seq<PolicyRule>, context: PolicyContext, clock: Clock, v: PolicyVerdict) {
    && DecidesOn(rules, context, clock, v) && Overall(v.matchedPolicies, v.verdict)
    && exists places :: Answers(rules, context, clock, v.matchedPolicies, places)
  }

  function Decision(rules: seq<PolicyRule>, context: PolicyContext, clock: Clock): PolicyVerdict {
    var evaluations := Evaluations(SortByPriority(rules), context, clock);
    PolicyVerdict(Arbitrate(evaluations), evaluations)
  }

  lemma DecisionDecides(rules: seq<PolicyRule>, context: PolicyContext, clock: Clock)
    ensures Decides(rules, context, clock, Decision(rules, context, clock))
  {
    hide Answers, Overall, IsStrictest;
    SortKeepsStrictest(rules, context, clock);
    ArbitratesOverall(Evaluations(SortByPriority(rules), context, clock));
    var places := EvaluationsAnswer(rules, context, clock);
  }

  lemma ArbitratesOverall(matches: seq<RuleEvaluation>)
    ensures Overall(matches, Arbitrate(matches))
  {
  }

  lemma EntriesAudit(before: seq<AuditEntry>, matches: seq<RuleEvaluation>, actionType: string, correlationId: string, tenantId: string)
    ensures Audited(before, before + EntriesFor(matches, actionType, correlationId, tenantId), matches, actionType, correlationId, tenantId)
  {
  }

  lemma EventsAnnounce(before: seq<Event>, rules: seq<PolicyRule>, v: PolicyVerdict, actionType: string,
                       correlationId: string, tenantId: string)
    ensures Announced(before,
                      before + EventsFor(v.matchedPolicies, actionType, correlationId, tenantId)
                        + (if AnyEligible(rules, actionType)
                           then [PolicyDecided(v.verdict, actionType, |v.matchedPolicies|, correlationId, tenantId)] else []),
                      rules, v, actionType, correlationId, tenantId)
  {
    EligibleExists(rules, actionType);
  }

  lemma EligibleExists(rules: seq<PolicyRule>, actionType: string)
    ensures AnyEligible(rules, actionType) <==>
      exists i :: 0 <= i < |rules| && rules[i].enabled && GlobMatcher.GlobMatches(rules[i].actionTypePattern, actionType) == Some(true)
  {
    if i :| 0 <= i < |rules| && rules[i].enabled && GlobMatcher.GlobMatches(rules[i].actionTypePattern, actionType) == Some(true) {
      assert Eligible(rules[i], actionType);
    }
    if i :| 0 <= i < |rules| && Eligible(rules[i], actionType) {
      assert GlobMatcher.GlobMatches(rules[i].actionTypePattern, actionType) == Some(true);
    }
  }

  lemma EntriesSnoc(es: seq<RuleEvaluation>, e: RuleEvaluation, actionType: string, correlationId: string, tenantId: string)
    ensures EntriesFor(es + [e], actionType, correlationId, tenantId) ==
      EntriesFor(es, actionType, correlationId, tenantId) + [EntryFor(e, actionType, correlationId, tenantId)]
    ensures EventsFor(es + [e], actionType, correlationId, tenantId) ==
      EventsFor(es, actionType, correlationId, tenantId) + [EventFor(e, actionType, correlationId, tenantId)]
  {
  }

  class PolicyDecisionPoint {
    const ruleRepository: PolicyRuleRepository
    const auditService: PolicyAuditService

    constructor (ruleRepository: PolicyRuleRepository)
      ensures this.ruleRepository == ruleRepository && fresh(auditService)
      ensures auditService.entries == [] && auditService.events == []
    {
      this.ruleRepository := ruleRepository;
      auditService := new PolicyAuditService();
    }

    /**
     * The strictest verdict over all of the tenant's rules in scope, with those rules' answers
     * by falling priority, and one audit entry and one event for each. Throws (None) exactly when
     * one of the tenant's patterns does not compile, and then records nothing.
     */
    method Evaluate(tenantId: string, context: PolicyContext, correlationId: string, clock: Clock)
      returns (r: Option<PolicyVerdict>)
      modifies auditService
      ensures r.Some? <==> Compiles(ruleRepository.Rules(tenantId), context.actionType)
      ensures r.None? ==> auditService.entries == old(auditService.entries) && auditService.events == old(auditService.events)
      ensures r.Some? ==> Decides(ruleRepository.Rules(tenantId), context, clock, r.value)
      ensures r.Some? ==>
        Audited(old(auditService.entries), auditService.entries, r.value.matchedPolicies, context.actionType, correlationId, tenantId)
      ensures r.Some? ==>
        Announced(old(auditService.events), auditService.events, ruleRepository.Rules(tenantId), r.value,
                  context.actionType, correlationId, tenantId)
    {
      var found := ruleRepository.FindByActionType(tenantId, context.actionType);
      if found.None? {
        return None;
      }
      var enabledRules := EnabledOnly(found.value);
      ghost var rules := ruleRepository.Rules(tenantId);
      EnabledMatching(rules, context.actionType);
      EligibleElements(rules, context, clock);
      PrefilterLosesNothing(rules, context, clock);
      DecisionDecides(rules, context, clock);
      EntriesAudit(auditService.entries, Decision(rules, context, clock).matchedPolicies, context.actionType, correlationId, tenantId);
      EventsAnnounce(auditService.events, rules, Decision(rules, context, clock), context.actionType, correlationId, tenantId);
      hide Decides, Audited, Announced, AnyEligible, EvaluateRule, EnabledOnly, EligibleOnly, SortByPriority;
      if |enabledRules| == 0 {
        return Some(PolicyVerdict(Allow, []));
      }
      var sorted := SortByPriority(enabledRules);
      var matchedPolicies := RecordApplicable(sorted, context, correlationId, tenantId, clock);
      var finalVerdict := Arbitrate(matchedPolicies);
      auditService.Emit(PolicyDecided(finalVerdict, context.actionType, |matchedPolicies|, correlationId, tenantId));
      return Some(PolicyVerdict(finalVerdict, matchedPolicies));
    }

    /** The loop over the sorted rules: evaluate, collect the applicable ones, audit each. */
    method RecordApplicable(sorted: seq<PolicyRule>, context: PolicyContext, correlationId: string, tenantId: string, clock: Clock)
      returns (matchedPolicies: seq<RuleEvaluation>)
      requires forall r :: r in sorted ==> EvaluateRule(r, context, clock(r.id)).Some?
      modifies auditService
      ensures matchedPolicies == Evaluations(sorted, context, clock)
      ensures auditService.entries ==
        old(auditService.entries) + EntriesFor(matchedPolicies, context.actionType, correlationId, tenantId)
      ensures auditService.events ==
        old(auditService.events) + EventsFor(matchedPolicies, context.actionType, correlationId, tenantId)
    {
      matchedPolicies := [];
      var i := 0;
      while i < |sorted|
        invariant 0 <= i <= |sorted|
        invariant matchedPolicies == Evaluations(sorted[..i], context, clock)
        invariant auditService.entries ==
          old(auditService.entries) + EntriesFor(matchedPolicies, context.actionType, correlationId, tenantId)
        invariant auditService.events ==
          old(auditService.events) + EventsFor(matchedPolicies, context.actionType, correlationId, tenantId)
      {
        var evaluation := EvaluateRule(sorted[i], context, clock(sorted[i].id)).value;
        CollectSnoc(AppliedIn(context, clock), sorted[..i], sorted[i]);
        assert sorted[..i + 1] == sorted[..i] + [sorted[i]];
        i := i + 1;
        if !evaluation.applies {
          continue;
        }
        EntriesSnoc(matchedPolicies, evaluation, context.actionType, correlationId, tenantId);
        matchedPolicies := matchedPolicies + [evaluation];
        auditService.Record(EntryFor(evaluation, context.actionType, correlationId, tenantId));
      }
      assert sorted[..i] == sorted;
    }
  }
}
