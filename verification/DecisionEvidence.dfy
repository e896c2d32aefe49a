/** The evidence step each fact of a decision run is written as, and the digest that sums a run up. */
module DecisionEvidence {
  import opened Utf16
  import opened Wrappers
  import opened Entries
  import opened CanonicalJson
  import opened JsonGrammar
  import opened EvidenceChains
  import opened EvidenceRecording
  import opened DecisionRunners

  function VerdictText(v: Verdict): Text {
    match v
    case Allow => Lit("allow")
    case ApproveRequired => Lit("approve_required")
    case Deny => Lit("deny")
  }

  function JsonRecord(fields: seq<Entry<Json>>): GoodJson
    requires DistinctKeys(fields) && forall i :: 0 <= i < |fields| ==> WellKeyed(fields[i].val)
  {
    Obj(fields)
  }

  function JsonList(items: seq<Json>): GoodJson
    requires forall i :: 0 <= i < |items| ==> WellKeyed(items[i])
  {
    Arr(items)
  }

  function TextArray(ts: seq<Text>): GoodJson {
    JsonList(seq(|ts|, i requires 0 <= i < |ts| => Str(ts[i])))
  }

  function InitiatedStep(templateId: Text, version: Text, surfaceId: Text, actionType: Text): Step {
    assert |Lit("templateId")| == 10 && |Lit("version")| == 7 && |Lit("surfaceId")| == 9 && |Lit("actionType")| == 10;
    assert Lit("templateId")[0] != Lit("actionType")[0];
    Step(Lit("decision_initiated"),
         JsonRecord([Entry(Lit("templateId"), Str(templateId)), Entry(Lit("version"), Str(version)),
                     Entry(Lit("surfaceId"), Str(surfaceId)), Entry(Lit("actionType"), Str(actionType))]))
  }

  function GateText(s: GateStatus): Text {
    match s
    case Pass => Lit("pass")
    case Warn => Lit("warn")
    case Fail => Lit("fail")
  }

  function GateStep(g: QualityGate): Step {
    assert |Lit("status")| == 6 && |Lit("failedEntities")| == 14 && |Lit("message")| == 7;
    Step(Lit("quality_gate_checked"),
         JsonRecord([Entry(Lit("status"), Str(GateText(g.status))),
                 Entry(Lit("failedEntities"), TextArray(g.failedEntities)), Entry(Lit("message"), Str(g.message))]))
  }

  function MatchedJson(m: MatchedPolicy): GoodJson {
    assert |Lit("ruleId")| == 6 && |Lit("ruleName")| == 8 && |Lit("verdict")| == 7 && |Lit("reason")| == 6;
    assert Lit("ruleId")[1] != Lit("reason")[1];
    JsonRecord([Entry(Lit("ruleId"), Str(m.ruleId)), Entry(Lit("ruleName"), Str(m.ruleName)),
            Entry(Lit("verdict"), Str(VerdictText(m.verdict))), Entry(Lit("reason"), Str(m.reason))])
  }

  function MatchedArray(ms: seq<MatchedPolicy>): GoodJson {
    JsonList(seq(|ms|, i requires 0 <= i < |ms| => MatchedJson(ms[i])))
  }

  function ModeText(m: Mode): Text {
    if m == Enforce then Lit("enforce") else Lit("observe")
  }

  function PolicyStep(effective: Verdict, observed: Verdict, mode: Mode, matched: seq<MatchedPolicy>): Step {
    assert |Lit("verdict")| == 7 && |Lit("observedVerdict")| == |Lit("enforcementMode")| == |Lit("matchedPolicies")| == 15;
    assert Lit("observedVerdict")[0] != Lit("enforcementMode")[0] && Lit("observedVerdict")[0] != Lit("matchedPolicies")[0];
    assert Lit("enforcementMode")[0] != Lit("matchedPolicies")[0];
    Step(Lit("policy_evaluated"),
         JsonRecord([Entry(Lit("verdict"), Str(VerdictText(effective))), Entry(Lit("observedVerdict"), Str(VerdictText(observed))),
                 Entry(Lit("enforcementMode"), Str(ModeText(mode))), Entry(Lit("matchedPolicies"), MatchedArray(matched))]))
  }

  function RouteStep(routeClass: Text, skipModelCall: bool, reason: Text): Step {
    assert |Lit("routeClass")| == 10 && |Lit("skipModelCall")| == 13 && |Lit("reason")| == 6;
    Step(Lit("route_resolved"),
         JsonRecord([Entry(Lit("routeClass"), Str(routeClass)), Entry(Lit("skipModelCall"), Bool(skipModelCall)),
                     Entry(Lit("reason"), Str(reason))]))
  }

  function FinalStep(verdict: DecisionVerdict, explanation: Text): Step {
    assert |Lit("verdict")| == 7 && |Lit("explanation")| == 11;
    Step(Lit("decision_finalized"),
         JsonRecord([Entry(Lit("verdict"), Str(DecisionText(verdict))), Entry(Lit("explanation"), Str(explanation))]))
  }

  function DecisionText(v: DecisionVerdict): Text {
    match v
    case Completed => Lit("completed")
    case BlockedVerdict => Lit("blocked")
    case ApprovalRequired => Lit("approval_required")
    case SafeBlock => Lit("safe_block")
    case Failed => Lit("failed")
  }

  // An em dash between spaces.
  const DASH: Text := [32, 0x2014, 32]

  function ReasonOf(a: AbortCondition): Text {
    match a
    case PolicyDenied => Lit("Policy denied this action")
    case QualityGateFailed => Lit("Quality gate failed") + DASH + Lit("required entities below threshold")
    case ModelUnavailable => Lit("Model gateway required but not available") + DASH + Lit("safe block")
    case NoRoute => Lit("No route resolved for surface") + DASH + Lit("safe block")
  }

  function JoinReasons(reasons: seq<Text>): Text {
    if reasons == [] then []
    else if |reasons| == 1 then reasons[0]
    else reasons[0] + Lit("; ") + JoinReasons(reasons[1..])
  }

  function ExplanationText(e: Explanation): Text {
    match e
    case PolicyDeniedFor(reasons) => Lit("Policy denied: ") + JoinReasons(reasons)
    case ApprovalRequiredFor(reasons) => Lit("Approval required: ") + JoinReasons(reasons)
    case QualityGateFailedFor(message) => Lit("Quality gate failed: ") + message
    case CompiledRules(text) => text
    case SafeBlockFor(cs) => Lit("Safe block: ") + JoinReasons(seq(|cs|, i requires 0 <= i < |cs| => ReasonOf(cs[i])))
    case PatternSafeBlocked(reason) => Lit("Pattern execution safe-blocked: ") + reason
    case ExecutionError(message) => Lit("Execution error: ") + message
    case CompletedSuccessfully => Lit("Decision completed successfully")
  }

  /** The evidence step a fact is written as. */
  function StepOf(f: Fact): Step {
    match f
    case Initiated(templateId, version, surfaceId, actionType) => InitiatedStep(templateId, version, surfaceId, actionType)
    case GateChecked(gate) => GateStep(gate)
    case PolicyEvaluated(effective, observed, mode, matched) => PolicyStep(effective, observed, mode, matched)
    case RouteResolved(routeClass, skipModelCall, reason) => RouteStep(routeClass, skipModelCall, reason)
    case RuleEvidence(step) => step
    case InputsGathered(inputHash) => Step(Lit("inputs_gathered"), JsonRecord([Entry(Lit("inputHash"), Str(inputHash))]))
    case CandidateUsed(evidence) => Step(Lit("deterministic_resolution"), evidence)
    case PatternExecuted(evidence) => Step(Lit("pattern_executed"), evidence)
    case ExecutionFailed(error) => Step(Lit("execution_failed"), JsonRecord([Entry(Lit("error"), Str(error))]))
    case Finalized(verdict, explanation) => FinalStep(verdict, ExplanationText(explanation))
  }

  /** The object whose hash sums a run up. */
  function SummaryJson(stamps: Stamps, templateId: Text, verdict: DecisionVerdict, headHash: Option<Text>): GoodJson {
    assert |Lit("tenantId")| == 8 && |Lit("correlationId")| == 13 && |Lit("templateId")| == 10;
    assert |Lit("verdict")| == 7 && |Lit("evidenceHeadHash")| == 16;
    JsonRecord([Entry(Lit("tenantId"), Str(stamps.tenantId)), Entry(Lit("correlationId"), Str(stamps.correlationId)),
                Entry(Lit("templateId"), Str(templateId)), Entry(Lit("verdict"), Str(DecisionText(verdict))),
                Entry(Lit("evidenceHeadHash"), NullOr(headHash))])
  }

  // ---------------------------------------------------------------------- what the steps say

  /** The object with those names and values. */
  predicate Fields(v: Json, names: seq<string>, values: seq<Json>) {
    && v.Obj? && |v.fields| == |names| == |values|
    && forall i :: 0 <= i < |names| ==> v.fields[i].key == Lit(names[i]) && v.fields[i].val == values[i]
  }

  predicate Named(t: Text, name: string) {
    t == Lit(name)
  }

  predicate NamesVerdict(t: Text, v: Verdict) {
    Named(t, if v == PolicyDecision.Allow then "allow" else if v == PolicyDecision.Deny then "deny" else "approve_required")
  }

  /** The list of texts. */
  predicate Lists(v: Json, ts: seq<Text>) {
    v.Arr? && |v.items| == |ts| && forall i :: 0 <= i < |ts| ==> v.items[i] == Str(ts[i])
  }

  predicate ListsMatches(v: Json, ms: seq<MatchedPolicy>) {
    && v.Arr? && |v.items| == |ms|
    && forall i :: 0 <= i < |ms| ==> ShowsMatch(v.items[i], ms[i])
  }

  predicate ShowsMatch(v: Json, m: MatchedPolicy) {
    && v.Obj? && |v.fields| == 4 && v.fields[2].val.Str? && NamesVerdict(v.fields[2].val.s, m.verdict)
    && Fields(v, ["ruleId", "ruleName", "verdict", "reason"], [Str(m.ruleId), Str(m.ruleName), v.fields[2].val, Str(m.reason)])
  }

  /** The policy step names both verdicts, the mode and every match. */
  predicate ShowsPolicy(v: Json, effective: Verdict, observed: Verdict, mode: Mode, matched: seq<MatchedPolicy>) {
    && v.Obj? && |v.fields| == 4
    && var values := [v.fields[0].val, v.fields[1].val, v.fields[2].val, v.fields[3].val];
       && Fields(v, ["verdict", "observedVerdict", "enforcementMode", "matchedPolicies"], values)
       && values[0].Str? && NamesVerdict(values[0].s, effective) && values[1].Str? && NamesVerdict(values[1].s, observed)
       && values[2] == Str(Lit(if mode == Observe then "observe" else "enforce")) && ListsMatches(values[3], matched)
  }

  predicate ShowsGate(v: Json, g: QualityGate) {
    && v.Obj? && |v.fields| == 3 && Lists(v.fields[1].val, g.failedEntities)
    && Fields(v, ["status", "failedEntities", "message"],
              [Str(Lit(if g.status == Pass then "pass" else if g.status == Warn then "warn" else "fail")),
               v.fields[1].val, Str(g.message)])
  }

  /** Parts with a semicolon and a space between any two. */
  ghost predicate Joined(t: Text, parts: seq<Text>)
    decreases |parts|
  {
    if parts == [] then t == []
    else if |parts| == 1 then t == parts[0]
    else exists u :: Joined(u, parts[..|parts| - 1]) && t == u + [59, 32] + parts[|parts| - 1]
  }

  /** The names of the decision's verdicts. */
  predicate NamesDecision(t: Text, v: DecisionVerdict) {
    match v
    case Completed => Named(t, "completed")
    case BlockedVerdict => Named(t, "blocked")
    case ApprovalRequired => Named(t, "approval_required")
    case SafeBlock => Named(t, "safe_block")
    case Failed => Named(t, "failed")
  }

  /** The condition in words; the dash is an em dash. */
  ghost predicate Words(t: Text, a: AbortCondition) {
    match a
    case PolicyDenied => Named(t, "Policy denied this action")
    case QualityGateFailed => Dashed(t, "Quality gate failed", "required entities below threshold")
    case ModelUnavailable => Dashed(t, "Model gateway required but not available", "safe block")
    case NoRoute => Dashed(t, "No route resolved for surface", "safe block")
  }

  ghost predicate Dashed(t: Text, before: string, after: string) {
    t == Lit(before) + [32, 0x2014, 32] + Lit(after)
  }

  /** The explanation in words. */
  ghost predicate Explains(t: Text, e: Explanation) {
    match e
    case PolicyDeniedFor(reasons) => exists u :: Joined(u, reasons) && t == Lit("Policy denied: ") + u
    case ApprovalRequiredFor(reasons) => exists u :: Joined(u, reasons) && t == Lit("Approval required: ") + u
    case QualityGateFailedFor(message) => t == Lit("Quality gate failed: ") + message
    case CompiledRules(text) => t == text
    case SafeBlockFor(cs) =>
      exists u, words: seq<Text> :: Joined(u, words) && t == Lit("Safe block: ") + u
        && |words| == |cs| && forall i :: 0 <= i < |cs| ==> Words(words[i], cs[i])
    case PatternSafeBlocked(reason) => t == Lit("Pattern execution safe-blocked: ") + reason
    case ExecutionError(message) => t == Lit("Execution error: ") + message
    case CompletedSuccessfully => Named(t, "Decision completed successfully")
  }

  ghost predicate ShowsEnd(v: Json, verdict: DecisionVerdict, e: Explanation) {
    && v.Obj? && |v.fields| == 2 && v.fields[0].val.Str? && v.fields[1].val.Str?
    && Fields(v, ["verdict", "explanation"], [v.fields[0].val, v.fields[1].val])
    && NamesDecision(v.fields[0].val.s, verdict) && Explains(v.fields[1].val.s, e)
  }

  /** What a step shows of its fact. */
  ghost predicate StepShows(s: Step, f: Fact) {
    match f
    case Initiated(templateId, version, surfaceId, actionType) =>
      && Named(s.operationType, "decision_initiated")
      && Fields(s.payload, ["templateId", "version", "surfaceId", "actionType"],
                [Str(templateId), Str(version), Str(surfaceId), Str(actionType)])
    case GateChecked(gate) => Named(s.operationType, "quality_gate_checked") && ShowsGate(s.payload, gate)
    case PolicyEvaluated(effective, observed, mode, matched) =>
      Named(s.operationType, "policy_evaluated") && ShowsPolicy(s.payload, effective, observed, mode, matched)
    case RouteResolved(routeClass, skipModelCall, reason) =>
      && Named(s.operationType, "route_resolved")
      && Fields(s.payload, ["routeClass", "skipModelCall", "reason"], [Str(routeClass), Bool(skipModelCall), Str(reason)])
    case RuleEvidence(step) => s == step
    case InputsGathered(inputHash) => Named(s.operationType, "inputs_gathered") && Fields(s.payload, ["inputHash"], [Str(inputHash)])
    case CandidateUsed(evidence) => Named(s.operationType, "deterministic_resolution") && s.payload == evidence
    case PatternExecuted(evidence) => Named(s.operationType, "pattern_executed") && s.payload == evidence
    case ExecutionFailed(error) => Named(s.operationType, "execution_failed") && Fields(s.payload, ["error"], [Str(error)])
    case Finalized(verdict, explanation) =>
      Named(s.operationType, "decision_finalized") && ShowsEnd(s.payload, verdict, explanation)
  }

  lemma {:induction false} ReasonsJoined(reasons: seq<Text>)
    ensures Joined(JoinReasons(reasons), reasons)
  {
    if |reasons| > 1 {
      var n := |reasons| - 1;
      ReasonsJoined(reasons[..n]);
      JoinLast(reasons[..n], reasons[n]);
      assert reasons == reasons[..n] + [reasons[n]];
    }
  }

  lemma {:induction false} JoinLast(reasons: seq<Text>, last: Text)
    requires reasons != []
    ensures JoinReasons(reasons + [last]) == JoinReasons(reasons) + [59, 32] + last
  {
    assert Lit("; ") == [59, 32];
    var rest := reasons[1..];
    assert (reasons + [last])[1..] == rest + [last];
    if rest == [] {
      assert JoinReasons([last]) == last;
    } else {
      JoinLast(rest, last);
      Assoc(reasons[0] + Lit("; "), JoinReasons(rest), [59, 32]);
      Assoc(reasons[0] + Lit("; "), JoinReasons(rest) + [59, 32], last);
    }
  }

  lemma ReasonWords(a: AbortCondition)
    ensures Words(ReasonOf(a), a)
  {
  }

  lemma ExplanationShows(e: Explanation)
    ensures Explains(ExplanationText(e), e)
  {
    match e
    case PolicyDeniedFor(reasons) => ReasonsJoined(reasons);
    case ApprovalRequiredFor(reasons) => ReasonsJoined(reasons);
    case SafeBlockFor(cs) =>
      var words := seq(|cs|, i requires 0 <= i < |cs| => ReasonOf(cs[i]));
      forall i | 0 <= i < |cs| ensures Words(words[i], cs[i]) {
        ReasonWords(cs[i]);
      }
      ReasonsJoined(words);
    case _ =>
  }

  lemma MatchesShown(ms: seq<MatchedPolicy>)
    ensures ListsMatches(MatchedArray(ms), ms)
  {
    hide Lit;
    forall i | 0 <= i < |ms| ensures ShowsMatch(MatchedArray(ms).items[i], ms[i]) {
      assert MatchedArray(ms).items[i] == MatchedJson(ms[i]);
    }
  }

  lemma PolicyShown(effective: Verdict, observed: Verdict, mode: Mode, matched: seq<MatchedPolicy>)
    ensures StepShows(PolicyStep(effective, observed, mode, matched), PolicyEvaluated(effective, observed, mode, matched))
  {
    MatchesShown(matched);
    hide Lit, MatchedArray, ListsMatches;
  }

  lemma GateShown(gate: QualityGate)
    ensures StepShows(GateStep(gate), GateChecked(gate))
  {
    hide Lit;
  }

  lemma EndShown(verdict: DecisionVerdict, e: Explanation)
    ensures StepShows(FinalStep(verdict, ExplanationText(e)), Finalized(verdict, e))
  {
    ExplanationShows(e);
    hide Lit, Explains, ExplanationText;
  }

  /** Every fact is written as a step that shows it. */
  lemma StepOfShows(f: Fact)
    ensures StepShows(StepOf(f), f)
  {
    match f
    case PolicyEvaluated(effective, observed, mode, matched) => PolicyShown(effective, observed, mode, matched);
    case GateChecked(gate) => GateShown(gate);
    case Finalized(verdict, explanation) => EndShown(verdict, explanation);
    case _ =>
      hide Lit, PolicyStep, GateStep, FinalStep, ShowsPolicy, ShowsGate, ShowsEnd;
  }

  lemma SummaryNames()
    ensures Less(Lit("correlationId"), Lit("evidenceHeadHash")) && Less(Lit("evidenceHeadHash"), Lit("templateId"))
    ensures Less(Lit("templateId"), Lit("tenantId")) && Less(Lit("tenantId"), Lit("verdict"))
    ensures PlainName("correlationId") && PlainName("evidenceHeadHash") && PlainName("templateId")
    ensures PlainName("tenantId") && PlainName("verdict")
  {
    NamesOrdered("correlationId", "evidenceHeadHash", 0);
    NamesOrdered("evidenceHeadHash", "templateId", 0);
    NamesOrdered("templateId", "tenantId", 2);
    NamesOrdered("tenantId", "verdict", 0);
  }

  /** The text whose digest sums a run up, its names in order. */
  ghost predicate SummaryText(t: Text, stamps: Stamps, templateId: Text, verdict: DecisionVerdict, headHash: Option<Text>) {
    exists name :: NamesDecision(name, verdict)
      && t == Braced([Member("correlationId", Quote(stamps.correlationId)), Member("evidenceHeadHash", NullOrText(headHash)),
                      Member("templateId", Quote(templateId)), Member("tenantId", Quote(stamps.tenantId)),
                      Member("verdict", Quote(name))])
  }

  lemma SummaryPrinted(stamps: Stamps, templateId: Text, verdict: DecisionVerdict, headHash: Option<Text>)
    ensures SummaryText(Print(SummaryJson(stamps, templateId, verdict, headHash)), stamps, templateId, verdict, headHash)
  {
    hide Less, PlainName, Lit, Member, Braced, Quote;
    SummaryNames();
    var name := DecisionText(verdict);
    var names := ["correlationId", "evidenceHeadHash", "templateId", "tenantId", "verdict"];
    var values := [Str(stamps.correlationId), NullOr(headHash), Str(templateId), Str(stamps.tenantId), Str(name)];
    var fs := [Entry(Lit("correlationId"), Str(stamps.correlationId)), Entry(Lit("evidenceHeadHash"), NullOr(headHash)),
               Entry(Lit("templateId"), Str(templateId)), Entry(Lit("tenantId"), Str(stamps.tenantId)),
               Entry(Lit("verdict"), Str(name))];
    NeighboursAscend(fs);
    ObjectText(SummaryJson(stamps, templateId, verdict, headHash).fields, fs, names);
    assert Values(fs) == values;
    SummaryMembers(values, stamps, templateId, name, headHash);
  }

  lemma SummaryMembers(values: seq<Json>, stamps: Stamps, templateId: Text, name: Text, headHash: Option<Text>)
    requires values == [Str(stamps.correlationId), NullOr(headHash), Str(templateId), Str(stamps.tenantId), Str(name)]
    ensures MemberTexts(["correlationId", "evidenceHeadHash", "templateId", "tenantId", "verdict"], values) ==
      [Member("correlationId", Quote(stamps.correlationId)), Member("evidenceHeadHash", NullOrText(headHash)),
       Member("templateId", Quote(templateId)), Member("tenantId", Quote(stamps.tenantId)), Member("verdict", Quote(name))]
  {
    hide Quote, Member, Lit;
    assert Print(NullOr(headHash)) == NullOrText(headHash);
  }
}
