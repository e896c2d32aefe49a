/**
 * The decision pipeline: quality gate, policy, route, abort conditions, compiled rules and
 * execution, with evidence for every step. What the host supplies (templates, rule engines,
 * models, clocks) is a world of values and functions; errors they throw are values too.
 */
module DecisionRunners {
  import opened Utf16
  import opened Wrappers
  import opened Entries
  import opened CanonicalJson
  import opened ObjectGraph
  import opened EvidenceChains
  import opened EvidenceRecording
  import PolicyDecision

  type Verdict = PolicyDecision.Verdict

  // ---------------------------------------------------------------------- what the host supplies

  datatype GateStatus = Pass | Warn | Fail

  datatype QualityGate = QualityGate(status: GateStatus, failedEntities: seq<Text>, message: Text)

  datatype MatchedPolicy = MatchedPolicy(ruleId: Text, ruleName: Text, verdict: Verdict, reason: Text)

  datatype PolicyVerdict = PolicyVerdict(verdict: Verdict, matchedPolicies: seq<MatchedPolicy>)

  /** A deterministic candidate; its decision is absent when the extractor made none. */
  datatype Candidate<R> = Candidate(decision: Option<R>, evidence: Payload)

  datatype Route<R> = Route(routeClass: Text, skipModelCall: bool, candidate: Option<Candidate<R>>, reason: Text)

  datatype FlowOutcome = Passed | Blocked | Skipped

  /** What the compiled rules said, and the evidence steps they recorded. */
  datatype Enforcement = Enforcement(outcome: FlowOutcome, explanation: Text, steps: seq<Step>)

  datatype PatternResult<R> = PatternResult(output: R, safeBlock: bool, reason: Text, evidence: Payload)

  datatype Mode = Enforce | Observe

  type Message = Text

  /** Everything outside the runner; Err is an exception with its message. */
  datatype World<!I, !R, !O> = World(
    templateId: Text,
    version: Text,
    surfaceId: Text,
    actionType: Text,
    mode: Mode,
    gate: Result<QualityGate, Message>,
    policy: Result<PolicyVerdict, Message>,
    routesLoaded: bool,
    resolveRoute: Result<Option<Route<R>>, Message>,
    enforcementFlow: Option<Result<Enforcement, Message>>,
    modelGateway: bool,
    inputs: Result<I, Message>,
    inputData: I -> Payload,
    buildPrompt: I -> Result<Text, Message>,
    resolveSurface: Text -> Result<PatternResult<R>, Message>,
    evaluate: I -> Result<O, Message>,
    parseOutput: R -> Result<O, Message>,
    serialMessage: SerialError -> Message)

  // ---------------------------------------------------------------------- abort conditions

  datatype AbortCondition = PolicyDenied | QualityGateFailed | ModelUnavailable | NoRoute

  predicate Hard(a: AbortCondition) {
    a.PolicyDenied? || a.QualityGateFailed?
  }

  /** Each condition is listed exactly when it holds, at most once and in this order. */
  method CheckAbortConditions(policyVerdict: Verdict, routeResolved: bool, modelRequired: bool, modelAvailable: bool,
                              gate: GateStatus)
    returns (conditions: seq<AbortCondition>)
    ensures conditions == AbortsFor(policyVerdict, routeResolved, modelRequired, modelAvailable, gate)
  {
    conditions := [];
    if policyVerdict == PolicyDecision.Deny {
      conditions := conditions + [PolicyDenied];
    }
    if gate == Fail {
      conditions := conditions + [QualityGateFailed];
    }
    if modelRequired && !modelAvailable {
      conditions := conditions + [ModelUnavailable];
    }
    if !routeResolved {
      conditions := conditions + [NoRoute];
    }
  }

  function When(holds: bool, a: AbortCondition): seq<AbortCondition> {
    if holds then [a] else []
  }

  function AbortsFor(policyVerdict: Verdict, routeResolved: bool, modelRequired: bool, modelAvailable: bool, gate: GateStatus):
      seq<AbortCondition> {
    When(policyVerdict == PolicyDecision.Deny, PolicyDenied)
    + When(gate == Fail, QualityGateFailed)
    + When(modelRequired && !modelAvailable, ModelUnavailable)
    + When(!routeResolved, NoRoute)
  }

  predicate HasHardAbort(conditions: seq<AbortCondition>) {
    exists i :: 0 <= i < |conditions| && Hard(conditions[i])
  }

  predicate HasSoftAbort(conditions: seq<AbortCondition>) {
    !HasHardAbort(conditions) && exists i :: 0 <= i < |conditions| && !Hard(conditions[i])
  }

  /** The order of the checks: policy, quality gate, model, route. */
  predicate CheckedBefore(a: AbortCondition, b: AbortCondition) {
    match a
    case PolicyDenied => b != PolicyDenied
    case QualityGateFailed => b == ModelUnavailable || b == NoRoute
    case ModelUnavailable => b == NoRoute
    case NoRoute => false
  }

  lemma AbortOrder(denied: bool, failed: bool, lacksModel: bool, lacksRoute: bool)
    ensures var cs := When(denied, PolicyDenied) + When(failed, QualityGateFailed) + When(lacksModel, ModelUnavailable) + When(lacksRoute, NoRoute);
      forall i, j :: 0 <= i < j < |cs| ==> CheckedBefore(cs[i], cs[j])
  {
  }

  /** The listed conditions are exactly those that hold, in the order of the checks. */
  lemma AbortMembers(v: Verdict, routeResolved: bool, modelRequired: bool, modelAvailable: bool, gate: GateStatus)
    ensures var cs := AbortsFor(v, routeResolved, modelRequired, modelAvailable, gate);
      && (PolicyDenied in cs <==> v == PolicyDecision.Deny)
      && (QualityGateFailed in cs <==> gate == Fail)
      && (ModelUnavailable in cs <==> modelRequired && !modelAvailable)
      && (NoRoute in cs <==> !routeResolved)
      && (HasHardAbort(cs) <==> v == PolicyDecision.Deny || gate == Fail)
      && (!HasHardAbort(cs) ==> (HasSoftAbort(cs) <==> cs != []))
      && forall i, j :: 0 <= i < j < |cs| ==> CheckedBefore(cs[i], cs[j])
  {
    AbortOrder(v == PolicyDecision.Deny, gate == Fail, modelRequired && !modelAvailable, !routeResolved);
    hide CheckedBefore;
    var cs := AbortsFor(v, routeResolved, modelRequired, modelAvailable, gate);
    if v == PolicyDecision.Deny {
      assert Hard(cs[0]);
    } else if gate == Fail {
      assert Hard(cs[0]);
    }
  }

  // ---------------------------------------------------------------------- facts

  /** What the evidence steps of a run state. */
  datatype Fact =
    | Initiated(templateId: Text, version: Text, surfaceId: Text, actionType: Text)
    | GateChecked(gate: QualityGate)
    | PolicyEvaluated(effective: Verdict, observed: Verdict, mode: Mode, matchedPolicies: seq<MatchedPolicy>)
    | RouteResolved(routeClass: Text, skipModelCall: bool, reason: Text)
    | RuleEvidence(step: Step)
    | InputsGathered(inputHash: Text)
    | CandidateUsed(evidence: GoodJson)
    | PatternExecuted(evidence: GoodJson)
    | ExecutionFailed(error: Message)
    | Finalized(verdict: DecisionVerdict, explanation: Explanation)

  // ---------------------------------------------------------------------- outcomes

  datatype LogStatus = StatusGenerated | StatusBlocked | StatusPending | StatusFailed

  function VerdictToStatus(v: DecisionVerdict): LogStatus {
    match v
    case Completed => StatusGenerated
    case BlockedVerdict => StatusBlocked
    case SafeBlock => StatusBlocked
    case ApprovalRequired => StatusPending
    case Failed => StatusFailed
  }

  /** Why a run ended as it did. */
  datatype Explanation =
    | PolicyDeniedFor(reasons: seq<Text>)
    | ApprovalRequiredFor(reasons: seq<Text>)
    | QualityGateFailedFor(message: Text)
    | CompiledRules(text: Text)
    | SafeBlockFor(conditions: seq<AbortCondition>)
    | PatternSafeBlocked(reason: Text)
    | ExecutionError(message: Message)
    | CompletedSuccessfully

  function PolicyReasons(p: PolicyVerdict): seq<Text> {
    seq(|p.matchedPolicies|, i requires 0 <= i < |p.matchedPolicies| => p.matchedPolicies[i].reason)
  }

  /** How a run ends: its verdict, output and explanation, and the facts recorded until then. */
  datatype Ending<O> = Ending(verdict: DecisionVerdict, output: Option<O>, explanation: Explanation, facts: seq<Fact>)

  function Failure<O>(message: Message, facts: seq<Fact>): Ending<O> {
    Ending(Failed, None, ExecutionError(message), facts + [ExecutionFailed(message)])
  }

  function Completion<O>(output: O, facts: seq<Fact>): Ending<O> {
    Ending(Completed, Some(output), CompletedSuccessfully, facts)
  }

  /** In observe mode a verdict that would block is shadowed to allow. */
  function Effective(mode: Mode, observed: Verdict): Verdict {
    if mode == Observe && observed != PolicyDecision.Allow then PolicyDecision.Allow else observed
  }

  /** The candidate whose decision is used without asking a model. */
  function Deterministic<R>(route: Option<Route<R>>): Option<Candidate<R>> {
    if route.Some? && route.value.skipModelCall && route.value.candidate.Some? && route.value.candidate.value.decision.Some? then
      route.value.candidate
    else None
  }

  function DeterministicEnding<I, R, O>(w: World<I, R, O>, c: Candidate<R>, facts: seq<Fact>): Ending<O>
    requires c.decision.Some?
  {
    match w.parseOutput(c.decision.value)
    case Err(m) => Failure(m, facts)
    case Ok(output) =>
      match c.evidence
      case Err(e) => Failure(w.serialMessage(e), facts)
      case Ok(v) => Completion(output, facts + [CandidateUsed(v)])
  }

  function PatternEnding<I, R, O>(w: World<I, R, O>, input: I, facts: seq<Fact>): Ending<O> {
    match w.buildPrompt(input)
    case Err(m) => Failure(m, facts)
    case Ok(prompt) =>
      match w.resolveSurface(prompt)
      case Err(m) => Failure(m, facts)
      case Ok(result) =>
        match result.evidence
        case Err(e) => Failure(w.serialMessage(e), facts)
        case Ok(v) =>
          var facts' := facts + [PatternExecuted(v)];
          if result.safeBlock then Ending(SafeBlock, None, PatternSafeBlocked(result.reason), facts')
          else
            match w.parseOutput(result.output)
            case Err(m) => Failure(m, facts')
            case Ok(output) => Completion(output, facts')
  }

  /** hashCanonicalJson, as the runner uses it on the inputs. */
  type Hashing = GoodJson -> Text

  function RuleFacts(steps: seq<Step>): (fs: seq<Fact>)
    ensures |fs| == |steps|
  {
    seq(|steps|, i requires 0 <= i < |steps| => RuleEvidence(steps[i]))
  }

  /** Gathering inputs and executing: a usable candidate first, else the model, else the template itself. */
  function Execution<I, R, O>(hash: Hashing, w: World<I, R, O>, route: Option<Route<R>>, before: seq<Fact>): Ending<O> {
    match w.inputs
    case Err(m) => Failure(m, before)
    case Ok(input) =>
      match w.inputData(input)
      case Err(e) => Failure(w.serialMessage(e), before)
      case Ok(v) =>
        var facts := before + [InputsGathered(hash(v))];
        var candidate := Deterministic(route);
        if candidate.Some? then DeterministicEnding(w, candidate.value, facts)
        else if w.modelGateway then PatternEnding(w, input, facts)
        else
          match w.evaluate(input)
          case Err(m) => Failure(m, facts)
          case Ok(output) => Completion(output, facts)
  }

  /** What the first three stages found. */
  datatype Front<R> = Front(gate: QualityGate, policy: PolicyVerdict, route: Option<Route<R>>)

  function FrontOf<I, R, O>(w: World<I, R, O>): Result<Front<R>, Message> {
    match (w.gate, w.policy)
    case (Err(m), _) => Err(m)
    case (Ok(_), Err(m)) => Err(m)
    case (Ok(gate), Ok(policy)) =>
      if !w.routesLoaded then Ok(Front(gate, policy, None))
      else
        match w.resolveRoute
        case Err(m) => Err(m)
        case Ok(route) => Ok(Front(gate, policy, route))
  }

  function RouteFacts<R>(route: Option<Route<R>>): seq<Fact> {
    if route.Some? then [RouteResolved(route.value.routeClass, route.value.skipModelCall, route.value.reason)] else []
  }

  function FrontFacts<I, R, O>(w: World<I, R, O>, f: Front<R>): seq<Fact> {
    [Initiated(w.templateId, w.version, w.surfaceId, w.actionType), GateChecked(f.gate),
     PolicyEvaluated(Effective(w.mode, f.policy.verdict), f.policy.verdict, w.mode, f.policy.matchedPolicies)]
    + RouteFacts(f.route)
  }

  function Aborts<I, R, O>(w: World<I, R, O>, f: Front<R>): seq<AbortCondition> {
    AbortsFor(Effective(w.mode, f.policy.verdict), f.route.Some? || !w.routesLoaded,
              f.route.Some? && !f.route.value.skipModelCall, w.modelGateway, f.gate.status)
  }

  /** After the compiled rules: the soft aborts, and execution. */
  function AfterEnforcement<I, R, O>(hash: Hashing, w: World<I, R, O>, aborts: seq<AbortCondition>, route: Option<Route<R>>,
                                     facts: seq<Fact>): Ending<O> {
    if HasSoftAbort(aborts) then Ending(SafeBlock, None, SafeBlockFor(aborts), facts)
    else Execution(hash, w, route, facts)
  }

  /** After the abort check: the compiled rules first. */
  function EnforcedEnding<I, R, O>(hash: Hashing, w: World<I, R, O>, aborts: seq<AbortCondition>, route: Option<Route<R>>,
                                   facts: seq<Fact>): Result<Ending<O>, Message> {
    match w.enforcementFlow
    case Some(Err(m)) => Err(m)
    case Some(Ok(e)) =>
      if e.outcome == Blocked then Ok(Ending(BlockedVerdict, None, CompiledRules(e.explanation), facts + RuleFacts(e.steps)))
      else Ok(AfterEnforcement(hash, w, aborts, route, facts + RuleFacts(e.steps)))
    case None => Ok(AfterEnforcement(hash, w, aborts, route, facts))
  }

  /** How the run ends once the first stages are through; Err when it throws to the caller. */
  function EndingOf<I, R, O>(hash: Hashing, w: World<I, R, O>, f: Front<R>): Result<Ending<O>, Message> {
    var verdict, facts := Effective(w.mode, f.policy.verdict), FrontFacts(w, f);
    if verdict == PolicyDecision.Deny then
      Ok(Ending(BlockedVerdict, None, PolicyDeniedFor(PolicyReasons(f.policy)), facts))
    else if verdict == PolicyDecision.ApproveRequired then
      Ok(Ending(ApprovalRequired, None, ApprovalRequiredFor(PolicyReasons(f.policy)), facts))
    else if f.gate.status == Fail then
      Ok(Ending(BlockedVerdict, None, QualityGateFailedFor(f.gate.message), facts))
    else EnforcedEnding(hash, w, Aborts(w, f), f.route, facts)
  }

  datatype Finish<R, O> = Finish(front: Front<R>, ending: Ending<O>)

  /** The whole run; Err when it throws to the caller. */
  function RunOf<I, R, O>(hash: Hashing, w: World<I, R, O>): Result<Finish<R, O>, Message> {
    match FrontOf(w)
    case Err(m) => Err(m)
    case Ok(f) =>
      match EndingOf(hash, w, f)
      case Err(m) => Err(m)
      case Ok(e) => Ok(Finish(f, e))
  }

  /** All facts of a run that ends. */
  function Trail<O>(e: Ending<O>): seq<Fact> {
    e.facts + [Finalized(e.verdict, e.explanation)]
  }
}
