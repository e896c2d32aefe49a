/**
 * The outcomes of a decision run as one table over what the host supplies: when it throws and,
 * otherwise, its verdict, output, explanation and recorded facts. The table does not follow the
 * stages of the pipeline, which are proved to come to what it says.
 */
module DecisionTable {
  import opened Utf16
  import opened Wrappers
  import opened EvidenceRecording
  import opened DecisionRunners
  import PolicyDecision

  // ---------------------------------------------------------------------- before execution

  /** The first stages return. */
  ghost predicate Started<I, R, O>(w: World<I, R, O>) {
    w.gate.Ok? && w.policy.Ok? && (w.routesLoaded ==> w.resolveRoute.Ok?)
  }

  ghost predicate Denied<I, R, O>(w: World<I, R, O>) {
    Started(w) && w.mode == Enforce && w.policy.value.verdict == PolicyDecision.Deny
  }

  ghost predicate AsksApproval<I, R, O>(w: World<I, R, O>) {
    Started(w) && w.mode == Enforce && w.policy.value.verdict == PolicyDecision.ApproveRequired
  }

  /** The policy lets the run go on: it allows, or the run only observes it. */
  ghost predicate GoesOn<I, R, O>(w: World<I, R, O>) {
    Started(w) && (w.mode == Observe || w.policy.value.verdict == PolicyDecision.Allow)
  }

  ghost predicate GateFailed<I, R, O>(w: World<I, R, O>) {
    GoesOn(w) && w.gate.value.status == Fail
  }

  ghost predicate RulesBlock<I, R, O>(w: World<I, R, O>) {
    && GoesOn(w) && w.gate.value.status != Fail
    && w.enforcementFlow.Some? && w.enforcementFlow.value.Ok? && w.enforcementFlow.value.value.outcome == Blocked
  }

  ghost predicate RulesPass<I, R, O>(w: World<I, R, O>) {
    && GoesOn(w) && w.gate.value.status != Fail
    && (w.enforcementFlow.Some? ==> w.enforcementFlow.value.Ok? && w.enforcementFlow.value.value.outcome != Blocked)
  }

  ghost predicate HasRoute<I, R, O>(w: World<I, R, O>) {
    w.routesLoaded && w.resolveRoute.Ok? && w.resolveRoute.value.Some?
  }

  /** Routes are configured, but none for the surface. */
  ghost predicate LacksRoute<I, R, O>(w: World<I, R, O>) {
    RulesPass(w) && w.routesLoaded && w.resolveRoute.value.None?
  }

  /** The route asks for a model, and there is no gateway. */
  ghost predicate LacksModel<I, R, O>(w: World<I, R, O>) {
    RulesPass(w) && HasRoute(w) && !w.resolveRoute.value.value.skipModelCall && !w.modelGateway
  }

  ghost predicate Executes<I, R, O>(w: World<I, R, O>) {
    RulesPass(w) && !LacksRoute(w) && !LacksModel(w)
  }

  /** The run throws, with that message. */
  ghost predicate ThrowsWith<I, R, O>(w: World<I, R, O>, m: Message) {
    || w.gate == Err(m)
    || (w.gate.Ok? && w.policy == Err(m))
    || (w.gate.Ok? && w.policy.Ok? && w.routesLoaded && w.resolveRoute == Err(m))
    || (GoesOn(w) && w.gate.value.status != Fail && w.enforcementFlow == Some(Err(m)))
  }

  // ---------------------------------------------------------------------- execution

  /** The inputs are there and can be hashed. */
  ghost predicate Ready<I, R, O>(w: World<I, R, O>) {
    w.inputs.Ok? && w.inputData(w.inputs.value).Ok?
  }

  /** The route spares the model, with a candidate that has a decision. */
  ghost predicate UsesCandidate<I, R, O>(w: World<I, R, O>) {
    && HasRoute(w) && w.resolveRoute.value.value.skipModelCall
    && w.resolveRoute.value.value.candidate.Some? && w.resolveRoute.value.value.candidate.value.decision.Some?
  }

  ghost function CandidateOf<I, R, O>(w: World<I, R, O>): Candidate<R>
    requires UsesCandidate(w)
  {
    w.resolveRoute.value.value.candidate.value
  }

  ghost predicate UsesModel<I, R, O>(w: World<I, R, O>) {
    !UsesCandidate(w) && w.modelGateway
  }

  /** The model is asked and its answer can be recorded. */
  ghost predicate ModelAnswers<I, R, O>(w: World<I, R, O>) {
    && UsesModel(w) && w.inputs.Ok? && w.buildPrompt(w.inputs.value).Ok?
    && w.resolveSurface(w.buildPrompt(w.inputs.value).value).Ok?
    && w.resolveSurface(w.buildPrompt(w.inputs.value).value).value.evidence.Ok?
  }

  ghost function AnswerOf<I, R, O>(w: World<I, R, O>): PatternResult<R>
    requires ModelAnswers(w)
  {
    w.resolveSurface(w.buildPrompt(w.inputs.value).value).value
  }

  /** What is to be parsed parses and can be recorded, or the template evaluates. */
  ghost predicate Succeeds<I, R, O>(w: World<I, R, O>) {
    && Ready(w)
    && if UsesCandidate(w) then w.parseOutput(CandidateOf(w).decision.value).Ok? && CandidateOf(w).evidence.Ok?
       else if w.modelGateway then ModelAnswers(w) && !AnswerOf(w).safeBlock && w.parseOutput(AnswerOf(w).output).Ok?
       else w.evaluate(w.inputs.value).Ok?
  }

  /** That output is the candidate's, the model's or the template's. */
  ghost predicate Outputs<I, R, O>(w: World<I, R, O>, output: O)
    requires Succeeds(w)
  {
    if UsesCandidate(w) then w.parseOutput(CandidateOf(w).decision.value) == Ok(output)
    else if w.modelGateway then w.parseOutput(AnswerOf(w).output) == Ok(output)
    else w.evaluate(w.inputs.value) == Ok(output)
  }

  /** The model's pattern stops the run. */
  ghost predicate PatternStops<I, R, O>(w: World<I, R, O>) {
    Ready(w) && ModelAnswers(w) && AnswerOf(w).safeBlock
  }

  ghost predicate CandidateFails<I, R, O>(w: World<I, R, O>, m: Message)
    requires UsesCandidate(w)
  {
    var parsed, evidence := w.parseOutput(CandidateOf(w).decision.value), CandidateOf(w).evidence;
    parsed == Err(m) || (parsed.Ok? && evidence.Err? && m == w.serialMessage(evidence.error))
  }

  ghost predicate ModelFails<I, R, O>(w: World<I, R, O>, m: Message)
    requires w.inputs.Ok?
  {
    var prompt := w.buildPrompt(w.inputs.value);
    || prompt == Err(m)
    || (prompt.Ok?
        && var result := w.resolveSurface(prompt.value);
           || result == Err(m)
           || (result.Ok? && result.value.evidence.Err? && m == w.serialMessage(result.value.evidence.error))
           || (result.Ok? && result.value.evidence.Ok? && !result.value.safeBlock && w.parseOutput(result.value.output) == Err(m)))
  }

  /** Execution fails, with the message of the first error. */
  ghost predicate FailsWith<I, R, O>(w: World<I, R, O>, m: Message) {
    || w.inputs == Err(m)
    || (w.inputs.Ok? && w.inputData(w.inputs.value).Err? && m == w.serialMessage(w.inputData(w.inputs.value).error))
    || (Ready(w) && UsesCandidate(w) && CandidateFails(w, m))
    || (Ready(w) && UsesModel(w) && ModelFails(w, m))
    || (Ready(w) && !UsesCandidate(w) && !UsesModel(w) && w.evaluate(w.inputs.value) == Err(m))
  }

  // ---------------------------------------------------------------------- facts

  /** The reasons of the matched policies, in order. */
  ghost predicate ReasonsOf(p: PolicyVerdict, reasons: seq<Text>) {
    |reasons| == |p.matchedPolicies| && forall i :: 0 <= i < |reasons| ==> reasons[i] == p.matchedPolicies[i].reason
  }

  /** What every run that starts records first. */
  ghost function Opening<I, R, O>(w: World<I, R, O>): seq<Fact>
    requires Started(w)
  {
    var policy := w.policy.value;
    [Initiated(w.templateId, w.version, w.surfaceId, w.actionType), GateChecked(w.gate.value),
     PolicyEvaluated(if w.mode == Observe then PolicyDecision.Allow else policy.verdict, policy.verdict, w.mode, policy.matchedPolicies)]
    + (if HasRoute(w) then
         var route := w.resolveRoute.value.value; [RouteResolved(route.routeClass, route.skipModelCall, route.reason)]
       else [])
  }

  /** The evidence of the compiled rules, fact by fact. */
  ghost predicate RuleEvidenceOf<I, R, O>(w: World<I, R, O>, facts: seq<Fact>) {
    if w.enforcementFlow.Some? && w.enforcementFlow.value.Ok? then
      var steps := w.enforcementFlow.value.value.steps;
      |facts| == |steps| && forall i :: 0 <= i < |facts| ==> facts[i] == RuleEvidence(steps[i])
    else facts == []
  }

  /** What execution records, an error aside. */
  ghost predicate Recorded<I, R, O>(hash: Hashing, w: World<I, R, O>, facts: seq<Fact>) {
    if !Ready(w) then facts == []
    else
      var gathered := InputsGathered(hash(w.inputData(w.inputs.value).value));
      if UsesCandidate(w) && w.parseOutput(CandidateOf(w).decision.value).Ok? && CandidateOf(w).evidence.Ok? then
        facts == [gathered, CandidateUsed(CandidateOf(w).evidence.value)]
      else if ModelAnswers(w) then facts == [gathered, PatternExecuted(AnswerOf(w).evidence.value)]
      else facts == [gathered]
  }

  // ---------------------------------------------------------------------- the table

  /** When each of the five verdicts is returned. */
  ghost predicate VerdictMeans<I, R, O>(w: World<I, R, O>, verdict: DecisionVerdict) {
    && (verdict == BlockedVerdict <==> Denied(w) || GateFailed(w) || RulesBlock(w))
    && (verdict == ApprovalRequired <==> AsksApproval(w))
    && (verdict == SafeBlock <==> LacksRoute(w) || LacksModel(w) || (Executes(w) && PatternStops(w)))
    && (verdict == Completed <==> Executes(w) && Succeeds(w))
    && (verdict == Failed <==> Executes(w) && !Succeeds(w) && !PatternStops(w))
  }

  /** Only a completed run has an output. */
  ghost predicate OutputMeans<I, R, O>(w: World<I, R, O>, output: Option<O>) {
    if Executes(w) && Succeeds(w) then output.Some? && Outputs(w, output.value) else output == None
  }

  /** Why a run ends as it does. */
  ghost predicate ExplanationMeans<I, R, O>(w: World<I, R, O>, x: Explanation) {
    && (Denied(w) ==> x.PolicyDeniedFor? && ReasonsOf(w.policy.value, x.reasons))
    && (AsksApproval(w) ==> x.ApprovalRequiredFor? && ReasonsOf(w.policy.value, x.reasons))
    && (GateFailed(w) ==> x == QualityGateFailedFor(w.gate.value.message))
    && (RulesBlock(w) ==> x == CompiledRules(w.enforcementFlow.value.value.explanation))
    && (LacksRoute(w) ==> x == SafeBlockFor([NoRoute]))
    && (LacksModel(w) ==> x == SafeBlockFor([ModelUnavailable]))
    && (Executes(w) && Succeeds(w) ==> x == CompletedSuccessfully)
    && (Executes(w) && PatternStops(w) ==> x == PatternSafeBlocked(AnswerOf(w).reason))
    && (Executes(w) && !Succeeds(w) && !PatternStops(w) ==> x.ExecutionError? && FailsWith(w, x.message))
  }

  /** The facts of a run: the opening, the evidence of rules that were run, what execution recorded, and its error. */
  ghost predicate FactsMean<I, R, O>(hash: Hashing, w: World<I, R, O>, x: Explanation, facts: seq<Fact>)
    requires Started(w)
  {
    exists rules, taken, error :: facts == Opening(w) + rules + taken + error
      && (if RulesBlock(w) || RulesPass(w) then RuleEvidenceOf(w, rules) else rules == [])
      && (if Executes(w) then Recorded(hash, w, taken) else taken == [])
      && error == if x.ExecutionError? then [ExecutionFailed(x.message)] else []
  }

  /** The abort conditions are those that hold, in the order of the checks. */
  ghost predicate AbortsMean<I, R, O>(w: World<I, R, O>, cs: seq<AbortCondition>)
    requires Started(w)
  {
    && (PolicyDenied in cs <==> Denied(w))
    && (QualityGateFailed in cs <==> w.gate.value.status == Fail)
    && (ModelUnavailable in cs <==> HasRoute(w) && !w.resolveRoute.value.value.skipModelCall && !w.modelGateway)
    && (NoRoute in cs <==> w.routesLoaded && w.resolveRoute.value.None?)
    && forall i, j :: 0 <= i < j < |cs| ==>
      || (cs[i] == PolicyDenied && cs[j] != PolicyDenied)
      || (cs[i] == QualityGateFailed && (cs[j] == ModelUnavailable || cs[j] == NoRoute))
      || (cs[i] == ModelUnavailable && cs[j] == NoRoute)
  }

  lemma AbortsAre<I, R, O>(w: World<I, R, O>, f: Front<R>)
    requires FrontOf(w) == Ok(f)
    ensures Started(w) && AbortsMean(w, Aborts(w, f))
  {
    AbortMembers(Effective(w.mode, f.policy.verdict), f.route.Some? || !w.routesLoaded,
                 f.route.Some? && !f.route.value.skipModelCall, w.modelGateway, f.gate.status);
    hide AbortsFor;
  }

  ghost predicate EndingMeans<I, R, O>(hash: Hashing, w: World<I, R, O>, e: Ending<O>) {
    && Started(w)
    && VerdictMeans(w, e.verdict) && OutputMeans(w, e.output) && ExplanationMeans(w, e.explanation)
    && FactsMean(hash, w, e.explanation, e.facts)
  }

  // ---------------------------------------------------------------------- the pipeline keeps the table

  lemma OpeningFacts<I, R, O>(w: World<I, R, O>, f: Front<R>)
    requires FrontOf(w) == Ok(f)
    ensures Started(w) && Opening(w) == FrontFacts(w, f)
  {
  }

  lemma WithFacts<I, R, O>(hash: Hashing, w: World<I, R, O>, x: Explanation, facts: seq<Fact>,
                           rules: seq<Fact>, taken: seq<Fact>, error: seq<Fact>)
    requires Started(w) && facts == Opening(w) + rules + taken + error
    requires if RulesBlock(w) || RulesPass(w) then RuleEvidenceOf(w, rules) else rules == []
    requires if Executes(w) then Recorded(hash, w, taken) else taken == []
    requires error == if x.ExecutionError? then [ExecutionFailed(x.message)] else []
    ensures FactsMean(hash, w, x, facts)
  {
  }

  /** Execution comes to what its part of the table says. */
  lemma ExecutionMeans<I, R, O>(hash: Hashing, w: World<I, R, O>, f: Front<R>, before: seq<Fact>) returns (taken: seq<Fact>)
    requires FrontOf(w) == Ok(f)
    ensures Recorded(hash, w, taken)
    ensures var e := Execution(hash, w, f.route, before);
      && (e.verdict == Completed <==> Succeeds(w)) && (e.verdict == SafeBlock <==> PatternStops(w))
      && (e.verdict == Failed <==> !Succeeds(w) && !PatternStops(w))
      && (Succeeds(w) ==> e.output.Some? && Outputs(w, e.output.value) && e.explanation == CompletedSuccessfully)
      && (PatternStops(w) ==> e.output == None && e.explanation == PatternSafeBlocked(AnswerOf(w).reason))
      && (e.verdict == Failed ==> e.output == None && e.explanation.ExecutionError? && FailsWith(w, e.explanation.message))
      && e.facts == before + taken + if e.verdict == Failed then [ExecutionFailed(e.explanation.message)] else []
  {
    taken := [];
    if Ready(w) {
      taken := [InputsGathered(hash(w.inputData(w.inputs.value).value))];
      if UsesCandidate(w) && w.parseOutput(CandidateOf(w).decision.value).Ok? && CandidateOf(w).evidence.Ok? {
        taken := taken + [CandidateUsed(CandidateOf(w).evidence.value)];
      } else if ModelAnswers(w) {
        taken := taken + [PatternExecuted(AnswerOf(w).evidence.value)];
      }
    }
  }

  lemma AbortList<I, R, O>(w: World<I, R, O>, f: Front<R>)
    requires FrontOf(w) == Ok(f) && GoesOn(w) && f.gate.status != Fail
    ensures RulesPass(w) ==> (HasSoftAbort(Aborts(w, f)) <==> LacksRoute(w) || LacksModel(w))
    ensures LacksRoute(w) ==> Aborts(w, f) == [NoRoute]
    ensures LacksModel(w) ==> Aborts(w, f) == [ModelUnavailable]
  {
    AbortMembers(Effective(w.mode, f.policy.verdict), f.route.Some? || !w.routesLoaded,
                 f.route.Some? && !f.route.value.skipModelCall, w.modelGateway, f.gate.status);
  }

  /** After policy and gate: the rules, the soft aborts and execution keep the table. */
  lemma EnforcedMeans<I, R, O>(hash: Hashing, w: World<I, R, O>, f: Front<R>)
    requires FrontOf(w) == Ok(f) && GoesOn(w) && !GateFailed(w)
    ensures match EnforcedEnding(hash, w, Aborts(w, f), f.route, FrontFacts(w, f))
            case Err(m) => ThrowsWith(w, m)
            case Ok(e) => EndingMeans(hash, w, e)
  {
    OpeningFacts(w, f);
    AbortList(w, f);
    var opening := Opening(w);
    var r := EnforcedEnding(hash, w, Aborts(w, f), f.route, opening);
    if r.Ok? {
      var rules := if w.enforcementFlow.Some? then RuleFacts(w.enforcementFlow.value.value.steps) else [];
      assert opening + [] == opening;
      if Executes(w) {
        var taken := ExecutionMeans(hash, w, f, opening + rules);
        var error := if r.value.verdict == Failed then [ExecutionFailed(r.value.explanation.message)] else [];
        WithFacts(hash, w, r.value.explanation, r.value.facts, rules, taken, error);
      } else {
        assert opening + rules + [] + [] == opening + rules;
        WithFacts(hash, w, r.value.explanation, r.value.facts, rules, [], []);
      }
    }
  }

  /** The run throws or ends just as the table says. */
  lemma RunMeans<I, R, O>(hash: Hashing, w: World<I, R, O>)
    ensures match RunOf(hash, w)
            case Err(m) => ThrowsWith(w, m)
            case Ok(run) => EndingMeans(hash, w, run.ending) && forall m :: !ThrowsWith(w, m)
  {
    var front := FrontOf(w);
    if front.Ok? {
      var f := front.value;
      OpeningFacts(w, f);
      if GoesOn(w) && !GateFailed(w) {
        EnforcedMeans(hash, w, f);
      } else {
        assert Opening(w) + [] + [] + [] == Opening(w);
        var e := EndingOf(hash, w, f).value;
        WithFacts(hash, w, e.explanation, e.facts, [], [], []);
      }
    }
  }
}
