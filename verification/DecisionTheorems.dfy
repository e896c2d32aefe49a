/** What holds of every decision run. */
module DecisionTheorems {
  import opened Utf16
  import opened Wrappers
  import opened CanonicalJson
  import opened EvidenceChains
  import opened EvidenceRecording
  import opened DecisionRunners
  import opened DecisionEvidence
  import opened DecisionPipelines
  import DecisionTable
  import PolicyDecision

  // ---------------------------------------------------------------------- observe mode

  /** Two endings that differ at most in the facts recorded before a point. */
  ghost predicate SameFrom<O>(a: Ending<O>, b: Ending<O>, before: seq<Fact>, before': seq<Fact>) {
    && a.verdict == b.verdict && a.output == b.output && a.explanation == b.explanation
    && before <= a.facts && before' <= b.facts && a.facts[|before|..] == b.facts[|before'|..]
  }

  lemma FailureFrom<O>(m: Message, s: seq<Fact>, t: seq<Fact>, before: seq<Fact>, before': seq<Fact>)
    requires before <= s && before' <= t && s[|before|..] == t[|before'|..]
    ensures SameFrom(Failure<O>(m, s), Failure<O>(m, t), before, before')
  {
    FactFrom(ExecutionFailed(m), s, t, before, before');
  }

  lemma FactFrom(x: Fact, s: seq<Fact>, t: seq<Fact>, before: seq<Fact>, before': seq<Fact>)
    requires before <= s && before' <= t && s[|before|..] == t[|before'|..]
    ensures before <= s + [x] && before' <= t + [x] && (s + [x])[|before|..] == (t + [x])[|before'|..]
  {
    assert (s + [x])[|before|..] == s[|before|..] + [x];
    assert (t + [x])[|before'|..] == t[|before'|..] + [x];
  }

  lemma CandidateFrom<I, R, O>(w: World<I, R, O>, c: Candidate<R>, s: seq<Fact>, t: seq<Fact>, before: seq<Fact>, before': seq<Fact>)
    requires c.decision.Some?
    requires before <= s && before' <= t && s[|before|..] == t[|before'|..]
    ensures SameFrom(DeterministicEnding(w, c, s), DeterministicEnding(w, c, t), before, before')
  {
    match w.parseOutput(c.decision.value)
    case Err(m) => FailureFrom<O>(m, s, t, before, before');
    case Ok(output) =>
      match c.evidence
      case Err(e) => FailureFrom<O>(w.serialMessage(e), s, t, before, before');
      case Ok(v) => FactFrom(CandidateUsed(v), s, t, before, before');
  }

  lemma PatternFrom<I, R, O>(w: World<I, R, O>, input: I, s: seq<Fact>, t: seq<Fact>, before: seq<Fact>, before': seq<Fact>)
    requires before <= s && before' <= t && s[|before|..] == t[|before'|..]
    ensures SameFrom(PatternEnding(w, input, s), PatternEnding(w, input, t), before, before')
  {
    match w.buildPrompt(input)
    case Err(m) => FailureFrom<O>(m, s, t, before, before');
    case Ok(prompt) =>
      match w.resolveSurface(prompt)
      case Err(m) => FailureFrom<O>(m, s, t, before, before');
      case Ok(result) =>
        match result.evidence
        case Err(e) => FailureFrom<O>(w.serialMessage(e), s, t, before, before');
        case Ok(v) =>
          FactFrom(PatternExecuted(v), s, t, before, before');
          match w.parseOutput(result.output)
          case Err(m) => FailureFrom<O>(m, s + [PatternExecuted(v)], t + [PatternExecuted(v)], before, before');
          case Ok(_) =>
  }

  lemma ExecutionFrom<I, R, O>(hash: Hashing, w: World<I, R, O>, route: Option<Route<R>>, s: seq<Fact>, t: seq<Fact>,
                               before: seq<Fact>, before': seq<Fact>)
    requires before <= s && before' <= t && s[|before|..] == t[|before'|..]
    ensures SameFrom(Execution(hash, w, route, s), Execution(hash, w, route, t), before, before')
  {
    match w.inputs
    case Err(m) => FailureFrom<O>(m, s, t, before, before');
    case Ok(input) =>
      match w.inputData(input)
      case Err(e) => FailureFrom<O>(w.serialMessage(e), s, t, before, before');
      case Ok(v) =>
        var x := InputsGathered(hash(v));
        FactFrom(x, s, t, before, before');
        if Deterministic(route).Some? {
          CandidateFrom(w, Deterministic(route).value, s + [x], t + [x], before, before');
        } else if w.modelGateway {
          PatternFrom(w, input, s + [x], t + [x], before, before');
        } else {
          match w.evaluate(input)
          case Err(m) => FailureFrom<O>(m, s + [x], t + [x], before, before');
          case Ok(_) =>
        }
  }

  lemma EnforcedFrom<I, R, O>(hash: Hashing, w: World<I, R, O>, aborts: seq<AbortCondition>, route: Option<Route<R>>,
                              s: seq<Fact>, t: seq<Fact>)
    ensures var a, b := EnforcedEnding(hash, w, aborts, route, s), EnforcedEnding(hash, w, aborts, route, t);
      match a
      case Err(m) => b == Err(m)
      case Ok(e) => b.Ok? && SameFrom(e, b.value, s, t)
  {
    match w.enforcementFlow
    case Some(Err(_)) =>
    case Some(Ok(e)) =>
      var rules := RuleFacts(e.steps);
      assert (s + rules)[|s|..] == rules == (t + rules)[|t|..];
      if e.outcome != Blocked && !HasSoftAbort(aborts) {
        ExecutionFrom(hash, w, route, s + rules, t + rules, s, t);
      }
    case None =>
      assert s[|s|..] == [] == t[|t|..];
      if !HasSoftAbort(aborts) {
        ExecutionFrom(hash, w, route, s, t, s, t);
      }
  }

  /** The policy verdict reaches the rest of the run only through what is passed on of it. */
  lemma PolicyUnread<I, R, O>(hash: Hashing, w: World<I, R, O>, other: PolicyVerdict, aborts: seq<AbortCondition>,
                              route: Option<Route<R>>, facts: seq<Fact>)
    ensures EnforcedEnding(hash, w.(policy := Ok(other)), aborts, route, facts) == EnforcedEnding(hash, w, aborts, route, facts)
  {
    var w' := w.(policy := Ok(other));
    match w.inputs
    case Err(_) =>
    case Ok(input) =>
      assert forall s :: PatternEnding(w', input, s) == PatternEnding(w, input, s);
      if Deterministic(route).Some? {
        var c := Deterministic(route).value;
        assert forall s :: DeterministicEnding(w', c, s) == DeterministicEnding(w, c, s);
      }
  }

  /** The stages before the decision, with another policy verdict. */
  lemma FrontWith<I, R, O>(w: World<I, R, O>, other: PolicyVerdict)
    requires w.policy.Ok?
    ensures var a, b := FrontOf(w), FrontOf(w.(policy := Ok(other)));
      match a
      case Err(m) => b == Err(m)
      case Ok(f) => b == Ok(f.(policy := other)) && f.policy == w.policy.value
  {
  }

  /**
   * Observe-mode independence: whatever the policy decision point answers, the run throws the
   * same or ends with the same verdict, output, explanation and abort conditions; all that
   * differs in the evidence is the fact that records the policy answer.
   */
  lemma ObserveIndependence<I, R, O>(hash: Hashing, w: World<I, R, O>, other: PolicyVerdict)
    requires w.mode == Observe && w.policy.Ok?
    ensures var w' := w.(policy := Ok(other));
      match RunOf(hash, w)
      case Err(m) => RunOf(hash, w') == Err(m)
      case Ok(a) => RunOf(hash, w').Ok? && SameBut(w, a, w', RunOf(hash, w').value)
  {
    FrontWith(w, other);
    var front := FrontOf(w);
    if front.Ok? {
      var f := front.value;
      var w', f' := w.(policy := Ok(other)), f.(policy := other);
      assert Aborts(w', f') == Aborts(w, f);
      if f.gate.status != Fail {
        EnforcedFrom(hash, w, Aborts(w, f), f.route, FrontFacts(w, f), FrontFacts(w', f'));
        PolicyUnread(hash, w, other, Aborts(w, f), f.route, FrontFacts(w', f'));
      }
    }
  }

  /** Same ending and abort conditions, and the same facts but for the third, the policy fact. */
  ghost predicate SameBut<I, R, O>(w: World<I, R, O>, a: Finish<R, O>, w': World<I, R, O>, b: Finish<R, O>) {
    && EndedBy(a.ending) == EndedBy(b.ending)
    && Aborts(w, a.front) == Aborts(w', b.front)
    && |a.ending.facts| == |b.ending.facts|
    && forall i :: 0 <= i < |a.ending.facts| && i != 2 ==> a.ending.facts[i] == b.ending.facts[i]
  }

  // ---------------------------------------------------------------------- completion

  /** The compiled rules, when configured, let the decision through. */
  predicate RulesPass<I, R, O>(w: World<I, R, O>) {
    w.enforcementFlow.Some? ==> w.enforcementFlow.value.Ok? && w.enforcementFlow.value.value.outcome != Blocked
  }

  /** What execution starts from when the rules let it through. */
  function ReadyFacts<I, R, O>(w: World<I, R, O>, f: Front<R>): seq<Fact> {
    FrontFacts(w, f) + (if w.enforcementFlow.Some? && w.enforcementFlow.value.Ok? then RuleFacts(w.enforcementFlow.value.value.steps) else [])
  }

  /**
   * A run completes exactly when its effective verdict is allow, its gate did not fail, the
   * compiled rules did not block, no abort condition holds, and execution itself succeeds.
   */
  lemma CompletedExactly<I, R, O>(hash: Hashing, w: World<I, R, O>, f: Front<R>)
    requires FrontOf(w) == Ok(f)
    ensures RunOf(hash, w).Ok? && RunOf(hash, w).value.ending.verdict == Completed <==>
      && Effective(w.mode, f.policy.verdict) == PolicyDecision.Allow
      && f.gate.status != Fail
      && RulesPass(w)
      && Aborts(w, f) == []
      && Execution(hash, w, f.route, ReadyFacts(w, f)).verdict == Completed
  {
    var facts := FrontFacts(w, f);
    AbortMembers(Effective(w.mode, f.policy.verdict), f.route.Some? || !w.routesLoaded,
                 f.route.Some? && !f.route.value.skipModelCall, w.modelGateway, f.gate.status);
    assert facts + [] == facts;
  }

  /** A verdict that is not shadowed decides: deny blocks, approve_required asks, and neither executes anything. */
  lemma PolicyFirst<I, R, O>(hash: Hashing, w: World<I, R, O>, f: Front<R>)
    requires FrontOf(w) == Ok(f)
    ensures Effective(w.mode, f.policy.verdict) == PolicyDecision.Deny ==>
      RunOf(hash, w).Ok? && RunOf(hash, w).value.ending == Ending(BlockedVerdict, None, PolicyDeniedFor(PolicyReasons(f.policy)), FrontFacts(w, f))
    ensures RunOf(hash, w).Ok? ==>
      (RunOf(hash, w).value.ending.verdict == ApprovalRequired <==> Effective(w.mode, f.policy.verdict) == PolicyDecision.ApproveRequired)
  {
    var ready := EnforcedEnding(hash, w, Aborts(w, f), f.route, FrontFacts(w, f));
    ExecutionVerdicts(hash, w, f.route, ReadyFacts(w, f));
    assert FrontFacts(w, f) + [] == FrontFacts(w, f);
  }

  lemma ExecutionVerdicts<I, R, O>(hash: Hashing, w: World<I, R, O>, route: Option<Route<R>>, facts: seq<Fact>)
    ensures Execution(hash, w, route, facts).verdict in {Completed, SafeBlock, Failed}
  {
  }

  // ---------------------------------------------------------------------- reaching the model

  predicate InputsReady<I, R, O>(w: World<I, R, O>) {
    w.inputs.Ok? && w.inputData(w.inputs.value).Ok?
  }

  /** Nothing before execution ends the run, the inputs are gathered, and no candidate spares the model. */
  predicate ReachesModel<I, R, O>(w: World<I, R, O>, f: Front<R>) {
    && Effective(w.mode, f.policy.verdict) == PolicyDecision.Allow
    && f.gate.status != Fail
    && RulesPass(w)
    && Aborts(w, f) == []
    && InputsReady(w)
    && Deterministic(f.route).None?
    && w.modelGateway
  }

  /** The facts recorded when the model is asked. */
  function GatheredFacts<I, R, O>(hash: Hashing, w: World<I, R, O>, f: Front<R>): seq<Fact>
    requires InputsReady(w)
  {
    ReadyFacts(w, f) + [InputsGathered(hash(w.inputData(w.inputs.value).value))]
  }

  predicate NotPattern(facts: seq<Fact>) {
    forall i :: 0 <= i < |facts| ==> !facts[i].PatternExecuted?
  }

  lemma ReadyNotPattern<I, R, O>(w: World<I, R, O>, f: Front<R>)
    ensures NotPattern(FrontFacts(w, f)) && NotPattern(ReadyFacts(w, f))
  {
  }

  /** What the model answers can be recorded. */
  predicate ModelAnswers<I, R, O>(w: World<I, R, O>)
    requires w.inputs.Ok?
  {
    var prompt := w.buildPrompt(w.inputs.value);
    prompt.Ok? && w.resolveSurface(prompt.value).Ok? && w.resolveSurface(prompt.value).value.evidence.Ok?
  }

  /** What the run comes to from the compiled rules on. */
  lemma FromRules<I, R, O>(hash: Hashing, w: World<I, R, O>, f: Front<R>)
    requires FrontOf(w) == Ok(f) && Effective(w.mode, f.policy.verdict) == PolicyDecision.Allow && f.gate.status != Fail
    ensures RulesPass(w) && Aborts(w, f) == [] ==>
      RunOf(hash, w) == Ok(Finish(f, Execution(hash, w, f.route, ReadyFacts(w, f))))
    ensures RulesPass(w) && Aborts(w, f) != [] ==>
      RunOf(hash, w) == Ok(Finish(f, Ending(SafeBlock, None, SafeBlockFor(Aborts(w, f)), ReadyFacts(w, f))))
  {
    AbortMembers(Effective(w.mode, f.policy.verdict), f.route.Some? || !w.routesLoaded,
                 f.route.Some? && !f.route.value.skipModelCall, w.modelGateway, f.gate.status);
    assert FrontFacts(w, f) + [] == FrontFacts(w, f);
  }

  /** A run that reaches the model ends as the model's pattern ends. */
  lemma ModelDecides<I, R, O>(hash: Hashing, w: World<I, R, O>, f: Front<R>)
    requires FrontOf(w) == Ok(f) && ReachesModel(w, f)
    ensures RunOf(hash, w) == Ok(Finish(f, PatternEnding(w, w.inputs.value, GatheredFacts(hash, w, f))))
  {
    FromRules(hash, w, f);
  }

  /** Execution that does not come to the model does not read what it would answer. */
  lemma ExecutionUnread<I, R, O>(hash: Hashing, w: World<I, R, O>, route: Option<Route<R>>, facts: seq<Fact>,
                                 ask: I -> Result<Text, Message>, answer: Text -> Result<PatternResult<R>, Message>)
    requires NotPattern(facts) && !(InputsReady(w) && Deterministic(route).None? && w.modelGateway)
    ensures Execution(hash, w.(buildPrompt := ask, resolveSurface := answer), route, facts) == Execution(hash, w, route, facts)
    ensures NotPattern(Execution(hash, w, route, facts).facts)
  {
    var w' := w.(buildPrompt := ask, resolveSurface := answer);
    if InputsReady(w) && Deterministic(route).Some? {
      var c, gathered := Deterministic(route).value, facts + [InputsGathered(hash(w.inputData(w.inputs.value).value))];
      assert DeterministicEnding(w', c, gathered) == DeterministicEnding(w, c, gathered);
    }
  }

  /** A run that does not reach the model comes to the same whatever the model would answer, and records no answer. */
  lemma ModelUnread<I, R, O>(hash: Hashing, w: World<I, R, O>, f: Front<R>,
                             ask: I -> Result<Text, Message>, answer: Text -> Result<PatternResult<R>, Message>)
    requires FrontOf(w) == Ok(f) && !ReachesModel(w, f)
    ensures RunOf(hash, w.(buildPrompt := ask, resolveSurface := answer)) == RunOf(hash, w)
    ensures RunOf(hash, w).Ok? ==> NotPattern(RunOf(hash, w).value.ending.facts)
  {
    var w' := w.(buildPrompt := ask, resolveSurface := answer);
    ReadyNotPattern(w, f);
    if Effective(w.mode, f.policy.verdict) == PolicyDecision.Allow && f.gate.status != Fail {
      assert FrontFacts(w, f) + [] == FrontFacts(w, f);
      if RulesPass(w) {
        FromRules(hash, w, f);
        FromRules(hash, w', f);
        if Aborts(w, f) == [] {
          ExecutionUnread(hash, w, f.route, ReadyFacts(w, f), ask, answer);
        }
      }
    }
  }

  /** The run records a model answer exactly when it reaches the model, given that the answer can be recorded. */
  lemma ModelRecordedExactly<I, R, O>(hash: Hashing, w: World<I, R, O>, f: Front<R>)
    requires FrontOf(w) == Ok(f) && w.inputs.Ok? && ModelAnswers(w)
    ensures ReachesModel(w, f) <==> RunOf(hash, w).Ok? && !NotPattern(RunOf(hash, w).value.ending.facts)
  {
    if ReachesModel(w, f) {
      ModelDecides(hash, w, f);
      var gathered := GatheredFacts(hash, w, f);
      assert PatternEnding(w, w.inputs.value, gathered).facts[|gathered|].PatternExecuted?;
    } else {
      ModelUnread(hash, w, f, w.buildPrompt, w.resolveSurface);
    }
  }

  /** A route that is to be safe-blocked carries a candidate without a decision. */
  predicate SafeBlockRoute<R>(route: Option<Route<R>>) {
    route.Some? && route.value.skipModelCall && route.value.candidate.Some? && route.value.candidate.value.decision.None?
  }

  /** Nothing but a missing gateway keeps a run that gets to execute away from the model. */
  predicate NothingStops<I, R, O>(w: World<I, R, O>, f: Front<R>) {
    Effective(w.mode, f.policy.verdict) == PolicyDecision.Allow && f.gate.status != Fail && RulesPass(w) && InputsReady(w)
  }

  /**
   * A route that is to be safe-blocked does not block: it reaches the model exactly when nothing
   * else stops the run and a gateway is configured, and without one the template itself decides.
   */
  lemma SafeBlockRouteFallsThrough<I, R, O>(hash: Hashing, w: World<I, R, O>, f: Front<R>)
    requires FrontOf(w) == Ok(f) && SafeBlockRoute(f.route)
    ensures ReachesModel(w, f) <==> NothingStops(w, f) && w.modelGateway
    ensures NothingStops(w, f) ==> RunOf(hash, w) == Ok(Finish(f, FallsThroughTo(w, GatheredFacts(hash, w, f))))
    ensures RunOf(hash, w).Ok? ==> !RunOf(hash, w).value.ending.explanation.SafeBlockFor?
  {
    AbortMembers(Effective(w.mode, f.policy.verdict), true, false, w.modelGateway, f.gate.status);
    if Effective(w.mode, f.policy.verdict) == PolicyDecision.Allow && f.gate.status != Fail && RulesPass(w) {
      FromRules(hash, w, f);
    }
  }

  /** The model when there is a gateway, else the template. */
  function FallsThroughTo<I, R, O>(w: World<I, R, O>, facts: seq<Fact>): Ending<O>
    requires w.inputs.Ok?
  {
    if w.modelGateway then PatternEnding(w, w.inputs.value, facts)
    else
      match w.evaluate(w.inputs.value)
      case Err(m) => Failure(m, facts)
      case Ok(output) => Completion(output, facts)
  }

  // ---------------------------------------------------------------------- the trail

  /** Every ending keeps the facts of the first stages in front. */
  lemma EndingExtends<I, R, O>(hash: Hashing, w: World<I, R, O>, f: Front<R>)
    requires EndingOf(hash, w, f).Ok?
    ensures FrontFacts(w, f) <= EndingOf(hash, w, f).value.facts
  {
    var facts := FrontFacts(w, f);
    EnforcedFrom(hash, w, Aborts(w, f), f.route, facts, facts);
  }

  /** The facts of a run that returns: how it starts, the gate, both policy verdicts, and how it ends. */
  predicate RunTrail<I, R, O>(w: World<I, R, O>, run: Finish<R, O>, trail: seq<Fact>) {
    && |trail| >= 4
    && trail[0] == Initiated(w.templateId, w.version, w.surfaceId, w.actionType)
    && trail[1] == GateChecked(run.front.gate)
    && trail[2] == PolicyEvaluated(Effective(w.mode, run.front.policy.verdict), run.front.policy.verdict, w.mode,
                                   run.front.policy.matchedPolicies)
    && trail[|trail| - 1] == Finalized(run.ending.verdict, run.ending.explanation)
  }

  lemma TrailShape<I, R, O>(hash: Hashing, w: World<I, R, O>)
    requires RunOf(hash, w).Ok?
    ensures RunTrail(w, RunOf(hash, w).value, Trail(RunOf(hash, w).value.ending))
  {
    EndingExtends(hash, w, RunOf(hash, w).value.front);
  }

  /** Record by record, the evidence shows the facts as written, and verification accepts it. */
  lemma EvidenceShowsTrail<O>(sha: Hash, stamps: Stamps, write: Writing, e: Ending<O>)
    ensures Linked(sha, EvidenceOf(RecordingOf(sha, stamps), write, e))
    ensures |EvidenceOf(RecordingOf(sha, stamps), write, e)| == |Trail(e)|
    ensures forall i :: 0 <= i < |Trail(e)| ==> Shows(EvidenceOf(RecordingOf(sha, stamps), write, e)[i], i, write(Trail(e)[i]), stamps)
  {
    var steps := Written(write, Trail(e));
    ChainLinked(sha, stamps, steps);
    forall i | 0 <= i < |Trail(e)| ensures Shows(ChainOf(RecordingOf(sha, stamps), steps)[i], i, write(Trail(e)[i]), stamps) {
      ChainShows(sha, stamps, steps);
    }
  }

  /** The operation types that open and close a trail. */
  lemma TrailEnds(f: Fact)
    ensures f.Initiated? ==> StepOf(f).operationType == Lit("decision_initiated")
    ensures f.Finalized? ==> StepOf(f).operationType == Lit("decision_finalized")
  {
  }

  /** Accepted evidence that opens and closes as a run does. */
  ghost predicate Verifiable(sha: Hash, evidence: seq<EvidenceRecord>) {
    && Linked(sha, evidence) && |evidence| >= 4
    && evidence[0].operationType == Lit("decision_initiated")
    && evidence[|evidence| - 1].operationType == Lit("decision_finalized")
  }

  /**
   * Every run that returns leaves evidence that verification accepts, whose first record is
   * decision_initiated and whose last is decision_finalized.
   */
  lemma VerifiableTrail<I, R, O>(sha: Hash, stamps: Stamps, hash: Hashing, write: Writing, w: World<I, R, O>,
                                 evidence: seq<EvidenceRecord>)
    requires RunOf(hash, w).Ok? && evidence == EvidenceOf(RecordingOf(sha, stamps), write, RunOf(hash, w).value.ending)
    requires forall f :: write(f) == StepOf(f)
    ensures Verifiable(sha, evidence)
  {
    var ending := RunOf(hash, w).value.ending;
    var trail := Trail(ending);
    TrailShape(hash, w);
    EvidenceShowsTrail(sha, stamps, write, ending);
    TrailEnds(trail[0]);
    TrailEnds(trail[|trail| - 1]);
  }

  /** Facts are written as steps that show them, and everything hashed is a digest of its canonical text. */
  ghost predicate BuiltOn(sha: Hash, summarize: Summary, hash: Hashing, write: Writing) {
    && (forall v: GoodJson :: hash(v) == sha(Print(v)))
    && (forall f :: StepShows(write(f), f))
    && forall s, t, v, h :: DigestsSummary(sha, summarize, s, t, v, h)
  }

  ghost predicate DigestsSummary(sha: Hash, summarize: Summary, s: Stamps, t: Text, v: DecisionVerdict, h: Option<Text>) {
    exists text :: SummaryText(text, s, t, v, h) && summarize(s, t, v, h) == sha(text)
  }

  /** The result and the steps are those the table gives, facts being written and digests taken just so. */
  ghost predicate ReportsRun<I, R, O>(sha: Hash, stamps: Stamps, w: World<I, R, O>, r: RunnerResult<O>,
                                      records: seq<EvidenceRecord>, steps: seq<Step>) {
    exists summarize, hash, write ::
      BuiltOn(sha, summarize, hash, write) && Reports(r, w, summarize, stamps, records) && Writes(steps, hash, write, w, r)
  }

  lemma RunnerBuiltOn(sha: Hash, summarize: Summary, hash: Hashing, write: Writing)
    requires forall v: GoodJson :: hash(v) == HashCanonicalJson(sha, v)
    requires forall f :: write(f) == StepOf(f)
    requires forall s, t, v, h :: summarize(s, t, v, h) == HashCanonicalJson(sha, SummaryJson(s, t, v, h))
    ensures BuiltOn(sha, summarize, hash, write)
  {
    hide StepOf, StepShows, SummaryJson, SummaryText;
    forall f ensures StepShows(write(f), f) {
      StepOfShows(f);
    }
    forall s, t, v, h ensures DigestsSummary(sha, summarize, s, t, v, h) {
      SummaryPrinted(s, t, v, h);
    }
  }

  /**
   * A run as it is started: on a new recorder. When it returns, the evidence it leaves is
   * accepted, opens with decision_initiated and closes with decision_finalized, the result counts
   * its records and names its head, and the decision is logged once.
   */
  method DecideOnNewRecorder<I, R, O>(sha: Hash, stamps: Stamps, w: World<I, R, O>, eventService: EventService,
                                      decisionLog: DecisionLog<O>, recordId: Text)
    returns (r: Result<RunnerResult<O>, Message>, recorder: EvidenceRecorder)
    modifies eventService, decisionLog
    ensures fresh(recorder) && recorder.stamps == stamps
    ensures r.Ok? ==> Verifiable(sha, recorder.records) && Accepted(sha, recorder.records)
    ensures r.Ok? ==> ShowsSteps(sha, stamps, recorder.records, recorder.steps)
    ensures r.Ok? ==> ReportsRun(sha, stamps, w, r.value, recorder.records, recorder.steps)
    ensures r.Err? ==> DecisionTable.ThrowsWith(w, r.error)
    ensures r.Ok? ==> r.value.recordCount == |recorder.records| && r.value.headHash == PreviousOf(recorder.records, |recorder.records|)
    ensures r.Ok? ==> decisionLog.records == old(decisionLog.records) + [LogOf(w, r.value, recordId)]
    ensures r.Err? ==> decisionLog.records == old(decisionLog.records)
  {
    hide BuiltOn, Reports, Writes, ShowsSteps, Accepted, Linked, Verifiable, Logs, AnnouncesEach, DecisionTable.ThrowsWith, RunOf;
    recorder := new EvidenceRecorder(sha, stamps, eventService);
    var runner := new DecisionRunner<I, R, O>(sha, eventService, decisionLog);
    r := runner.Execute(w, recorder, recordId);
    if r.Ok? {
      VerifiableTrail(sha, stamps, runner.hash, runner.write, w, recorder.records);
      LinkedAccepted(sha, recorder.records);
      ChainShows(sha, stamps, recorder.steps);
      RunnerBuiltOn(sha, runner.summarize, runner.hash, runner.write);
    }
  }
}
