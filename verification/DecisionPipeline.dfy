/**
 * The runner itself, proved against the endings and trails that specify it. How a fact is
 * written, and how the run is hashed, are values the runner is built with.
 */
module DecisionPipelines {
  import opened Utf16
  import opened Wrappers
  import opened ObjectGraph
  import opened EvidenceChains
  import opened EvidenceRecording
  import opened DecisionRunners
  import opened DecisionEvidence
  import DecisionTable
  import PolicyDecision

  // ---------------------------------------------------------------------- results

  datatype DecisionRecord<O> = DecisionRecord(
    id: Text,
    surface: Text,
    toolName: Text,
    status: LogStatus,
    templateId: Text,
    version: Text,
    output: Option<O>,
    correlationId: Text,
    tenantId: Text,
    auditHash: Text)

  datatype RunnerResult<O> = RunnerResult(
    verdict: DecisionVerdict,
    output: Option<O>,
    explanation: Explanation,
    correlationId: Text,
    tenantId: Text,
    auditHash: Text,
    recordCount: nat,
    headHash: Option<Text>,
    policyVerdict: PolicyVerdict,
    observedVerdict: Verdict,
    abortConditions: seq<AbortCondition>)

  class DecisionLog<O> {
    var records: seq<DecisionRecord<O>>

    constructor ()
      ensures records == []
    {
      records := [];
    }

    method Append(r: DecisionRecord<O>)
      modifies this
      ensures records == old(records) + [r]
    {
      records := records + [r];
    }
  }

  type Writing = Fact -> Step

  /** The digest over a run: template, verdict and the head of its evidence. */
  type Summary = (Stamps, Text, DecisionVerdict, Option<Text>) -> Text

  /** The steps a list of facts is written as. */
  function Written(write: Writing, facts: seq<Fact>): (steps: seq<Step>)
    ensures |steps| == |facts|
  {
    seq(|facts|, i requires 0 <= i < |facts| => write(facts[i]))
  }

  lemma WrittenConcat(write: Writing, a: seq<Fact>, b: seq<Fact>)
    ensures Written(write, a + b) == Written(write, a) + Written(write, b)
  {
  }

  /** What a run that ends reports, given its evidence. */
  function ResultOf<I, R, O>(summarize: Summary, stamps: Stamps, evidence: seq<EvidenceRecord>, w: World<I, R, O>, f: Front<R>,
                             e: Ending<O>): RunnerResult<O> {
    var headHash := PreviousOf(evidence, |evidence|);
    RunnerResult(e.verdict, e.output, e.explanation, stamps.correlationId, stamps.tenantId,
                 summarize(stamps, w.templateId, e.verdict, headHash), |evidence|, headHash,
                 f.policy.(verdict := Effective(w.mode, f.policy.verdict)), f.policy.verdict, Aborts(w, f))
  }

  /** What it logs. */
  function LogOf<I, R, O>(w: World<I, R, O>, r: RunnerResult<O>, recordId: Text): DecisionRecord<O> {
    DecisionRecord(recordId, w.surfaceId, w.actionType, VerdictToStatus(r.verdict), w.templateId, w.version, r.output,
                   r.correlationId, r.tenantId, r.auditHash)
  }

  // ---------------------------------------------------------------------- the runner

  datatype Ended<O> = Ended(verdict: DecisionVerdict, output: Option<O>, explanation: Explanation)

  function EndedBy<O>(e: Ending<O>): Ended<O> {
    Ended(e.verdict, e.output, e.explanation)
  }

  /** The ending that a tried execution comes to, once a thrown error is caught and recorded. */
  function Caught<O>(r: Result<Ended<O>, Message>, taken: seq<Fact>): Ending<O> {
    match r
    case Err(m) => Failure(m, taken)
    case Ok(e) => Ending(e.verdict, e.output, e.explanation, taken)
  }

  /** The facts of one run so far, each written to the recorder as it is stated. */
  class Journal {
    const write: Writing
    const recorder: EvidenceRecorder
    ghost var facts: seq<Fact>

    constructor (write: Writing, recorder: EvidenceRecorder)
      requires recorder.Valid() && recorder.steps == []
      ensures this.write == write && this.recorder == recorder && facts == [] && Valid()
    {
      this.write, this.recorder, facts := write, recorder, [];
    }

    ghost predicate Valid()
      reads this, recorder, recorder.eventService
    {
      recorder.Valid() && recorder.steps == Written(write, facts)
    }

    method Note(f: Fact)
      requires Valid()
      modifies this, recorder, recorder.eventService
      ensures Valid() && facts == old(facts) + [f]
    {
      WrittenConcat(write, facts, [f]);
      recorder.Record(write(f));
      facts := facts + [f];
    }

    /** Appending throws, before it changes anything, on a payload that cannot be serialized. */
    method NotePayload(payload: Payload, fact: GoodJson -> Fact) returns (thrown: Option<SerialError>)
      requires Valid()
      modifies this, recorder, recorder.eventService
      ensures Valid()
      ensures payload.Err? ==> thrown == Some(payload.error) && facts == old(facts)
      ensures payload.Ok? ==> thrown == None && facts == old(facts) + [fact(payload.value)]
    {
      if payload.Err? {
        return Some(payload.error);
      }
      Note(fact(payload.value));
      return None;
    }

    /** The evidence the compiled rules record. */
    method NoteAll(steps: seq<Step>)
      requires Valid()
      modifies this, recorder, recorder.eventService
      ensures Valid() && facts == old(facts) + RuleFacts(steps)
    {
      var i := 0;
      while i < |steps|
        invariant 0 <= i <= |steps|
        invariant Valid() && facts == old(facts) + RuleFacts(steps[..i])
      {
        Note(RuleEvidence(steps[i]));
        assert RuleFacts(steps[..i + 1]) == RuleFacts(steps[..i]) + [RuleEvidence(steps[i])];
        i := i + 1;
      }
      assert steps[..i] == steps;
    }
  }

  // ---------------------------------------------------------------------- execution

  /** A usable candidate is parsed and recorded; no model is asked. */
  method UseCandidate<I, R, O>(w: World<I, R, O>, c: Candidate<R>, journal: Journal)
    returns (r: Result<Ended<O>, Message>)
    requires journal.Valid() && c.decision.Some?
    modifies journal, journal.recorder, journal.recorder.eventService
    ensures journal.Valid() && Caught(r, journal.facts) == DeterministicEnding(w, c, old(journal.facts))
  {
    var output := w.parseOutput(c.decision.value);
    if output.Err? {
      return Err(output.error);
    }
    var thrown := journal.NotePayload(c.evidence, (v: GoodJson) => CandidateUsed(v));
    if thrown.Some? {
      return Err(w.serialMessage(thrown.value));
    }
    return Ok(Ended(Completed, Some(output.value), CompletedSuccessfully));
  }

  /** The model is asked through the surface's pattern. */
  method AskModel<I, R, O>(w: World<I, R, O>, input: I, journal: Journal)
    returns (r: Result<Ended<O>, Message>)
    requires journal.Valid()
    modifies journal, journal.recorder, journal.recorder.eventService
    ensures journal.Valid() && Caught(r, journal.facts) == PatternEnding(w, input, old(journal.facts))
  {
    var prompt := w.buildPrompt(input);
    if prompt.Err? {
      return Err(prompt.error);
    }
    var result := w.resolveSurface(prompt.value);
    if result.Err? {
      return Err(result.error);
    }
    var thrown := journal.NotePayload(result.value.evidence, (v: GoodJson) => PatternExecuted(v));
    if thrown.Some? {
      return Err(w.serialMessage(thrown.value));
    }
    if result.value.safeBlock {
      return Ok(Ended(SafeBlock, None, PatternSafeBlocked(result.value.reason)));
    }
    var output := w.parseOutput(result.value.output);
    if output.Err? {
      return Err(output.error);
    }
    return Ok(Ended(Completed, Some(output.value), CompletedSuccessfully));
  }

  /** The body of the try block. */
  method TryExecute<I, R, O>(hash: Hashing, w: World<I, R, O>, route: Option<Route<R>>, journal: Journal)
    returns (r: Result<Ended<O>, Message>)
    requires journal.Valid()
    modifies journal, journal.recorder, journal.recorder.eventService
    ensures journal.Valid() && Caught(r, journal.facts) == Execution(hash, w, route, old(journal.facts))
  {
    if w.inputs.Err? {
      return Err(w.inputs.error);
    }
    var input := w.inputs.value;
    var data := w.inputData(input);
    if data.Err? {
      return Err(w.serialMessage(data.error));
    }
    journal.Note(InputsGathered(hash(data.value)));
    var candidate := Deterministic(route);
    if candidate.Some? {
      r := UseCandidate(w, candidate.value, journal);
    } else if w.modelGateway {
      r := AskModel(w, input, journal);
    } else {
      var output := w.evaluate(input);
      match output
      case Err(m) => r := Err(m);
      case Ok(o) => r := Ok(Ended(Completed, Some(o), CompletedSuccessfully));
    }
  }

  /** Execution with its catch block. */
  method RunExecution<I, R, O>(hash: Hashing, w: World<I, R, O>, route: Option<Route<R>>, journal: Journal) returns (e: Ended<O>)
    requires journal.Valid()
    modifies journal, journal.recorder, journal.recorder.eventService
    ensures journal.Valid()
    ensures var ending := Execution(hash, w, route, old(journal.facts)); e == EndedBy(ending) && journal.facts == ending.facts
  {
    var tried := TryExecute(hash, w, route, journal);
    match tried
    case Ok(ended) => e := ended;
    case Err(m) =>
      journal.Note(ExecutionFailed(m));
      e := Ended(Failed, None, ExecutionError(m));
  }

  /** A run so far ends as specified: it throws, or the journal holds the ending's facts. */
  ghost predicate EndsAs<O>(r: Result<Ended<O>, Message>, journal: Journal, ending: Result<Ending<O>, Message>)
    reads journal, journal.recorder, journal.recorder.eventService
  {
    && journal.Valid()
    && match ending
       case Err(m) => r == Err(m)
       case Ok(e) => r == Ok(EndedBy(e)) && journal.facts == e.facts
  }

  /** The compiled rules, the soft aborts and execution; Err throws to the caller. */
  method EnforceAndExecute<I, R, O>(hash: Hashing, w: World<I, R, O>, aborts: seq<AbortCondition>, route: Option<Route<R>>,
                                    journal: Journal)
    returns (r: Result<Ended<O>, Message>)
    requires journal.Valid()
    modifies journal, journal.recorder, journal.recorder.eventService
    ensures EndsAs(r, journal, EnforcedEnding(hash, w, aborts, route, old(journal.facts)))
  {
    if w.enforcementFlow.Some? {
      var flow := w.enforcementFlow.value;
      if flow.Err? {
        return Err(flow.error);
      }
      journal.NoteAll(flow.value.steps);
      if flow.value.outcome == Blocked {
        return Ok(Ended(BlockedVerdict, None, CompiledRules(flow.value.explanation)));
      }
    }
    if HasSoftAbort(aborts) {
      return Ok(Ended(SafeBlock, None, SafeBlockFor(aborts)));
    }
    var e := RunExecution(hash, w, route, journal);
    return Ok(e);
  }

  /** From the policy verdict to the end of execution. */
  method Decide<I, R, O>(hash: Hashing, w: World<I, R, O>, f: Front<R>, aborts: seq<AbortCondition>, journal: Journal)
    returns (r: Result<Ended<O>, Message>)
    requires journal.Valid() && journal.facts == FrontFacts(w, f) && aborts == Aborts(w, f)
    modifies journal, journal.recorder, journal.recorder.eventService
    ensures EndsAs(r, journal, EndingOf(hash, w, f))
  {
    var verdict := Effective(w.mode, f.policy.verdict);
    if verdict == PolicyDecision.Deny {
      return Ok(Ended(BlockedVerdict, None, PolicyDeniedFor(PolicyReasons(f.policy))));
    }
    if verdict == PolicyDecision.ApproveRequired {
      return Ok(Ended(ApprovalRequired, None, ApprovalRequiredFor(PolicyReasons(f.policy))));
    }
    if f.gate.status == Fail {
      return Ok(Ended(BlockedVerdict, None, QualityGateFailedFor(f.gate.message)));
    }
    r := EnforceAndExecute(hash, w, aborts, f.route, journal);
  }

  // ---------------------------------------------------------------------- the whole run

  /** The stages before the decision: quality gate, policy, route, abort conditions. */
  method Prepare<I, R, O>(w: World<I, R, O>, journal: Journal)
    returns (r: Result<Front<R>, Message>, aborts: seq<AbortCondition>)
    requires journal.Valid() && journal.facts == []
    modifies journal, journal.recorder, journal.recorder.eventService
    ensures journal.Valid() && r == FrontOf(w)
    ensures r.Ok? ==> journal.facts == FrontFacts(w, r.value) && aborts == Aborts(w, r.value)
  {
    aborts := [];
    journal.Note(Initiated(w.templateId, w.version, w.surfaceId, w.actionType));
    if w.gate.Err? {
      return Err(w.gate.error), aborts;
    }
    var gate := w.gate.value;
    journal.Note(GateChecked(gate));
    if w.policy.Err? {
      return Err(w.policy.error), aborts;
    }
    var policy := w.policy.value;
    var effective := Effective(w.mode, policy.verdict);
    journal.Note(PolicyEvaluated(effective, policy.verdict, w.mode, policy.matchedPolicies));
    var route: Option<Route<R>> := None;
    if w.routesLoaded {
      if w.resolveRoute.Err? {
        return Err(w.resolveRoute.error), aborts;
      }
      route := w.resolveRoute.value;
    }
    if route.Some? {
      journal.Note(RouteResolved(route.value.routeClass, route.value.skipModelCall, route.value.reason));
    }
    aborts := CheckAbortConditions(effective, route.Some? || !w.routesLoaded, route.Some? && !route.value.skipModelCall,
                                   w.modelGateway, gate.status);
    return Ok(Front(gate, policy, route)), aborts;
  }

  /** The evidence of a run: its facts, written and chained. */
  function EvidenceOf<O>(next: Recording, write: Writing, e: Ending<O>): seq<EvidenceRecord> {
    ChainOf(next, Written(write, Trail(e)))
  }

  /** What a result reports of the run, its evidence and the host's answers. */
  ghost predicate Reports<I, R, O>(r: RunnerResult<O>, w: World<I, R, O>, summarize: Summary, stamps: Stamps,
                                   evidence: seq<EvidenceRecord>) {
    && DecisionTable.Started(w)
    && DecisionTable.VerdictMeans(w, r.verdict)
    && DecisionTable.OutputMeans(w, r.output)
    && DecisionTable.ExplanationMeans(w, r.explanation)
    && r.tenantId == stamps.tenantId && r.correlationId == stamps.correlationId
    && r.recordCount == |evidence| > 0 && r.headHash == Some(evidence[|evidence| - 1].auditHash)
    && r.observedVerdict == w.policy.value.verdict && r.policyVerdict.matchedPolicies == w.policy.value.matchedPolicies
    && r.policyVerdict.verdict == (if w.mode == Observe then PolicyDecision.Allow else w.policy.value.verdict)
    && DecisionTable.AbortsMean(w, r.abortConditions)
    && r.auditHash == summarize(stamps, w.templateId, r.verdict, r.headHash)
  }

  /** What the log keeps of a run. */
  ghost predicate Logs<I, R, O>(d: DecisionRecord<O>, w: World<I, R, O>, r: RunnerResult<O>, recordId: Text) {
    && d.id == recordId && d.surface == w.surfaceId && d.toolName == w.actionType
    && d.templateId == w.templateId && d.version == w.version
    && d.output == r.output && d.auditHash == r.auditHash
    && d.correlationId == r.correlationId && d.tenantId == r.tenantId
    && (d.status == StatusGenerated <==> r.verdict == Completed)
    && (d.status == StatusBlocked <==> r.verdict == BlockedVerdict || r.verdict == SafeBlock)
    && (d.status == StatusPending <==> r.verdict == ApprovalRequired)
    && (d.status == StatusFailed <==> r.verdict == Failed)
  }

  /** The steps of a run: its facts as they are written, and last how it ended. */
  ghost predicate Writes<I, R, O>(steps: seq<Step>, hash: Hashing, write: Writing, w: World<I, R, O>, r: RunnerResult<O>)
    requires DecisionTable.Started(w)
  {
    exists facts :: DecisionTable.FactsMean(hash, w, r.explanation, facts)
      && |steps| == |facts| + 1
      && (forall i :: 0 <= i < |facts| ==> steps[i] == write(facts[i]))
      && steps[|facts|] == write(Finalized(r.verdict, r.explanation))
  }

  /** The specified result and steps of a run are those the table gives. */
  lemma RunReported<I, R, O>(hash: Hashing, write: Writing, summarize: Summary, stamps: Stamps, evidence: seq<EvidenceRecord>,
                             w: World<I, R, O>, recordId: Text)
    requires RunOf(hash, w).Ok? && |evidence| > 0
    ensures DecisionTable.Started(w)
    ensures var run := RunOf(hash, w).value;
      var r := ResultOf(summarize, stamps, evidence, w, run.front, run.ending);
      Reports(r, w, summarize, stamps, evidence) && Logs(LogOf(w, r, recordId), w, r, recordId)
      && Writes(Written(write, Trail(run.ending)), hash, write, w, r)
  {
    DecisionTable.RunMeans(hash, w);
    hide RunOf, Logs, Writes, LogOf, Aborts, DecisionTable.FactsMean, DecisionTable.VerdictMeans, DecisionTable.OutputMeans;
    hide DecisionTable.ExplanationMeans, DecisionTable.AbortsMean;
    var run := RunOf(hash, w).value;
    var r := ResultOf(summarize, stamps, evidence, w, run.front, run.ending);
    ResultReports(summarize, stamps, evidence, hash, w);
    LogReported(w, r, recordId);
    StepsWritten(hash, write, w, run.ending, r);
  }

  lemma LogReported<I, R, O>(w: World<I, R, O>, r: RunnerResult<O>, recordId: Text)
    ensures Logs(LogOf(w, r, recordId), w, r, recordId)
  {
  }

  lemma StepsWritten<I, R, O>(hash: Hashing, write: Writing, w: World<I, R, O>, e: Ending<O>, r: RunnerResult<O>)
    requires DecisionTable.Started(w) && DecisionTable.FactsMean(hash, w, e.explanation, e.facts)
    requires r.verdict == e.verdict && r.explanation == e.explanation
    ensures Writes(Written(write, Trail(e)), hash, write, w, r)
  {
    hide DecisionTable.FactsMean, DecisionTable.Started;
    assert DecisionTable.FactsMean(hash, w, r.explanation, e.facts);
  }

  lemma ResultReports<I, R, O>(summarize: Summary, stamps: Stamps, evidence: seq<EvidenceRecord>, hash: Hashing, w: World<I, R, O>)
    requires RunOf(hash, w).Ok? && |evidence| > 0
    ensures var run := RunOf(hash, w).value;
      Reports(ResultOf(summarize, stamps, evidence, w, run.front, run.ending), w, summarize, stamps, evidence)
  {
    DecisionTable.RunMeans(hash, w);
    DecisionTable.AbortsAre(w, RunOf(hash, w).value.front);
    hide DecisionTable.VerdictMeans, DecisionTable.OutputMeans, DecisionTable.ExplanationMeans, DecisionTable.FactsMean;
    hide DecisionTable.AbortsMean, Aborts, EndingOf;
  }

  lemma RunThrows<I, R, O>(hash: Hashing, w: World<I, R, O>)
    ensures RunOf(hash, w).Err? ==> DecisionTable.ThrowsWith(w, RunOf(hash, w).error)
    ensures RunOf(hash, w).Ok? ==> forall m :: !DecisionTable.ThrowsWith(w, m)
  {
    DecisionTable.RunMeans(hash, w);
  }

  lemma EventsAnnounced(before: seq<Event>, stamps: Stamps, records: seq<EvidenceRecord>, last: Event)
    ensures var events := before + Announcements(stamps, records) + [last];
      AnnouncesEach(before, events, stamps, records) && events[|before| + |records|..] == [last]
  {
  }

  class DecisionRunner<I, R, O> {
    const hash: Hashing
    const write: Writing
    const summarize: Summary
    const eventService: EventService
    const decisionLog: DecisionLog<O>

    constructor (sha: Hash, eventService: EventService, decisionLog: DecisionLog<O>)
      ensures (forall v: GoodJson :: hash(v) == HashCanonicalJson(sha, v)) && (forall f :: write(f) == StepOf(f))
      ensures forall s, t, v, h :: summarize(s, t, v, h) == HashCanonicalJson(sha, SummaryJson(s, t, v, h))
      ensures this.eventService == eventService && this.decisionLog == decisionLog
    {
      hash := (v: GoodJson) => HashCanonicalJson(sha, v);
      write := f => StepOf(f);
      summarize := (s, t, v, h) => HashCanonicalJson(sha, SummaryJson(s, t, v, h));
      this.eventService, this.decisionLog := eventService, decisionLog;
    }

    /** The last fact, the log record, the event and the result. */
    method Finalize(w: World<I, R, O>, f: Front<R>, e: Ended<O>, ghost ending: Ending<O>, aborts: seq<AbortCondition>,
                    journal: Journal, recordId: Text)
      returns (r: RunnerResult<O>)
      requires journal.Valid() && journal.write == write && journal.recorder.eventService == eventService
      requires e == EndedBy(ending) && journal.facts == ending.facts && aborts == Aborts(w, f)
      modifies journal, journal.recorder, eventService, decisionLog
      ensures journal.recorder.records == EvidenceOf(journal.recorder.next, write, ending)
      ensures journal.recorder.steps == Written(write, Trail(ending))
      ensures r == ResultOf(summarize, journal.recorder.stamps, journal.recorder.records, w, f, ending)
      ensures decisionLog.records == old(decisionLog.records) + [LogOf(w, r, recordId)]
      ensures eventService.events ==
        journal.recorder.before + Announcements(journal.recorder.stamps, journal.recorder.records)
        + [DecisionMade(w.templateId, r.verdict, journal.recorder.stamps)]
    {
      var recorder, stamps := journal.recorder, journal.recorder.stamps;
      journal.Note(Finalized(e.verdict, e.explanation));
      var auditHash := summarize(stamps, w.templateId, e.verdict, recorder.headHash);
      var effective := Effective(w.mode, f.policy.verdict);
      r := RunnerResult(e.verdict, e.output, e.explanation, stamps.correlationId, stamps.tenantId, auditHash,
                        |recorder.records|, recorder.headHash, f.policy.(verdict := effective), f.policy.verdict, aborts);
      decisionLog.Append(LogOf(w, r, recordId));
      eventService.Emit(DecisionMade(w.templateId, e.verdict, stamps));
    }

    /**
     * One run, on a recorder of its own. It throws exactly when the specified run does, and then
     * logs nothing. Otherwise it reports and logs the specified ending, its evidence is the chain
     * of the specified trail, and it announces every record and then the decision.
     */
    method Execute(w: World<I, R, O>, recorder: EvidenceRecorder, recordId: Text) returns (r: Result<RunnerResult<O>, Message>)
      requires recorder.Valid() && recorder.steps == [] && recorder.eventService == eventService
      modifies recorder, eventService, decisionLog
      ensures RunOf(hash, w).Err? ==> r == Err(RunOf(hash, w).error) && decisionLog.records == old(decisionLog.records)
      ensures RunOf(hash, w).Ok? ==> r.Ok? && recorder.records == EvidenceOf(recorder.next, write, RunOf(hash, w).value.ending)
      ensures RunOf(hash, w).Ok? ==>
        r.value == ResultOf(summarize, recorder.stamps, recorder.records, w, RunOf(hash, w).value.front, RunOf(hash, w).value.ending)
      ensures r.Ok? ==> decisionLog.records == old(decisionLog.records) + [LogOf(w, r.value, recordId)]
      ensures r.Ok? ==>
        && AnnouncesEach(recorder.before, eventService.events, recorder.stamps, recorder.records)
        && eventService.events[|recorder.before| + |recorder.records|..] == [DecisionMade(w.templateId, r.value.verdict, recorder.stamps)]
      ensures r.Err? ==> DecisionTable.ThrowsWith(w, r.error)
      ensures r.Ok? ==> forall m :: !DecisionTable.ThrowsWith(w, m)
      ensures r.Ok? ==> Reports(r.value, w, summarize, recorder.stamps, recorder.records)
      ensures r.Ok? ==> |decisionLog.records| > 0 && Logs(decisionLog.records[|decisionLog.records| - 1], w, r.value, recordId)
      ensures r.Ok? ==> Writes(recorder.steps, hash, write, w, r.value) && recorder.records == ChainOf(recorder.next, recorder.steps)
    {
      hide Reports, Logs, Writes, AnnouncesEach, DecisionTable.ThrowsWith;
      RunThrows(hash, w);
      var journal := new Journal(write, recorder);
      var front, aborts := Prepare(w, journal);
      if front.Err? {
        return Err(front.error);
      }
      var decided := Decide(hash, w, front.value, aborts, journal);
      if decided.Err? {
        return Err(decided.error);
      }
      var result := Finalize(w, front.value, decided.value, EndingOf(hash, w, front.value).value, aborts, journal, recordId);
      RunReported(hash, write, summarize, recorder.stamps, recorder.records, w, recordId);
      EventsAnnounced(recorder.before, recorder.stamps, recorder.records, DecisionMade(w.templateId, result.verdict, recorder.stamps));
      return Ok(result);
    }
  }
}
