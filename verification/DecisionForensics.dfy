/**
 * What a head hash proves about a decision run: without a collision it pins the policy
 * verdicts that were recorded and the verdict that was returned.
 */
module DecisionForensics {
  import opened Utf16
  import opened Wrappers
  import opened Entries
  import opened CanonicalJson
  import opened CanonicalJsonProofs
  import opened EvidenceChains
  import opened EvidenceRecording
  import opened DecisionRunners
  import opened DecisionEvidence
  import opened DecisionPipelines
  import opened DecisionTheorems

  lemma VerdictTextPins(a: Verdict, b: Verdict)
    requires VerdictText(a) == VerdictText(b)
    ensures a == b
  {
    assert |Lit("allow")| == 5 && |Lit("approve_required")| == 16 && |Lit("deny")| == 4;
  }

  lemma DecisionTextPins(a: DecisionVerdict, b: DecisionVerdict)
    requires DecisionText(a) == DecisionText(b)
    ensures a == b
  {
    assert |Lit("completed")| == 9 && |Lit("blocked")| == 7 && |Lit("approval_required")| == 17;
    assert |Lit("safe_block")| == 10 && |Lit("failed")| == 6;
  }

  lemma ModeTextPins(a: Mode, b: Mode)
    requires ModeText(a) == ModeText(b)
    ensures a == b
  {
    assert Lit("enforce")[0] != Lit("observe")[0];
  }

  /** Records with the same keys in the same order are the same value only field by field. */
  lemma SameFieldwise(fs: seq<Entry<Json>>, gs: seq<Entry<Json>>, i: nat)
    requires SameValue(Obj(fs), Obj(gs)) && i < |fs| && i < |gs| && fs[i].key == gs[i].key
    ensures SameValue(fs[i].val, gs[i].val)
  {
  }

  lemma SameStrings(s: Text, t: Text)
    requires SameValue(Str(s), Str(t))
    ensures s == t
  {
  }

  lemma MatchedPins(a: MatchedPolicy, b: MatchedPolicy)
    requires SameValue(MatchedJson(a), MatchedJson(b))
    ensures a == b
  {
    var fs, gs := MatchedJson(a).fields, MatchedJson(b).fields;
    SameFieldwise(fs, gs, 0);
    SameFieldwise(fs, gs, 1);
    SameFieldwise(fs, gs, 2);
    SameFieldwise(fs, gs, 3);
    SameStrings(a.ruleId, b.ruleId);
    SameStrings(a.ruleName, b.ruleName);
    SameStrings(VerdictText(a.verdict), VerdictText(b.verdict));
    SameStrings(a.reason, b.reason);
    VerdictTextPins(a.verdict, b.verdict);
  }

  lemma MatchesPin(a: seq<MatchedPolicy>, b: seq<MatchedPolicy>)
    requires SameValue(MatchedArray(a), MatchedArray(b))
    ensures a == b
  {
    var xs, ys := MatchedArray(a).items, MatchedArray(b).items;
    assert |xs| == |a| && |ys| == |b| && |xs| == |ys|;
    forall i | 0 <= i < |a| ensures a[i] == b[i] {
      assert SameValue(xs[i], ys[i]);
      MatchedPins(a[i], b[i]);
    }
  }

  /** The recorded payload determines both verdicts, the mode and the matched policies. */
  lemma PolicyFactPinned(a: Fact, b: Fact)
    requires a.PolicyEvaluated? && b.PolicyEvaluated?
    requires SameValue(StepOf(a).payload, StepOf(b).payload)
    ensures a == b
  {
    var fs, gs := StepOf(a).payload.fields, StepOf(b).payload.fields;
    SameFieldwise(fs, gs, 0);
    SameFieldwise(fs, gs, 1);
    SameFieldwise(fs, gs, 2);
    SameFieldwise(fs, gs, 3);
    SameStrings(VerdictText(a.effective), VerdictText(b.effective));
    SameStrings(VerdictText(a.observed), VerdictText(b.observed));
    SameStrings(ModeText(a.mode), ModeText(b.mode));
    VerdictTextPins(a.effective, b.effective);
    VerdictTextPins(a.observed, b.observed);
    ModeTextPins(a.mode, b.mode);
    MatchesPin(a.matchedPolicies, b.matchedPolicies);
  }

  /** The recorded payload determines the verdict that was returned. */
  lemma FinalFactPinned(a: Fact, b: Fact)
    requires a.Finalized? && b.Finalized?
    requires SameValue(StepOf(a).payload, StepOf(b).payload)
    ensures a.verdict == b.verdict
  {
    var fs, gs := StepOf(a).payload.fields, StepOf(b).payload.fields;
    SameFieldwise(fs, gs, 0);
    SameStrings(DecisionText(a.verdict), DecisionText(b.verdict));
    DecisionTextPins(a.verdict, b.verdict);
  }

  /** Chains that verification cannot tell apart show the same payloads at every place. */
  lemma SameShown(a: seq<EvidenceRecord>, b: seq<EvidenceRecord>, i: nat, x: Fact, y: Fact, s: Stamps, t: Stamps)
    requires SameChain(a, b) && i < |a|
    requires Shows(a[i], i, StepOf(x), s) && Shows(b[i], i, StepOf(y), t)
    ensures SameValue(StepOf(x).payload, StepOf(y).payload)
  {
    assert SameEvidence(a[i], b[i]);
  }

  /** Every record shows its fact, as written. */
  ghost predicate ShowsAll(x: seq<EvidenceRecord>, trail: seq<Fact>, s: Stamps) {
    |x| == |trail| && forall i {:trigger x[i]} :: 0 <= i < |x| ==> Shows(x[i], i, StepOf(trail[i]), s)
  }

  lemma SamePolicyFact(x: seq<EvidenceRecord>, y: seq<EvidenceRecord>, s: Stamps, t: Stamps, a: seq<Fact>, b: seq<Fact>, i: nat)
    requires SameChain(x, y) && ShowsAll(x, a, s) && ShowsAll(y, b, t) && i < |x|
    requires a[i].PolicyEvaluated? && b[i].PolicyEvaluated?
    ensures a[i] == b[i]
  {
    SameShown(x, y, i, a[i], b[i], s, t);
    PolicyFactPinned(a[i], b[i]);
  }

  lemma SameFinalFact(x: seq<EvidenceRecord>, y: seq<EvidenceRecord>, s: Stamps, t: Stamps, a: seq<Fact>, b: seq<Fact>, i: nat)
    requires SameChain(x, y) && ShowsAll(x, a, s) && ShowsAll(y, b, t) && i < |x|
    requires a[i].Finalized? && b[i].Finalized?
    ensures a[i].verdict == b[i].verdict
  {
    SameShown(x, y, i, a[i], b[i], s, t);
    FinalFactPinned(a[i], b[i]);
  }

  /** Indistinguishable evidence of two runs: the same policy answer and the same verdict. */
  lemma SameDecision<I, R, O>(x: seq<EvidenceRecord>, y: seq<EvidenceRecord>, s: Stamps, t: Stamps, a: seq<Fact>, b: seq<Fact>,
                              w: World<I, R, O>, f: Finish<R, O>, w': World<I, R, O>, f': Finish<R, O>)
    requires SameChain(x, y) && ShowsAll(x, a, s) && ShowsAll(y, b, t)
    requires RunTrail(w, f, a) && RunTrail(w', f', b)
    ensures f.front.policy == f'.front.policy && w.mode == w'.mode && f.ending.verdict == f'.ending.verdict
  {
    SamePolicyFact(x, y, s, t, a, b, 2);
    SameFinalFact(x, y, s, t, a, b, |x| - 1);
  }

  lemma RunEvidence<O>(sha: Hash, s: Stamps, e: Ending<O>, x: seq<EvidenceRecord>)
    requires x == EvidenceOf(RecordingOf(sha, s), StepOf, e)
    ensures Linked(sha, x) && ShowsAll(x, Trail(e), s)
  {
    EvidenceShowsTrail(sha, s, StepOf, e);
  }

  /**
   * Two runs whose evidence has the same head hash recorded the same observed policy verdict,
   * mode and matched policies, and returned the same verdict; otherwise the proof yields two
   * different texts, one hashed by each run, with the same digest.
   */
  lemma HeadHashPinsDecision<I, R, O>(sha: Hash, hash: Hashing, s: Stamps, t: Stamps, w: World<I, R, O>, w': World<I, R, O>,
                                      x: seq<EvidenceRecord>, y: seq<EvidenceRecord>)
    returns (c: Comparison)
    requires RunOf(hash, w).Ok? && x == EvidenceOf(RecordingOf(sha, s), StepOf, RunOf(hash, w).value.ending)
    requires RunOf(hash, w').Ok? && y == EvidenceOf(RecordingOf(sha, t), StepOf, RunOf(hash, w').value.ending)
    requires x != [] && y != [] && x[|x| - 1].auditHash == y[|y| - 1].auditHash
    ensures c == Same ==> RunOf(hash, w).value.front.policy == RunOf(hash, w').value.front.policy && w.mode == w'.mode
    ensures c == Same ==> RunOf(hash, w).value.ending.verdict == RunOf(hash, w').value.ending.verdict
    ensures c != Same ==> IsCollision(sha, x, y, c)
  {
    var f, f' := RunOf(hash, w).value, RunOf(hash, w').value;
    RunEvidence(sha, s, f.ending, x);
    RunEvidence(sha, t, f'.ending, y);
    c := TamperEvidence(sha, x, y);
    if c == Same {
      TrailShape(hash, w);
      TrailShape(hash, w');
      SameDecision(x, y, s, t, Trail(f.ending), Trail(f'.ending), w, f, w', f');
    }
  }
}
