/** The recorder of one decision run: every step becomes a record linked to the one before. */
module EvidenceRecording {
  import opened Utf16
  import opened Wrappers
  import opened Entries
  import opened EcmaNumber
  import opened CanonicalJson
  import opened ObjectGraph
  import opened EvidenceChains

  type GoodJson = v: Json | WellKeyed(v) witness Null

  /** An evidence step whose payload can be serialized. */
  datatype Step = Step(operationType: Text, payload: GoodJson)

  /** Who the run belongs to, and the id and time its n-th record is given. */
  datatype Stamps = Stamps(tenantId: Text, correlationId: Text, id: nat -> Text, time: nat -> Text)

  /** The record that a step becomes after the given ones. */
  type Recording = (seq<EvidenceRecord>, Step) -> EvidenceRecord

  function RecordOf(sha: Hash, stamps: Stamps, before: seq<EvidenceRecord>, step: Step): EvidenceRecord {
    NextRecord(sha, before, stamps.id(|before|), stamps.correlationId, stamps.tenantId, stamps.time(|before|), step.operationType,
               Ok(step.payload))
  }

  function RecordingOf(sha: Hash, stamps: Stamps): Recording {
    (before: seq<EvidenceRecord>, step: Step) => RecordOf(sha, stamps, before, step)
  }

  /** The records that a list of steps leaves. */
  function ChainOf(next: Recording, steps: seq<Step>): (records: seq<EvidenceRecord>)
    ensures |records| == |steps|
  {
    if steps == [] then []
    else
      var before := ChainOf(next, steps[..|steps| - 1]);
      before + [next(before, steps[|steps| - 1])]
  }

  lemma ChainSnoc(next: Recording, steps: seq<Step>, step: Step)
    ensures ChainOf(next, steps + [step]) == ChainOf(next, steps) + [next(ChainOf(next, steps), step)]
  {
    assert (steps + [step])[..|steps|] == steps;
  }

  /** Verification accepts the chain of any list of steps. */
  lemma {:induction false} ChainLinked(sha: Hash, stamps: Stamps, steps: seq<Step>)
    ensures Linked(sha, ChainOf(RecordingOf(sha, stamps), steps))
  {
    if steps != [] {
      var next := RecordingOf(sha, stamps);
      var init, last := steps[..|steps| - 1], steps[|steps| - 1];
      ChainLinked(sha, stamps, init);
      LinkedSnoc(sha, ChainOf(next, init), next(ChainOf(next, init), last));
    }
  }

  /** Record i shows step i: its number, type and payload, and its run, id and time. */
  predicate Shows(r: EvidenceRecord, i: nat, step: Step, stamps: Stamps) {
    && r.sequence == NatNumber(i) && r.operationType == step.operationType && r.payload == Ok(step.payload)
    && r.tenantId == stamps.tenantId && r.correlationId == stamps.correlationId
    && r.id == stamps.id(i) && r.timestamp == stamps.time(i)
  }

  /** r shows the step and continues the chain before it. */
  ghost predicate Next(sha: Hash, stamps: Stamps, before: seq<EvidenceRecord>, r: EvidenceRecord, step: Step) {
    && Shows(r, |before|, step, stamps)
    && Continues(sha, before, r, stamps.id(|before|), stamps.correlationId, stamps.tenantId, stamps.time(|before|),
                 step.operationType, step.payload)
  }

  /** Record by record, the steps, each continuing the chain before it. */
  ghost predicate ShowsSteps(sha: Hash, stamps: Stamps, records: seq<EvidenceRecord>, steps: seq<Step>) {
    |records| == |steps| && forall i :: 0 <= i < |records| ==> Next(sha, stamps, records[..i], records[i], steps[i])
  }

  lemma RecordIsNext(sha: Hash, stamps: Stamps, before: seq<EvidenceRecord>, step: Step)
    ensures Next(sha, stamps, before, RecordOf(sha, stamps, before, step), step)
  {
    NextContinues(sha, before, stamps.id(|before|), stamps.correlationId, stamps.tenantId, stamps.time(|before|),
                  step.operationType, Ok(step.payload));
  }

  lemma ShowsMore(sha: Hash, stamps: Stamps, before: seq<EvidenceRecord>, r: EvidenceRecord, steps: seq<Step>, step: Step)
    requires ShowsSteps(sha, stamps, before, steps) && Next(sha, stamps, before, r, step)
    ensures ShowsSteps(sha, stamps, before + [r], steps + [step])
  {
    hide Next;
    var records := before + [r];
    forall i | 0 <= i < |records| ensures Next(sha, stamps, records[..i], records[i], (steps + [step])[i]) {
      assert records[..i] == before[..i];
      assert before[..|before|] == before;
    }
  }

  lemma ChainLast(sha: Hash, stamps: Stamps, steps: seq<Step>)
    requires steps != []
    ensures var before := ChainOf(RecordingOf(sha, stamps), steps[..|steps| - 1]);
      ChainOf(RecordingOf(sha, stamps), steps) == before + [RecordOf(sha, stamps, before, steps[|steps| - 1])]
  {
    hide RecordOf;
  }

  /** The chain of a list of steps shows them. */
  lemma {:induction false} ChainShows(sha: Hash, stamps: Stamps, steps: seq<Step>)
    ensures ShowsSteps(sha, stamps, ChainOf(RecordingOf(sha, stamps), steps), steps)
  {
    if steps == [] {
      assert ChainOf(RecordingOf(sha, stamps), steps) == [];
    } else {
      ChainLast(sha, stamps, steps);
      hide *;
      var n := |steps| - 1;
      var before := ChainOf(RecordingOf(sha, stamps), steps[..n]);
      ChainShows(sha, stamps, steps[..n]);
      RecordIsNext(sha, stamps, before, steps[n]);
      ShowsMore(sha, stamps, before, RecordOf(sha, stamps, before, steps[n]), steps[..n], steps[n]);
      assert steps[..n] + [steps[n]] == steps;
    }
  }

  datatype DecisionVerdict = Completed | BlockedVerdict | ApprovalRequired | SafeBlock | Failed

  datatype Event =
    | EvidenceAppended(operationType: Text, sequence: nat, auditHash: Text, correlationId: Text, tenantId: Text)
    | DecisionMade(templateId: Text, verdict: DecisionVerdict, stamps: Stamps)

  class EventService {
    var events: seq<Event>

    constructor ()
      ensures events == []
    {
      events := [];
    }

    method Emit(e: Event)
      modifies this
      ensures events == old(events) + [e]
    {
      events := events + [e];
    }
  }

  /** One announcement per record, in order. */
  function Announcements(stamps: Stamps, records: seq<EvidenceRecord>): seq<Event> {
    seq(|records|, i requires 0 <= i < |records| =>
      EvidenceAppended(records[i].operationType, i, records[i].auditHash, stamps.correlationId, stamps.tenantId))
  }

  /** The events after `before` announce each record, in order. */
  ghost predicate AnnouncesEach(before: seq<Event>, after: seq<Event>, stamps: Stamps, records: seq<EvidenceRecord>) {
    && |after| >= |before| + |records| && after[..|before|] == before
    && forall i :: 0 <= i < |records| ==>
      after[|before| + i] ==
        EvidenceAppended(operationType := records[i].operationType, sequence := i, auditHash := records[i].auditHash,
                         correlationId := stamps.correlationId, tenantId := stamps.tenantId)
  }

  lemma AnnouncementsSnoc(stamps: Stamps, records: seq<EvidenceRecord>, r: EvidenceRecord)
    ensures Announcements(stamps, records + [r]) == Announcements(stamps, records)
      + [EvidenceAppended(r.operationType, |records|, r.auditHash, stamps.correlationId, stamps.tenantId)]
  {
  }

  class EvidenceRecorder {
    const stamps: Stamps
    const next: Recording
    const eventService: EventService
    ghost const before: seq<Event>
    var records: seq<EvidenceRecord>
    var headHash: Option<Text>
    ghost var steps: seq<Step>

    constructor (sha: Hash, stamps: Stamps, eventService: EventService)
      ensures this.next == RecordingOf(sha, stamps) && this.stamps == stamps && this.eventService == eventService
      ensures before == eventService.events && Valid() && steps == []
    {
      this.next, this.stamps, this.eventService := RecordingOf(sha, stamps), stamps, eventService;
      this.before := eventService.events;
      records, headHash, steps := [], None, [];
    }

    /** The records are the chain of the steps so far, each announced once; the head is the last audit hash. */
    ghost predicate Valid()
      reads this, eventService
    {
      && records == ChainOf(next, steps)
      && headHash == PreviousOf(records, |records|)
      && eventService.events == before + Announcements(stamps, records)
    }

    /** Appends one step and announces it; a payload that cannot be serialized throws and changes nothing. */
    method Append(operationType: Text, payload: Payload) returns (r: Result<EvidenceRecord, SerialError>)
      requires Valid()
      modifies this, eventService
      ensures Valid()
      ensures payload.Err? ==> r == Err(payload.error) && steps == old(steps)
      ensures payload.Ok? ==> steps == old(steps) + [Step(operationType, payload.value)]
      ensures payload.Ok? ==> r.Ok? && records == old(records) + [r.value]
    {
      if payload.Err? {
        return Err(payload.error);
      }
      var step := Step(operationType, payload.value);
      var record := next(records, step);
      ChainSnoc(next, steps, step);
      AnnouncementsSnoc(stamps, records, record);
      eventService.Emit(EvidenceAppended(record.operationType, |records|, record.auditHash, stamps.correlationId, stamps.tenantId));
      records := records + [record];
      headHash := Some(record.auditHash);
      steps := steps + [step];
      return Ok(record);
    }

    /** A step whose payload is plain data. */
    method Record(step: Step)
      requires Valid()
      modifies this, eventService
      ensures Valid() && steps == old(steps) + [step]
    {
      var r := Append(step.operationType, Ok(step.payload));
    }
  }
}
