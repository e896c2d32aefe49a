/**
 * Resolving approval requests: the repository, separation of duties, and any number of
 * concurrent resolve calls, each of which first reads and later checks and writes.
 */
module Approvals {
  import opened Wrappers
  import opened Strings

  datatype Status = Pending | Approved | Rejected | Expired | Cancelled

  datatype ApprovalRequest = ApprovalRequest(
    id: string,
    tenantId: string,
    status: Status,
    requestedBy: string,
    resolvedBy: Option<string>,
    resolvedAt: Option<int>,
    resolutionNotes: Option<string>,
    updatedAt: int)

  // ---------------------------------------------------------------------- the repository

  type Store = map<string, map<string, ApprovalRequest>>

  function Find(store: Store, t: string, id: string): Option<ApprovalRequest> {
    if t in store && id in store[t] then Some(store[t][id]) else None
  }

  function Put(store: Store, t: string, id: string, r: ApprovalRequest): Store {
    store[t := (if t in store then store[t] else map[])[id := r]]
  }

  lemma PutMeaning(store: Store, t: string, id: string, r: ApprovalRequest, u: string, other: string)
    ensures Find(Put(store, t, id, r), u, other) == if u == t && other == id then Some(r) else Find(store, u, other)
  {
  }

  datatype Decision = Approve | Reject

  function StatusOf(d: Decision): Status {
    if d.Approve? then Approved else Rejected
  }

  function Resolved(r: ApprovalRequest, d: Decision, resolver: string, notes: Option<string>, now: int): ApprovalRequest {
    r.(status := StatusOf(d), resolvedBy := Some(resolver), resolvedAt := Some(now), resolutionNotes := notes, updatedAt := now)
  }

  /** r as stored before, now resolved: everything but the five resolution fields stays. */
  ghost predicate ResolvedFrom(after: ApprovalRequest, before: ApprovalRequest, d: Decision, resolver: string,
                               notes: Option<string>, now: int) {
    && after.id == before.id && after.tenantId == before.tenantId && after.requestedBy == before.requestedBy
    && (d == Approve <==> after.status == Approved) && (d == Reject <==> after.status == Rejected)
    && after.resolvedBy == Some(resolver) && after.resolvedAt == Some(now) && after.resolutionNotes == notes
    && after.updatedAt == now
  }

  class ApprovalRepository {
    var store: Store

    constructor ()
      ensures store == map[]
    {
      store := map[];
    }

    /** The caller's input carries its own status; nothing is resolved yet. */
    method Create(t: string, id: string, status: Status, requestedBy: string, now: int) returns (r: ApprovalRequest)
      modifies this
      ensures r == ApprovalRequest(id, t, status, requestedBy, None, None, None, now)
      ensures store == Put(old(store), t, id, r)
    {
      r := ApprovalRequest(id, t, status, requestedBy, None, None, None, now);
      store := Put(store, t, id, r);
    }

    method FindById(t: string, id: string) returns (r: Option<ApprovalRequest>)
      ensures r == Find(store, t, id)
    {
      r := Find(store, t, id);
    }

    /** Overwrites the status of whatever is stored now; it does not look at the old status. */
    method UpdateStatus(t: string, id: string, d: Decision, resolver: string, notes: Option<string>, now: int)
      returns (r: Option<ApprovalRequest>)
      modifies this
      ensures Find(old(store), t, id).None? ==> r == None && store == old(store)
      ensures Find(old(store), t, id).Some? ==> r == Some(Resolved(Find(old(store), t, id).value, d, resolver, notes, now))
      ensures r.Some? ==> ResolvedFrom(r.value, Find(old(store), t, id).value, d, resolver, notes, now)
      ensures r.Some? ==> store == Put(old(store), t, id, r.value)
    {
      var existing := Find(store, t, id);
      if existing.None? {
        return None;
      }
      var updated := Resolved(existing.value, d, resolver, notes, now);
      store := Put(store, t, id, updated);
      return Some(updated);
    }
  }

  // ---------------------------------------------------------------------- separation of duties

  /** The expiry is None when it is not a date. */
  datatype BreakGlass = BreakGlass(reason: string, expiresAt: Option<int>)

  datatype Refusal = SelfApproval | NeedsCeoRole | NeedsReason | NeedsFutureExpiry

  function CheckSeparationOfDuties(requestedBy: string, resolvedBy: string, resolverRoles: seq<string>,
                                   breakGlass: Option<BreakGlass>, now: int): Option<Refusal> {
    if requestedBy != resolvedBy then None
    else if breakGlass.None? then Some(SelfApproval)
    else if "ceo" !in resolverRoles then Some(NeedsCeoRole)
    else if breakGlass.value.reason == "" || Trim(breakGlass.value.reason) == "" then Some(NeedsReason)
    else if breakGlass.value.expiresAt.None? || breakGlass.value.expiresAt.value <= now then Some(NeedsFutureExpiry)
    else None
  }

  datatype ResolveInput = ResolveInput(
    tenantId: string,
    approvalId: string,
    decision: Decision,
    resolvedBy: string,
    resolverRoles: seq<string>,
    resolutionNotes: Option<string>,
    breakGlass: Option<BreakGlass>)

  /** The chief executive, with a reason that is not blank and an expiry in the future. */
  predicate BreakGlassHolds(input: ResolveInput, now: int) {
    && input.breakGlass.Some?
    && "ceo" in input.resolverRoles
    && !Blank(input.breakGlass.value.reason)
    && input.breakGlass.value.expiresAt.Some?
    && now < input.breakGlass.value.expiresAt.value
  }

  /** May this input approve that requester's request? */
  predicate MayApprove(requestedBy: string, input: ResolveInput, now: int) {
    requestedBy != input.resolvedBy || BreakGlassHolds(input, now)
  }

  lemma SeparationOfDuties(requestedBy: string, input: ResolveInput, now: int)
    ensures CheckSeparationOfDuties(requestedBy, input.resolvedBy, input.resolverRoles, input.breakGlass, now) == None
      <==> MayApprove(requestedBy, input, now)
  {
  }

  // ---------------------------------------------------------------------- one call

  datatype Outcome =
    | Updated(request: ApprovalRequest)
    | NotFound
    | AlreadyResolved(status: Status)
    | Refused(refusal: Refusal)
    | Vanished

  /** The checks on the request as it was read; None lets the write go ahead. */
  function Verdict(existing: Option<ApprovalRequest>, input: ResolveInput, now: int): Option<Outcome> {
    if existing.None? then Some(NotFound)
    else if existing.value.status != Pending then Some(AlreadyResolved(existing.value.status))
    else if input.decision == Approve then
      match CheckSeparationOfDuties(existing.value.requestedBy, input.resolvedBy, input.resolverRoles, input.breakGlass, now)
      case Some(refusal) => Some(Refused(refusal))
      case None => None
    else None
  }

  /** What the write step stores and answers, given what was read and what is stored now. */
  function WriteResult(store: Store, existing: Option<ApprovalRequest>, input: ResolveInput, now: int): (Store, Outcome) {
    match Verdict(existing, input, now)
    case Some(refused) => (store, refused)
    case None =>
      match Find(store, input.tenantId, input.approvalId)
      case None => (store, Vanished)
      case Some(current) =>
        var r := Resolved(current, input.decision, input.resolvedBy, input.resolutionNotes, now);
        (Put(store, input.tenantId, input.approvalId, r), Updated(r))
  }

  /** The first of the conditions for approving one's own request that does not hold. */
  ghost predicate RefusedFor(refusal: Refusal, input: ResolveInput, now: int) {
    var glass := input.breakGlass;
    var ceo := "ceo" in input.resolverRoles;
    && (refusal == SelfApproval <==> glass.None?)
    && (refusal == NeedsCeoRole <==> glass.Some? && !ceo)
    && (refusal == NeedsReason <==> glass.Some? && ceo && Blank(glass.value.reason))
    && (refusal == NeedsFutureExpiry <==>
          glass.Some? && ceo && !Blank(glass.value.reason) && (glass.value.expiresAt.None? || glass.value.expiresAt.value <= now))
  }

  /** What a call answers and leaves stored, by the request it read and the one stored when it writes. */
  ghost predicate Answers(outcome: Outcome, existing: Option<ApprovalRequest>, before: Option<ApprovalRequest>,
                          after: Option<ApprovalRequest>, input: ResolveInput, now: int) {
    var allowed := existing.Some? && existing.value.status == Pending
                   && (input.decision == Reject || MayApprove(existing.value.requestedBy, input, now));
    && (outcome == NotFound <==> existing.None?)
    && (outcome.AlreadyResolved? <==> existing.Some? && existing.value.status != Pending)
    && (outcome.AlreadyResolved? ==> outcome.status == existing.value.status)
    && (outcome.Refused? <==> existing.Some? && existing.value.status == Pending && !allowed)
    && (outcome.Refused? ==> RefusedFor(outcome.refusal, input, now))
    && (outcome == Vanished <==> allowed && before.None?)
    && (outcome.Updated? <==> allowed && before.Some?)
    && (if outcome.Updated? then
          && after == Some(outcome.request)
          && ResolvedFrom(outcome.request, before.value, input.decision, input.resolvedBy, input.resolutionNotes, now)
        else after == before)
  }

  /** The write step answers as told, and touches no other request. */
  lemma WriteAnswers(store: Store, existing: Option<ApprovalRequest>, input: ResolveInput, now: int)
    ensures var (after, outcome) := WriteResult(store, existing, input, now);
      && Answers(outcome, existing, Find(store, input.tenantId, input.approvalId), Find(after, input.tenantId, input.approvalId), input, now)
      && forall t, id :: (t, id) != (input.tenantId, input.approvalId) ==> Find(after, t, id) == Find(store, t, id)
  {
    if existing.Some? {
      SeparationOfDuties(existing.value.requestedBy, input, now);
      if input.decision == Approve && existing.value.requestedBy == input.resolvedBy && !BreakGlassHolds(input, now) {
        RefusalMeans(existing.value.requestedBy, input, now);
      }
    }
  }

  lemma RefusalMeans(requestedBy: string, input: ResolveInput, now: int)
    requires requestedBy == input.resolvedBy && !BreakGlassHolds(input, now)
    ensures var r := CheckSeparationOfDuties(requestedBy, input.resolvedBy, input.resolverRoles, input.breakGlass, now);
      r.Some? && RefusedFor(r.value, input, now)
  {
    assert Blank("");
  }

  /** A call that nothing interrupts. */
  method ResolveApprovalRequest(repo: ApprovalRepository, input: ResolveInput, now: int) returns (outcome: Outcome)
    modifies repo
    ensures (repo.store, outcome) ==
      WriteResult(old(repo.store), Find(old(repo.store), input.tenantId, input.approvalId), input, now)
    ensures var read := Find(old(repo.store), input.tenantId, input.approvalId);
      Answers(outcome, read, read, Find(repo.store, input.tenantId, input.approvalId), input, now)
    ensures forall t, id :: (t, id) != (input.tenantId, input.approvalId) ==> Find(repo.store, t, id) == Find(old(repo.store), t, id)
  {
    hide Answers, ResolvedFrom;
    WriteAnswers(repo.store, Find(repo.store, input.tenantId, input.approvalId), input, now);
    var existing := repo.FindById(input.tenantId, input.approvalId);
    if existing.None? {
      return NotFound;
    }
    if existing.value.status != Pending {
      return AlreadyResolved(existing.value.status);
    }
    if input.decision == Approve {
      var sod := CheckSeparationOfDuties(existing.value.requestedBy, input.resolvedBy, input.resolverRoles, input.breakGlass, now);
      if sod.Some? {
        return Refused(sod.value);
      }
    }
    var updated := repo.UpdateStatus(input.tenantId, input.approvalId, input.decision, input.resolvedBy, input.resolutionNotes, now);
    if updated.None? {
      return Vanished;
    }
    return Updated(updated.value);
  }

  // ---------------------------------------------------------------------- concurrent calls

  datatype Phase = Started | HasRead(existing: Option<ApprovalRequest>) | Finished(outcome: Outcome)

  datatype Call = Call(input: ResolveInput, phase: Phase)

  datatype System = System(store: Store, calls: seq<Call>)

  datatype Event =
    | CreateRequest(tenantId: string, id: string, status: Status, requestedBy: string, now: int)
    | BeginCall(input: ResolveInput)
    | ReadStep(call: nat)
    | WriteStep(call: nat, now: int)

  function KeyOf(input: ResolveInput): (string, string) {
    (input.tenantId, input.approvalId)
  }

  /** Ids are fresh; a call reads once, then checks and writes once. */
  predicate Enabled(s: System, e: Event) {
    match e
    case CreateRequest(t, id, _, _, _) => Find(s.store, t, id).None?
    case BeginCall(_) => true
    case ReadStep(k) => k < |s.calls| && s.calls[k].phase.Started?
    case WriteStep(k, _) => k < |s.calls| && s.calls[k].phase.HasRead?
  }

  function Next(s: System, e: Event): System
    requires Enabled(s, e)
  {
    match e
    case CreateRequest(t, id, status, requestedBy, now) =>
      s.(store := Put(s.store, t, id, ApprovalRequest(id, t, status, requestedBy, None, None, None, now)))
    case BeginCall(input) => s.(calls := s.calls + [Call(input, Started)])
    case ReadStep(k) =>
      var c := s.calls[k];
      s.(calls := s.calls[k := c.(phase := HasRead(Find(s.store, c.input.tenantId, c.input.approvalId)))])
    case WriteStep(k, now) =>
      var c := s.calls[k];
      var (store, outcome) := WriteResult(s.store, c.phase.existing, c.input, now);
      System(store, s.calls[k := c.(phase := Finished(outcome))])
  }

  /** A call's two steps: it reads what is stored, and answers by what it read and by what is stored when it writes. */
  lemma CallSteps(s: System, k: nat, now: int)
    requires k < |s.calls|
    ensures Enabled(s, ReadStep(k)) ==>
      var s', input := Next(s, ReadStep(k)), s.calls[k].input;
      s'.store == s.store && s'.calls == s.calls[k := Call(input, HasRead(Find(s.store, input.tenantId, input.approvalId)))]
    ensures Enabled(s, WriteStep(k, now)) ==>
      var s', input, t, id := Next(s, WriteStep(k, now)), s.calls[k].input, s.calls[k].input.tenantId, s.calls[k].input.approvalId;
      && |s'.calls| == |s.calls| && s'.calls[k].input == input && s'.calls[k].phase.Finished?
      && Answers(s'.calls[k].phase.outcome, s.calls[k].phase.existing, Find(s.store, t, id), Find(s'.store, t, id), input, now)
      && (forall j :: 0 <= j < |s.calls| && j != k ==> s'.calls[j] == s.calls[j])
      && forall u, other :: (u, other) != (t, id) ==> Find(s'.store, u, other) == Find(s.store, u, other)
  {
    if Enabled(s, WriteStep(k, now)) {
      hide Answers;
      WriteAnswers(s.store, s.calls[k].phase.existing, s.calls[k].input, now);
    }
  }

  const EMPTY := System(map[], [])

  ghost predicate IsRun(events: seq<Event>, states: seq<System>) {
    && |states| == |events| + 1
    && states[0] == EMPTY
    && forall i :: 0 <= i < |events| ==> Enabled(states[i], events[i]) && states[i + 1] == Next(states[i], events[i])
  }

  // ---------------------------------------------------------------------- every interleaving

  /** What a call read is still there, with the same requester. */
  predicate StillThere(s: System, k: nat)
    requires k < |s.calls|
  {
    var c := s.calls[k];
    var r := Find(s.store, c.input.tenantId, c.input.approvalId);
    c.phase.HasRead? && c.phase.existing.Some? ==> r.Some? && r.value.requestedBy == c.phase.existing.value.requestedBy
  }

  ghost predicate Inv(s: System) {
    && (forall k :: 0 <= k < |s.calls| ==> StillThere(s, k))
    && (forall k :: 0 <= k < |s.calls| ==> s.calls[k].phase != Finished(Vanished))
  }

  lemma StepKeepsInv(s: System, e: Event)
    requires Inv(s) && Enabled(s, e)
    ensures Inv(Next(s, e))
  {
    var s' := Next(s, e);
    assert e.WriteStep? ==> StillThere(s, e.call);
    forall k | 0 <= k < |s'.calls| ensures StillThere(s', k) {
      assert k < |s.calls| ==> StillThere(s, k);
    }
  }

  lemma {:induction false} RunKeepsInv(events: seq<Event>, states: seq<System>, i: nat)
    requires IsRun(events, states) && i <= |events|
    ensures Inv(states[i])
  {
    if i > 0 {
      RunKeepsInv(events, states, i - 1);
      StepKeepsInv(states[i - 1], events[i - 1]);
    }
  }

  /** The call read the request while it was pending, and may write. */
  predicate ReadItPending(c: Call, now: int)
    requires c.phase.HasRead?
  {
    && c.phase.existing.Some? && c.phase.existing.value.status == Pending
    && (c.input.decision == Approve ==> MayApprove(c.phase.existing.value.requestedBy, c.input, now))
  }

  predicate Stands(s: System, t: string, id: string, status: Status) {
    Find(s.store, t, id).Some? && Find(s.store, t, id).value.status == status
  }

  predicate Creates(e: Event, t: string, id: string) {
    e.CreateRequest? && e.tenantId == t && e.id == id
  }

  /** Is this the writing step of a call on that request that read it pending and may write? */
  predicate Writes(s: System, e: Event, t: string, id: string)
    requires Enabled(s, e)
  {
    e.WriteStep? && KeyOf(s.calls[e.call].input) == (t, id) && ReadItPending(s.calls[e.call], e.now)
  }

  predicate Stores(s: System, e: Event, t: string, id: string)
    requires Enabled(s, e)
  {
    Creates(e, t, id) || Writes(s, e, t, id)
  }

  /** A step that does not store the request leaves it alone, and one that writes it stores the call's answer. */
  lemma StepStores(s: System, e: Event, t: string, id: string)
    requires Inv(s) && Enabled(s, e)
    ensures !Stores(s, e, t, id) ==> Find(Next(s, e).store, t, id) == Find(s.store, t, id)
    ensures Writes(s, e, t, id) ==> WritesAnswer(s, e, t, id)
  {
    if e.WriteStep? {
      var c := s.calls[e.call];
      assert StillThere(s, e.call);
      if c.phase.existing.Some? {
        SeparationOfDuties(c.phase.existing.value.requestedBy, c.input, e.now);
      }
    }
  }

  /** The stored request is resolved by the call, which finishes with it. */
  predicate WritesAnswer(s: System, e: Event, t: string, id: string)
    requires Enabled(s, e) && Writes(s, e, t, id)
  {
    var input, before, s' := s.calls[e.call].input, Find(s.store, t, id), Next(s, e);
    && before.Some? && before.value.requestedBy == s.calls[e.call].phase.existing.value.requestedBy
    && var r := Resolved(before.value, input.decision, input.resolvedBy, input.resolutionNotes, e.now);
       Find(s'.store, t, id) == Some(r) && s'.calls[e.call] == Call(input, Finished(Updated(r)))
  }

  /** Step j stored the request, and no step since then has stored it again. */
  ghost predicate StoredLast(events: seq<Event>, states: seq<System>, j: nat, i: nat, t: string, id: string)
    requires IsRun(events, states) && i <= |events|
  {
    && j < i && Stores(states[j], events[j], t, id)
    && forall m :: j < m < i ==> !Stores(states[m], events[m], t, id)
  }

  lemma {:induction false} LastStore(events: seq<Event>, states: seq<System>, i: nat, t: string, id: string) returns (j: nat)
    requires IsRun(events, states) && i <= |events| && Find(states[i].store, t, id).Some?
    ensures StoredLast(events, states, j, i, t, id)
  {
    if Stores(states[i - 1], events[i - 1], t, id) {
      j := i - 1;
    } else {
      RunKeepsInv(events, states, i - 1);
      StepStores(states[i - 1], events[i - 1], t, id);
      j := LastStore(events, states, i - 1, t, id);
    }
  }

  lemma {:induction false} UnstoredStays(events: seq<Event>, states: seq<System>, j: nat, i: nat, t: string, id: string)
    requires IsRun(events, states) && j <= i <= |events|
    requires forall m :: j <= m < i ==> !Stores(states[m], events[m], t, id)
    ensures Find(states[i].store, t, id) == Find(states[j].store, t, id)
    decreases i
  {
    if j < i {
      UnstoredStays(events, states, j, i - 1, t, id);
      RunKeepsInv(events, states, i - 1);
      StepStores(states[i - 1], events[i - 1], t, id);
    }
  }

  lemma {:induction false} FinishedStays(events: seq<Event>, states: seq<System>, j: nat, i: nat, k: nat)
    requires IsRun(events, states) && j <= i <= |events|
    requires k < |states[j].calls| && states[j].calls[k].phase.Finished?
    ensures k < |states[i].calls| && states[i].calls[k] == states[j].calls[k]
    decreases i
  {
    if j < i {
      FinishedStays(events, states, j, i - 1, k);
    }
  }

  lemma {:induction false} FoundStays(events: seq<Event>, states: seq<System>, j: nat, i: nat, t: string, id: string)
    requires IsRun(events, states) && j <= i <= |events| && Find(states[j].store, t, id).Some?
    ensures Find(states[i].store, t, id).Some?
    decreases i
  {
    if j < i {
      FoundStays(events, states, j, i - 1, t, id);
    }
  }

  /** A request is created by one step only. */
  lemma CreatedOnce(events: seq<Event>, states: seq<System>, b: nat, c: nat, t: string, id: string)
    requires IsRun(events, states) && b < |events| && c < |events|
    requires Creates(events[b], t, id) && Creates(events[c], t, id)
    ensures b == c
  {
    if b < c {
      FoundStays(events, states, b + 1, c, t, id);
    } else if c < b {
      FoundStays(events, states, c + 1, b, t, id);
    }
  }

  /** A call on this request can have read only this version of it. */
  predicate ReadsOnly(s: System, k: nat, t: string, id: string, r: ApprovalRequest)
    requires k < |s.calls|
  {
    KeyOf(s.calls[k].input) == (t, id) && s.calls[k].phase.HasRead? ==> s.calls[k].phase.existing in {None, Some(r)}
  }

  ghost predicate Settled(s: System, t: string, id: string, r: ApprovalRequest) {
    && Find(s.store, t, id) == Some(r)
    && forall k :: 0 <= k < |s.calls| ==> ReadsOnly(s, k, t, id, r)
  }

  lemma StepKeepsCreated(s: System, e: Event, t: string, id: string, r: ApprovalRequest)
    requires Inv(s) && Enabled(s, e) && Settled(s, t, id, r) && r.status != Pending
    ensures Settled(Next(s, e), t, id, r)
  {
    var s' := Next(s, e);
    assert e.WriteStep? ==> ReadsOnly(s, e.call, t, id, r);
    StepStores(s, e, t, id);
    forall k | 0 <= k < |s'.calls| ensures ReadsOnly(s', k, t, id, r) {
      assert k < |s.calls| ==> ReadsOnly(s, k, t, id, r);
    }
  }

  /** A request created in another status than pending stays as it was created. */
  lemma {:induction false} CreatedSettledStays(events: seq<Event>, states: seq<System>, c: nat, i: nat, t: string, id: string)
    requires IsRun(events, states) && c < i <= |events| && Creates(events[c], t, id) && events[c].status != Pending
    ensures var e := events[c];
      Settled(states[i], t, id, ApprovalRequest(id, t, e.status, e.requestedBy, None, None, None, e.now))
    decreases i
  {
    RunKeepsInv(events, states, i - 1);
    if i == c + 1 {
      var s, e := states[c], events[c];
      var r := ApprovalRequest(id, t, e.status, e.requestedBy, None, None, None, e.now);
      forall k | 0 <= k < |states[i].calls| ensures ReadsOnly(states[i], k, t, id, r) {
        assert StillThere(s, k);
      }
    } else {
      CreatedSettledStays(events, states, c, i - 1, t, id);
      var e := events[c];
      StepKeepsCreated(states[i - 1], events[i - 1], t, id,
                       ApprovalRequest(id, t, e.status, e.requestedBy, None, None, None, e.now));
    }
  }

  /**
   * What the last step to store the request did: it is the writing step of call k, which read the
   * request pending and answered with just what is stored now, resolved at the time of that step.
   */
  ghost predicate ResolvedByCall(events: seq<Event>, states: seq<System>, i: nat, t: string, id: string, j: nat, k: nat, now: int)
    requires IsRun(events, states) && i <= |events| && Find(states[i].store, t, id).Some?
  {
    var r := Find(states[i].store, t, id).value;
    && StoredLast(events, states, j, i, t, id) && events[j] == WriteStep(k, now)
    && k < |states[i].calls| && states[i].calls[k].phase == Finished(Updated(r))
    && var input := states[i].calls[k].input;
       && KeyOf(input) == (t, id) && r.status == StatusOf(input.decision)
       && r.resolvedBy == Some(input.resolvedBy) && r.resolvedAt == Some(now)
       && r.resolutionNotes == input.resolutionNotes && r.updatedAt == now
       && k < |states[j].calls| && states[j].calls[k].input == input && states[j].calls[k].phase.HasRead?
       && ReadItPending(states[j].calls[k], now)
       && r.requestedBy == states[j].calls[k].phase.existing.value.requestedBy
  }

  /** In every interleaving, a stored request is either as it was created or as the last call to write it left it. */
  lemma StoredMeans(events: seq<Event>, states: seq<System>, i: nat, t: string, id: string) returns (j: nat)
    requires IsRun(events, states) && i <= |events| && Find(states[i].store, t, id).Some?
    ensures StoredLast(events, states, j, i, t, id)
    ensures events[j].WriteStep? ==> ResolvedByCall(events, states, i, t, id, j, events[j].call, events[j].now)
    ensures events[j].CreateRequest? ==>
      Find(states[i].store, t, id) ==
        Some(ApprovalRequest(id, t, events[j].status, events[j].requestedBy, None, None, None, events[j].now))
  {
    j := LastStore(events, states, i, t, id);
    UnstoredStays(events, states, j + 1, i, t, id);
    RunKeepsInv(events, states, j);
    StepStores(states[j], events[j], t, id);
    if events[j].WriteStep? {
      FinishedStays(events, states, j + 1, i, events[j].call);
    }
  }

  /**
   * In every interleaving: a request that stands approved although it was not created so was last
   * stored by the writing step of a call, at the time it is resolved at; that call was allowed to
   * approve: when the resolver is the requester, its break-glass check held at that time.
   */
  lemma ApprovedMeansAllowed(events: seq<Event>, states: seq<System>, i: nat, t: string, id: string, c: nat)
    returns (j: nat, k: nat, now: int)
    requires IsRun(events, states) && c < i <= |events|
    requires Creates(events[c], t, id) && events[c].status != Approved
    requires Stands(states[i], t, id, Approved)
    ensures ResolvedByCall(events, states, i, t, id, j, k, now)
    ensures var r, input := Find(states[i].store, t, id).value, states[i].calls[k].input;
      input.decision == Approve && (input.resolvedBy == r.requestedBy ==> BreakGlassHolds(input, now))
  {
    j := StoredMeans(events, states, i, t, id);
    if events[j].CreateRequest? {
      CreatedOnce(events, states, j, c, t, id);
      assert false;
    }
    k, now := events[j].call, events[j].now;
  }

  /** Every stored request was created by a step of the run. */
  lemma {:induction false} WasCreated(events: seq<Event>, states: seq<System>, i: nat, t: string, id: string) returns (c: nat)
    requires IsRun(events, states) && i <= |events| && Find(states[i].store, t, id).Some?
    ensures c < i && Creates(events[c], t, id)
  {
    if Creates(events[i - 1], t, id) {
      c := i - 1;
    } else {
      c := WasCreated(events, states, i - 1, t, id);
    }
  }

  /** A request that stands approved has a resolver exactly when the step that created it did not create it approved. */
  lemma ApprovedWasResolved(events: seq<Event>, states: seq<System>, i: nat, t: string, id: string) returns (c: nat)
    requires IsRun(events, states) && i <= |events| && Stands(states[i], t, id, Approved)
    ensures c < i && Creates(events[c], t, id)
    ensures Find(states[i].store, t, id).value.resolvedBy.Some? <==> events[c].status != Approved
  {
    c := WasCreated(events, states, i, t, id);
    if events[c].status != Approved {
      var j, k, now := ApprovedMeansAllowed(events, states, i, t, id, c);
    } else {
      CreatedSettledStays(events, states, c, i, t, id);
    }
  }

  /** No call ever reports that its request vanished. */
  lemma NothingVanishes(events: seq<Event>, states: seq<System>, i: nat, k: nat)
    requires IsRun(events, states) && i <= |events| && k < |states[i].calls|
    ensures states[i].calls[k].phase != Finished(Vanished)
  {
    RunKeepsInv(events, states, i);
  }

  // ---------------------------------------------------------------------- calls that do not overlap

  /** No call reads a request between another call's read and write of it. */
  predicate Undisturbed(s: System, e: Event) {
    e.ReadStep? && e.call < |s.calls| ==>
      forall k :: 0 <= k < |s.calls| && s.calls[k].phase.HasRead? ==> KeyOf(s.calls[k].input) != KeyOf(s.calls[e.call].input)
  }

  /** What a call has read is what is stored, and no other call has read it too. */
  ghost predicate FreshReads(s: System) {
    && (forall k :: 0 <= k < |s.calls| && s.calls[k].phase.HasRead? && s.calls[k].phase.existing.Some? ==>
          Find(s.store, s.calls[k].input.tenantId, s.calls[k].input.approvalId) == s.calls[k].phase.existing)
    && (forall j, k :: 0 <= j < k < |s.calls| && s.calls[j].phase.HasRead? && s.calls[k].phase.HasRead? ==>
          KeyOf(s.calls[j].input) != KeyOf(s.calls[k].input))
  }

  lemma StepKeepsFresh(s: System, e: Event)
    requires FreshReads(s) && Enabled(s, e) && Undisturbed(s, e)
    ensures FreshReads(Next(s, e))
  {
  }

  /** With fresh reads, a request that has left pending is never changed again. */
  lemma StepKeepsSettled(s: System, e: Event, t: string, id: string)
    requires FreshReads(s) && Enabled(s, e)
    requires Find(s.store, t, id).Some? && Find(s.store, t, id).value.status != Pending
    ensures Find(Next(s, e).store, t, id) == Find(s.store, t, id)
  {
  }

  lemma {:induction false} RunKeepsFresh(events: seq<Event>, states: seq<System>, i: nat)
    requires IsRun(events, states) && i <= |events|
    requires forall j :: 0 <= j < |events| ==> Undisturbed(states[j], events[j])
    ensures FreshReads(states[i])
  {
    if i > 0 {
      RunKeepsFresh(events, states, i - 1);
      StepKeepsFresh(states[i - 1], events[i - 1]);
    }
  }

  /** When calls on one request do not overlap, it leaves pending at most once and then stays as it is. */
  lemma {:induction false} SettledForever(events: seq<Event>, states: seq<System>, i: nat, j: nat, t: string, id: string)
    requires IsRun(events, states) && i <= j <= |events|
    requires forall n :: 0 <= n < |events| ==> Undisturbed(states[n], events[n])
    requires Find(states[i].store, t, id).Some? && Find(states[i].store, t, id).value.status != Pending
    ensures Find(states[j].store, t, id) == Find(states[i].store, t, id)
    decreases j
  {
    if j > i {
      SettledForever(events, states, i, j - 1, t, id);
      RunKeepsFresh(events, states, j - 1);
      StepKeepsSettled(states[j - 1], events[j - 1], t, id);
    }
  }

  /** Without that, a write replaces a settled request exactly when its call read it while it was pending and may write. */
  lemma OverwritesExactly(s: System, k: nat, now: int)
    requires Enabled(s, WriteStep(k, now))
    requires Find(s.store, s.calls[k].input.tenantId, s.calls[k].input.approvalId).Some?
    ensures var c := s.calls[k];
      var before := Find(s.store, c.input.tenantId, c.input.approvalId);
      Find(Next(s, WriteStep(k, now)).store, c.input.tenantId, c.input.approvalId) ==
      if ReadItPending(c, now) then Some(Resolved(before.value, c.input.decision, c.input.resolvedBy, c.input.resolutionNotes, now))
      else before
  {
    var c := s.calls[k];
    if c.phase.existing.Some? {
      SeparationOfDuties(c.phase.existing.value.requestedBy, c.input, now);
    }
  }

  /** Both calls have read the request while it was pending: the second write turns the first one over. */
  lemma TwoWrites(s: System, t: string, id: string, j: nat, k: nat)
    requires j < |s.calls| && k < |s.calls| && j != k
    requires s.calls[j].phase.HasRead? && s.calls[k].phase.HasRead?
    requires KeyOf(s.calls[j].input) == KeyOf(s.calls[k].input) == (t, id)
    requires s.calls[j].input.decision == Approve && s.calls[k].input.decision == Reject
    requires Find(s.store, t, id).Some?
    requires ReadItPending(s.calls[j], 1) && ReadItPending(s.calls[k], 2)
    ensures Enabled(s, WriteStep(j, 1)) && Stands(Next(s, WriteStep(j, 1)), t, id, Approved)
    ensures var s' := Next(s, WriteStep(j, 1)); Enabled(s', WriteStep(k, 2)) && Stands(Next(s', WriteStep(k, 2)), t, id, Rejected)
  {
    OverwritesExactly(s, j, 1);
    OverwritesExactly(Next(s, WriteStep(j, 1)), k, 2);
  }

  lemma RunSnoc(events: seq<Event>, states: seq<System>, e: Event)
    requires IsRun(events, states) && Enabled(states[|events|], e)
    ensures IsRun(events + [e], states + [Next(states[|events|], e)])
  {
  }

  predicate ReadByBoth(s: System, approve: ResolveInput, reject: ResolveInput, pending: ApprovalRequest) {
    && pending.status == Pending && pending.requestedBy == "alice"
    && Find(s.store, approve.tenantId, approve.approvalId) == Some(pending)
    && s.calls == [Call(approve, HasRead(Some(pending))), Call(reject, HasRead(Some(pending)))]
  }

  /** Two calls on a fresh pending request, both past their read step. */
  lemma BothRead(approve: ResolveInput, reject: ResolveInput) returns (events: seq<Event>, states: seq<System>, pending: ApprovalRequest)
    requires KeyOf(approve) == KeyOf(reject)
    ensures IsRun(events, states) && |states| == 6
    ensures ReadByBoth(states[5], approve, reject, pending)
  {
    var t, id := approve.tenantId, approve.approvalId;
    pending := ApprovalRequest(id, t, Pending, "alice", None, None, None, 0);
    var create := CreateRequest(t, id, Pending, "alice", 0);
    PutMeaning(EMPTY.store, t, id, pending, t, id);
    var s1 := Next(EMPTY, create);
    var s2 := Next(s1, BeginCall(approve));
    var s3 := Next(s2, BeginCall(reject));
    assert s3.calls == [Call(approve, Started), Call(reject, Started)];
    var s4 := Next(s3, ReadStep(0));
    var s5 := Next(s4, ReadStep(1));
    RunSnoc([], [EMPTY], create);
    RunSnoc([create], [EMPTY, s1], BeginCall(approve));
    RunSnoc([create, BeginCall(approve)], [EMPTY, s1, s2], BeginCall(reject));
    RunSnoc([create, BeginCall(approve), BeginCall(reject)], [EMPTY, s1, s2, s3], ReadStep(0));
    RunSnoc([create, BeginCall(approve), BeginCall(reject), ReadStep(0)], [EMPTY, s1, s2, s3, s4], ReadStep(1));
    events := [create, BeginCall(approve), BeginCall(reject), ReadStep(0), ReadStep(1)];
    states := [EMPTY, s1, s2, s3, s4, s5];
  }

  /** Two overlapping calls: the request is approved by one and then turned to rejected by the other. */
  lemma OverlappingCallsOverwrite() returns (events: seq<Event>, states: seq<System>)
    ensures IsRun(events, states) && |states| == 8
    ensures Stands(states[6], "t", "r", Approved) && Stands(states[7], "t", "r", Rejected)
  {
    var approve := ResolveInput("t", "r", Approve, "bob", [], None, None);
    var reject := ResolveInput("t", "r", Reject, "carol", [], None, None);
    var pending;
    events, states, pending := BothRead(approve, reject);
    var s5 := states[5];
    TwoWrites(s5, "t", "r", 0, 1);
    var s6 := Next(s5, WriteStep(0, 1));
    RunSnoc(events, states, WriteStep(0, 1));
    events, states := events + [WriteStep(0, 1)], states + [s6];
    RunSnoc(events, states, WriteStep(1, 2));
    events, states := events + [WriteStep(1, 2)], states + [Next(s6, WriteStep(1, 2))];
  }
}
