/**
 Two ways to the seal of an agreement: folding its normalised events, and reading
 its reconstructed lifecycle. Where they agree along every run, and exactly where
 they do not.
 */
module Seal {
  import opened Wrappers
  import opened Keys
  import opened EscrowState
  import opened EscrowKernel
  import opened KernelBooks
  import opened KernelEvidence
  import opened KernelStory
  import opened Receipts
  import opened Sequences
  import opened ReceiptOrder
  import opened Reconstruction
  import opened Records
  import opened Histories
  import opened Lifecycles
  import opened ReplayTrace
  import opened Replay

  datatype EventType =
    | ProofRevoked | ProofApprovedEvent | ProofRejectedEvent | ProofCreated | ProofSubmittedEvent
    | AgreementCreated | AgreementRevised | AgreementSigned | AgreementExecuted | AgreementCancelled | AgreementRefunded
    | EscrowFunded | WorkCompletedEvent | SettlementCompleted | InvoicePaid
    | MilestoneCreatedEvent | MilestoneDelivered | MilestoneApprovedEvent | MilestoneRejectedEvent
    | MilestoneSettledEvent
    | DisputeOpenedEvent | DisputeResolvedEvent

  datatype ReputationEvent = ReputationEvent(eventType: EventType, occurredAt: int)

  datatype NormalizationError = UnexpectedProgram | BadInstructionIndex | BadTimestamp

  datatype SealFacts = SealFacts(
    chainVerified: bool,
    proofRevoked: bool,
    counterpartyConfirmed: bool,
    settled: bool,
    refunded: bool,
    disputeOpen: bool,
    disputeResolved: bool
  )

  datatype SealState =
    | RevokedSeal | DisputeResolvedSeal | SettledSeal | CounterpartyConfirmedSeal | VerifiedSeal | RecordedSeal

  // ---- Normalising ----

  /** Naming a payee says nothing about anyone's conduct, so it makes no reputation event. */
  function MapAction(action: ReceiptAction): Option<EventType> {
    match action
    case AGREEMENT_OPENED => Some(AgreementCreated)
    case AGREEMENT_FUNDED => Some(EscrowFunded)
    case WORK_COMPLETED => Some(WorkCompletedEvent)
    case SETTLEMENT_EXECUTED => Some(SettlementCompleted)
    case REFUND_EXECUTED => Some(AgreementRefunded)
    case AGREEMENT_ABANDONED => Some(AgreementCancelled)
    case DISPUTE_OPENED => Some(DisputeOpenedEvent)
    case DISPUTE_RESOLVED => Some(DisputeResolvedEvent)
    case PROOF_SUBMITTED => Some(ProofCreated)
    case PROOF_APPROVED => Some(ProofApprovedEvent)
    case PROOF_REJECTED => Some(ProofRejectedEvent)
    case MILESTONE_CREATED => Some(MilestoneCreatedEvent)
    case MILESTONE_SUBMITTED => Some(MilestoneDelivered)
    case MILESTONE_APPROVED => Some(MilestoneApprovedEvent)
    case MILESTONE_REJECTED => Some(MilestoneRejectedEvent)
    case MILESTONE_SETTLED => Some(MilestoneSettledEvent)
    case COUNTERPARTY_ASSIGNED => None
  }

  function NormalizeEscrowEvent(envelope: Envelope, expectedProgramId: string)
    : Result<Option<ReputationEvent>, NormalizationError>
  {
    if envelope.programId != expectedProgramId then Err(UnexpectedProgram)
    else if envelope.instructionIndex < 0 then Err(BadInstructionIndex)
    else
      var mapped := MapAction(ActionOf(envelope.event));
      if mapped.None? then Ok(None)
      else if TimeOf(envelope) < 0 || TimeOf(envelope) > MAX_UNIX_SECONDS then Err(BadTimestamp)
      else Ok(Some(ReputationEvent(mapped.value, TimeOf(envelope))))
  }

  // ---- Folding events ----

  /** The last second of the year 9999. */
  const LAST_FOUR_DIGIT_SECOND := 253_402_300_799

  /**
   Comparing ISO 8601 texts as strings. Years up to 9999 have four digits; later
   ones are written with a plus sign and six, and the plus sign sorts before every
   digit.
   */
  predicate IsoBelow(s: int, t: int) {
    var early, late := s <= LAST_FOUR_DIGIT_SECOND, t <= LAST_FOUR_DIGIT_SECOND;
    if early == late then s < t else late
  }

  predicate Happened(events: seq<ReputationEvent>, eventType: EventType) {
    exists e :: e in events && e.eventType == eventType
  }

  function Latest(events: seq<ReputationEvent>, eventType: EventType): Option<int> {
    if events == [] then None
    else
      var before := Latest(events[..|events| - 1], eventType);
      var e := events[|events| - 1];
      if e.eventType == eventType && (before.None? || IsoBelow(before.value, e.occurredAt)) then Some(e.occurredAt)
      else before
  }

  predicate OpenAt(opening: Option<int>, resolution: Option<int>) {
    opening.Some? && (resolution.None? || IsoBelow(resolution.value, opening.value))
  }

  function FactsFrom(events: seq<ReputationEvent>, chainVerified: bool): SealFacts {
    var settled := Happened(events, InvoicePaid) || Happened(events, SettlementCompleted)
                   || Happened(events, MilestoneSettledEvent);
    SealFacts(
      chainVerified,
      Happened(events, ProofRevoked),
      settled || Happened(events, AgreementExecuted) || Happened(events, MilestoneApprovedEvent)
      || Happened(events, ProofApprovedEvent),
      settled,
      Happened(events, AgreementRefunded),
      OpenAt(Latest(events, DisputeOpenedEvent), Latest(events, DisputeResolvedEvent)),
      Happened(events, DisputeResolvedEvent))
  }

  /** String order on times is a strict total order, although not the order of time. */
  lemma IsoOrderIsTotal(s: int, t: int, u: int)
    ensures !IsoBelow(s, s)
    ensures s != t ==> IsoBelow(s, t) != IsoBelow(t, s)
    ensures IsoBelow(s, t) && IsoBelow(t, u) ==> IsoBelow(s, u)
  {
  }

  /** The time kept is one of an event of the type, and none of them comes after it. */
  lemma {:induction false} LatestIsLatest(events: seq<ReputationEvent>, eventType: EventType)
    ensures Latest(events, eventType).Some? <==> Happened(events, eventType)
    ensures Latest(events, eventType).Some? ==> ReputationEvent(eventType, Latest(events, eventType).value) in events
    ensures forall e :: e in events && e.eventType == eventType && Latest(events, eventType).Some? ==>
                          !IsoBelow(Latest(events, eventType).value, e.occurredAt)
  {
    if events != [] {
      var init, last := events[..|events| - 1], events[|events| - 1];
      assert events == init + [last];
      LatestIsLatest(init, eventType);
      assert forall e :: e in init ==> e in events;
    }
  }

  /** The same events in any order and any number of times have the same latest one. */
  lemma LatestDependsOnElements(events: seq<ReputationEvent>, again: seq<ReputationEvent>, eventType: EventType)
    requires SameElements(events, again)
    ensures Latest(events, eventType) == Latest(again, eventType)
    ensures Happened(events, eventType) == Happened(again, eventType)
  {
    LatestIsLatest(events, eventType);
    LatestIsLatest(again, eventType);
    if Happened(events, eventType) && Happened(again, eventType) {
      var s, t := Latest(events, eventType).value, Latest(again, eventType).value;
      assert ReputationEvent(eventType, s) in again && ReputationEvent(eventType, t) in events;
      IsoOrderIsTotal(s, t, s);
    }
  }

  /** Order of delivery does not show in the facts, and neither does repetition. */
  lemma FactsDependOnElements(events: seq<ReputationEvent>, again: seq<ReputationEvent>, chainVerified: bool)
    requires SameElements(events, again)
    ensures FactsFrom(events, chainVerified) == FactsFrom(again, chainVerified)
  {
    forall eventType
      ensures Latest(events, eventType) == Latest(again, eventType)
      ensures Happened(events, eventType) == Happened(again, eventType)
    {
      LatestDependsOnElements(events, again, eventType);
    }
    hide Latest, Happened, SameElements;
  }

  lemma HappenedNext(events: seq<ReputationEvent>, e: ReputationEvent, eventType: EventType)
    ensures Happened(events + [e], eventType) <==> Happened(events, eventType) || e.eventType == eventType
  {
    assert e in events + [e];
    if Happened(events, eventType) {
      var x :| x in events && x.eventType == eventType;
      assert x in events + [e];
    }
  }

  /** The flags one event sets. */
  function Noted(facts: SealFacts, t: EventType): SealFacts {
    match t
    case ProofRevoked => facts.(proofRevoked := true)
    case AgreementExecuted | MilestoneApprovedEvent | ProofApprovedEvent => facts.(counterpartyConfirmed := true)
    case InvoicePaid | SettlementCompleted | MilestoneSettledEvent =>
      facts.(counterpartyConfirmed := true, settled := true)
    case AgreementRefunded => facts.(refunded := true)
    case _ => facts
  }

  function Flags(events: seq<ReputationEvent>, chainVerified: bool): SealFacts {
    FactsFrom(events, chainVerified).(disputeOpen := false, disputeResolved := false)
  }

  lemma FlagsNext(events: seq<ReputationEvent>, e: ReputationEvent, chainVerified: bool)
    ensures Flags(events + [e], chainVerified) == Noted(Flags(events, chainVerified), e.eventType)
  {
    HappenedNext(events, e, InvoicePaid);
    HappenedNext(events, e, SettlementCompleted);
    HappenedNext(events, e, MilestoneSettledEvent);
    HappenedNext(events, e, ProofRevoked);
    HappenedNext(events, e, AgreementExecuted);
    HappenedNext(events, e, MilestoneApprovedEvent);
    HappenedNext(events, e, ProofApprovedEvent);
    HappenedNext(events, e, AgreementRefunded);
    hide Happened, OpenAt, Latest;
  }

  lemma FlagsStart(chainVerified: bool)
    ensures Flags([], chainVerified) == SealFacts(chainVerified, false, false, false, false, false, false)
  {
  }

  lemma FlagsFinish(events: seq<ReputationEvent>, chainVerified: bool)
    ensures
      var opening, resolution := Latest(events, DisputeOpenedEvent), Latest(events, DisputeResolvedEvent);
      FactsFrom(events, chainVerified)
      == Flags(events, chainVerified).(disputeOpen := OpenAt(opening, resolution), disputeResolved := resolution.Some?)
  {
    LatestIsLatest(events, DisputeResolvedEvent);
    hide Happened, Latest;
  }

  method Note(before: SealFacts, eventType: EventType) returns (facts: SealFacts)
    ensures facts == Noted(before, eventType)
  {
    facts := before;
    match eventType {
      case ProofRevoked =>
        facts := facts.(proofRevoked := true);
      case AgreementExecuted | MilestoneApprovedEvent | ProofApprovedEvent =>
        facts := facts.(counterpartyConfirmed := true);
      case InvoicePaid | SettlementCompleted | MilestoneSettledEvent =>
        facts := facts.(counterpartyConfirmed := true);
        facts := facts.(settled := true);
      case AgreementRefunded =>
        facts := facts.(refunded := true);
      case _ =>
    }
  }

  /** One pass over the events, setting flags as they come; the order of the events does not show in the flags. */
  method DeriveSealFacts(events: seq<ReputationEvent>, chainVerified: bool) returns (facts: SealFacts)
    ensures facts == FactsFrom(events, chainVerified)
  {
    FlagsStart(chainVerified);
    FlagsFinish(events, chainVerified);
    hide Flags, FactsFrom, IsoBelow, Noted;
    var lastDisputeOpened: Option<int> := None;
    var lastDisputeResolved: Option<int> := None;
    facts := SealFacts(chainVerified, false, false, false, false, false, false);
    for i := 0 to |events|
      invariant lastDisputeOpened == Latest(events[..i], DisputeOpenedEvent)
      invariant lastDisputeResolved == Latest(events[..i], DisputeResolvedEvent)
      invariant facts == Flags(events[..i], chainVerified)
    {
      var event := events[i];
      assert events[..i + 1] == events[..i] + [event] && events[..i + 1][..i] == events[..i];
      FlagsNext(events[..i], event, chainVerified);
      facts := Note(facts, event.eventType);
      if event.eventType == DisputeOpenedEvent {
        if lastDisputeOpened.None? || IsoBelow(lastDisputeOpened.value, event.occurredAt) {
          lastDisputeOpened := Some(event.occurredAt);
        }
      } else if event.eventType == DisputeResolvedEvent {
        if lastDisputeResolved.None? || IsoBelow(lastDisputeResolved.value, event.occurredAt) {
          lastDisputeResolved := Some(event.occurredAt);
        }
      }
    }
    assert events[..|events|] == events;
    facts := facts.(disputeResolved := lastDisputeResolved.Some?);
    facts := facts.(disputeOpen := lastDisputeOpened.Some?
                                   && (lastDisputeResolved.None?
                                       || IsoBelow(lastDisputeResolved.value, lastDisputeOpened.value)));
  }

  // ---- Reading the lifecycle ----

  function EscrowSealFacts(life: Lifecycle, chainVerified: bool): SealFacts {
    SealFacts(
      chainVerified,
      false,
      (exists p :: p in life.proofs && p.status == ProofStatus.Approved)
      || (exists m :: m in life.milestones && m.state == MilestoneState.Settled)
      || life.state == AgreementState.Settled,
      life.settledAmount.Some? && life.settledAmount.value > 0,
      life.refundedAmount.Some? && life.refundedAmount.value > 0,
      life.state == Disputed,
      exists r :: r in life.receipts && r.fact.action == DISPUTE_RESOLVED)
  }

  function ResolveSealState(facts: SealFacts): SealState {
    if facts.proofRevoked then RevokedSeal
    else if facts.disputeResolved && !facts.disputeOpen then DisputeResolvedSeal
    else if facts.settled then SettledSeal
    else if facts.counterpartyConfirmed then CounterpartyConfirmedSeal
    else if facts.chainVerified then VerifiedSeal
    else RecordedSeal
  }

  // ---- The diamond ----

  /** The reputation events of these envelopes, in any order and any number of times. */
  ghost predicate Normalizes(reps: seq<ReputationEvent>, envelopes: seq<Envelope>, programId: string) {
    && (forall i :: 0 <= i < |envelopes| ==> envelopes[i].programId == programId)
    && (forall e :: e in reps ==>
          exists i :: 0 <= i < |envelopes| && NormalizeEscrowEvent(envelopes[i], programId) == Ok(Some(e)))
    && (forall i :: 0 <= i < |envelopes| && NormalizeEscrowEvent(envelopes[i], programId).Ok?
                    && NormalizeEscrowEvent(envelopes[i], programId).value.Some? ==>
          NormalizeEscrowEvent(envelopes[i], programId).value.value in reps)
  }

  function NormalizedAll(envelopes: seq<Envelope>, programId: string): seq<ReputationEvent> {
    if envelopes == [] then []
    else
      var before := NormalizedAll(envelopes[..|envelopes| - 1], programId);
      match NormalizeEscrowEvent(envelopes[|envelopes| - 1], programId)
      case Ok(Some(e)) => before + [e]
      case _ => before
  }

  /** Normalising them one by one is one such list. */
  lemma {:induction false} NormalizedAllNormalizes(envelopes: seq<Envelope>, programId: string)
    requires forall i :: 0 <= i < |envelopes| ==> envelopes[i].programId == programId
    ensures Normalizes(NormalizedAll(envelopes, programId), envelopes, programId)
  {
    hide NormalizeEscrowEvent;
    if envelopes != [] {
      var init, last := envelopes[..|envelopes| - 1], envelopes[|envelopes| - 1];
      assert envelopes == init + [last];
      NormalizedAllNormalizes(init, programId);
      var before := NormalizedAll(init, programId);
      forall e | e in before
        ensures exists i :: 0 <= i < |envelopes| && NormalizeEscrowEvent(envelopes[i], programId) == Ok(Some(e))
      {
        var i :| 0 <= i < |init| && NormalizeEscrowEvent(init[i], programId) == Ok(Some(e));
        assert envelopes[i] == init[i];
      }
      assert NormalizeEscrowEvent(envelopes[|init|], programId) == NormalizeEscrowEvent(last, programId);
    }
  }

  /** The same relation read off the receipts. */
  ghost predicate SameStory(reps: seq<ReputationEvent>, rs: seq<Receipt>) {
    && (forall e :: e in reps ==>
          exists r :: r in rs && MapAction(r.fact.action) == Some(e.eventType) && r.occurredAt == e.occurredAt)
    && (forall r :: r in rs && MapAction(r.fact.action).Some? ==>
          ReputationEvent(MapAction(r.fact.action).value, r.occurredAt) in reps)
  }

  lemma ReceiptTellsEvent(idOf: IdFunction, envelope: Envelope, programId: string)
    requires EscrowReceiptFromEvent(idOf, envelope).Ok? && envelope.programId == programId
    ensures
      var r := EscrowReceiptFromEvent(idOf, envelope).value;
      var mapped := MapAction(r.fact.action);
      NormalizeEscrowEvent(envelope, programId)
      == Ok(if mapped.None? then None else Some(ReputationEvent(mapped.value, r.occurredAt)))
  {
    BuiltReceiptsAreWellFormed(idOf, envelope);
    hide FactOf, ActionOf;
  }

  lemma NormalizedTellsTheSame(reps: seq<ReputationEvent>, envelopes: seq<Envelope>, programId: string,
                               idOf: IdFunction)
    requires forall i :: 0 <= i < |envelopes| ==> EscrowReceiptFromEvent(idOf, envelopes[i]).Ok?
    requires Normalizes(reps, envelopes, programId)
    ensures SameStory(reps, ReceiptsOf(idOf, envelopes))
  {
    var rs := ReceiptsOf(idOf, envelopes);
    forall i | 0 <= i < |envelopes|
      ensures NormalizeEscrowEvent(envelopes[i], programId)
              == Ok(if MapAction(rs[i].fact.action).None? then None
                    else Some(ReputationEvent(MapAction(rs[i].fact.action).value, rs[i].occurredAt)))
    {
      ReceiptTellsEvent(idOf, envelopes[i], programId);
    }
    hide EscrowReceiptFromEvent, NormalizeEscrowEvent, MapAction;
    forall e | e in reps
      ensures exists r :: r in rs && MapAction(r.fact.action) == Some(e.eventType) && r.occurredAt == e.occurredAt
    {
      var i :| 0 <= i < |envelopes| && NormalizeEscrowEvent(envelopes[i], programId) == Ok(Some(e));
      assert rs[i] in rs;
    }
  }

  lemma HappenedIff(reps: seq<ReputationEvent>, rs: seq<Receipt>, eventType: EventType, action: ReceiptAction)
    requires SameStory(reps, rs)
    requires forall a :: MapAction(a) == Some(eventType) <==> a == action
    ensures Happened(reps, eventType) <==> HasAction(rs, action)
  {
    hide MapAction;
  }

  lemma NeverHappens(reps: seq<ReputationEvent>, rs: seq<Receipt>, eventType: EventType)
    requires SameStory(reps, rs)
    requires forall a :: MapAction(a) != Some(eventType)
    ensures !Happened(reps, eventType)
  {
    hide MapAction;
  }

  /** The seal facts of the events, in terms of the receipts. */
  lemma EventFacts(reps: seq<ReputationEvent>, rs: seq<Receipt>, chainVerified: bool)
    requires SameStory(reps, rs)
    ensures
      var f := FactsFrom(reps, chainVerified);
      && !f.proofRevoked && f.chainVerified == chainVerified
      && f.settled == (HasAction(rs, SETTLEMENT_EXECUTED) || HasAction(rs, MILESTONE_SETTLED))
      && f.counterpartyConfirmed == (f.settled || HasAction(rs, MILESTONE_APPROVED) || HasAction(rs, PROOF_APPROVED))
      && f.refunded == HasAction(rs, REFUND_EXECUTED)
      && f.disputeResolved == HasAction(rs, DISPUTE_RESOLVED)
  {
    NeverHappens(reps, rs, ProofRevoked);
    NeverHappens(reps, rs, InvoicePaid);
    NeverHappens(reps, rs, AgreementExecuted);
    HappenedIff(reps, rs, SettlementCompleted, SETTLEMENT_EXECUTED);
    HappenedIff(reps, rs, MilestoneSettledEvent, MILESTONE_SETTLED);
    HappenedIff(reps, rs, MilestoneApprovedEvent, MILESTONE_APPROVED);
    HappenedIff(reps, rs, ProofApprovedEvent, PROOF_APPROVED);
    HappenedIff(reps, rs, AgreementRefunded, REFUND_EXECUTED);
    HappenedIff(reps, rs, DisputeResolvedEvent, DISPUTE_RESOLVED);
  }

  /** When the dispute was opened, and when it was resolved. */
  function TimeOfFirst(rs: seq<Receipt>, action: ReceiptAction): Option<int> {
    if rs == [] then None
    else if rs[0].fact.action == action then Some(rs[0].occurredAt)
    else TimeOfFirst(rs[1..], action)
  }

  lemma {:induction false} TimeOfOnly(rs: seq<Receipt>, action: ReceiptAction)
    requires forall i, j :: 0 <= i < j < |rs| && rs[i].fact.action == action ==> rs[j].fact.action != action
    ensures TimeOfFirst(rs, action).Some? <==> HasAction(rs, action)
    ensures forall r :: r in rs && r.fact.action == action ==> TimeOfFirst(rs, action) == Some(r.occurredAt)
  {
    if rs != [] {
      assert rs == [rs[0]] + rs[1..];
      TimeOfOnly(rs[1..], action);
    }
  }

  lemma LatestIsTheOnly(reps: seq<ReputationEvent>, rs: seq<Receipt>, eventType: EventType, action: ReceiptAction)
    requires SameStory(reps, rs)
    requires forall a :: MapAction(a) == Some(eventType) <==> a == action
    requires forall i, j :: 0 <= i < j < |rs| && rs[i].fact.action == action ==> rs[j].fact.action != action
    ensures Latest(reps, eventType) == TimeOfFirst(rs, action)
  {
    LatestIsLatest(reps, eventType);
    HappenedIff(reps, rs, eventType, action);
    TimeOfOnly(rs, action);
  }

  lemma SomethingIsPaid(rs: seq<Receipt>, action: ReceiptAction)
    requires PaymentsPositive(rs) && IsPayment(action)
    ensures PaidOut(rs, action).Some? <==> HasAction(rs, action)
    ensures PaidOut(rs, action).Some? ==> PaidOut(rs, action).value > 0
  {
    PaidOutExactlyWhen(rs, action);
    PaidOutPositive(rs, action);
  }

  lemma {:induction false} PaidOutPositive(rs: seq<Receipt>, action: ReceiptAction)
    requires PaymentsPositive(rs) && IsPayment(action)
    ensures PaidOut(rs, action).Some? ==> PaidOut(rs, action).value > 0
  {
    if rs != [] {
      assert rs == rs[..|rs| - 1] + [rs[|rs| - 1]];
      PaidOutPositive(rs[..|rs| - 1], action);
    }
  }

  /** A proof was approved exactly when an approval was told. */
  lemma ApprovedProofIff(rs: seq<Receipt>, life: Lifecycle, w: Ledger, key: Pubkey)
    requires ProofsTell(rs, w, key) && ProofsMatch(life.proofs, w, key)
    ensures (exists p :: p in life.proofs && p.status == ProofStatus.Approved) <==> HasAction(rs, PROOF_APPROVED)
  {
    if p :| p in life.proofs && p.status == ProofStatus.Approved {
      var i := w.proofs[p.proof].index;
      assert HasProof(w, key, i);
      var r :| r in rs && DecidesProof(r, ProofPda(key, i));
      assert TellsDecision(r, w, key);
    }
    if r :| r in rs && r.fact.action == PROOF_APPROVED {
      assert TellsDecision(r, w, key);
      assert HasProof(w, key, w.proofs[r.fact.proof.value].index);
    }
  }

  /** Some tranche of the agreement is in this state. */
  ghost predicate SomeTranche(w: Ledger, key: Pubkey, state: MilestoneState) {
    exists i: nat :: HasTranche(w.milestones, key, i) && Tranche(w.milestones, key, i).state == state
  }

  lemma SettledTrancheIff(rs: seq<Receipt>, w: Ledger, key: Pubkey, state: AgreementState)
    requires ScheduleTells(rs, w, key) && ApprovalsStand(rs, w, state)
    ensures SomeTranche(w, key, MilestoneState.Settled) <==> HasAction(rs, MILESTONE_SETTLED)
    ensures HasAction(rs, MILESTONE_APPROVED) ==>
              SomeTranche(w, key, MilestoneState.Approved) || SomeTranche(w, key, MilestoneState.Settled)
    ensures SomeTranche(w, key, MilestoneState.Approved) ==> HasAction(rs, MILESTONE_APPROVED)
  {
    hide TellsCreation;
    forall i: nat | HasTranche(w.milestones, key, i)
      ensures Tranche(w.milestones, key, i).state == MilestoneState.Settled ==> HasAction(rs, MILESTONE_SETTLED)
      ensures Tranche(w.milestones, key, i).state == MilestoneState.Approved ==> HasAction(rs, MILESTONE_APPROVED)
    {
      StateWasTold(rs, w, key, i);
    }
    hide TrancheTells;
    forall r | r in rs && (r.fact.action == MILESTONE_APPROVED || r.fact.action == MILESTONE_SETTLED)
      ensures r.fact.milestone.Some? && r.fact.milestone.value in w.milestones
      ensures HasTranche(w.milestones, key, w.milestones[r.fact.milestone.value].index)
    {
      assert TellsTranche(r, w, key);
    }
  }

  lemma StateWasTold(rs: seq<Receipt>, w: Ledger, key: Pubkey, i: nat)
    requires ScheduleTells(rs, w, key) && HasTranche(w.milestones, key, i)
    ensures Tranche(w.milestones, key, i).state == MilestoneState.Settled ==> HasAction(rs, MILESTONE_SETTLED)
    ensures Tranche(w.milestones, key, i).state == MilestoneState.Approved ==> HasAction(rs, MILESTONE_APPROVED)
  {
    var m := MilestonePda(key, i);
    assert TrancheTells(rs, w, key, i);
    if exists r :: r in rs && IsStepOf(r, m) {
      var k := SomeStepIsLast(rs, m);
      assert rs[k] in rs;
    }
  }

  lemma SettledRecordIff(life: Lifecycle, w: Ledger, key: Pubkey, count: nat)
    requires ScheduleMatches(life.milestones, w, key, count) && TrancheStatesMatch(life.milestones, w, key)
    requires forall i: nat :: HasTranche(w.milestones, key, i) <==> i < count
    ensures (exists m :: m in life.milestones && m.state == MilestoneState.Settled)
            <==> SomeTranche(w, key, MilestoneState.Settled)
  {
    if m :| m in life.milestones && m.state == MilestoneState.Settled {
      var i :| 0 <= i < |life.milestones| && life.milestones[i] == m;
      assert HasTranche(w.milestones, key, i);
    }
    if i: nat :| HasTranche(w.milestones, key, i) && Tranche(w.milestones, key, i).state == MilestoneState.Settled {
      assert life.milestones[i] in life.milestones;
    }
  }

  /** What the two seals say about the same receipts. */
  ghost predicate Diamond(folded: SealFacts, read: SealFacts, w: Ledger, key: Pubkey, rs: seq<Receipt>)
    requires key in w.agreements
  {
    var opening, resolution := TimeOfFirst(rs, DISPUTE_OPENED), TimeOfFirst(rs, DISPUTE_RESOLVED);
    var reversed := opening.Some? && resolution.Some? && IsoBelow(resolution.value, opening.value);
    && folded.chainVerified == read.chainVerified && folded.proofRevoked == read.proofRevoked
    && folded.settled == read.settled && folded.refunded == read.refunded
    && folded.disputeResolved == read.disputeResolved
    && (folded.disputeOpen == read.disputeOpen <==> !reversed)
    && (folded.counterpartyConfirmed != read.counterpartyConfirmed <==> OnlyApprovedReads(rs, w, key))
    && (StepsReadRight(rs) ==>
          (folded.counterpartyConfirmed != read.counterpartyConfirmed <==> OnlyApprovedTranches(w, key)))
  }

  /** The step of some tranche that reads last is its payment. */
  ghost predicate PaymentReadsLast(rs: seq<Receipt>) {
    exists m, n :: ReadsLast(rs, n, m) && rs[n].fact.action == MILESTONE_SETTLED
  }

  /** A tranche was approved, no tranche reads as paid, and nothing else has been accepted. */
  ghost predicate OnlyApprovedReads(rs: seq<Receipt>, w: Ledger, key: Pubkey)
    requires key in w.agreements
  {
    && (SomeTranche(w, key, MilestoneState.Approved) || SomeTranche(w, key, MilestoneState.Settled))
    && !PaymentReadsLast(rs)
    && w.agreements[key].state != AgreementState.Settled
    && (forall i: nat :: HasProof(w, key, i) ==> w.proofs[ProofPda(key, i)].status != ProofStatus.Approved)
  }

  /** A tranche is approved and unsettled, and nothing else has been accepted. */
  ghost predicate OnlyApprovedTranches(w: Ledger, key: Pubkey)
    requires key in w.agreements
  {
    && SomeTranche(w, key, MilestoneState.Approved) && !SomeTranche(w, key, MilestoneState.Settled)
    && w.agreements[key].state != AgreementState.Settled
    && (forall i: nat :: HasProof(w, key, i) ==> w.proofs[ProofPda(key, i)].status != ProofStatus.Approved)
  }

  lemma ApprovedProofOnChain(rs: seq<Receipt>, w: Ledger, key: Pubkey)
    requires ProofsTell(rs, w, key)
    ensures HasAction(rs, PROOF_APPROVED)
            <==> exists i: nat :: HasProof(w, key, i) && w.proofs[ProofPda(key, i)].status == ProofStatus.Approved
  {
    if r :| r in rs && r.fact.action == PROOF_APPROVED {
      assert TellsDecision(r, w, key);
      assert HasProof(w, key, w.proofs[r.fact.proof.value].index);
    }
    if i: nat :| HasProof(w, key, i) && w.proofs[ProofPda(key, i)].status == ProofStatus.Approved {
      var r :| r in rs && DecidesProof(r, ProofPda(key, i));
      assert TellsDecision(r, w, key);
    }
  }

  lemma DisputesAgree(reps: seq<ReputationEvent>, rs: seq<Receipt>, state: AgreementState, chainVerified: bool)
    requires SameStory(reps, rs) && DisputeTells(rs, state)
    ensures
      var opening, resolution := TimeOfFirst(rs, DISPUTE_OPENED), TimeOfFirst(rs, DISPUTE_RESOLVED);
      var reversed := opening.Some? && resolution.Some? && IsoBelow(resolution.value, opening.value);
      FactsFrom(reps, chainVerified).disputeOpen == (state == Disputed) <==> !reversed
  {
    LatestIsTheOnly(reps, rs, DisputeOpenedEvent, DISPUTE_OPENED);
    LatestIsTheOnly(reps, rs, DisputeResolvedEvent, DISPUTE_RESOLVED);
    TimeOfOnly(rs, DISPUTE_OPENED);
    TimeOfOnly(rs, DISPUTE_RESOLVED);
    hide Happened, Latest, TimeOfFirst, IsoBelow, SameStory;
  }

  /** An agreement that ended settled told a settlement. */
  lemma SettledMeansPaid(rs: seq<Receipt>, a: Agreement)
    requires MoneyTells(rs, a) && PaidUp(a) && a.amount > 0
    ensures a.state == AgreementState.Settled ==> HasAction(rs, SETTLEMENT_EXECUTED)
  {
    PaidOutExactlyWhen(rs, SETTLEMENT_EXECUTED);
    PaidOutExactlyWhen(rs, REFUND_EXECUTED);
    hide PaidOut;
  }

  lemma FoldedConfirmation(rs: seq<Receipt>, w: Ledger, key: Pubkey, a: Agreement)
    requires ScheduleTells(rs, w, key) && ApprovalsStand(rs, w, a.state) && MoneyTells(rs, a) && PaidUp(a)
             && a.amount > 0
    ensures
      var settledTranche := SomeTranche(w, key, MilestoneState.Settled);
      var approvedTranche := SomeTranche(w, key, MilestoneState.Approved);
      && (HasAction(rs, SETTLEMENT_EXECUTED) || HasAction(rs, MILESTONE_SETTLED) || HasAction(rs, MILESTONE_APPROVED)
          <==> settledTranche || approvedTranche || a.state == AgreementState.Settled)
  {
    SettledMeansPaid(rs, a);
    SettledTrancheIff(rs, w, key, a.state);
    hide ScheduleTells, MoneyTells, SomeTranche, PaidUp;
  }

  lemma SettledRecordReads(rs: seq<Receipt>, records: seq<MilestoneRecord>, m: MilestoneRecord)
    requires StatesAsRead(records, rs) && m in records && m.state == MilestoneState.Settled
    ensures PaymentReadsLast(rs)
  {
    var i :| 0 <= i < |records| && records[i] == m;
    assert StateAsRead(m.state, rs, m.milestone);
    hide StatesAsRead, ReadsLast, IsStepOf;
    var n :| ReadsLast(rs, n, m.milestone);
    assert StateAfter(rs[n].fact.action) == MilestoneState.Settled;
  }

  lemma StateOfLastRead(state: MilestoneState, rs: seq<Receipt>, n: int, m: Pubkey)
    requires StateAsRead(state, rs, m) && ReadsLast(rs, n, m)
    ensures state == StateAfter(rs[n].fact.action)
  {
    hide ReadsLast;
  }

  lemma ReadPaymentIsRecorded(rs: seq<Receipt>, records: seq<MilestoneRecord>, w: Ledger, key: Pubkey, count: nat,
                              m: Pubkey, n: int)
    requires ScheduleTells(rs, w, key) && StatesAsRead(records, rs) && ScheduleMatches(records, w, key, count)
    requires forall i: nat :: HasTranche(w.milestones, key, i) <==> i < count
    requires ReadsLast(rs, n, m) && rs[n].fact.action == MILESTONE_SETTLED
    ensures exists r :: r in records && r.state == MilestoneState.Settled
  {
    assert rs[n] in rs && rs[n].fact.milestone == Some(m);
    assert TellsTranche(rs[n], w, key);
    var i := w.milestones[m].index;
    hide ScheduleTells, StateAsRead, ReadsLast;
    assert HasTranche(w.milestones, key, i);
    assert records[i].milestone == m && StateAsRead(records[i].state, rs, m);
    StateOfLastRead(records[i].state, rs, n, m);
    assert records[i] in records;
  }

  /** A tranche is reported as settled exactly when its payment reads last. */
  lemma SettledReadIff(rs: seq<Receipt>, life: Lifecycle, w: Ledger, key: Pubkey, count: nat)
    requires ScheduleTells(rs, w, key) && StatesAsRead(life.milestones, rs)
    requires ScheduleMatches(life.milestones, w, key, count)
    requires forall i: nat :: HasTranche(w.milestones, key, i) <==> i < count
    ensures (exists m :: m in life.milestones && m.state == MilestoneState.Settled) <==> PaymentReadsLast(rs)
  {
    hide ScheduleTells, StatesAsRead, ScheduleMatches, IsStepOf, Precedes;
    if m :| m in life.milestones && m.state == MilestoneState.Settled {
      SettledRecordReads(rs, life.milestones, m);
    }
    if PaymentReadsLast(rs) {
      var m, n :| ReadsLast(rs, n, m) && rs[n].fact.action == MILESTONE_SETTLED;
      ReadPaymentIsRecorded(rs, life.milestones, w, key, count, m, n);
    }
  }

  lemma ReadConfirmation(rs: seq<Receipt>, life: Lifecycle, w: Ledger, key: Pubkey, count: nat)
    requires ProofsTell(rs, w, key) && ProofsMatch(life.proofs, w, key)
    requires ScheduleTells(rs, w, key) && StatesAsRead(life.milestones, rs)
    requires ScheduleMatches(life.milestones, w, key, count)
    requires forall i: nat :: HasTranche(w.milestones, key, i) <==> i < count
    ensures
      EscrowSealFacts(life, true).counterpartyConfirmed
      <==> HasAction(rs, PROOF_APPROVED) || PaymentReadsLast(rs) || life.state == AgreementState.Settled
  {
    ApprovedProofIff(rs, life, w, key);
    SettledReadIff(rs, life, w, key, count);
    hide ProofsTell, ProofsMatch, ScheduleMatches, StatesAsRead, PaymentReadsLast, HasAction, ScheduleTells;
  }

  /** What reads as paid was paid. */
  lemma ReadPaymentHappened(rs: seq<Receipt>, w: Ledger, key: Pubkey)
    requires ScheduleTells(rs, w, key)
    ensures PaymentReadsLast(rs) ==> HasAction(rs, MILESTONE_SETTLED)
  {
    if m, n :| ReadsLast(rs, n, m) && rs[n].fact.action == MILESTONE_SETTLED {
      assert rs[n] in rs;
    }
  }

  lemma ConfirmationsAgree(rs: seq<Receipt>, life: Lifecycle, w: Ledger, key: Pubkey)
    requires key in w.agreements && ProofsTell(rs, w, key) && ScheduleTells(rs, w, key)
    requires MoneyTells(rs, w.agreements[key]) && ApprovalsStand(rs, w, w.agreements[key].state)
    requires AccountInOrder(w, key) && w.agreements[key].amount > 0 && life.state == w.agreements[key].state
    requires ProofsMatch(life.proofs, w, key) && StatesAsRead(life.milestones, rs)
    requires ScheduleMatches(life.milestones, w, key, w.agreements[key].milestoneCount)
    ensures
      var folded := HasAction(rs, SETTLEMENT_EXECUTED) || HasAction(rs, MILESTONE_SETTLED)
                    || HasAction(rs, MILESTONE_APPROVED) || HasAction(rs, PROOF_APPROVED);
      var read := EscrowSealFacts(life, true).counterpartyConfirmed;
      folded != read <==> OnlyApprovedReads(rs, w, key)
  {
    hide MoneyTells, ScheduleTells, ApprovalsStand, ProofsMatch, StatesAsRead, ScheduleMatches, SomeTranche, PaidUp;
    hide HasAction, EscrowSealFacts, ProofsAtHome, PaymentReadsLast;
    FoldedConfirmation(rs, w, key, w.agreements[key]);
    ReadConfirmation(rs, life, w, key, w.agreements[key].milestoneCount);
    ReadPaymentHappened(rs, w, key);
    ApprovedProofOnChain(rs, w, key);
    hide ProofsTell;
  }

  /** Where steps read right, a payment reads last exactly of a tranche that is settled. */
  lemma ReadRightIsOnChain(rs: seq<Receipt>, life: Lifecycle, w: Ledger, key: Pubkey)
    requires key in w.agreements && AccountInOrder(w, key) && ScheduleTells(rs, w, key)
    requires StatesAsRead(life.milestones, rs) && TrancheStatesMatch(life.milestones, w, key)
    requires ScheduleMatches(life.milestones, w, key, w.agreements[key].milestoneCount)
    ensures OnlyApprovedReads(rs, w, key) <==> OnlyApprovedTranches(w, key)
  {
    SettledReadIff(rs, life, w, key, w.agreements[key].milestoneCount);
    SettledRecordIff(life, w, key, w.agreements[key].milestoneCount);
    hide ScheduleTells, StatesAsRead, TrancheStatesMatch, ScheduleMatches, SomeTranche, PaymentReadsLast;
  }

  /** What else the theorem needs from the run: the invariant of its receipts, taken apart. */
  lemma StandingIsTold(rs: seq<Receipt>, w: Ledger, key: Pubkey)
    requires key in w.agreements && Tells(rs, w, key)
    ensures
      var a := w.agreements[key];
      MoneyTells(rs, a) && ProofsTell(rs, w, key) && ScheduleTells(rs, w, key) && Stands(rs, w, a.state)
  {
    hide MoneyTells, PayeeTells, MovesTell, ProofsTell, ScheduleTells, Stands, Select;
  }

  /** A reconstructed lifecycle lists exactly the delivered receipts and totals their payments. */
  lemma ListsTheBag(bag: seq<Receipt>, rs: seq<Receipt>)
    requires Reconstruct(bag).Ok? && OneReceiptPerId(bag) && SameElements(bag, rs)
    ensures SameElements(Reconstruct(bag).value.receipts, rs)
    ensures Reconstruct(bag).value.settledAmount == PaidOut(Reconstruct(bag).value.receipts, SETTLEMENT_EXECUTED)
    ensures Reconstruct(bag).value.refundedAmount == PaidOut(Reconstruct(bag).value.receipts, REFUND_EXECUTED)
  {
    ReconstructionIsSound(bag);
    PaymentsAddUp(bag);
    CollectedKeepsAll(bag);
    var values := Collected(bag).value.Values();
    var list := Reconstruct(bag).value.receipts;
    hide Reconstruct, Collected, PaidOut;
    forall r ensures r in list <==> r in rs {
      assert r in multiset(list) <==> r in multiset(values);
    }
  }

  lemma PaymentsAgree(list: seq<Receipt>, rs: seq<Receipt>, action: ReceiptAction)
    requires SameElements(list, rs) && PaymentsPositive(rs) && IsPayment(action)
    ensures
      var paid := PaidOut(list, action);
      (paid.Some? && paid.value > 0) <==> HasAction(rs, action)
  {
    SomethingIsPaid(list, action);
  }

  /** Settled, refunded and resolved agree; confirmation is what the events say it is. */
  lemma PlainFlagsAgree(rs: seq<Receipt>, life: Lifecycle, reps: seq<ReputationEvent>, w: Ledger, state: AgreementState,
                        chainVerified: bool)
    requires SameStory(reps, rs) && SameElements(life.receipts, rs)
    requires PaymentsPositive(rs) && ApprovalsStand(rs, w, state)
    requires life.settledAmount == PaidOut(life.receipts, SETTLEMENT_EXECUTED)
    requires life.refundedAmount == PaidOut(life.receipts, REFUND_EXECUTED)
    ensures
      var folded, read := FactsFrom(reps, chainVerified), EscrowSealFacts(life, chainVerified);
      && folded.chainVerified == read.chainVerified && folded.proofRevoked == read.proofRevoked
      && folded.settled == read.settled && folded.refunded == read.refunded
      && folded.disputeResolved == read.disputeResolved
      && folded.counterpartyConfirmed
         == (HasAction(rs, SETTLEMENT_EXECUTED) || HasAction(rs, MILESTONE_SETTLED) || HasAction(rs, MILESTONE_APPROVED)
             || HasAction(rs, PROOF_APPROVED))
  {
    assert HasAction(life.receipts, DISPUTE_RESOLVED) <==> HasAction(rs, DISPUTE_RESOLVED);
    EventFacts(reps, rs, chainVerified);
    PaymentsAgree(life.receipts, rs, SETTLEMENT_EXECUTED);
    PaymentsAgree(life.receipts, rs, REFUND_EXECUTED);
    TrancheSettlesPaid(rs, w, state);
    hide FactsFrom, SameStory, PaidOut, PaymentsPositive, ApprovalsStand, SameElements;
  }

  lemma SealsOfLifecycle(rs: seq<Receipt>, life: Lifecycle, reps: seq<ReputationEvent>, w: Ledger, key: Pubkey,
                         chainVerified: bool)
    requires key in w.agreements && AccountInOrder(w, key) && w.agreements[key].amount > 0
    requires MoneyTells(rs, w.agreements[key]) && ProofsTell(rs, w, key) && ScheduleTells(rs, w, key)
    requires Stands(rs, w, w.agreements[key].state)
    requires SameElements(life.receipts, rs) && SameStory(reps, rs) && Matches(life, w, key)
    requires life.settledAmount == PaidOut(life.receipts, SETTLEMENT_EXECUTED)
    requires life.refundedAmount == PaidOut(life.receipts, REFUND_EXECUTED)
    requires StepsReadRight(rs) ==> TrancheStatesMatch(life.milestones, w, key)
    requires StatesAsRead(life.milestones, rs)
    ensures Diamond(FactsFrom(reps, chainVerified), EscrowSealFacts(life, chainVerified), w, key, rs)
  {
    var state := w.agreements[key].state;
    var read := EscrowSealFacts(life, chainVerified);
    assert read.disputeOpen == (state == Disputed);
    assert read.counterpartyConfirmed == EscrowSealFacts(life, true).counterpartyConfirmed;
    hide AccountInOrder, MoneyTells, ProofsTell, ScheduleTells, ApprovalsStand, DisputeTells;
    hide PaymentsPositive, FactsFrom;
    hide SameElements, SameStory, PaidOut, StepsReadRight, TrancheStatesMatch, StatesAsRead, EscrowSealFacts, HasAction;
    hide ProofsMatch, ScheduleMatches, OnlyApprovedTranches, OnlyApprovedReads, TimeOfFirst, IsoBelow;
    PlainFlagsAgree(rs, life, reps, w, state, chainVerified);
    DisputesAgree(reps, rs, state, chainVerified);
    ConfirmationsAgree(rs, life, w, key);
    if StepsReadRight(rs) {
      ReadRightIsOnChain(rs, life, w, key);
    }
  }

  lemma TrancheSettlesPaid(rs: seq<Receipt>, w: Ledger, state: AgreementState)
    requires ApprovalsStand(rs, w, state)
    ensures HasAction(rs, MILESTONE_SETTLED) ==> HasAction(rs, SETTLEMENT_EXECUTED)
  {
  }

  lemma ReachableAmount(start: Ledger, ticks: seq<Tick>, key: Pubkey)
    requires Genesis(start) && key in Run(start, ticks).agreements
    ensures Run(start, ticks).agreements[key].amount > 0
  {
    hide Run, Genesis;
    RunKeepsBooks(start, ticks);
    assert BooksSound(Run(start, ticks).milestones, key, Run(start, ticks).agreements[key]);
  }

  lemma SameIdsSameReceipts(bag: seq<Receipt>, rs: seq<Receipt>)
    requires SameElements(bag, rs) && DistinctIds(rs)
    ensures OneReceiptPerId(bag)
  {
    forall r, s | r in bag && s in bag && r.receiptId == s.receiptId ensures r == s {
      assert r in rs && s in rs;
    }
  }

  /**
   The seal diamond. Along every run, however the events and the receipts were
   delivered, the two seals agree on being settled, refunded, revoked and
   resolved. They agree on an open dispute exactly when the resolution's time
   does not read before the opening's, and on confirmation except exactly when a
   tranche was approved, none reads as paid, and nothing else was ever accepted;
   where steps read right, that is when an approved tranche is all there is.
   */
  lemma SealDiamond(start: Ledger, ticks: seq<Tick>, key: Pubkey, idOf: IdFunction, envelopes: seq<Envelope>,
                    bag: seq<Receipt>, reps: seq<ReputationEvent>, programId: string, chainVerified: bool)
    requires Genesis(start) && key in Run(start, ticks).agreements && InjectiveIds(idOf)
    requires Carried(envelopes, Trace(start, ticks, key)) && Normalizes(reps, envelopes, programId)
    ensures forall i :: 0 <= i < |envelopes| ==> EscrowReceiptFromEvent(idOf, envelopes[i]).Ok?
    ensures SameElements(bag, ReceiptsOf(idOf, envelopes)) ==>
              && Reconstruct(bag).Ok?
              && Diamond(FactsFrom(reps, chainVerified), EscrowSealFacts(Reconstruct(bag).value, chainVerified),
                         Run(start, ticks), key, ReceiptsOf(idOf, envelopes))
  {
    hide Genesis, Run, Trace, Carried, InjectiveIds, Tells, AccountInOrder, Reconstruct, Matches;
    hide StepsReadRight, Diamond;
    hide TrancheStatesMatch, StatesAsRead, Stamped, EscrowReceiptFromEvent, SameStory, Normalizes, FactsFrom;
    hide EscrowSealFacts, MoneyTells, ProofsTell, ScheduleTells, Stands, DistinctIds, OneReceiptPerId;
    ReplayIsComplete(start, ticks, key, idOf, envelopes, bag);
    var rs := ReceiptsOf(idOf, envelopes);
    var w := Run(start, ticks);
    CarriedReceipts(idOf, envelopes, Trace(start, ticks, key));
    RunTells(start, ticks, key, rs);
    ReachableInOrder(start, ticks, key);
    ReachableAmount(start, ticks, key);
    NormalizedTellsTheSame(reps, envelopes, programId, idOf);
    StandingIsTold(rs, w, key);
    if SameElements(bag, rs) {
      SameIdsSameReceipts(bag, rs);
      ListsTheBag(bag, rs);
      SealsOfLifecycle(rs, Reconstruct(bag).value, reps, w, key, chainVerified);
    }
  }

  /** With block times that do not go back, the texts are reversed only across the turn of the year 10000. */
  lemma ReversedExactlyWhen(opening: int, resolution: int)
    requires opening <= resolution
    ensures IsoBelow(resolution, opening) <==> opening <= LAST_FOUR_DIGIT_SECOND < resolution
  {
  }

  /** What the difference comes to: the displayed state differs exactly when confirmation is the deciding flag. */
  lemma SealsDifferExactlyWhen(folded: SealFacts, read: SealFacts)
    requires folded == read.(counterpartyConfirmed := folded.counterpartyConfirmed)
    ensures
      var undecided := !read.proofRevoked && !read.settled && !(read.disputeResolved && !read.disputeOpen);
      ResolveSealState(folded) != ResolveSealState(read)
      <==> undecided && folded.counterpartyConfirmed != read.counterpartyConfirmed
  {
  }
}
