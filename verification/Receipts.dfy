/** A receipt: one committed event, with the chain coordinates that carried it. */
module Receipts {
  import opened Wrappers
  import opened Keys
  import opened EscrowState
  import opened EscrowEvents

  datatype ReceiptAction =
    | AGREEMENT_OPENED | AGREEMENT_FUNDED | WORK_COMPLETED | SETTLEMENT_EXECUTED
    | PROOF_SUBMITTED | PROOF_APPROVED | PROOF_REJECTED | AGREEMENT_ABANDONED
    | DISPUTE_OPENED | DISPUTE_RESOLVED | REFUND_EXECUTED
    | MILESTONE_CREATED | MILESTONE_SUBMITTED | MILESTONE_APPROVED | MILESTONE_REJECTED
    | MILESTONE_SETTLED | COUNTERPARTY_ASSIGNED

  /** Did the fact move the agreement to another state, or only add to what is known of it? */
  datatype Kind = Transition | Annotation

  /** What a receipt says, apart from where on chain it was said. */
  datatype Fact = Fact(
    action: ReceiptAction,
    agreement: Pubkey,
    agreementId: nat,
    buyer: Pubkey,
    seller: Pubkey,
    actor: Pubkey,
    mint: Option<Pubkey>,
    amount: Option<nat>,
    destination: Option<Pubkey>,
    proof: Option<Pubkey>,
    proofIndex: Option<nat>,
    milestone: Option<Pubkey>,
    milestoneIndex: Option<nat>,
    previousState: Option<AgreementState>,
    newState: AgreementState
  )

  datatype Envelope = Envelope(
    event: Event,
    programId: string,
    transactionSignature: string,
    slot: int,
    instructionIndex: int,
    innerInstructionIndex: Option<int>,
    blockTime: Option<int>
  )

  datatype Receipt = Receipt(
    receiptId: string,
    programId: string,
    kind: Kind,
    fact: Fact,
    occurredAt: int,   // unix seconds; the source renders them in ISO 8601, one text per second
    transactionSignature: string,
    slot: int,
    instructionIndex: int,
    innerInstructionIndex: Option<int>
  )

  datatype ReceiptError =
    | InvalidTimestamp | MissingSignature | InvalidInstructionIndex | InvalidSlot
    | NoReceipts | ReplayedAction | ManyAgreements | MissingCreation | ManyCreations | Forked
    | SlotRegression | Revisited | Orphan | EarlyAnnotation
    | SettlementWithoutFunding | SettlementMismatch | SettledAndRefunded | RefundWithoutFunding | RefundMismatch
    | ManyPayees | BadDecision | UnknownMilestone | ScheduleMismatch | UnknownCitation | UnapprovedCitation

  function KindOf(previousState: Option<AgreementState>, newState: AgreementState): Kind {
    if previousState != Some(newState) then Transition else Annotation
  }

  function ActionOf(e: Event): ReceiptAction {
    match e
    case AgreementOpened(_, _, _, _, _, _, _, _, _, _, _) => AGREEMENT_OPENED
    case AgreementFunded(_, _, _, _, _, _, _, _, _) => AGREEMENT_FUNDED
    case WorkCompleted(_, _, _, _, _, _, _) => WORK_COMPLETED
    case SettlementExecuted(_, _, _, _, _, _, _, _, _, _) => SETTLEMENT_EXECUTED
    case ProofSubmitted(_, _, _, _, _, _, _, _, _, _, _) => PROOF_SUBMITTED
    case ProofApproved(_, _, _, _, _, _, _, _, _, _) => PROOF_APPROVED
    case ProofRejected(_, _, _, _, _, _, _, _, _, _) => PROOF_REJECTED
    case AgreementAbandoned(_, _, _, _, _, _, _) => AGREEMENT_ABANDONED
    case DisputeOpened(_, _, _, _, _, _, _, _) => DISPUTE_OPENED
    case DisputeResolved(_, _, _, _, _, _, _, _, _) => DISPUTE_RESOLVED
    case RefundExecuted(_, _, _, _, _, _, _, _, _, _) => REFUND_EXECUTED
    case MilestoneCreated(_, _, _, _, _, _, _, _, _) => MILESTONE_CREATED
    case MilestoneSubmitted(_, _, _, _, _, _, _, _, _) => MILESTONE_SUBMITTED
    case MilestoneApproved(_, _, _, _, _, _, _, _, _) => MILESTONE_APPROVED
    case MilestoneRejected(_, _, _, _, _, _, _, _, _) => MILESTONE_REJECTED
    case MilestoneSettled(_, _, _, _, _, _, _, _, _, _, _, _) => MILESTONE_SETTLED
    case CounterpartyAssigned(_, _, _, _, _) => COUNTERPARTY_ASSIGNED
  }

  /** A fact that concerns nothing but the agreement and the wallet that caused it. */
  function Plain(e: Event, buyer: Pubkey, seller: Pubkey, actor: Pubkey, previousState: Option<AgreementState>,
                 newState: AgreementState): Fact
  {
    Fact(ActionOf(e), e.agreement, 0, buyer, seller, actor, None, None, None, None, None, None, None,
         previousState, newState)
  }

  function FactOf(e: Event): Fact {
    match e
    case AgreementOpened(_, id, creator, counterparty, _, mint, _, _, _, newState, _) =>
      Plain(e, creator, counterparty, creator, None, newState).(agreementId := id, mint := Some(mint))
    case AgreementFunded(_, creator, counterparty, amount, mint, vault, previous, newState, _) =>
      Plain(e, creator, counterparty, creator, Some(previous), newState)
      .(mint := Some(mint), amount := Some(amount), destination := Some(vault))
    case WorkCompleted(_, creator, counterparty, actor, previous, newState, _) =>
      Plain(e, creator, counterparty, actor, Some(previous), newState)
    case SettlementExecuted(_, buyer, seller, amount, mint, destination, proof, previous, newState, _) =>
      Plain(e, buyer, seller, seller, Some(previous), newState)
      .(mint := Some(mint), amount := Some(amount), destination := Some(destination), proof := proof)
    case CounterpartyAssigned(_, creator, counterparty, state, _) =>
      Plain(e, creator, counterparty, creator, Some(state), state)
    case MilestoneCreated(_, milestone, creator, counterparty, index, amount, _, state, _) =>
      Plain(e, creator, counterparty, creator, Some(state), state)
      .(amount := Some(amount), milestone := Some(milestone), milestoneIndex := Some(index))
    case MilestoneSubmitted(_, milestone, creator, counterparty, index, _, _, state, _) =>
      Plain(e, creator, counterparty, counterparty, Some(state), state)
      .(milestone := Some(milestone), milestoneIndex := Some(index))
    case MilestoneApproved(_, milestone, creator, counterparty, index, _, _, state, _) =>
      Plain(e, creator, counterparty, creator, Some(state), state)
      .(milestone := Some(milestone), milestoneIndex := Some(index))
    case MilestoneRejected(_, milestone, creator, counterparty, index, _, _, state, _) =>
      Plain(e, creator, counterparty, creator, Some(state), state)
      .(milestone := Some(milestone), milestoneIndex := Some(index))
    case MilestoneSettled(_, milestone, creator, counterparty, index, _, destination, proof, _, _, state, _) =>
      // The payment is reported by the settlement emitted beside this event; an amount here would count it twice.
      Plain(e, creator, counterparty, counterparty, Some(state), state)
      .(destination := Some(destination), proof := proof, milestone := Some(milestone), milestoneIndex := Some(index))
    case AgreementAbandoned(_, creator, counterparty, cancelledBy, previous, newState, _) =>
      Plain(e, creator, counterparty, cancelledBy, Some(previous), newState)
    case DisputeOpened(_, creator, counterparty, openedBy, _, previous, newState, _) =>
      Plain(e, creator, counterparty, openedBy, Some(previous), newState)
    case DisputeResolved(_, creator, counterparty, resolvedBy, _, _, _, state, _) =>
      Plain(e, creator, counterparty, resolvedBy, Some(state), state)
    case RefundExecuted(_, buyer, seller, refundedBy, amount, mint, destination, previous, newState, _) =>
      Plain(e, buyer, seller, refundedBy, Some(previous), newState)
      .(mint := Some(mint), amount := Some(amount), destination := Some(destination))
    case ProofSubmitted(_, proof, _, creator, counterparty, submitter, index, _, _, state, _) =>
      Plain(e, creator, counterparty, submitter, Some(state), state)
      .(proof := Some(proof), proofIndex := Some(index))
    case ProofApproved(_, proof, _, creator, counterparty, _, decidedBy, index, state, _) =>
      Plain(e, creator, counterparty, decidedBy, Some(state), state)
      .(proof := Some(proof), proofIndex := Some(index))
    case ProofRejected(_, proof, _, creator, counterparty, _, decidedBy, index, state, _) =>
      Plain(e, creator, counterparty, decidedBy, Some(state), state)
      .(proof := Some(proof), proofIndex := Some(index))
  }

  /** The last second a JavaScript date can hold. */
  const MAX_UNIX_SECONDS := 8_640_000_000_000

  function IsoFromUnix(seconds: int): Result<int, ReceiptError> {
    if seconds < 0 || seconds > MAX_UNIX_SECONDS then Err(InvalidTimestamp) else Ok(seconds)
  }

  function TimeOf(envelope: Envelope): int {
    if envelope.blockTime.Some? then envelope.blockTime.value else envelope.event.timestamp
  }

  /** Receipt ids are a digest of these five coordinates. */
  type IdFunction = (string, string, int, Option<int>, ReceiptAction) -> string

  /** No two coordinates share an id: what the digest promises up to collisions. */
  ghost predicate InjectiveIds(idOf: IdFunction) {
    forall p, s, i, n, a, q, t, j, m, b :: idOf(p, s, i, n, a) == idOf(q, t, j, m, b) ==>
      p == q && s == t && i == j && n == m && a == b
  }

  function IdOf(idOf: IdFunction, envelope: Envelope): string {
    idOf(envelope.programId, envelope.transactionSignature, envelope.instructionIndex,
         envelope.innerInstructionIndex, ActionOf(envelope.event))
  }

  function EscrowReceiptFromEvent(idOf: IdFunction, envelope: Envelope): Result<Receipt, ReceiptError> {
    if envelope.transactionSignature == "" then Err(ReceiptError.MissingSignature)
    else if envelope.instructionIndex < 0 then Err(InvalidInstructionIndex)
    else if envelope.slot < 0 then Err(InvalidSlot)
    else
      var occurredAt :- IsoFromUnix(TimeOf(envelope));
      var fact := FactOf(envelope.event);
      Ok(Receipt(IdOf(idOf, envelope), envelope.programId, KindOf(fact.previousState, fact.newState), fact,
                 occurredAt, envelope.transactionSignature, envelope.slot, envelope.instructionIndex,
                 envelope.innerInstructionIndex))
  }

  /**
   The fields the reconstruction reads without asking whether they are there. The
   source types them as nullable and casts; a receipt built from an event has them.
   */
  predicate WellFormed(r: Receipt) {
    var f := r.fact;
    && (f.action == PROOF_SUBMITTED || f.action == PROOF_APPROVED || f.action == PROOF_REJECTED ==>
          f.proof.Some? && f.proofIndex.Some?)
    && (f.action == MILESTONE_CREATED ==> f.milestone.Some? && f.milestoneIndex.Some? && f.amount.Some?)
    && (f.previousState.None? ==> f.mint.Some?)
  }

  /** Every receipt built from an event has the fields the reconstruction relies on, and the kind its states say. */
  lemma BuiltReceiptsAreWellFormed(idOf: IdFunction, envelope: Envelope)
    requires EscrowReceiptFromEvent(idOf, envelope).Ok?
    ensures WellFormed(EscrowReceiptFromEvent(idOf, envelope).value)
    ensures EscrowReceiptFromEvent(idOf, envelope).value.fact.action == ActionOf(envelope.event)
    ensures EscrowReceiptFromEvent(idOf, envelope).value.fact.agreement == envelope.event.agreement
  {
  }
}
