/**
 The accounts of the escrow program as values, with the guards that run before
 any token moves and the writes that run after.
 */
module EscrowState {
  import opened Wrappers
  import opened Keys

  datatype AgreementType = Escrow | Invoice | Contract | MilestoneContract | Bounty | ProofOnly

  datatype AgreementState = Open | Funded | Completed | Settled | Cancelled | Disputed | Refunded

  datatype DisputeOutcome = SellerPaid | BuyerRefunded

  datatype MilestoneState = Pending | Submitted | Approved | Settled

  datatype ProofStatus = Submitted | Approved | Rejected

  datatype CoreStatus = Active | Revoked

  datatype EscrowError =
    | InvalidCounterparty | InvalidAmount | InvalidTermsHash | UnsupportedAgreementType
    | NotTheBuyer | NotTheSeller | NotAParty | BadState | MintMismatch
    | SourceNotOwnedByBuyer | DestinationNotOwnedBySeller | DestinationNotOwnedByBuyer
    | CustodyMismatch | InvalidContentHash | ProofAgreementMismatch | CannotDecideOwnProof
    | ProofAlreadyDecided | ProofNotApproved | CannotConcedeToSelf | DestinationNotAParty
    | WrongAgreementType | CounterpartyAlreadyAssigned | CounterpartyNotAssigned
    | MilestoneTotalMismatch | MilestonesNotFullyScheduled | MilestoneAgreementMismatch
    | MilestoneBadState | InvalidMilestoneAmount | VaultAlreadyInitialized | Overflow
    | CoreProofMismatch | CoreProofRequired | UnexpectedCoreProof | CoreProofRevoked
    | AccountConstraint   // an account is missing, exists already, or is not at its derived address
    | TokenProgramError   // the token program refused the transfer
    | CoreUnauthorized | CoreAlreadyRevoked | CoreInvalidContentHash
    | MissingSignature

  datatype Agreement = Agreement(
    creator: Pubkey,
    counterparty: Pubkey,
    agreementId: nat,
    agreementType: AgreementType,
    mint: Pubkey,
    vault: Pubkey,
    amount: nat,
    termsHash: Hash,
    state: AgreementState,
    createdAt: int,
    fundedAt: int,
    completedAt: int,
    settledAt: int,
    proofCount: nat,
    settlementProof: Pubkey,
    disputeOpenedBy: Pubkey,
    stateChangedAt: int,
    milestoneCount: nat,
    milestonesSettled: nat,
    milestoneTotal: nat,
    settledTotal: nat
  )

  datatype Milestone = Milestone(
    agreement: Pubkey,
    index: nat,
    amount: nat,
    termsHash: Hash,
    state: MilestoneState,
    proof: Pubkey,
    createdAt: int,
    submittedAt: int,
    approvedAt: int,
    settledAt: int
  )

  datatype Proof = Proof(
    agreement: Pubkey,
    coreProof: Pubkey,
    submitter: Pubkey,
    index: nat,
    status: ProofStatus,
    createdAt: int,
    decidedAt: int,
    decidedBy: Pubkey
  )

  /** A ppv_core proof record. */
  datatype CoreRecord = CoreRecord(
    proofId: CoreProofId,
    authority: Pubkey,
    contentHash: Hash,
    contextHash: Hash,
    status: CoreStatus,
    createdAt: int,
    revokedAt: int
  )

  predicate IsTerminal(s: AgreementState) {
    s == AgreementState.Settled || s == Cancelled || s == Refunded
  }

  /** How far along its life an agreement is. Every transition moves strictly on. */
  function Rank(s: AgreementState): nat {
    match s
    case Open => 0
    case Funded => 1
    case Completed => 2
    case Disputed => 3
    case _ => 4
  }

  predicate IsLive(s: AgreementState) {
    s == Funded || s == Completed || s == Disputed
  }

  // ---- Agreement: questions ----

  predicate HasCounterparty(a: Agreement) {
    a.counterparty != Default
  }

  predicate IsParty(a: Agreement, k: Pubkey) {
    k != Default && (k == a.creator || k == a.counterparty)
  }

  predicate IsMilestoneContract(a: Agreement) {
    a.agreementType == MilestoneContract
  }

  /** What the vault still owes; the subtraction saturates at zero. */
  function Remaining(a: Agreement): nat {
    if a.settledTotal <= a.amount then a.amount - a.settledTotal else 0
  }

  function OutcomeFor(a: Agreement, beneficiary: Pubkey): DisputeOutcome {
    if beneficiary == a.counterparty then SellerPaid else BuyerRefunded
  }

  // ---- Agreement: guards ----

  function RequireCounterpartyAssignable(a: Agreement, signer: Pubkey): Outcome<EscrowError> {
    if signer != a.creator then Fail(NotTheBuyer)
    else if a.agreementType != Bounty then Fail(WrongAgreementType)
    else if HasCounterparty(a) then Fail(CounterpartyAlreadyAssigned)
    else if a.state != Open && a.state != Funded then Fail(BadState)
    else Pass
  }

  function RequireFundable(a: Agreement, signer: Pubkey): Outcome<EscrowError> {
    if signer != a.creator then Fail(NotTheBuyer)
    else if a.state != Open then Fail(BadState)
    else Pass
  }

  function RequireCompletable(a: Agreement, signer: Pubkey): Outcome<EscrowError> {
    if !HasCounterparty(a) then Fail(CounterpartyNotAssigned)
    else if signer != a.counterparty then Fail(NotTheSeller)
    else if a.state != Funded then Fail(BadState)
    else if IsMilestoneContract(a) then Fail(WrongAgreementType)
    else Pass
  }

  function RequireSettleable(a: Agreement, signer: Pubkey): Outcome<EscrowError> {
    if !HasCounterparty(a) then Fail(CounterpartyNotAssigned)
    else if !IsParty(a, signer) then Fail(NotAParty)
    else if a.state != Completed then Fail(BadState)
    else Pass
  }

  function RequireMilestoneCreatable(a: Agreement, signer: Pubkey): Outcome<EscrowError> {
    if signer != a.creator then Fail(NotTheBuyer)
    else if !IsMilestoneContract(a) then Fail(WrongAgreementType)
    else if a.state != Open then Fail(BadState)
    else Pass
  }

  function RequireMilestoneActive(a: Agreement): Outcome<EscrowError> {
    if !IsMilestoneContract(a) then Fail(WrongAgreementType)
    else if a.state != Funded then Fail(BadState)
    else Pass
  }

  function RequireCancellable(a: Agreement, signer: Pubkey): Outcome<EscrowError> {
    if signer != a.creator then Fail(NotTheBuyer)
    else if a.state != Open then Fail(BadState)
    else Pass
  }

  function RequireDisputable(a: Agreement, signer: Pubkey): Outcome<EscrowError> {
    if !HasCounterparty(a) then Fail(CounterpartyNotAssigned)
    else if !IsParty(a, signer) then Fail(NotAParty)
    else if a.state != Funded && a.state != Completed then Fail(BadState)
    else Pass
  }

  function RequireResolvable(a: Agreement, signer: Pubkey, beneficiary: Pubkey): Outcome<EscrowError> {
    if !HasCounterparty(a) then Fail(CounterpartyNotAssigned)
    else if a.state != Disputed then Fail(BadState)
    else if !IsParty(a, signer) then Fail(NotAParty)
    else if !IsParty(a, beneficiary) then Fail(NotAParty)
    else if signer == beneficiary then Fail(CannotConcedeToSelf)
    else Pass
  }

  function RequireRefundable(a: Agreement, signer: Pubkey): Outcome<EscrowError> {
    if !HasCounterparty(a) then Fail(CounterpartyNotAssigned)
    else if signer != a.counterparty then Fail(NotTheSeller)
    else if a.state != Funded && a.state != Completed then Fail(BadState)
    else Pass
  }

  function RequireProofSubmittable(a: Agreement, signer: Pubkey): Outcome<EscrowError> {
    if !IsParty(a, signer) then Fail(NotAParty)
    else if !IsLive(a.state) then Fail(BadState)
    else Pass
  }

  // ---- Agreement: writes ----

  function RecordCounterparty(a: Agreement, winner: Pubkey, now: int): Result<Agreement, EscrowError> {
    if winner == Default || winner == a.creator then Err(InvalidCounterparty)
    else Ok(a.(counterparty := winner, stateChangedAt := now))
  }

  function RecordPayout(a: Agreement, paid: nat): Result<Agreement, EscrowError> {
    var total := a.settledTotal + paid;
    if total > U64_MAX then Err(Overflow)
    else if total > a.amount then Err(CustodyMismatch)
    else Ok(a.(settledTotal := total))
  }

  function RecordMilestone(a: Agreement, amount: nat): Result<Agreement, EscrowError> {
    if a.milestoneCount + 1 > U32_MAX then Err(Overflow)
    else if a.milestoneTotal + amount > U64_MAX then Err(Overflow)
    else if a.milestoneTotal + amount > a.amount then Err(MilestoneTotalMismatch)
    else Ok(a.(milestoneCount := a.milestoneCount + 1, milestoneTotal := a.milestoneTotal + amount))
  }

  function RecordMilestoneSettled(a: Agreement, paid: nat, now: int): Result<Agreement, EscrowError> {
    if a.milestonesSettled + 1 > U32_MAX then Err(Overflow)
    else
      var paidOut :- RecordPayout(a, paid);
      var counted := paidOut.(milestonesSettled := a.milestonesSettled + 1);
      if counted.milestonesSettled == counted.milestoneCount
      then Ok(counted.(state := AgreementState.Settled, settledAt := now))
      else Ok(counted)
  }

  function RecordProof(a: Agreement): Result<Agreement, EscrowError> {
    if a.proofCount + 1 > U32_MAX then Err(Overflow)
    else Ok(a.(proofCount := a.proofCount + 1))
  }

  // ---- Milestone ----

  function RequireSubmittable(m: Milestone, a: Agreement, key: Pubkey, signer: Pubkey): Outcome<EscrowError> {
    if m.agreement != key then Fail(MilestoneAgreementMismatch)
    else if signer != a.counterparty then Fail(NotTheSeller)
    else if m.state != Pending then Fail(MilestoneBadState)
    else Pass
  }

  function RequireMilestoneDecidable(m: Milestone, a: Agreement, key: Pubkey, signer: Pubkey): Outcome<EscrowError> {
    if m.agreement != key then Fail(MilestoneAgreementMismatch)
    else if signer != a.creator then Fail(NotTheBuyer)
    else if m.state != MilestoneState.Submitted then Fail(MilestoneBadState)
    else Pass
  }

  function RequireMilestoneSettleable(m: Milestone, a: Agreement, key: Pubkey, signer: Pubkey): Outcome<EscrowError> {
    if m.agreement != key then Fail(MilestoneAgreementMismatch)
    else if !IsParty(a, signer) then Fail(NotAParty)
    else if m.state != MilestoneState.Approved then Fail(MilestoneBadState)
    else Pass
  }

  // ---- Proof ----

  function RequireProofDecidable(p: Proof, a: Agreement, key: Pubkey, signer: Pubkey): Outcome<EscrowError> {
    if p.agreement != key then Fail(ProofAgreementMismatch)
    else if !IsParty(a, signer) then Fail(NotAParty)
    else if !IsLive(a.state) then Fail(BadState)
    else if signer == p.submitter then Fail(CannotDecideOwnProof)
    else if p.status != ProofStatus.Submitted then Fail(ProofAlreadyDecided)
    else Pass
  }

  /** The evidence a payout cites must still stand in ppv_core when the money moves. */
  function RequireLiveCoreCommitment(p: Proof, coreKey: Pubkey, core: CoreRecord): Outcome<EscrowError> {
    if coreKey != p.coreProof then Fail(CoreProofMismatch)
    else if coreKey != CoreProofAddress(p.submitter, p.agreement, p.index) then Fail(CoreProofMismatch)
    else if core.authority != p.submitter then Fail(CoreProofMismatch)
    else if core.status != Active then Fail(CoreProofRevoked)
    else Pass
  }
}
