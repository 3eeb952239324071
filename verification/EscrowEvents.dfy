/** The seventeen events ppv_escrow emits, field by field. */
module EscrowEvents {
  import opened Wrappers
  import opened Keys
  import opened EscrowState

  datatype Event =
    | AgreementOpened(agreement: Pubkey, agreementId: nat, creator: Pubkey, counterparty: Pubkey,
                      agreementType: AgreementType, mint: Pubkey, vault: Pubkey, amount: nat,
                      termsHash: Hash, newState: AgreementState, timestamp: int)
    | AgreementFunded(agreement: Pubkey, creator: Pubkey, counterparty: Pubkey, amount: nat,
                      mint: Pubkey, vault: Pubkey, previousState: AgreementState,
                      newState: AgreementState, timestamp: int)
    | WorkCompleted(agreement: Pubkey, creator: Pubkey, counterparty: Pubkey, actor: Pubkey,
                    previousState: AgreementState, newState: AgreementState, timestamp: int)
    | SettlementExecuted(agreement: Pubkey, buyer: Pubkey, seller: Pubkey, amount: nat, mint: Pubkey,
                         destination: Pubkey, settlementProof: Option<Pubkey>,
                         previousState: AgreementState, newState: AgreementState, timestamp: int)
    | ProofSubmitted(agreement: Pubkey, proof: Pubkey, coreProof: Pubkey, creator: Pubkey,
                     counterparty: Pubkey, submitter: Pubkey, proofIndex: nat, contentHash: Hash,
                     metadataHash: Hash, agreementState: AgreementState, timestamp: int)
    | ProofApproved(agreement: Pubkey, proof: Pubkey, coreProof: Pubkey, creator: Pubkey,
                    counterparty: Pubkey, submitter: Pubkey, decidedBy: Pubkey, proofIndex: nat,
                    agreementState: AgreementState, timestamp: int)
    | ProofRejected(agreement: Pubkey, proof: Pubkey, coreProof: Pubkey, creator: Pubkey,
                    counterparty: Pubkey, submitter: Pubkey, decidedBy: Pubkey, proofIndex: nat,
                    agreementState: AgreementState, timestamp: int)
    | AgreementAbandoned(agreement: Pubkey, creator: Pubkey, counterparty: Pubkey, cancelledBy: Pubkey,
                         previousState: AgreementState, newState: AgreementState, timestamp: int)
    | DisputeOpened(agreement: Pubkey, creator: Pubkey, counterparty: Pubkey, openedBy: Pubkey,
                    reasonHash: Hash, previousState: AgreementState, newState: AgreementState,
                    timestamp: int)
    | DisputeResolved(agreement: Pubkey, creator: Pubkey, counterparty: Pubkey, resolvedBy: Pubkey,
                      beneficiary: Pubkey, outcome: DisputeOutcome, openedBy: Pubkey,
                      resultingState: AgreementState, timestamp: int)
    | RefundExecuted(agreement: Pubkey, buyer: Pubkey, seller: Pubkey, refundedBy: Pubkey, amount: nat,
                     mint: Pubkey, destination: Pubkey, previousState: AgreementState,
                     newState: AgreementState, timestamp: int)
    | MilestoneCreated(agreement: Pubkey, milestone: Pubkey, creator: Pubkey, counterparty: Pubkey,
                       milestoneIndex: nat, amount: nat, termsHash: Hash,
                       agreementState: AgreementState, timestamp: int)
    | MilestoneSubmitted(agreement: Pubkey, milestone: Pubkey, creator: Pubkey, counterparty: Pubkey,
                         milestoneIndex: nat, previousStep: MilestoneState, newStep: MilestoneState,
                         agreementState: AgreementState, timestamp: int)
    | MilestoneApproved(agreement: Pubkey, milestone: Pubkey, creator: Pubkey, counterparty: Pubkey,
                        milestoneIndex: nat, previousStep: MilestoneState, newStep: MilestoneState,
                        agreementState: AgreementState, timestamp: int)
    | MilestoneRejected(agreement: Pubkey, milestone: Pubkey, creator: Pubkey, counterparty: Pubkey,
                        milestoneIndex: nat, previousStep: MilestoneState, newStep: MilestoneState,
                        agreementState: AgreementState, timestamp: int)
    | MilestoneSettled(agreement: Pubkey, milestone: Pubkey, creator: Pubkey, counterparty: Pubkey,
                       milestoneIndex: nat, amount: nat, destination: Pubkey,
                       settlementProof: Option<Pubkey>, previousStep: MilestoneState,
                       newStep: MilestoneState, agreementState: AgreementState, timestamp: int)
    | CounterpartyAssigned(agreement: Pubkey, creator: Pubkey, counterparty: Pubkey,
                           agreementState: AgreementState, timestamp: int)
}
