/**
 The program's accounts as the objects a handler works on: loaded from their
 stored value, written field by field, and stored back when the handler succeeds.
 */
module EscrowAccounts {
  import opened Wrappers
  import opened Keys
  import opened EscrowState

  class AgreementAccount {
    var creator: Pubkey
    var counterparty: Pubkey
    var agreementId: nat
    var agreementType: AgreementType
    var mint: Pubkey
    var vault: Pubkey
    var amount: nat
    var termsHash: Hash
    var state: AgreementState
    var createdAt: int
    var fundedAt: int
    var completedAt: int
    var settledAt: int
    var proofCount: nat
    var settlementProof: Pubkey
    var disputeOpenedBy: Pubkey
    var stateChangedAt: int
    var milestoneCount: nat
    var milestonesSettled: nat
    var milestoneTotal: nat
    var settledTotal: nat

    constructor Load(a: Agreement)
      ensures Store() == a
    {
      creator, counterparty, agreementId, agreementType := a.creator, a.counterparty, a.agreementId, a.agreementType;
      mint, vault, amount, termsHash, state := a.mint, a.vault, a.amount, a.termsHash, a.state;
      createdAt, fundedAt, completedAt, settledAt := a.createdAt, a.fundedAt, a.completedAt, a.settledAt;
      proofCount, settlementProof, disputeOpenedBy := a.proofCount, a.settlementProof, a.disputeOpenedBy;
      stateChangedAt, milestoneCount, milestonesSettled := a.stateChangedAt, a.milestoneCount, a.milestonesSettled;
      milestoneTotal, settledTotal := a.milestoneTotal, a.settledTotal;
    }

    function Store(): Agreement
      reads this
    {
      Agreement(creator, counterparty, agreementId, agreementType, mint, vault, amount, termsHash, state,
                createdAt, fundedAt, completedAt, settledAt, proofCount, settlementProof, disputeOpenedBy,
                stateChangedAt, milestoneCount, milestonesSettled, milestoneTotal, settledTotal)
    }

    method RecordCounterparty(winner: Pubkey, now: int) returns (r: Outcome<EscrowError>)
      modifies this
      ensures r.Pass? <==> EscrowState.RecordCounterparty(old(Store()), winner, now).Ok?
      ensures r.Pass? ==> Ok(Store()) == EscrowState.RecordCounterparty(old(Store()), winner, now)
      ensures r.Fail? ==> Store() == old(Store()) && r.error == InvalidCounterparty
    {
      if winner == Default || winner == creator {
        return Fail(InvalidCounterparty);
      }
      counterparty := winner;
      stateChangedAt := now;
      return Pass;
    }

    /** The new total is written after both checks on it have passed. */
    method RecordPayout(paid: nat) returns (r: Outcome<EscrowError>)
      modifies this
      ensures match EscrowState.RecordPayout(old(Store()), paid)
              case Ok(b) => r.Pass? && Store() == b
              case Err(e) => r == Fail(e) && Store() == old(Store())
    {
      var total := settledTotal + paid;
      if total > U64_MAX {
        return Fail(Overflow);
      }
      if total > amount {
        return Fail(CustodyMismatch);
      }
      settledTotal := total;
      return Pass;
    }

    method RecordFunded(now: int) returns (previous: AgreementState)
      modifies this
      ensures previous == old(state)
      ensures Store() == old(Store()).(state := Funded, fundedAt := now)
    {
      previous := state;
      state := Funded;
      fundedAt := now;
    }

    method RecordCompleted(now: int) returns (previous: AgreementState)
      modifies this
      ensures previous == old(state)
      ensures Store() == old(Store()).(state := Completed, completedAt := now)
    {
      previous := state;
      state := Completed;
      completedAt := now;
    }

    method RecordCancelled(now: int) returns (previous: AgreementState)
      modifies this
      ensures previous == old(state)
      ensures Store() == old(Store()).(state := Cancelled, stateChangedAt := now)
    {
      previous := state;
      state := Cancelled;
      stateChangedAt := now;
    }

    method RecordDisputed(openedBy: Pubkey, now: int) returns (previous: AgreementState)
      modifies this
      ensures previous == old(state)
      ensures Store() == old(Store()).(state := Disputed, disputeOpenedBy := openedBy, stateChangedAt := now)
    {
      previous := state;
      state := Disputed;
      disputeOpenedBy := openedBy;
      stateChangedAt := now;
    }

    method RecordRefunded(now: int) returns (previous: AgreementState)
      modifies this
      ensures previous == old(state)
      ensures Store() == old(Store()).(state := Refunded, stateChangedAt := now)
    {
      previous := state;
      state := Refunded;
      stateChangedAt := now;
    }

    method RecordSettled(now: int) returns (previous: AgreementState)
      modifies this
      ensures previous == old(state)
      ensures Store() == old(Store()).(state := AgreementState.Settled, settledAt := now)
    {
      previous := state;
      state := AgreementState.Settled;
      settledAt := now;
    }

    method RecordMilestone(tranche: nat) returns (r: Outcome<EscrowError>)
      modifies this
      ensures match EscrowState.RecordMilestone(old(Store()), tranche)
              case Ok(b) => r.Pass? && Store() == b
              case Err(e) => r == Fail(e) && Store() == old(Store())
    {
      var count := milestoneCount + 1;
      if count > U32_MAX {
        return Fail(Overflow);
      }
      var total := milestoneTotal + tranche;
      if total > U64_MAX {
        return Fail(Overflow);
      }
      if total > amount {
        return Fail(MilestoneTotalMismatch);
      }
      milestoneCount := count;
      milestoneTotal := total;
      return Pass;
    }

    /** Records a settled tranche, and finishes the agreement when it was the last. */
    method RecordMilestoneSettled(paid: nat, now: int) returns (r: Result<bool, EscrowError>)
      modifies this
      ensures match EscrowState.RecordMilestoneSettled(old(Store()), paid, now)
              case Ok(b) => r == Ok(b.milestonesSettled == b.milestoneCount) && Store() == b
              case Err(e) => r == Err(e) && Store() == old(Store())
    {
      var settled := milestonesSettled + 1;
      if settled > U32_MAX {
        return Err(Overflow);
      }
      var payout := RecordPayout(paid);
      if payout.Fail? {
        return Err(payout.error);
      }
      milestonesSettled := settled;
      var finished := milestonesSettled == milestoneCount;
      if finished {
        state := AgreementState.Settled;
        settledAt := now;
      }
      return Ok(finished);
    }

    method RecordProof() returns (r: Outcome<EscrowError>)
      modifies this
      ensures match EscrowState.RecordProof(old(Store()))
              case Ok(b) => r.Pass? && Store() == b
              case Err(e) => r == Fail(e) && Store() == old(Store())
    {
      if proofCount + 1 > U32_MAX {
        return Fail(Overflow);
      }
      proofCount := proofCount + 1;
      return Pass;
    }
  }

  class MilestoneAccount {
    var agreement: Pubkey
    var index: nat
    var amount: nat
    var termsHash: Hash
    var state: MilestoneState
    var proof: Pubkey
    var createdAt: int
    var submittedAt: int
    var approvedAt: int
    var settledAt: int

    constructor Load(m: Milestone)
      ensures Store() == m
    {
      agreement, index, amount, termsHash, state := m.agreement, m.index, m.amount, m.termsHash, m.state;
      proof, createdAt, submittedAt := m.proof, m.createdAt, m.submittedAt;
      approvedAt, settledAt := m.approvedAt, m.settledAt;
    }

    function Store(): Milestone
      reads this
    {
      Milestone(agreement, index, amount, termsHash, state, proof, createdAt, submittedAt, approvedAt, settledAt)
    }

    method RecordSubmitted(now: int) returns (previous: MilestoneState)
      modifies this
      ensures previous == old(state)
      ensures Store() == old(Store()).(state := MilestoneState.Submitted, submittedAt := now)
    {
      previous := state;
      state := MilestoneState.Submitted;
      submittedAt := now;
    }

    method RecordApproved(now: int) returns (previous: MilestoneState)
      modifies this
      ensures previous == old(state)
      ensures Store() == old(Store()).(state := MilestoneState.Approved, approvedAt := now)
    {
      previous := state;
      state := MilestoneState.Approved;
      approvedAt := now;
    }

    /** A refusal sends the tranche back; the program stamps `submitted_at` when it does. */
    method RecordRejected(now: int) returns (previous: MilestoneState)
      modifies this
      ensures previous == old(state)
      ensures Store() == old(Store()).(state := Pending, submittedAt := now)
    {
      previous := state;
      state := Pending;
      submittedAt := now;
    }

    method RecordSettled(cited: Pubkey, now: int) returns (previous: MilestoneState)
      modifies this
      ensures previous == old(state)
      ensures Store() == old(Store()).(state := MilestoneState.Settled, proof := cited, settledAt := now)
    {
      previous := state;
      state := MilestoneState.Settled;
      proof := cited;
      settledAt := now;
    }
  }

  class ProofAccount {
    var agreement: Pubkey
    var coreProof: Pubkey
    var submitter: Pubkey
    var index: nat
    var status: ProofStatus
    var createdAt: int
    var decidedAt: int
    var decidedBy: Pubkey

    constructor Load(p: Proof)
      ensures Store() == p
    {
      agreement, coreProof, submitter, index := p.agreement, p.coreProof, p.submitter, p.index;
      status, createdAt, decidedAt, decidedBy := p.status, p.createdAt, p.decidedAt, p.decidedBy;
    }

    function Store(): Proof
      reads this
    {
      Proof(agreement, coreProof, submitter, index, status, createdAt, decidedAt, decidedBy)
    }

    method RecordDecision(decision: ProofStatus, decider: Pubkey, now: int)
      modifies this
      ensures Store() == old(Store()).(status := decision, decidedBy := decider, decidedAt := now)
    {
      status := decision;
      decidedBy := decider;
      decidedAt := now;
    }
  }

  /** A ppv_core record; only its author can revoke it, and only once. */
  class CoreRecordAccount {
    var record: CoreRecord

    constructor Load(r: CoreRecord)
      ensures record == r
    {
      record := r;
    }

    method Revoke(signer: Pubkey, now: int) returns (r: Outcome<EscrowError>)
      modifies this
      ensures r.Pass? <==> signer == old(record).authority && old(record).status == Active
      ensures r.Pass? ==> record == old(record).(status := Revoked, revokedAt := now)
      ensures r.Fail? ==> record == old(record)
      ensures r.Fail? ==> r.error == if signer != old(record).authority then CoreUnauthorized else CoreAlreadyRevoked
    {
      if signer != record.authority {
        return Fail(CoreUnauthorized);
      }
      if record.status != Active {
        return Fail(CoreAlreadyRevoked);
      }
      record := record.(status := Revoked, revokedAt := now);
      return Pass;
    }
  }
}
