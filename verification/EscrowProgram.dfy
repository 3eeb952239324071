/**
 The instruction handlers, working step by step on the accounts they load. A
 handler's guards run before any token moves and its writes after custody has
 settled; an error anywhere undoes the whole instruction.
 */
module EscrowProgram {
  import opened Wrappers
  import opened Keys
  import opened EscrowState
  import opened EscrowEvents
  import opened EscrowKernel
  import opened EscrowAccounts

  type Answer = Result<seq<Event>, EscrowError>

  /** The answer and the ledger a handler leaves are the ones its specification gives. */
  ghost predicate Answers(w: Ledger, v: Ledger, key: Pubkey, verdict: Verdict, r: Answer) {
    match verdict
    case Ok(c) => r == Ok(c.events) && v == Commit(w, key, c).ledger
    case Err(e) => r == Err(e)
  }

  class Program {
    var agreements: map<Pubkey, Agreement>
    var milestones: map<Pubkey, Milestone>
    var proofs: map<Pubkey, Proof>
    var records: map<Pubkey, CoreRecord>
    var tokens: map<Pubkey, TokenAccount>

    constructor (w: Ledger)
      ensures Ledger() == w
    {
      agreements, milestones, proofs, records, tokens := w.agreements, w.milestones, w.proofs, w.records, w.tokens;
    }

    function Ledger(): Ledger
      reads this
    {
      EscrowKernel.Ledger(agreements, milestones, proofs, records, tokens)
    }

    // ---- Calls into the token program ----

    method Transfer(from: Pubkey, to: Pubkey, mint: Pubkey, authority: Pubkey, amount: nat)
      returns (r: Outcome<EscrowError>)
      modifies this`tokens
      ensures match TransferChecked(old(tokens), from, to, mint, authority, amount)
              case Ok(moved) => r.Pass? && tokens == moved
              case Err(e) => r == Fail(e) && tokens == old(tokens)
    {
      if from !in tokens || to !in tokens || tokens[from].amount < amount {
        return Fail(TokenProgramError);
      }
      if tokens[from].mint != mint || tokens[to].mint != mint || tokens[from].owner != authority {
        return Fail(TokenProgramError);
      }
      if from != to {
        var source, target := tokens[from], tokens[to];
        if target.amount + amount > U64_MAX {
          return Fail(TokenProgramError);
        }
        tokens := tokens[from := source.(amount := source.amount - amount)];
        tokens := tokens[to := target.(amount := target.amount + amount)];
      }
      return Pass;
    }

    /**
     The one way money leaves a vault: transfer, read both balances again, and
     check that each moved by exactly the amount.
     */
    method PayOut(key: Pubkey, mint: Pubkey, destination: Pubkey, amount: nat) returns (r: Outcome<EscrowError>)
      modifies this`tokens
      ensures match PayOutOfVault(old(tokens), key, mint, destination, amount)
              case Ok(moved) => r.Pass? && tokens == moved
              case Err(e) => r == Fail(e)
    {
      var vault := VaultToken(key);
      if vault !in tokens || destination !in tokens {
        return Fail(TokenProgramError);
      }
      var vaultBefore := tokens[vault].amount;
      var destinationBefore := tokens[destination].amount;
      var transfer := Transfer(vault, destination, mint, VaultAuthority(key), amount);
      if transfer.Fail? {
        return Fail(transfer.error);
      }
      if tokens[vault].amount > vaultBefore || tokens[destination].amount < destinationBefore {
        return Fail(CustodyMismatch);
      }
      var debited := vaultBefore - tokens[vault].amount;
      var credited := tokens[destination].amount - destinationBefore;
      if debited != amount || credited != amount {
        return Fail(CustodyMismatch);
      }
      return Pass;
    }

    /** Funding: transfer, read the vault again, and check that it was credited by exactly the amount. */
    method PayIn(source: Pubkey, vault: Pubkey, mint: Pubkey, authority: Pubkey, amount: nat)
      returns (r: Outcome<EscrowError>)
      modifies this`tokens
      ensures match PayIntoVault(old(tokens), source, vault, mint, authority, amount)
              case Ok(moved) => r.Pass? && tokens == moved
              case Err(e) => r == Fail(e)
    {
      if vault !in tokens {
        return Fail(TokenProgramError);
      }
      var balanceBefore := tokens[vault].amount;
      var transfer := Transfer(source, vault, mint, authority, amount);
      if transfer.Fail? {
        return Fail(transfer.error);
      }
      if tokens[vault].amount < balanceBefore {
        return Fail(CustodyMismatch);
      }
      var credited := tokens[vault].amount - balanceBefore;
      if credited != amount {
        return Fail(CustodyMismatch);
      }
      return Pass;
    }

    // ---- Handlers ----

    method HandleInitialize(creator: Pubkey, agreementId: nat, mint: Pubkey, counterparty: Pubkey,
                            agreementType: AgreementType, amount: nat, termsHash: Hash, now: int)
      returns (r: Answer)
      modifies this
      ensures Answers(old(Ledger()), Ledger(), AgreementPda(creator, agreementId),
                      InitializeSpec(old(Ledger()), creator, agreementId, mint, counterparty, agreementType,
                                     amount, termsHash, now), r)
    {
      var key := AgreementPda(creator, agreementId);
      var vault := VaultToken(key);
      :- Need(key !in agreements, AccountConstraint);
      var unassignedAllowed := agreementType == Bounty;
      :- Need((counterparty != Default || unassignedAllowed) && counterparty != creator, InvalidCounterparty);
      :- Need(amount > 0, InvalidAmount);
      :- Need(termsHash != 0, InvalidTermsHash);
      :- Need(agreementType == Escrow || agreementType == MilestoneContract || agreementType == Bounty,
              UnsupportedAgreementType);
      :- Need(vault !in tokens, VaultAlreadyInitialized);
      tokens := tokens[vault := TokenAccount(mint, VaultAuthority(key), 0)];
      agreements := agreements[key := Agreement(creator, counterparty, agreementId, agreementType, mint, vault,
                                                amount, termsHash, Open, now, 0, 0, 0, 0, Default, Default, 0,
                                                0, 0, 0, 0)];
      return Ok([AgreementOpened(key, agreementId, creator, counterparty, agreementType, mint, vault, amount,
                                 termsHash, Open, now)]);
    }

    method HandleSelectCounterparty(key: Pubkey, a: Agreement, signer: Pubkey, winner: Pubkey, now: int)
      returns (r: Answer)
      modifies this
      ensures Answers(old(Ledger()), Ledger(), key,
                      SelectCounterpartySpec(old(Ledger()), key, a, signer, winner, now), r)
    {
      var allowed := RequireCounterpartyAssignable(a, signer);
      :- allowed;
      var agreement := new AgreementAccount.Load(a);
      var recorded := agreement.RecordCounterparty(winner, now);
      :- recorded;
      agreements := agreements[key := agreement.Store()];
      return Ok([CounterpartyAssigned(key, signer, winner, agreement.state, now)]);
    }

    method HandleCreateMilestone(key: Pubkey, a: Agreement, signer: Pubkey, amount: nat, termsHash: Hash, now: int)
      returns (r: Answer)
      modifies this
      ensures Answers(old(Ledger()), Ledger(), key,
                      CreateMilestoneSpec(old(Ledger()), key, a, signer, amount, termsHash, now), r)
    {
      hide RequireMilestoneCreatable, EscrowState.RecordMilestone, KeepsTerms, Reports, LeavesEvidence;
      var address := MilestonePda(key, a.milestoneCount);
      :- Need(address !in milestones, AccountConstraint);
      :- RequireMilestoneCreatable(a, signer);
      :- Need(amount > 0, InvalidMilestoneAmount);
      :- Need(termsHash != 0, InvalidTermsHash);
      var event :- WriteMilestone(key, a, address, amount, termsHash, now);
      return Ok([event]);
    }

    method WriteMilestone(key: Pubkey, a: Agreement, address: Pubkey, amount: nat, termsHash: Hash, now: int)
      returns (r: Result<Event, EscrowError>)
      modifies this`agreements, this`milestones
      ensures match EscrowState.RecordMilestone(a, amount)
              case Err(e) => r == Err(e)
              case Ok(b) =>
                && agreements == old(agreements)[key := b]
                && milestones == old(milestones)[address := Milestone(key, a.milestoneCount, amount, termsHash, Pending,
                                                                      Default, now, 0, 0, 0)]
                && r == Ok(MilestoneCreated(key, address, a.creator, a.counterparty, a.milestoneCount, amount,
                                            termsHash, a.state, now))
    {
      var agreement := new AgreementAccount.Load(a);
      var index := agreement.milestoneCount;
      var recorded := agreement.RecordMilestone(amount);
      :- recorded;
      milestones := milestones[address := Milestone(key, index, amount, termsHash, Pending, Default, now, 0, 0, 0)];
      agreements := agreements[key := agreement.Store()];
      return Ok(MilestoneCreated(key, address, agreement.creator, agreement.counterparty, index, amount,
                                 termsHash, agreement.state, now));
    }

    method HandleFund(key: Pubkey, a: Agreement, signer: Pubkey, source: Pubkey, now: int) returns (r: Answer)
      modifies this
      ensures Answers(old(Ledger()), Ledger(), key, FundSpec(old(Ledger()), key, a, signer, source, now), r)
    {
      hide RequireFunding, PayIntoVault, KeepsTerms, Reports, LeavesEvidence;
      var allowed := RequireFunding(Ledger(), key, a, signer, source);
      :- allowed;
      var deposit := PayIn(source, a.vault, a.mint, signer, a.amount);
      :- deposit;
      var event := WriteFunded(key, a, now);
      return Ok([event]);
    }

    method WriteFunded(key: Pubkey, a: Agreement, now: int) returns (event: Event)
      modifies this`agreements
      ensures agreements == old(agreements)[key := a.(state := Funded, fundedAt := now)]
      ensures event == AgreementFunded(key, a.creator, a.counterparty, a.amount, a.mint, a.vault, a.state, Funded, now)
    {
      var agreement := new AgreementAccount.Load(a);
      var previous := agreement.RecordFunded(now);
      agreements := agreements[key := agreement.Store()];
      event := AgreementFunded(key, agreement.creator, agreement.counterparty, a.amount, agreement.mint,
                               agreement.vault, previous, agreement.state, now);
    }

    method HandleMarkCompleted(key: Pubkey, a: Agreement, signer: Pubkey, now: int) returns (r: Answer)
      modifies this
      ensures Answers(old(Ledger()), Ledger(), key, MarkCompletedSpec(old(Ledger()), key, a, signer, now), r)
    {
      var allowed := RequireCompletable(a, signer);
      :- allowed;
      var agreement := new AgreementAccount.Load(a);
      var previous := agreement.RecordCompleted(now);
      agreements := agreements[key := agreement.Store()];
      return Ok([WorkCompleted(key, agreement.creator, agreement.counterparty, signer, previous, agreement.state,
                               now)]);
    }

    method HandleSettle(key: Pubkey, a: Agreement, signer: Pubkey, destination: Pubkey, citation: Citation, now: int)
      returns (r: Answer)
      modifies this
      ensures Answers(old(Ledger()), Ledger(), key,
                      SettleSpec(old(Ledger()), key, a, signer, destination, citation, now), r)
    {
      hide RequireSettleable, RequireCitedProof, PayOutOfVault, KeepsTerms, Reports, LeavesEvidence;
      :- RequireVault(Ledger(), key, a);
      :- RequireTokenAccount(Ledger(), destination, a.mint, a.counterparty, DestinationNotOwnedBySeller);
      :- RequireSettleable(a, signer);
      var amount := Remaining(a);
      var cited :- RequireCitedProof(Ledger(), citation, key);
      var payment := PayOut(key, a.mint, destination, amount);
      :- payment;
      var events :- WriteSettled(key, a, destination, amount, cited, now);
      return Ok(events);
    }

    method WriteSettled(key: Pubkey, a: Agreement, destination: Pubkey, amount: nat, cited: Option<Pubkey>, now: int)
      returns (r: Answer)
      modifies this`agreements
      ensures match EscrowState.RecordPayout(a, amount)
              case Err(e) => r == Err(e)
              case Ok(paid) =>
                && agreements == old(agreements)[key := paid.(state := AgreementState.Settled, settledAt := now,
                                                              settlementProof := OrDefault(cited))]
                && r == Ok([SettlementExecuted(key, a.creator, a.counterparty, amount, a.mint, destination, cited,
                                               a.state, AgreementState.Settled, now)])
    {
      var agreement := new AgreementAccount.Load(a);
      var recorded := agreement.RecordPayout(amount);
      :- recorded;
      var previous := agreement.RecordSettled(now);
      agreement.settlementProof := OrDefault(cited);
      agreements := agreements[key := agreement.Store()];
      return Ok([SettlementExecuted(key, agreement.creator, agreement.counterparty, amount, agreement.mint,
                                    destination, cited, previous, agreement.state, now)]);
    }

    method HandleSubmitMilestone(key: Pubkey, a: Agreement, signer: Pubkey, address: Pubkey, now: int)
      returns (r: Answer)
      modifies this
      ensures Answers(old(Ledger()), Ledger(), key, SubmitMilestoneSpec(old(Ledger()), key, a, signer, address, now), r)
    {
      var m :- LoadMilestone(Ledger(), key, address);
      :- RequireMilestoneActive(a);
      :- RequireSubmittable(m, a, key, signer);
      var milestone := new MilestoneAccount.Load(m);
      var previous := milestone.RecordSubmitted(now);
      milestones := milestones[address := milestone.Store()];
      agreements := agreements[key := a];
      return Ok([MilestoneSubmitted(key, address, a.creator, a.counterparty, milestone.index, previous,
                                    milestone.state, a.state, now)]);
    }

    method HandleApproveMilestone(key: Pubkey, a: Agreement, signer: Pubkey, address: Pubkey, now: int)
      returns (r: Answer)
      modifies this
      ensures Answers(old(Ledger()), Ledger(), key,
                      ApproveMilestoneSpec(old(Ledger()), key, a, signer, address, now), r)
    {
      var m :- LoadMilestone(Ledger(), key, address);
      :- RequireMilestoneActive(a);
      :- RequireMilestoneDecidable(m, a, key, signer);
      var milestone := new MilestoneAccount.Load(m);
      var previous := milestone.RecordApproved(now);
      milestones := milestones[address := milestone.Store()];
      agreements := agreements[key := a];
      return Ok([MilestoneApproved(key, address, a.creator, a.counterparty, milestone.index, previous,
                                   milestone.state, a.state, now)]);
    }

    method HandleRejectMilestone(key: Pubkey, a: Agreement, signer: Pubkey, address: Pubkey, now: int)
      returns (r: Answer)
      modifies this
      ensures Answers(old(Ledger()), Ledger(), key, RejectMilestoneSpec(old(Ledger()), key, a, signer, address, now), r)
    {
      var m :- LoadMilestone(Ledger(), key, address);
      :- RequireMilestoneActive(a);
      :- RequireMilestoneDecidable(m, a, key, signer);
      var milestone := new MilestoneAccount.Load(m);
      var previous := milestone.RecordRejected(now);
      milestones := milestones[address := milestone.Store()];
      agreements := agreements[key := a];
      return Ok([MilestoneRejected(key, address, a.creator, a.counterparty, milestone.index, previous,
                                   milestone.state, a.state, now)]);
    }

    method HandleSettleMilestone(key: Pubkey, a: Agreement, signer: Pubkey, address: Pubkey, destination: Pubkey,
                                 citation: Citation, now: int) returns (r: Answer)
      modifies this
      ensures Answers(old(Ledger()), Ledger(), key,
                      SettleMilestoneSpec(old(Ledger()), key, a, signer, address, destination, citation, now), r)
    {
      hide RequireVault, RequireTokenAccount, RequireMilestoneActive, RequireMilestoneSettleable, RequireCitedProof;
      hide PayOutOfVault, KeepsTerms, Reports, LeavesEvidence;
      var m :- LoadMilestone(Ledger(), key, address);
      :- RequireVault(Ledger(), key, a);
      :- RequireTokenAccount(Ledger(), destination, a.mint, a.counterparty, DestinationNotOwnedBySeller);
      :- RequireMilestoneActive(a);
      :- RequireMilestoneSettleable(m, a, key, signer);
      var cited :- RequireCitedProof(Ledger(), citation, key);
      var amount := m.amount;
      :- Need(amount <= Remaining(a), CustodyMismatch);
      var payment := PayOut(key, a.mint, destination, amount);
      :- payment;
      var events :- WriteReleased(key, a, address, m, destination, cited, now);
      return Ok(events);
    }

    method WriteReleased(key: Pubkey, a: Agreement, address: Pubkey, m: Milestone, destination: Pubkey,
                         cited: Option<Pubkey>, now: int) returns (r: Answer)
      modifies this`agreements, this`milestones
      ensures match EscrowState.RecordMilestoneSettled(a, m.amount, now)
              case Err(e) => r == Err(e)
              case Ok(paid) =>
                var b := CiteIfFinished(paid, cited);
                var n := m.(state := MilestoneState.Settled, proof := OrDefault(cited), settledAt := now);
                && agreements == old(agreements)[key := b] && milestones == old(milestones)[address := n]
                && r == Ok([MilestoneSettled(key, address, a.creator, a.counterparty, m.index, m.amount,
                                             destination, cited, m.state, n.state, b.state, now),
                            SettlementExecuted(key, a.creator, a.counterparty, m.amount, a.mint, destination,
                                               cited, a.state, b.state, now)])
    {
      var milestone := new MilestoneAccount.Load(m);
      var previous := milestone.RecordSettled(OrDefault(cited), now);
      var agreement := new AgreementAccount.Load(a);
      var recorded := agreement.RecordMilestoneSettled(m.amount, now);
      var finished :- recorded;
      if finished {
        agreement.settlementProof := OrDefault(cited);
      }
      milestones := milestones[address := milestone.Store()];
      agreements := agreements[key := agreement.Store()];
      return Ok([MilestoneSettled(key, address, agreement.creator, agreement.counterparty, milestone.index,
                                  milestone.amount, destination, cited, previous, milestone.state, agreement.state,
                                  now),
                 SettlementExecuted(key, agreement.creator, agreement.counterparty, m.amount, agreement.mint,
                                    destination, cited, a.state, agreement.state, now)]);
    }

    method HandleSubmitProof(key: Pubkey, a: Agreement, signer: Pubkey, contentHash: Hash, metadataHash: Hash, now: int)
      returns (r: Answer)
      modifies this
      ensures Answers(old(Ledger()), Ledger(), key,
                      SubmitProofSpec(old(Ledger()), key, a, signer, contentHash, metadataHash, now), r)
    {
      var address := ProofPda(key, a.proofCount);
      :- Need(address !in proofs, AccountConstraint);
      :- RequireProofSubmittable(a, signer);
      :- Need(contentHash != 0, InvalidContentHash);
      var agreement := new AgreementAccount.Load(a);
      var index := agreement.proofCount;
      var recorded := agreement.RecordProof();
      :- recorded;
      var core := CoreProofAddress(signer, key, index);
      var minted :- CreateCoreRecord(records, signer, EscrowMinted(key, index), contentHash, metadataHash, now);
      records := minted;
      proofs := proofs[address := Proof(key, core, signer, index, ProofStatus.Submitted, now, 0, Default)];
      agreements := agreements[key := agreement.Store()];
      return Ok([ProofSubmitted(key, address, core, agreement.creator, agreement.counterparty, signer, index,
                                contentHash, metadataHash, agreement.state, now)]);
    }

    method Decide(key: Pubkey, a: Agreement, signer: Pubkey, address: Pubkey, approve: bool, now: int)
      returns (r: Answer)
      modifies this
      ensures Answers(old(Ledger()), Ledger(), key,
                      DecideProofSpec(old(Ledger()), key, a, signer, address, approve, now), r)
    {
      hide RequireProofDecidable, KeepsTerms, Reports, LeavesEvidence;
      var p :- LoadProof(Ledger(), key, address);
      :- RequireProofDecidable(p, a, key, signer);
      var proof := new ProofAccount.Load(p);
      proof.RecordDecision(if approve then ProofStatus.Approved else Rejected, signer, now);
      proofs := proofs[address := proof.Store()];
      agreements := agreements[key := a];
      if approve {
        return Ok([ProofApproved(key, address, proof.coreProof, a.creator, a.counterparty, proof.submitter, signer,
                                 proof.index, a.state, now)]);
      } else {
        return Ok([ProofRejected(key, address, proof.coreProof, a.creator, a.counterparty, proof.submitter, signer,
                                 proof.index, a.state, now)]);
      }
    }

    method HandleOpenDispute(key: Pubkey, a: Agreement, signer: Pubkey, reasonHash: Hash, now: int)
      returns (r: Answer)
      modifies this
      ensures Answers(old(Ledger()), Ledger(), key, OpenDisputeSpec(old(Ledger()), key, a, signer, reasonHash, now), r)
    {
      var allowed := RequireDisputable(a, signer);
      :- allowed;
      :- Need(reasonHash != 0, InvalidContentHash);
      var agreement := new AgreementAccount.Load(a);
      var previous := agreement.RecordDisputed(signer, now);
      agreements := agreements[key := agreement.Store()];
      return Ok([DisputeOpened(key, agreement.creator, agreement.counterparty, signer, reasonHash, previous,
                               agreement.state, now)]);
    }

    method HandleResolveDispute(key: Pubkey, a: Agreement, signer: Pubkey, destination: Pubkey, now: int)
      returns (r: Answer)
      modifies this
      ensures Answers(old(Ledger()), Ledger(), key,
                      ResolveDisputeSpec(old(Ledger()), key, a, signer, destination, now), r)
    {
      hide RequireVault, RequireResolvable, PayOutOfVault, KeepsTerms, Reports, LeavesEvidence;
      :- RequireVault(Ledger(), key, a);
      :- Need(destination in tokens, AccountConstraint);
      :- Need(tokens[destination].mint == a.mint, MintMismatch);
      var beneficiary := tokens[destination].owner;
      :- Need(IsParty(a, beneficiary), DestinationNotAParty);
      :- RequireResolvable(a, signer, beneficiary);
      var amount := Remaining(a);
      var outcome := OutcomeFor(a, beneficiary);
      var payment := PayOut(key, a.mint, destination, amount);
      :- payment;
      var events :- WriteResolved(key, a, signer, beneficiary, destination, amount, outcome, now);
      return Ok(events);
    }

    method WriteResolved(key: Pubkey, a: Agreement, signer: Pubkey, beneficiary: Pubkey, destination: Pubkey,
                         amount: nat, outcome: DisputeOutcome, now: int) returns (r: Answer)
      modifies this`agreements
      ensures match EscrowState.RecordPayout(a, amount)
              case Err(e) => r == Err(e)
              case Ok(paid) =>
                var b := Concluded(paid, outcome, now);
                && agreements == old(agreements)[key := b]
                && r == Ok([DisputeResolved(key, a.creator, a.counterparty, signer, beneficiary, outcome,
                                            a.disputeOpenedBy, b.state, now),
                            Concession(key, a, b.state, signer, destination, amount, outcome, now)])
    {
      var agreement := new AgreementAccount.Load(a);
      var recorded := agreement.RecordPayout(amount);
      :- recorded;
      var previous: AgreementState;
      match outcome {
        case SellerPaid => previous := agreement.RecordSettled(now);
        case BuyerRefunded => previous := agreement.RecordRefunded(now);
      }
      agreements := agreements[key := agreement.Store()];
      var resolved := DisputeResolved(key, agreement.creator, agreement.counterparty, signer, beneficiary, outcome,
                                      agreement.disputeOpenedBy, agreement.state, now);
      var movement := if outcome == SellerPaid
                      then SettlementExecuted(key, agreement.creator, agreement.counterparty, amount,
                                              agreement.mint, destination, None, previous, agreement.state, now)
                      else RefundExecuted(key, agreement.creator, agreement.counterparty, signer, amount,
                                          agreement.mint, destination, previous, agreement.state, now);
      return Ok([resolved, movement]);
    }

    method HandleRefund(key: Pubkey, a: Agreement, signer: Pubkey, destination: Pubkey, now: int) returns (r: Answer)
      modifies this
      ensures Answers(old(Ledger()), Ledger(), key, RefundSpec(old(Ledger()), key, a, signer, destination, now), r)
    {
      hide RequireVault, RequireTokenAccount, RequireRefundable, PayOutOfVault, KeepsTerms, Reports, LeavesEvidence;
      :- RequireVault(Ledger(), key, a);
      :- RequireTokenAccount(Ledger(), destination, a.mint, a.creator, DestinationNotOwnedByBuyer);
      :- RequireRefundable(a, signer);
      var amount := Remaining(a);
      var payment := PayOut(key, a.mint, destination, amount);
      :- payment;
      var agreement := new AgreementAccount.Load(a);
      var recorded := agreement.RecordPayout(amount);
      :- recorded;
      var previous := agreement.RecordRefunded(now);
      agreements := agreements[key := agreement.Store()];
      return Ok([RefundExecuted(key, agreement.creator, agreement.counterparty, signer, amount, agreement.mint,
                                destination, previous, agreement.state, now)]);
    }

    method HandleCancel(key: Pubkey, a: Agreement, signer: Pubkey, now: int) returns (r: Answer)
      modifies this
      ensures Answers(old(Ledger()), Ledger(), key, CancelSpec(old(Ledger()), key, a, signer, now), r)
    {
      var allowed := RequireCancellable(a, signer);
      :- allowed;
      var agreement := new AgreementAccount.Load(a);
      var previous := agreement.RecordCancelled(now);
      agreements := agreements[key := agreement.Store()];
      return Ok([AgreementAbandoned(key, agreement.creator, agreement.counterparty, signer, previous,
                                    agreement.state, now)]);
    }

    method DispatchMilestone(key: Pubkey, a: Agreement, signer: Pubkey, action: Action, now: int) returns (r: Answer)
      requires TouchesMilestone(action)
      modifies this
      ensures Answers(old(Ledger()), Ledger(), key, Act(old(Ledger()), key, a, signer, action, now), r)
    {
      hide CreateMilestoneSpec, SubmitMilestoneSpec, ApproveMilestoneSpec, RejectMilestoneSpec, SettleMilestoneSpec;
      hide Answers;
      match action {
        case CreateMilestone(amount, termsHash) => r := HandleCreateMilestone(key, a, signer, amount, termsHash, now);
        case SubmitMilestone(address) => r := HandleSubmitMilestone(key, a, signer, address, now);
        case ApproveMilestone(address) => r := HandleApproveMilestone(key, a, signer, address, now);
        case RejectMilestone(address) => r := HandleRejectMilestone(key, a, signer, address, now);
        case SettleMilestone(address, destination, citation) =>
          r := HandleSettleMilestone(key, a, signer, address, destination, citation, now);
      }
    }

    method Dispatch(key: Pubkey, a: Agreement, signer: Pubkey, action: Action, now: int) returns (r: Answer)
      modifies this
      ensures Answers(old(Ledger()), Ledger(), key, Act(old(Ledger()), key, a, signer, action, now), r)
    {
      hide SelectCounterpartySpec, FundSpec, MarkCompletedSpec, SettleSpec, SubmitProofSpec, DecideProofSpec;
      hide OpenDisputeSpec, ResolveDisputeSpec, RefundSpec, CancelSpec, Answers;
      if TouchesMilestone(action) {
        hide Act;
        r := DispatchMilestone(key, a, signer, action, now);
        return;
      }
      match action {
        case SelectCounterparty(winner) => r := HandleSelectCounterparty(key, a, signer, winner, now);
        case Fund(source) => r := HandleFund(key, a, signer, source, now);
        case MarkCompleted => r := HandleMarkCompleted(key, a, signer, now);
        case Settle(destination, citation) => r := HandleSettle(key, a, signer, destination, citation, now);
        case SubmitProof(contentHash, metadataHash) =>
          r := HandleSubmitProof(key, a, signer, contentHash, metadataHash, now);
        case ApproveProof(address) => r := Decide(key, a, signer, address, true, now);
        case RejectProof(address) => r := Decide(key, a, signer, address, false, now);
        case OpenDispute(reasonHash) => r := HandleOpenDispute(key, a, signer, reasonHash, now);
        case ResolveDispute(destination) => r := HandleResolveDispute(key, a, signer, destination, now);
        case Refund(destination) => r := HandleRefund(key, a, signer, destination, now);
        case Cancel => r := HandleCancel(key, a, signer, now);
      }
    }

    /** ppv_core's own instruction: the author of a record withdraws it. */
    method HandleRevokeCoreProof(signer: Pubkey, address: Pubkey, now: int) returns (r: Answer)
      modifies this`records
      ensures match RevokeCoreRecord(old(records), signer, address, now)
              case Ok(revoked) => r == Ok([]) && records == revoked
              case Err(e) => r == Err(e) && records == old(records)
    {
      var allowed := Need(address in records, AccountConstraint);
      :- allowed;
      var account := new CoreRecordAccount.Load(records[address]);
      var revoked := account.Revoke(signer, now);
      :- revoked;
      records := records[address := account.record];
      return Ok([]);
    }

    method Run(ix: Instruction, now: int) returns (r: Answer)
      modifies this
      ensures match Step(old(Ledger()), ix, now)
              case Ok(c) => r == Ok(c.events) && Ledger() == c.ledger
              case Err(e) => r == Err(e)
    {
      hide Act, InitializeSpec;
      :- Need(CanSign(ix.signer), MissingSignature);
      match ix {
        case InitializeAgreement(creator, id, mint, counterparty, agreementType, amount, termsHash) =>
          r := HandleInitialize(creator, id, mint, counterparty, agreementType, amount, termsHash, now);
        case OnAgreement(signer, key, action) =>
          var a :- LoadAgreement(Ledger(), key);
          r := Dispatch(key, a, signer, action, now);
        case CreateCoreProof(signer, id, contentHash, contextHash) =>
          var minted :- CreateCoreRecord(records, signer, id, contentHash, contextHash, now);
          records := minted;
          r := Ok([]);
        case RevokeCoreProof(signer, address) =>
          r := HandleRevokeCoreProof(signer, address, now);
        case OpenTokenAccount(_, account, mint, owner) =>
          var accounts :- OpenAccount(tokens, account, mint, owner);
          tokens := accounts;
          r := Ok([]);
        case TransferTokens(signer, from, to, amount) =>
          var mint := if from in tokens then tokens[from].mint else Default;
          var transfer := Transfer(from, to, mint, signer, amount);
          :- transfer;
          r := Ok([]);
      }
    }

    /**
     One instruction as the runtime executes it: committed whole, or refused with
     every account put back as it was.
     */
    method Execute(ix: Instruction, now: int) returns (r: Answer)
      modifies this
      ensures match Step(old(Ledger()), ix, now)
              case Ok(c) => r == Ok(c.events) && Ledger() == c.ledger
              case Err(e) => r == Err(e) && Ledger() == old(Ledger())
    {
      hide Step;
      var saved := Ledger();
      r := Run(ix, now);
      if r.Err? {
        agreements, milestones, proofs := saved.agreements, saved.milestones, saved.proofs;
        records, tokens := saved.records, saved.tokens;
      }
    }

    /** A whole run, instruction by instruction, refused ones included. */
    method ExecuteAll(ticks: seq<Tick>)
      modifies this
      ensures Ledger() == EscrowKernel.Run(old(Ledger()), ticks)
    {
      hide Step;
      for i := 0 to |ticks|
        invariant Ledger() == EscrowKernel.Run(old(Ledger()), ticks[..i])
      {
        assert ticks[..i + 1][..i] == ticks[..i];
        var _ := Execute(ticks[i].ix, ticks[i].now);
      }
      assert ticks[..|ticks|] == ticks;
    }
  }
}
