/**
 The escrow program as a step system: one committed instruction takes a ledger
 to the next one and emits events, or is refused and changes nothing.
 */
module EscrowKernel {
  import opened Wrappers
  import opened Keys
  import opened EscrowState
  import opened EscrowEvents

  datatype TokenAccount = TokenAccount(mint: Pubkey, owner: Pubkey, amount: nat)

  /** Every account the two programs and the token program own. */
  datatype Ledger = Ledger(
    agreements: map<Pubkey, Agreement>,
    milestones: map<Pubkey, Milestone>,
    proofs: map<Pubkey, Proof>,
    records: map<Pubkey, CoreRecord>,
    tokens: map<Pubkey, TokenAccount>
  )

  /** The evidence a payout cites: an escrow proof account and a ppv_core record. */
  datatype Citation = Citation(proof: Option<Pubkey>, core: Option<Pubkey>)

  /** What a signer asks of one existing agreement. */
  datatype Action =
    | SelectCounterparty(winner: Pubkey)
    | CreateMilestone(amount: U64, termsHash: Hash)
    | Fund(source: Pubkey)
    | MarkCompleted
    | Settle(destination: Pubkey, citation: Citation)
    | SubmitMilestone(milestone: Pubkey)
    | ApproveMilestone(milestone: Pubkey)
    | RejectMilestone(milestone: Pubkey)
    | SettleMilestone(milestone: Pubkey, destination: Pubkey, citation: Citation)
    | SubmitProof(contentHash: Hash, metadataHash: Hash)
    | ApproveProof(proof: Pubkey)
    | RejectProof(proof: Pubkey)
    | OpenDispute(reasonHash: Hash)
    | ResolveDispute(destination: Pubkey)
    | Refund(destination: Pubkey)
    | Cancel

  datatype Instruction =
    | InitializeAgreement(signer: Pubkey, agreementId: U64, mint: Pubkey, counterparty: Pubkey,
                          agreementType: AgreementType, amount: U64, termsHash: Hash)
    | OnAgreement(signer: Pubkey, agreement: Pubkey, action: Action)
    // ppv_core, called by anyone
    | CreateCoreProof(signer: Pubkey, id: CoreProofId, contentHash: Hash, contextHash: Hash)
    | RevokeCoreProof(signer: Pubkey, record: Pubkey)
    // the token program, called by anyone: this is how outsiders donate to a vault
    | OpenTokenAccount(signer: Pubkey, account: Pubkey, mint: Pubkey, owner: Pubkey)
    | TransferTokens(signer: Pubkey, from: Pubkey, to: Pubkey, amount: U64)

  /**
   What an instruction on one agreement writes when it commits: that agreement,
   at most one of its milestones, at most one of its proofs, and the tokens and
   core records its calls into other programs moved.
   */
  datatype Change = Change(
    agreement: Agreement,
    milestone: Option<Milestone>,
    proof: Option<Proof>,
    tokens: map<Pubkey, TokenAccount>,
    records: map<Pubkey, CoreRecord>,
    events: seq<Event>
  )

  type Verdict = Result<Change, EscrowError>

  datatype Committed = Committed(ledger: Ledger, events: seq<Event>)

  /** The accounts are written back together, at the addresses they were loaded from. */
  function Commit(w: Ledger, key: Pubkey, c: Change): Committed {
    Committed(
      Ledger(w.agreements[key := c.agreement],
             if c.milestone.Some?
             then w.milestones[MilestonePda(key, c.milestone.value.index) := c.milestone.value]
             else w.milestones,
             if c.proof.Some?
             then w.proofs[ProofPda(key, c.proof.value.index) := c.proof.value]
             else w.proofs,
             c.records,
             c.tokens),
      c.events)
  }

  // ---- Token program ----

  function TransferChecked(tokens: map<Pubkey, TokenAccount>, from: Pubkey, to: Pubkey, mint: Pubkey,
                           authority: Pubkey, amount: nat)
    : Result<map<Pubkey, TokenAccount>, EscrowError>
  {
    if from !in tokens || to !in tokens then Err(TokenProgramError)
    else if tokens[from].amount < amount then Err(TokenProgramError)
    else if tokens[from].mint != mint || tokens[to].mint != mint then Err(TokenProgramError)
    else if tokens[from].owner != authority then Err(TokenProgramError)
    else if from == to then Ok(tokens)
    else if tokens[to].amount + amount > U64_MAX then Err(TokenProgramError)
    else Ok(Moved(tokens, from, to, amount))
  }

  function Moved(tokens: map<Pubkey, TokenAccount>, from: Pubkey, to: Pubkey, amount: nat)
    : map<Pubkey, TokenAccount>
    requires from in tokens && to in tokens && from != to && amount <= tokens[from].amount
  {
    tokens[from := tokens[from].(amount := tokens[from].amount - amount)]
          [to := tokens[to].(amount := tokens[to].amount + amount)]
  }

  // ---- Custody ----

  /**
   What paying out of a vault comes to: the exact amount leaves the vault and
   arrives at another account. A payment to the vault itself moves nothing and
   is refused.
   */
  function PayOutOfVault(tokens: map<Pubkey, TokenAccount>, key: Pubkey, mint: Pubkey,
                         destination: Pubkey, amount: nat)
    : Result<map<Pubkey, TokenAccount>, EscrowError>
  {
    var moved :- TransferChecked(tokens, VaultToken(key), destination, mint, VaultAuthority(key), amount);
    if destination == VaultToken(key) && amount != 0 then Err(CustodyMismatch) else Ok(moved)
  }

  /** What funding comes to: the exact amount arrives in the vault from another account. */
  function PayIntoVault(tokens: map<Pubkey, TokenAccount>, source: Pubkey, vault: Pubkey, mint: Pubkey,
                        authority: Pubkey, amount: nat)
    : Result<map<Pubkey, TokenAccount>, EscrowError>
  {
    var moved :- TransferChecked(tokens, source, vault, mint, authority, amount);
    if source == vault && amount != 0 then Err(CustodyMismatch) else Ok(moved)
  }

  // ---- Account constraints ----

  /** Loads the agreement an instruction names; its address must be the one its own fields derive. */
  function LoadAgreement(w: Ledger, key: Pubkey): Result<Agreement, EscrowError> {
    if key !in w.agreements then Err(AccountConstraint)
    else if key != AgreementPda(w.agreements[key].creator, w.agreements[key].agreementId)
    then Err(AccountConstraint)
    else Ok(w.agreements[key])
  }

  function LoadMilestone(w: Ledger, key: Pubkey, address: Pubkey): Result<Milestone, EscrowError> {
    if address !in w.milestones then Err(AccountConstraint)
    else if address != MilestonePda(key, w.milestones[address].index) then Err(AccountConstraint)
    else Ok(w.milestones[address])
  }

  function LoadProof(w: Ledger, key: Pubkey, address: Pubkey): Result<Proof, EscrowError> {
    if address !in w.proofs then Err(AccountConstraint)
    else if address != ProofPda(key, w.proofs[address].index) then Err(AccountConstraint)
    else Ok(w.proofs[address])
  }

  /** The vault accounts of a custody instruction: the stored vault, at its derived address. */
  function RequireVault(w: Ledger, key: Pubkey, a: Agreement): Outcome<EscrowError> {
    if a.vault != VaultToken(key) then Fail(CustodyMismatch)
    else if a.vault !in w.tokens then Fail(AccountConstraint)
    else Pass
  }

  function RequireTokenAccount(w: Ledger, address: Pubkey, mint: Pubkey, owner: Pubkey, error: EscrowError)
    : Outcome<EscrowError>
  {
    if address !in w.tokens then Fail(AccountConstraint)
    else if w.tokens[address].mint != mint then Fail(MintMismatch)
    else if w.tokens[address].owner != owner then Fail(error)
    else Pass
  }

  // ---- Citation of evidence ----

  function RequireCitedProof(w: Ledger, citation: Citation, key: Pubkey): Result<Option<Pubkey>, EscrowError> {
    match citation
    case Citation(None, None) => Ok(None)
    case Citation(None, Some(_)) => Err(UnexpectedCoreProof)
    case Citation(Some(_), None) => Err(CoreProofRequired)
    case Citation(Some(proof), Some(core)) =>
      if proof !in w.proofs then Err(AccountConstraint)
      else if w.proofs[proof].agreement != key then Err(ProofAgreementMismatch)
      else if w.proofs[proof].status != ProofStatus.Approved then Err(ProofNotApproved)
      else if core !in w.records then Err(CoreProofMismatch)
      else
        :- RequireLiveCoreCommitment(w.proofs[proof], core, w.records[core]);
        Ok(Some(proof))
  }

  function OrDefault(cited: Option<Pubkey>): Pubkey {
    match cited
    case None => Default
    case Some(k) => k
  }

  /** One or two events, all about one agreement. */
  predicate Reports(events: seq<Event>, key: Pubkey) {
    1 <= |events| <= 2 && forall i :: 0 <= i < |events| ==> events[i].agreement == key
  }

  // ---- The instructions ----

  /**
   What no instruction may do to an existing agreement. Its terms never change.
   Its payee changes only from nobody to somebody, and only for a bounty that is
   open or funded. Its state only moves on, so nothing leaves a terminal state.
   */
  predicate KeepsTerms(a: Agreement, b: Agreement) {
    && b.creator == a.creator && b.agreementId == a.agreementId && b.agreementType == a.agreementType
    && b.mint == a.mint && b.vault == a.vault && b.amount == a.amount && b.termsHash == a.termsHash
    && b.createdAt == a.createdAt && a.settledTotal <= b.settledTotal
    && a.milestoneCount <= b.milestoneCount && a.proofCount <= b.proofCount
    && (b.counterparty != a.counterparty ==>
          && a.counterparty == Default && b.counterparty != a.creator
          && a.agreementType == Bounty && (a.state == Open || a.state == Funded) && b.state == a.state)
    && (b.state == a.state || Rank(a.state) < Rank(b.state))
    && (IsTerminal(a.state) ==> b.settledTotal == a.settledTotal)
  }

  /** The action concerned no evidence. */
  predicate LeavesEvidence(w: Ledger, a: Agreement, c: Change) {
    c.agreement.proofCount == a.proofCount && c.proof.None? && c.records == w.records
  }

  function InitializeSpec(w: Ledger, creator: Pubkey, agreementId: nat, mint: Pubkey, counterparty: Pubkey,
                          agreementType: AgreementType, amount: nat, termsHash: Hash, now: int): (r: Verdict)
    ensures r.Ok? ==> Reports(r.value.events, AgreementPda(creator, agreementId))
  {
    var key := AgreementPda(creator, agreementId);
    var vault := VaultToken(key);
    :- Need(key !in w.agreements, AccountConstraint);
    :- Need((counterparty != Default || agreementType == Bounty) && counterparty != creator,
            InvalidCounterparty);
    :- Need(amount > 0, InvalidAmount);
    :- Need(termsHash != 0, InvalidTermsHash);
    :- Need(agreementType == Escrow || agreementType == MilestoneContract || agreementType == Bounty,
            UnsupportedAgreementType);
    :- Need(vault !in w.tokens, VaultAlreadyInitialized);
    var a := Agreement(creator, counterparty, agreementId, agreementType, mint, vault, amount, termsHash,
                       Open, now, 0, 0, 0, 0, Default, Default, 0, 0, 0, 0, 0);
    Ok(Change(a, None, None, w.tokens[vault := TokenAccount(mint, VaultAuthority(key), 0)], w.records,
              [AgreementOpened(key, agreementId, creator, counterparty, agreementType, mint, vault, amount,
                               termsHash, Open, now)]))
  }

  function SelectCounterpartySpec(w: Ledger, key: Pubkey, a: Agreement, signer: Pubkey, winner: Pubkey, now: int)
    : (r: Verdict)
    ensures r.Ok? ==> Reports(r.value.events, key) && KeepsTerms(a, r.value.agreement)
    ensures r.Ok? ==> LeavesEvidence(w, a, r.value)
  {
    var allowed := RequireCounterpartyAssignable(a, signer);
    :- allowed;
    var b :- RecordCounterparty(a, winner, now);
    Ok(Change(b, None, None, w.tokens, w.records, [CounterpartyAssigned(key, signer, winner, b.state, now)]))
  }

  function CreateMilestoneSpec(w: Ledger, key: Pubkey, a: Agreement, signer: Pubkey, amount: nat,
                               termsHash: Hash, now: int): (r: Verdict)
    ensures r.Ok? ==> Reports(r.value.events, key) && KeepsTerms(a, r.value.agreement)
    ensures r.Ok? ==> LeavesEvidence(w, a, r.value)
  {
    var address := MilestonePda(key, a.milestoneCount);
    :- Need(address !in w.milestones, AccountConstraint);
    :- RequireMilestoneCreatable(a, signer);
    :- Need(amount > 0, InvalidMilestoneAmount);
    :- Need(termsHash != 0, InvalidTermsHash);
    var b :- RecordMilestone(a, amount);
    var m := Milestone(key, a.milestoneCount, amount, termsHash, Pending, Default, now, 0, 0, 0);
    Ok(Change(b, Some(m), None, w.tokens, w.records,
              [MilestoneCreated(key, address, a.creator, a.counterparty, a.milestoneCount, amount,
                                termsHash, a.state, now)]))
  }

  function RequireFunding(w: Ledger, key: Pubkey, a: Agreement, signer: Pubkey, source: Pubkey): Outcome<EscrowError> {
    var vault := RequireVault(w, key, a);
    var purse := RequireTokenAccount(w, source, a.mint, signer, SourceNotOwnedByBuyer);
    var fundable := RequireFundable(a, signer);
    if vault.Fail? then vault
    else if purse.Fail? then purse
    else if fundable.Fail? then fundable
    else Need(IsMilestoneContract(a) ==> a.milestoneTotal == a.amount, MilestonesNotFullyScheduled)
  }

  function FundSpec(w: Ledger, key: Pubkey, a: Agreement, signer: Pubkey, source: Pubkey, now: int): (r: Verdict)
    ensures r.Ok? ==> Reports(r.value.events, key) && KeepsTerms(a, r.value.agreement)
    ensures r.Ok? ==> LeavesEvidence(w, a, r.value)
  {
    var allowed := RequireFunding(w, key, a, signer, source);
    :- allowed;
    var moved :- PayIntoVault(w.tokens, source, a.vault, a.mint, signer, a.amount);
    var b := a.(state := Funded, fundedAt := now);
    Ok(Change(b, None, None, moved, w.records,
              [AgreementFunded(key, a.creator, a.counterparty, a.amount, a.mint, a.vault, a.state,
                               Funded, now)]))
  }

  function MarkCompletedSpec(w: Ledger, key: Pubkey, a: Agreement, signer: Pubkey, now: int): (r: Verdict)
    ensures r.Ok? ==> Reports(r.value.events, key) && KeepsTerms(a, r.value.agreement)
    ensures r.Ok? ==> LeavesEvidence(w, a, r.value)
  {
    var allowed := RequireCompletable(a, signer);
    :- allowed;
    var b := a.(state := Completed, completedAt := now);
    Ok(Change(b, None, None, w.tokens, w.records,
              [WorkCompleted(key, a.creator, a.counterparty, signer, a.state, Completed, now)]))
  }

  function SettleSpec(w: Ledger, key: Pubkey, a: Agreement, signer: Pubkey, destination: Pubkey,
                      citation: Citation, now: int): (r: Verdict)
    ensures r.Ok? ==> Reports(r.value.events, key) && KeepsTerms(a, r.value.agreement)
    ensures r.Ok? ==> LeavesEvidence(w, a, r.value)
  {
    var allowed := RequireVault(w, key, a);
    :- allowed;
    :- RequireTokenAccount(w, destination, a.mint, a.counterparty, DestinationNotOwnedBySeller);
    :- RequireSettleable(a, signer);
    var amount := Remaining(a);
    var cited :- RequireCitedProof(w, citation, key);
    var moved :- PayOutOfVault(w.tokens, key, a.mint, destination, amount);
    var paid :- RecordPayout(a, amount);
    var b := paid.(state := AgreementState.Settled, settledAt := now, settlementProof := OrDefault(cited));
    Ok(Change(b, None, None, moved, w.records,
              [SettlementExecuted(key, a.creator, a.counterparty, amount, a.mint, destination, cited,
                                  a.state, AgreementState.Settled, now)]))
  }

  function SubmitMilestoneSpec(w: Ledger, key: Pubkey, a: Agreement, signer: Pubkey, address: Pubkey, now: int)
    : (r: Verdict)
    ensures r.Ok? ==> Reports(r.value.events, key) && KeepsTerms(a, r.value.agreement)
    ensures r.Ok? ==> LeavesEvidence(w, a, r.value)
  {
    var m :- LoadMilestone(w, key, address);
    :- RequireMilestoneActive(a);
    :- RequireSubmittable(m, a, key, signer);
    var n := m.(state := MilestoneState.Submitted, submittedAt := now);
    Ok(Change(a, Some(n), None, w.tokens, w.records,
              [MilestoneSubmitted(key, address, a.creator, a.counterparty, m.index, m.state, n.state,
                                  a.state, now)]))
  }

  function ApproveMilestoneSpec(w: Ledger, key: Pubkey, a: Agreement, signer: Pubkey, address: Pubkey, now: int)
    : (r: Verdict)
    ensures r.Ok? ==> Reports(r.value.events, key) && KeepsTerms(a, r.value.agreement)
    ensures r.Ok? ==> LeavesEvidence(w, a, r.value)
  {
    var m :- LoadMilestone(w, key, address);
    :- RequireMilestoneActive(a);
    :- RequireMilestoneDecidable(m, a, key, signer);
    var n := m.(state := MilestoneState.Approved, approvedAt := now);
    Ok(Change(a, Some(n), None, w.tokens, w.records,
              [MilestoneApproved(key, address, a.creator, a.counterparty, m.index, m.state, n.state,
                                 a.state, now)]))
  }

  function RejectMilestoneSpec(w: Ledger, key: Pubkey, a: Agreement, signer: Pubkey, address: Pubkey, now: int)
    : (r: Verdict)
    ensures r.Ok? ==> Reports(r.value.events, key) && KeepsTerms(a, r.value.agreement)
    ensures r.Ok? ==> LeavesEvidence(w, a, r.value)
  {
    var m :- LoadMilestone(w, key, address);
    :- RequireMilestoneActive(a);
    :- RequireMilestoneDecidable(m, a, key, signer);
    var n := m.(state := Pending, submittedAt := now);
    Ok(Change(a, Some(n), None, w.tokens, w.records,
              [MilestoneRejected(key, address, a.creator, a.counterparty, m.index, m.state, n.state,
                                 a.state, now)]))
  }

  /** The tranche that finishes the agreement also records its citation on the agreement. */
  function CiteIfFinished(paid: Agreement, cited: Option<Pubkey>): Agreement {
    if paid.milestonesSettled == paid.milestoneCount then paid.(settlementProof := OrDefault(cited)) else paid
  }

  function SettleMilestoneSpec(w: Ledger, key: Pubkey, a: Agreement, signer: Pubkey, address: Pubkey,
                               destination: Pubkey, citation: Citation, now: int): (r: Verdict)
    ensures r.Ok? ==> Reports(r.value.events, key) && KeepsTerms(a, r.value.agreement)
    ensures r.Ok? ==> LeavesEvidence(w, a, r.value)
  {
    var m :- LoadMilestone(w, key, address);
    :- RequireVault(w, key, a);
    :- RequireTokenAccount(w, destination, a.mint, a.counterparty, DestinationNotOwnedBySeller);
    :- RequireMilestoneActive(a);
    :- RequireMilestoneSettleable(m, a, key, signer);
    var cited :- RequireCitedProof(w, citation, key);
    :- Need(m.amount <= Remaining(a), CustodyMismatch);
    var moved :- PayOutOfVault(w.tokens, key, a.mint, destination, m.amount);
    var n := m.(state := MilestoneState.Settled, proof := OrDefault(cited), settledAt := now);
    var paid :- RecordMilestoneSettled(a, m.amount, now);
    var b := CiteIfFinished(paid, cited);
    Ok(Change(b, Some(n), None, moved, w.records,
              [MilestoneSettled(key, address, a.creator, a.counterparty, m.index, m.amount, destination,
                                cited, m.state, n.state, b.state, now),
               SettlementExecuted(key, a.creator, a.counterparty, m.amount, a.mint, destination, cited,
                                  a.state, b.state, now)]))
  }

  /** Mints a commitment in ppv_core; refused when its address is taken. */
  function CreateCoreRecord(records: map<Pubkey, CoreRecord>, authority: Pubkey, id: CoreProofId,
                            contentHash: Hash, contextHash: Hash, now: int)
    : Result<map<Pubkey, CoreRecord>, EscrowError>
  {
    if CorePda(authority, id) in records then Err(AccountConstraint)
    else if contentHash == 0 then Err(CoreInvalidContentHash)
    else Ok(records[CorePda(authority, id) :=
                      CoreRecord(id, authority, contentHash, contextHash, Active, now, 0)])
  }

  function SubmitProofSpec(w: Ledger, key: Pubkey, a: Agreement, signer: Pubkey, contentHash: Hash,
                           metadataHash: Hash, now: int): (r: Verdict)
    ensures r.Ok? ==> Reports(r.value.events, key) && KeepsTerms(a, r.value.agreement)
  {
    var address := ProofPda(key, a.proofCount);
    :- Need(address !in w.proofs, AccountConstraint);
    :- RequireProofSubmittable(a, signer);
    :- Need(contentHash != 0, InvalidContentHash);
    var b :- RecordProof(a);
    var core := CoreProofAddress(signer, key, a.proofCount);
    var records :- CreateCoreRecord(w.records, signer, EscrowMinted(key, a.proofCount), contentHash,
                                    metadataHash, now);
    var p := Proof(key, core, signer, a.proofCount, ProofStatus.Submitted, now, 0, Default);
    Ok(Change(b, None, Some(p), w.tokens, records,
              [ProofSubmitted(key, address, core, a.creator, a.counterparty, signer, a.proofCount,
                              contentHash, metadataHash, a.state, now)]))
  }

  function DecideProofSpec(w: Ledger, key: Pubkey, a: Agreement, signer: Pubkey, address: Pubkey,
                           approve: bool, now: int): (r: Verdict)
    ensures r.Ok? ==> Reports(r.value.events, key) && KeepsTerms(a, r.value.agreement)
  {
    var p :- LoadProof(w, key, address);
    :- RequireProofDecidable(p, a, key, signer);
    var q := p.(status := if approve then ProofStatus.Approved else Rejected, decidedBy := signer,
                decidedAt := now);
    var event := if approve
                 then ProofApproved(key, address, p.coreProof, a.creator, a.counterparty, p.submitter, signer,
                                    p.index, a.state, now)
                 else ProofRejected(key, address, p.coreProof, a.creator, a.counterparty, p.submitter, signer,
                                    p.index, a.state, now);
    Ok(Change(a, None, Some(q), w.tokens, w.records, [event]))
  }

  function OpenDisputeSpec(w: Ledger, key: Pubkey, a: Agreement, signer: Pubkey, reasonHash: Hash, now: int)
    : (r: Verdict)
    ensures r.Ok? ==> Reports(r.value.events, key) && KeepsTerms(a, r.value.agreement)
    ensures r.Ok? ==> LeavesEvidence(w, a, r.value)
  {
    var allowed := RequireDisputable(a, signer);
    :- allowed;
    :- Need(reasonHash != 0, InvalidContentHash);
    var b := a.(state := Disputed, disputeOpenedBy := signer, stateChangedAt := now);
    Ok(Change(b, None, None, w.tokens, w.records,
              [DisputeOpened(key, a.creator, a.counterparty, signer, reasonHash, a.state, Disputed, now)]))
  }

  function Concluded(paid: Agreement, outcome: DisputeOutcome, now: int): Agreement {
    if outcome == SellerPaid then paid.(state := AgreementState.Settled, settledAt := now)
    else paid.(state := Refunded, stateChangedAt := now)
  }

  /** The payment a resolution reports: the same event the undisputed paths emit. */
  function Concession(key: Pubkey, a: Agreement, newState: AgreementState, signer: Pubkey, destination: Pubkey,
                      amount: nat, outcome: DisputeOutcome, now: int): Event
  {
    if outcome == SellerPaid
    then SettlementExecuted(key, a.creator, a.counterparty, amount, a.mint, destination, None, a.state, newState, now)
    else RefundExecuted(key, a.creator, a.counterparty, signer, amount, a.mint, destination, a.state, newState, now)
  }

  function ResolveDisputeSpec(w: Ledger, key: Pubkey, a: Agreement, signer: Pubkey, destination: Pubkey, now: int)
    : (r: Verdict)
    ensures r.Ok? ==> Reports(r.value.events, key) && KeepsTerms(a, r.value.agreement)
    ensures r.Ok? ==> LeavesEvidence(w, a, r.value)
  {
    var allowed := RequireVault(w, key, a);
    :- allowed;
    :- Need(destination in w.tokens, AccountConstraint);
    :- Need(w.tokens[destination].mint == a.mint, MintMismatch);
    var beneficiary := w.tokens[destination].owner;
    :- Need(IsParty(a, beneficiary), DestinationNotAParty);
    :- RequireResolvable(a, signer, beneficiary);
    var amount := Remaining(a);
    var outcome := OutcomeFor(a, beneficiary);
    var moved :- PayOutOfVault(w.tokens, key, a.mint, destination, amount);
    var paid :- RecordPayout(a, amount);
    var b := Concluded(paid, outcome, now);
    var resolved := DisputeResolved(key, a.creator, a.counterparty, signer, beneficiary, outcome,
                                    a.disputeOpenedBy, b.state, now);
    var payment := Concession(key, a, b.state, signer, destination, amount, outcome, now);
    Ok(Change(b, None, None, moved, w.records, [resolved, payment]))
  }

  function RefundSpec(w: Ledger, key: Pubkey, a: Agreement, signer: Pubkey, destination: Pubkey, now: int): (r: Verdict)
    ensures r.Ok? ==> Reports(r.value.events, key) && KeepsTerms(a, r.value.agreement)
    ensures r.Ok? ==> LeavesEvidence(w, a, r.value)
  {
    var allowed := RequireVault(w, key, a);
    :- allowed;
    :- RequireTokenAccount(w, destination, a.mint, a.creator, DestinationNotOwnedByBuyer);
    :- RequireRefundable(a, signer);
    var amount := Remaining(a);
    var moved :- PayOutOfVault(w.tokens, key, a.mint, destination, amount);
    var paid :- RecordPayout(a, amount);
    var b := paid.(state := Refunded, stateChangedAt := now);
    Ok(Change(b, None, None, moved, w.records,
              [RefundExecuted(key, a.creator, a.counterparty, signer, amount, a.mint, destination, a.state,
                              Refunded, now)]))
  }

  function CancelSpec(w: Ledger, key: Pubkey, a: Agreement, signer: Pubkey, now: int): (r: Verdict)
    ensures r.Ok? ==> Reports(r.value.events, key) && KeepsTerms(a, r.value.agreement)
    ensures r.Ok? ==> LeavesEvidence(w, a, r.value)
  {
    var allowed := RequireCancellable(a, signer);
    :- allowed;
    var b := a.(state := Cancelled, stateChangedAt := now);
    Ok(Change(b, None, None, w.tokens, w.records,
              [AgreementAbandoned(key, a.creator, a.counterparty, signer, a.state, Cancelled, now)]))
  }

  predicate TouchesMilestone(action: Action) {
    || action.CreateMilestone? || action.SubmitMilestone? || action.ApproveMilestone?
    || action.RejectMilestone? || action.SettleMilestone?
  }

  function Act(w: Ledger, key: Pubkey, a: Agreement, signer: Pubkey, action: Action, now: int): (r: Verdict)
    ensures r.Ok? ==> Reports(r.value.events, key) && KeepsTerms(a, r.value.agreement)
    ensures r.Ok? && !action.SubmitProof? && !action.ApproveProof? && !action.RejectProof? ==>
              LeavesEvidence(w, a, r.value)
  {
    match action
    case SelectCounterparty(winner) => SelectCounterpartySpec(w, key, a, signer, winner, now)
    case CreateMilestone(amount, termsHash) => CreateMilestoneSpec(w, key, a, signer, amount, termsHash, now)
    case Fund(source) => FundSpec(w, key, a, signer, source, now)
    case MarkCompleted => MarkCompletedSpec(w, key, a, signer, now)
    case Settle(destination, citation) => SettleSpec(w, key, a, signer, destination, citation, now)
    case SubmitMilestone(address) => SubmitMilestoneSpec(w, key, a, signer, address, now)
    case ApproveMilestone(address) => ApproveMilestoneSpec(w, key, a, signer, address, now)
    case RejectMilestone(address) => RejectMilestoneSpec(w, key, a, signer, address, now)
    case SettleMilestone(address, destination, citation) =>
      SettleMilestoneSpec(w, key, a, signer, address, destination, citation, now)
    case SubmitProof(contentHash, metadataHash) =>
      SubmitProofSpec(w, key, a, signer, contentHash, metadataHash, now)
    case ApproveProof(address) => DecideProofSpec(w, key, a, signer, address, true, now)
    case RejectProof(address) => DecideProofSpec(w, key, a, signer, address, false, now)
    case OpenDispute(reasonHash) => OpenDisputeSpec(w, key, a, signer, reasonHash, now)
    case ResolveDispute(destination) => ResolveDisputeSpec(w, key, a, signer, destination, now)
    case Refund(destination) => RefundSpec(w, key, a, signer, destination, now)
    case Cancel => CancelSpec(w, key, a, signer, now)
  }

  function RevokeCoreRecord(records: map<Pubkey, CoreRecord>, signer: Pubkey, address: Pubkey, now: int)
    : Result<map<Pubkey, CoreRecord>, EscrowError>
  {
    if address !in records then Err(AccountConstraint)
    else if records[address].authority != signer then Err(CoreUnauthorized)
    else if records[address].status != Active then Err(CoreAlreadyRevoked)
    else Ok(records[address := records[address].(status := Revoked, revokedAt := now)])
  }

  /** Token accounts opened outside the program live at wallet addresses and start empty. */
  function OpenAccount(tokens: map<Pubkey, TokenAccount>, account: Pubkey, mint: Pubkey, owner: Pubkey)
    : Result<map<Pubkey, TokenAccount>, EscrowError>
  {
    if !account.Wallet? || account in tokens then Err(TokenProgramError)
    else Ok(tokens[account := TokenAccount(mint, owner, 0)])
  }

  /** One instruction against the ledger. A refused instruction leaves no trace. */
  function Step(w: Ledger, ix: Instruction, now: int): Result<Committed, EscrowError> {
    var allowed := Need(CanSign(ix.signer), MissingSignature);
    :- allowed;
    match ix
    case InitializeAgreement(creator, id, mint, counterparty, agreementType, amount, termsHash) =>
      var c :- InitializeSpec(w, creator, id, mint, counterparty, agreementType, amount, termsHash, now);
      Ok(Commit(w, AgreementPda(creator, id), c))
    case OnAgreement(signer, key, action) =>
      var a :- LoadAgreement(w, key);
      var c :- Act(w, key, a, signer, action, now);
      Ok(Commit(w, key, c))
    case CreateCoreProof(signer, id, contentHash, contextHash) =>
      var records :- CreateCoreRecord(w.records, signer, id, contentHash, contextHash, now);
      Ok(Committed(w.(records := records), []))
    case RevokeCoreProof(signer, address) =>
      var records :- RevokeCoreRecord(w.records, signer, address, now);
      Ok(Committed(w.(records := records), []))
    case OpenTokenAccount(_, account, mint, owner) =>
      var tokens :- OpenAccount(w.tokens, account, mint, owner);
      Ok(Committed(w.(tokens := tokens), []))
    case TransferTokens(signer, from, to, amount) =>
      var mint := if from in w.tokens then w.tokens[from].mint else Default;
      var tokens :- TransferChecked(w.tokens, from, to, mint, signer, amount);
      Ok(Committed(w.(tokens := tokens), []))
  }

  // ---- Runs ----

  /** An instruction with the clock it ran at. */
  datatype Tick = Tick(ix: Instruction, now: int)

  /** The ledger after an instruction, which is the same ledger when it was refused. */
  function After(w: Ledger, t: Tick): Ledger {
    match Step(w, t.ix, t.now)
    case Ok(c) => c.ledger
    case Err(_) => w
  }

  function EventsOf(w: Ledger, t: Tick): seq<Event> {
    match Step(w, t.ix, t.now)
    case Ok(c) => c.events
    case Err(_) => []
  }

  /** The ledger after a run, read from its last instruction back. */
  function Run(start: Ledger, ticks: seq<Tick>): Ledger {
    if ticks == [] then start
    else After(Run(start, ticks[..|ticks| - 1]), ticks[|ticks| - 1])
  }

  /** Every event a run emitted about one agreement, in commit order. */
  function Trace(start: Ledger, ticks: seq<Tick>, key: Pubkey): seq<Event> {
    if ticks == [] then []
    else
      var init := ticks[..|ticks| - 1];
      Trace(start, init, key) + About(EventsOf(Run(start, init), ticks[|ticks| - 1]), key)
  }

  function About(events: seq<Event>, key: Pubkey): seq<Event> {
    if events == [] then []
    else
      var rest := About(events[1..], key);
      if events[0].agreement == key then [events[0]] + rest else rest
  }

  /** Tokens of one mint held by all accounts together. */
  ghost function Supply(tokens: map<Pubkey, TokenAccount>, mint: Pubkey): nat {
    if tokens == map[] then 0
    else
      var k :| k in tokens;
      HeldIn(tokens[k], mint) + Supply(tokens - {k}, mint)
  }

  function HeldIn(t: TokenAccount, mint: Pubkey): nat {
    if t.mint == mint then t.amount else 0
  }

  /**
   Where runs start: no agreement exists, token accounts sit at wallet addresses,
   and no mint has issued more than a token account can count.
   */
  ghost predicate Genesis(w: Ledger) {
    && w.agreements == map[] && w.milestones == map[] && w.proofs == map[] && w.records == map[]
    && (forall k :: k in w.tokens ==> k.Wallet?)
    && (forall mint :: Supply(w.tokens, mint) <= U64_MAX)
  }
}
