/** The numbers on chain fit the integers the program declares: u64 for amounts, u32 for indices. */
module KernelNumbers {
  import opened Keys
  import opened EscrowState
  import opened EscrowEvents
  import opened EscrowKernel

  predicate IsPaymentEvent(e: Event) {
    e.AgreementFunded? || e.SettlementExecuted? || e.RefundExecuted?
  }

  predicate IsProofEvent(e: Event) {
    e.ProofSubmitted? || e.ProofApproved? || e.ProofRejected?
  }

  predicate IsStepEvent(e: Event) {
    e.MilestoneSubmitted? || e.MilestoneApproved? || e.MilestoneRejected?
  }

  /** What an event says of amounts and indices fits its wire types. */
  predicate NumbersFit(e: Event) {
    && (e.AgreementOpened? ==> e.agreementId <= U64_MAX && e.amount <= U64_MAX)
    && (IsPaymentEvent(e) ==> e.amount <= U64_MAX)
    && (IsProofEvent(e) ==> e.proofIndex <= U32_MAX)
    && (IsStepEvent(e) ==> e.milestoneIndex <= U32_MAX)
    && (e.MilestoneCreated? || e.MilestoneSettled? ==> e.milestoneIndex <= U32_MAX && e.amount <= U64_MAX)
  }

  predicate MilestoneFits(m: Milestone) {
    m.index <= U32_MAX && m.amount <= U64_MAX
  }

  ghost predicate NumbersSound(w: Ledger) {
    && (forall k :: k in w.agreements ==> w.agreements[k].amount <= U64_MAX)
    && (forall k :: k in w.milestones ==> MilestoneFits(w.milestones[k]))
    && (forall k :: k in w.proofs ==> w.proofs[k].index <= U32_MAX)
  }

  /** What an action writes and reports fits. */
  ghost predicate ChangeFits(c: Change) {
    && (c.milestone.Some? ==> MilestoneFits(c.milestone.value))
    && (c.proof.Some? ==> c.proof.value.index <= U32_MAX)
    && (forall i :: 0 <= i < |c.events| ==> NumbersFit(c.events[i]))
  }

  lemma SettlementFits(w: Ledger, key: Pubkey, a: Agreement, signer: Pubkey, destination: Pubkey, citation: Citation,
                       now: int)
    requires a.amount <= U64_MAX
    ensures var r := SettleSpec(w, key, a, signer, destination, citation, now); r.Ok? ==> ChangeFits(r.value)
  {
    hide RequireVault, RequireTokenAccount, RequireCitedProof, PayOutOfVault, RecordPayout;
  }

  lemma RefundFits(w: Ledger, key: Pubkey, a: Agreement, signer: Pubkey, destination: Pubkey, now: int)
    requires a.amount <= U64_MAX
    ensures var r := RefundSpec(w, key, a, signer, destination, now); r.Ok? ==> ChangeFits(r.value)
  {
    hide RequireVault, RequireTokenAccount, PayOutOfVault, RecordPayout;
  }

  lemma ConcessionFits(w: Ledger, key: Pubkey, a: Agreement, signer: Pubkey, destination: Pubkey, now: int)
    requires a.amount <= U64_MAX
    ensures var r := ResolveDisputeSpec(w, key, a, signer, destination, now); r.Ok? ==> ChangeFits(r.value)
  {
    hide RequireVault, PayOutOfVault, RecordPayout;
  }

  lemma FundingFits(w: Ledger, key: Pubkey, a: Agreement, signer: Pubkey, source: Pubkey, now: int)
    requires a.amount <= U64_MAX
    ensures var r := FundSpec(w, key, a, signer, source, now); r.Ok? ==> ChangeFits(r.value)
  {
    hide RequireFunding, PayIntoVault;
  }

  lemma SubmittedTrancheFits(w: Ledger, key: Pubkey, a: Agreement, signer: Pubkey, address: Pubkey, now: int)
    requires NumbersSound(w)
    ensures var r := SubmitMilestoneSpec(w, key, a, signer, address, now); r.Ok? ==> ChangeFits(r.value)
  {
    hide RequireMilestoneActive, RequireSubmittable;
  }

  lemma ApprovedTrancheFits(w: Ledger, key: Pubkey, a: Agreement, signer: Pubkey, address: Pubkey, now: int)
    requires NumbersSound(w)
    ensures var r := ApproveMilestoneSpec(w, key, a, signer, address, now); r.Ok? ==> ChangeFits(r.value)
  {
    hide RequireMilestoneActive, RequireMilestoneDecidable;
  }

  lemma RejectedTrancheFits(w: Ledger, key: Pubkey, a: Agreement, signer: Pubkey, address: Pubkey, now: int)
    requires NumbersSound(w)
    ensures var r := RejectMilestoneSpec(w, key, a, signer, address, now); r.Ok? ==> ChangeFits(r.value)
  {
    hide RequireMilestoneActive, RequireMilestoneDecidable;
  }

  lemma PaidTrancheFits(w: Ledger, key: Pubkey, a: Agreement, signer: Pubkey, address: Pubkey, destination: Pubkey,
                        citation: Citation, now: int)
    requires NumbersSound(w)
    ensures
      var r := SettleMilestoneSpec(w, key, a, signer, address, destination, citation, now);
      r.Ok? ==> ChangeFits(r.value)
  {
    hide RequireVault, RequireTokenAccount, RequireCitedProof, PayOutOfVault, RecordMilestoneSettled, CiteIfFinished;
  }

  lemma NewTrancheFits(w: Ledger, key: Pubkey, a: Agreement, signer: Pubkey, amount: U64, termsHash: Hash, now: int)
    ensures var r := CreateMilestoneSpec(w, key, a, signer, amount, termsHash, now); r.Ok? ==> ChangeFits(r.value)
  {
  }

  lemma ProofFits(w: Ledger, key: Pubkey, a: Agreement, signer: Pubkey, contentHash: Hash, metadataHash: Hash, now: int)
    ensures var r := SubmitProofSpec(w, key, a, signer, contentHash, metadataHash, now); r.Ok? ==> ChangeFits(r.value)
  {
    hide CreateCoreRecord, CoreProofAddress;
  }

  lemma DecisionFits(w: Ledger, key: Pubkey, a: Agreement, signer: Pubkey, address: Pubkey, approve: bool, now: int)
    requires NumbersSound(w)
    ensures var r := DecideProofSpec(w, key, a, signer, address, approve, now); r.Ok? ==> ChangeFits(r.value)
  {
  }

  lemma MoveFits(w: Ledger, key: Pubkey, a: Agreement, signer: Pubkey, action: Action, now: int)
    requires action.SelectCounterparty? || action.MarkCompleted? || action.OpenDispute? || action.Cancel?
    requires Act(w, key, a, signer, action, now).Ok?
    ensures ChangeFits(Act(w, key, a, signer, action, now).value)
  {
    assert forall e: Event ::
        e.CounterpartyAssigned? || e.WorkCompleted? || e.DisputeOpened? || e.AgreementAbandoned? ==> NumbersFit(e);
    hide NumbersFit;
  }

  lemma ActionFits(w: Ledger, key: Pubkey, a: Agreement, signer: Pubkey, action: Action, now: int)
    requires NumbersSound(w) && a.amount <= U64_MAX && Act(w, key, a, signer, action, now).Ok?
    ensures ChangeFits(Act(w, key, a, signer, action, now).value)
    ensures Act(w, key, a, signer, action, now).value.agreement.amount == a.amount
  {
    hide CreateMilestoneSpec, SubmitMilestoneSpec, ApproveMilestoneSpec, RejectMilestoneSpec, SettleMilestoneSpec;
    hide SelectCounterpartySpec, FundSpec, MarkCompletedSpec, SettleSpec, SubmitProofSpec, DecideProofSpec;
    hide OpenDisputeSpec, ResolveDisputeSpec, RefundSpec, CancelSpec, ChangeFits, NumbersSound;
    match action
    case CreateMilestone(amount, termsHash) => NewTrancheFits(w, key, a, signer, amount, termsHash, now);
    case SubmitMilestone(address) => SubmittedTrancheFits(w, key, a, signer, address, now);
    case ApproveMilestone(address) => ApprovedTrancheFits(w, key, a, signer, address, now);
    case RejectMilestone(address) => RejectedTrancheFits(w, key, a, signer, address, now);
    case SettleMilestone(address, destination, citation) =>
      PaidTrancheFits(w, key, a, signer, address, destination, citation, now);
    case Fund(source) => FundingFits(w, key, a, signer, source, now);
    case Settle(destination, citation) => SettlementFits(w, key, a, signer, destination, citation, now);
    case Refund(destination) => RefundFits(w, key, a, signer, destination, now);
    case ResolveDispute(destination) => ConcessionFits(w, key, a, signer, destination, now);
    case SubmitProof(contentHash, metadataHash) => ProofFits(w, key, a, signer, contentHash, metadataHash, now);
    case ApproveProof(address) => DecisionFits(w, key, a, signer, address, true, now);
    case RejectProof(address) => DecisionFits(w, key, a, signer, address, false, now);
    case _ => MoveFits(w, key, a, signer, action, now);
  }

  lemma CommitFits(w: Ledger, key: Pubkey, c: Change)
    requires NumbersSound(w) && ChangeFits(c) && c.agreement.amount <= U64_MAX
    ensures NumbersSound(Commit(w, key, c).ledger)
  {
    hide NumbersFit, MilestoneFits;
  }

  /** Every instruction leaves numbers that fit, and reports numbers that fit. */
  lemma StepFits(w: Ledger, t: Tick)
    requires NumbersSound(w)
    ensures NumbersSound(After(w, t))
    ensures forall e :: e in EventsOf(w, t) ==> NumbersFit(e)
  {
    if Step(w, t.ix, t.now).Ok? {
      hide Act, CreateCoreRecord, RevokeCoreRecord, TransferChecked, OpenAccount, NumbersFit, MilestoneFits;
      if t.ix.OnAgreement? {
        var key := t.ix.agreement;
        var a := w.agreements[key];
        ActionFits(w, key, a, t.ix.signer, t.ix.action, t.now);
        CommitFits(w, key, Act(w, key, a, t.ix.signer, t.ix.action, t.now).value);
      } else if t.ix.InitializeAgreement? {
        OpeningFits(w, t);
      }
    }
  }

  lemma OpeningFits(w: Ledger, t: Tick)
    requires NumbersSound(w) && t.ix.InitializeAgreement? && Step(w, t.ix, t.now).Ok?
    ensures NumbersSound(After(w, t))
    ensures forall e :: e in EventsOf(w, t) ==> NumbersFit(e)
  {
    hide Act, MilestoneFits;
  }

  lemma {:induction false} AboutIsPart(events: seq<Event>, key: Pubkey)
    ensures forall e :: e in About(events, key) ==> e in events
  {
    if events != [] {
      AboutIsPart(events[1..], key);
    }
  }

  /** Along every run, what events say of amounts and indices fits the wire. */
  lemma {:induction false} TraceFits(start: Ledger, ticks: seq<Tick>, key: Pubkey)
    requires Genesis(start)
    ensures NumbersSound(Run(start, ticks))
    ensures forall e :: e in Trace(start, ticks, key) ==> NumbersFit(e)
  {
    hide After, EventsOf, NumbersFit;
    if ticks != [] {
      var init, last := ticks[..|ticks| - 1], ticks[|ticks| - 1];
      TraceFits(start, init, key);
      StepFits(Run(start, init), last);
      AboutIsPart(EventsOf(Run(start, init), last), key);
    }
  }
}
