/** What the events of one committed instruction say about the change it made. */
module KernelStory {
  import opened Wrappers
  import opened Keys
  import opened EscrowState
  import opened EscrowEvents
  import opened EscrowKernel
  import opened KernelBooks
  import opened KernelEvidence
  import opened Receipts
  import Records

  predicate IsMove(f: Fact) {
    KindOf(f.previousState, f.newState) == Transition
  }

  predicate IsPayment(action: ReceiptAction) {
    action == SETTLEMENT_EXECUTED || action == REFUND_EXECUTED
  }

  predicate IsEvidence(action: ReceiptAction) {
    action == PROOF_SUBMITTED || action == PROOF_APPROVED || action == PROOF_REJECTED
  }

  function AmountPaid(f: Fact): nat {
    if IsPayment(f.action) && f.amount.Some? then f.amount.value else 0
  }

  /** A proof of this agreement that the other party approved. */
  predicate StandsApproved(w: Ledger, key: Pubkey, proof: Pubkey) {
    proof in w.proofs && w.proofs[proof].agreement == key && w.proofs[proof].status == ProofStatus.Approved
  }

  /** What every event of an action on `a` says truly, `b` being the agreement afterwards. */
  predicate Fits(f: Fact, w: Ledger, key: Pubkey, a: Agreement, b: Agreement) {
    && f.agreement == key && f.previousState.Some? && f.action != AGREEMENT_OPENED
    && (IsMove(f) ==> f.previousState == Some(a.state) && f.newState == b.state)
    && (f.action == AGREEMENT_FUNDED ==>
          && IsMove(f) && a.state == Open && b.state == Funded && f.amount == Some(a.amount)
          && (IsMilestoneContract(a) ==> a.milestoneTotal == a.amount))
    && (f.action == SETTLEMENT_EXECUTED ==>
          && IsLive(a.state) && f.amount.Some? && (IsMove(f) ==> b.state == AgreementState.Settled)
          && (f.proof.Some? ==> StandsApproved(w, key, f.proof.value)))
    && (f.action == REFUND_EXECUTED ==>
          IsLive(a.state) && f.amount.Some? && IsMove(f) && b.state == Refunded)
    && (f.action == COUNTERPARTY_ASSIGNED ==>
          !IsMove(f) && a.counterparty == Default && b.counterparty != Default && f.seller == b.counterparty)
  }

  /** How the events of an action report its move, its payment and its payee. */
  predicate MoneyStory(fs: seq<Fact>, a: Agreement, b: Agreement) {
    && 1 <= |fs| <= 2
    && (forall i :: 0 <= i < |fs| - 1 ==> !IsMove(fs[i]) && AmountPaid(fs[i]) == 0)
    && (IsMove(fs[|fs| - 1]) <==> a.state != b.state)
    && b.settledTotal == a.settledTotal + AmountPaid(fs[|fs| - 1])
    && (b.counterparty != a.counterparty ==> fs[|fs| - 1].action == COUNTERPARTY_ASSIGNED)
    && (fs[|fs| - 1].action == COUNTERPARTY_ASSIGNED ==> |fs| == 1)
    && (|fs| == 2 ==> fs[0].action != COUNTERPARTY_ASSIGNED && !IsPayment(fs[0].action))
    && (a.state == Open && b.state == Funded ==> fs[|fs| - 1].action == AGREEMENT_FUNDED)
    && (b.state != Open ==> b.milestoneCount == a.milestoneCount && b.milestoneTotal == a.milestoneTotal)
    && (b.state == Cancelled ==> a.state == Open || a.state == Cancelled)
    && (a.state == Open ==> b.state == Open || b.state == Funded || b.state == Cancelled)
  }

  /** How they report evidence. */
  predicate EvidenceStory(fs: seq<Fact>, key: Pubkey, a: Agreement, signer: Pubkey, action: Action, c: Change) {
    if action.SubmitProof? then
      && |fs| == 1 && fs[0].action == PROOF_SUBMITTED && fs[0].actor == signer
      && fs[0].proof == Some(ProofPda(key, a.proofCount)) && fs[0].proofIndex == Some(a.proofCount)
    else if KernelEvidence.IsDecision(action) then
      && |fs| == 1 && fs[0].action == (if action.ApproveProof? then PROOF_APPROVED else PROOF_REJECTED)
      && fs[0].actor == signer && fs[0].proof == Some(action.proof)
    else
      forall i :: 0 <= i < |fs| ==> !IsEvidence(fs[i].action)
  }

  /** How they report milestones. */
  predicate ScheduleStory(fs: seq<Fact>, w: Ledger, key: Pubkey, a: Agreement, action: Action, c: Change) {
    if action.CreateMilestone? then
      && |fs| == 1 && c.milestone.Some? && c.milestone.value.index == a.milestoneCount
      && c.milestone.value.state == Pending && MilestonePda(key, a.milestoneCount) !in w.milestones
      && fs[0].action == MILESTONE_CREATED && fs[0].milestone == Some(MilestonePda(key, a.milestoneCount))
      && fs[0].milestoneIndex == Some(a.milestoneCount) && fs[0].amount == Some(c.milestone.value.amount)
      && c.agreement.milestoneCount == a.milestoneCount + 1
    else if TouchesMilestone(action) then
      && |fs| >= 1 && c.milestone.Some? && action.milestone == MilestonePda(key, c.milestone.value.index)
      && action.milestone in w.milestones && w.milestones[action.milestone].index == c.milestone.value.index
      && w.milestones[action.milestone].amount == c.milestone.value.amount
      && fs[0].milestone == Some(action.milestone)
      && Records.IsStep(fs[0].action) && Records.StateAfter(fs[0].action) == c.milestone.value.state
      && (forall i :: 1 <= i < |fs| ==> fs[i].milestone.None? && fs[i].action != MILESTONE_CREATED)
      && c.agreement.milestoneCount == a.milestoneCount
    else
      && c.milestone.None? && c.agreement.milestoneCount == a.milestoneCount
      && (forall i :: 0 <= i < |fs| ==> fs[i].milestone.None? && fs[i].action != MILESTONE_CREATED)
  }

  predicate IsDispute(action: ReceiptAction) {
    action == DISPUTE_OPENED || action == DISPUTE_RESOLVED
  }

  /** How they report disputes, and that a tranche is approved before it is settled and settled once. */
  predicate StandingStory(fs: seq<Fact>, w: Ledger, a: Agreement, action: Action, c: Change) {
    && (forall i :: 0 <= i < |fs| && fs[i].action == DISPUTE_OPENED ==>
          i == 0 && (a.state == Funded || a.state == Completed) && c.agreement.state == Disputed)
    && (forall i :: 0 <= i < |fs| && fs[i].action == DISPUTE_RESOLVED ==>
          i == 0 && a.state == Disputed && c.agreement.state != Disputed)
    && (a.state != Disputed && c.agreement.state == Disputed ==> fs != [] && fs[0].action == DISPUTE_OPENED)
    && (a.state == Disputed && c.agreement.state != Disputed ==> fs != [] && fs[0].action == DISPUTE_RESOLVED)
    && (forall i :: 0 <= i < |fs| && fs[i].action == SETTLEMENT_EXECUTED && !action.SettleMilestone? ==> IsMove(fs[i]))
    && (forall i :: 0 <= i < |fs| && fs[i].action == MILESTONE_SETTLED ==> i == 0 && action.SettleMilestone?)
    && (forall i :: 0 <= i < |fs| && fs[i].action == MILESTONE_APPROVED ==> i == 0 && action.ApproveMilestone?)
    && (action.SettleMilestone? ==>
          && |fs| == 2 && fs[0].action == MILESTONE_SETTLED && fs[1].action == SETTLEMENT_EXECUTED && c.milestone.Some?
          && fs[1].amount == Some(c.milestone.value.amount)
          && action.milestone in w.milestones && w.milestones[action.milestone].state == MilestoneState.Approved)
    && (action.ApproveMilestone? || action.RejectMilestone? || action.SubmitMilestone? ==>
          && action.milestone in w.milestones
          && (w.milestones[action.milestone].state == Pending
              || w.milestones[action.milestone].state == MilestoneState.Submitted))
  }

  function Facts(events: seq<Event>): (fs: seq<Fact>)
    ensures |fs| == |events| && forall i :: 0 <= i < |fs| ==> fs[i] == FactOf(events[i])
  {
    seq(|events|, i requires 0 <= i < |events| => FactOf(events[i]))
  }

  ghost predicate Told(fs: seq<Fact>, w: Ledger, key: Pubkey, a: Agreement, signer: Pubkey, action: Action, c: Change) {
    && (forall i :: 0 <= i < |fs| ==> Fits(fs[i], w, key, a, c.agreement))
    && MoneyStory(fs, a, c.agreement)
    && EvidenceStory(fs, key, a, signer, action, c)
    && ScheduleStory(fs, w, key, a, action, c)
    && StandingStory(fs, w, a, action, c)
  }

  ghost predicate Story(w: Ledger, key: Pubkey, a: Agreement, signer: Pubkey, action: Action, c: Change) {
    Told(Facts(c.events), w, key, a, signer, action, c)
  }

  // ---- Each instruction tells its story ----

  /** An instruction that moves the agreement or names its payee tells one fact, and pays nothing. */
  predicate PlainFact(fs: seq<Fact>, key: Pubkey, a: Agreement, c: Change, action: ReceiptAction) {
    && |fs| == 1 && fs[0].agreement == key && fs[0].action == action && fs[0].milestone == None
    && fs[0].previousState == Some(a.state) && fs[0].newState == c.agreement.state && c.milestone.None?
  }

  lemma SelectFact(w: Ledger, key: Pubkey, a: Agreement, signer: Pubkey, winner: Pubkey, now: int)
    requires SelectCounterpartySpec(w, key, a, signer, winner, now).Ok?
    ensures
      var c := SelectCounterpartySpec(w, key, a, signer, winner, now).value;
      && PlainFact(Facts(c.events), key, a, c, COUNTERPARTY_ASSIGNED) && Facts(c.events)[0].seller == winner
      && a.counterparty == Default && winner != Default
      && c.agreement == a.(counterparty := winner, stateChangedAt := now)
  {
  }

  lemma SelectStory(w: Ledger, key: Pubkey, a: Agreement, signer: Pubkey, winner: Pubkey, now: int)
    requires SelectCounterpartySpec(w, key, a, signer, winner, now).Ok?
    ensures Story(w, key, a, signer, SelectCounterparty(winner),
                  SelectCounterpartySpec(w, key, a, signer, winner, now).value)
  {
    SelectFact(w, key, a, signer, winner, now);
    hide SelectCounterpartySpec, Facts, StandsApproved, Records.StateAfter;
  }

  lemma CreationFact(w: Ledger, key: Pubkey, a: Agreement, signer: Pubkey, amount: U64, termsHash: Hash, now: int)
    requires CreateMilestoneSpec(w, key, a, signer, amount, termsHash, now).Ok?
    ensures
      var c := CreateMilestoneSpec(w, key, a, signer, amount, termsHash, now).value;
      var fs := Facts(c.events);
      && |fs| == 1 && fs[0].agreement == key && fs[0].action == MILESTONE_CREATED
      && fs[0].previousState == Some(a.state) && fs[0].newState == a.state
      && fs[0].milestone == Some(MilestonePda(key, a.milestoneCount))
      && MilestonePda(key, a.milestoneCount) !in w.milestones
      && fs[0].milestoneIndex == Some(a.milestoneCount) && fs[0].amount == Some(amount)
      && c.milestone.Some? && c.milestone.value.index == a.milestoneCount && c.milestone.value.state == Pending
      && c.milestone.value.amount == amount && a.state == Open
      && c.agreement == a.(milestoneCount := a.milestoneCount + 1, milestoneTotal := a.milestoneTotal + amount)
  {
  }

  lemma CreateMilestoneStory(w: Ledger, key: Pubkey, a: Agreement, signer: Pubkey, amount: U64, termsHash: Hash,
                             now: int)
    requires CreateMilestoneSpec(w, key, a, signer, amount, termsHash, now).Ok?
    ensures Story(w, key, a, signer, CreateMilestone(amount, termsHash),
                  CreateMilestoneSpec(w, key, a, signer, amount, termsHash, now).value)
  {
    CreationFact(w, key, a, signer, amount, termsHash, now);
    hide CreateMilestoneSpec, Facts, StandsApproved, Records.StateAfter;
  }

  lemma FundStory(w: Ledger, key: Pubkey, a: Agreement, signer: Pubkey, source: Pubkey, now: int)
    requires FundSpec(w, key, a, signer, source, now).Ok?
    ensures Story(w, key, a, signer, Fund(source), FundSpec(w, key, a, signer, source, now).value)
  {
  }

  lemma CompleteStory(w: Ledger, key: Pubkey, a: Agreement, signer: Pubkey, now: int)
    requires MarkCompletedSpec(w, key, a, signer, now).Ok?
    ensures Story(w, key, a, signer, MarkCompleted, MarkCompletedSpec(w, key, a, signer, now).value)
  {
  }

  /** A settlement of all that is left tells one fact. */
  predicate SettledFact(fs: seq<Fact>, key: Pubkey, a: Agreement, cited: Option<Pubkey>) {
    && |fs| == 1 && fs[0].agreement == key && fs[0].action == SETTLEMENT_EXECUTED && fs[0].milestone == None
    && fs[0].previousState == Some(a.state) && fs[0].newState == AgreementState.Settled
    && fs[0].amount == Some(Remaining(a)) && fs[0].proof == cited
  }

  predicate SettledChange(a: Agreement, c: Change) {
    var b := c.agreement;
    && c.milestone.None? && a.state == Completed && b.state == AgreementState.Settled
    && b.settledTotal == a.settledTotal + Remaining(a)
    && b.counterparty == a.counterparty && b.milestoneCount == a.milestoneCount && b.milestoneTotal == a.milestoneTotal
  }

  lemma SettleFacts(w: Ledger, key: Pubkey, a: Agreement, signer: Pubkey, destination: Pubkey, citation: Citation,
                    now: int)
    requires SettleSpec(w, key, a, signer, destination, citation, now).Ok?
    ensures
      var c := SettleSpec(w, key, a, signer, destination, citation, now).value;
      var cited := RequireCitedProof(w, citation, key);
      cited.Ok? && SettledFact(Facts(c.events), key, a, cited.value) && SettledChange(a, c)
  {
    hide PayOutOfVault, RequireVault, RequireTokenAccount, RequireCitedProof;
  }

  lemma SettledTold(fs: seq<Fact>, w: Ledger, key: Pubkey, a: Agreement, signer: Pubkey, action: Action, c: Change,
                    cited: Option<Pubkey>)
    requires action.Settle? && SettledChange(a, c) && SettledFact(fs, key, a, cited)
    requires cited.Some? ==> StandsApproved(w, key, cited.value)
    ensures Told(fs, w, key, a, signer, action, c)
  {
    hide StandsApproved, Remaining;
  }

  lemma SettleStory(w: Ledger, key: Pubkey, a: Agreement, signer: Pubkey, destination: Pubkey, citation: Citation,
                    now: int)
    requires SettleSpec(w, key, a, signer, destination, citation, now).Ok?
    ensures Story(w, key, a, signer, Settle(destination, citation),
                  SettleSpec(w, key, a, signer, destination, citation, now).value)
  {
    SettleFacts(w, key, a, signer, destination, citation, now);
    CitationStands(w, citation, key);
    hide SettleSpec, Facts, RequireCitedProof, StandsApproved, SettledFact, SettledChange, Told;
    var c := SettleSpec(w, key, a, signer, destination, citation, now).value;
    SettledTold(Facts(c.events), w, key, a, signer, Settle(destination, citation), c,
                RequireCitedProof(w, citation, key).value);
  }

  /** A step of a tranche tells one fact. */
  predicate StepFact(fs: seq<Fact>, key: Pubkey, a: Agreement, action: ReceiptAction, address: Pubkey) {
    && |fs| == 1 && fs[0].agreement == key && fs[0].action == action && fs[0].milestone == Some(address)
    && fs[0].previousState == Some(a.state) && fs[0].newState == a.state
  }

  /** It changes the tranche's state, and nothing of the agreement. */
  predicate StepChange(w: Ledger, key: Pubkey, a: Agreement, address: Pubkey, c: Change, state: MilestoneState) {
    && c.agreement == a && c.milestone.Some? && c.milestone.value.state == state
    && address == MilestonePda(key, c.milestone.value.index) && address in w.milestones
    && w.milestones[address].index == c.milestone.value.index
    && w.milestones[address].amount == c.milestone.value.amount
    && (w.milestones[address].state == Pending || w.milestones[address].state == MilestoneState.Submitted)
  }

  function ActionOfStep(action: Action): ReceiptAction {
    if action.SubmitMilestone? then MILESTONE_SUBMITTED
    else if action.ApproveMilestone? then MILESTONE_APPROVED
    else MILESTONE_REJECTED
  }

  lemma StepTold(fs: seq<Fact>, w: Ledger, key: Pubkey, a: Agreement, signer: Pubkey, action: Action, c: Change)
    requires action.SubmitMilestone? || action.ApproveMilestone? || action.RejectMilestone?
    requires StepFact(fs, key, a, ActionOfStep(action), action.milestone)
    requires StepChange(w, key, a, action.milestone, c, Records.StateAfter(ActionOfStep(action)))
    ensures Told(fs, w, key, a, signer, action, c)
  {
    hide StandsApproved, Remaining;
  }

  lemma SubmitStepFact(w: Ledger, key: Pubkey, a: Agreement, signer: Pubkey, address: Pubkey, now: int)
    requires SubmitMilestoneSpec(w, key, a, signer, address, now).Ok?
    ensures
      var c := SubmitMilestoneSpec(w, key, a, signer, address, now).value;
      && StepFact(Facts(c.events), key, a, MILESTONE_SUBMITTED, address)
      && StepChange(w, key, a, address, c, MilestoneState.Submitted)
  {
  }

  lemma ApproveStepFact(w: Ledger, key: Pubkey, a: Agreement, signer: Pubkey, address: Pubkey, now: int)
    requires ApproveMilestoneSpec(w, key, a, signer, address, now).Ok?
    ensures
      var c := ApproveMilestoneSpec(w, key, a, signer, address, now).value;
      && StepFact(Facts(c.events), key, a, MILESTONE_APPROVED, address)
      && StepChange(w, key, a, address, c, MilestoneState.Approved)
  {
  }

  lemma RejectStepFact(w: Ledger, key: Pubkey, a: Agreement, signer: Pubkey, address: Pubkey, now: int)
    requires RejectMilestoneSpec(w, key, a, signer, address, now).Ok?
    ensures
      var c := RejectMilestoneSpec(w, key, a, signer, address, now).value;
      StepFact(Facts(c.events), key, a, MILESTONE_REJECTED, address) && StepChange(w, key, a, address, c, Pending)
  {
  }

  lemma SubmitStepStory(w: Ledger, key: Pubkey, a: Agreement, signer: Pubkey, address: Pubkey, now: int)
    requires SubmitMilestoneSpec(w, key, a, signer, address, now).Ok?
    ensures Story(w, key, a, signer, SubmitMilestone(address),
                  SubmitMilestoneSpec(w, key, a, signer, address, now).value)
  {
    SubmitStepFact(w, key, a, signer, address, now);
    hide SubmitMilestoneSpec, Facts, StepFact, StepChange, Told;
    var c := SubmitMilestoneSpec(w, key, a, signer, address, now).value;
    StepTold(Facts(c.events), w, key, a, signer, SubmitMilestone(address), c);
  }

  lemma ApproveStepStory(w: Ledger, key: Pubkey, a: Agreement, signer: Pubkey, address: Pubkey, now: int)
    requires ApproveMilestoneSpec(w, key, a, signer, address, now).Ok?
    ensures Story(w, key, a, signer, ApproveMilestone(address),
                  ApproveMilestoneSpec(w, key, a, signer, address, now).value)
  {
    ApproveStepFact(w, key, a, signer, address, now);
    hide ApproveMilestoneSpec, Facts, StepFact, StepChange, Told;
    var c := ApproveMilestoneSpec(w, key, a, signer, address, now).value;
    StepTold(Facts(c.events), w, key, a, signer, ApproveMilestone(address), c);
  }

  lemma RejectStepStory(w: Ledger, key: Pubkey, a: Agreement, signer: Pubkey, address: Pubkey, now: int)
    requires RejectMilestoneSpec(w, key, a, signer, address, now).Ok?
    ensures Story(w, key, a, signer, RejectMilestone(address),
                  RejectMilestoneSpec(w, key, a, signer, address, now).value)
  {
    RejectStepFact(w, key, a, signer, address, now);
    hide RejectMilestoneSpec, Facts, StepFact, StepChange, Told;
    var c := RejectMilestoneSpec(w, key, a, signer, address, now).value;
    StepTold(Facts(c.events), w, key, a, signer, RejectMilestone(address), c);
  }

  /** A settled tranche tells two facts: that it settled, and that money was paid. */
  predicate TrancheFacts(fs: seq<Fact>, key: Pubkey, a: Agreement, b: Agreement, address: Pubkey, amount: nat,
                         cited: Option<Pubkey>)
  {
    && |fs| == 2
    && fs[0].agreement == key && fs[0].action == MILESTONE_SETTLED && fs[0].milestone == Some(address)
    && fs[0].previousState == Some(b.state) && fs[0].newState == b.state
    && fs[1].agreement == key && fs[1].action == SETTLEMENT_EXECUTED && fs[1].milestone == None
    && fs[1].previousState == Some(a.state) && fs[1].newState == b.state
    && fs[1].amount == Some(amount) && fs[1].proof == cited
  }

  lemma SettleMilestoneFacts(w: Ledger, key: Pubkey, a: Agreement, signer: Pubkey, address: Pubkey,
                             destination: Pubkey, citation: Citation, now: int)
    requires SettleMilestoneSpec(w, key, a, signer, address, destination, citation, now).Ok?
    ensures
      var c := SettleMilestoneSpec(w, key, a, signer, address, destination, citation, now).value;
      var cited := RequireCitedProof(w, citation, key);
      && cited.Ok? && c.milestone.Some?
      && TrancheFacts(Facts(c.events), key, a, c.agreement, address, c.milestone.value.amount, cited.value)
  {
    hide PayOutOfVault, RequireTokenAccount, RequireVault, RequireCitedProof, RecordMilestoneSettled;
  }

  predicate TrancheChange(w: Ledger, key: Pubkey, a: Agreement, address: Pubkey, c: Change) {
    var b := c.agreement;
    && c.milestone.Some? && address == MilestonePda(key, c.milestone.value.index)
    && c.milestone.value.state == MilestoneState.Settled
    && address in w.milestones && w.milestones[address].state == MilestoneState.Approved
    && w.milestones[address].index == c.milestone.value.index
    && w.milestones[address].amount == c.milestone.value.amount
    && a.state == Funded && b.settledTotal == a.settledTotal + c.milestone.value.amount
    && (b.state == a.state || b.state == AgreementState.Settled)
    && b.counterparty == a.counterparty && b.milestoneCount == a.milestoneCount && b.milestoneTotal == a.milestoneTotal
  }

  lemma SettleMilestoneChange(w: Ledger, key: Pubkey, a: Agreement, signer: Pubkey, address: Pubkey,
                              destination: Pubkey, citation: Citation, now: int)
    requires SettleMilestoneSpec(w, key, a, signer, address, destination, citation, now).Ok?
    ensures TrancheChange(w, key, a, address,
                          SettleMilestoneSpec(w, key, a, signer, address, destination, citation, now).value)
  {
    hide PayOutOfVault, RequireTokenAccount, RequireVault, RequireCitedProof;
  }

  lemma TrancheTold(fs: seq<Fact>, w: Ledger, key: Pubkey, a: Agreement, signer: Pubkey, action: Action, c: Change,
                    cited: Option<Pubkey>)
    requires action.SettleMilestone? && TrancheChange(w, key, a, action.milestone, c)
    requires TrancheFacts(fs, key, a, c.agreement, action.milestone, c.milestone.value.amount, cited)
    requires cited.Some? ==> StandsApproved(w, key, cited.value)
    ensures Told(fs, w, key, a, signer, action, c)
  {
    hide StandsApproved;
  }

  lemma CitationStands(w: Ledger, citation: Citation, key: Pubkey)
    requires RequireCitedProof(w, citation, key).Ok?
    ensures
      var cited := RequireCitedProof(w, citation, key).value;
      cited.Some? ==> StandsApproved(w, key, cited.value)
  {
  }

  lemma SettleMilestoneStory(w: Ledger, key: Pubkey, a: Agreement, signer: Pubkey, address: Pubkey,
                             destination: Pubkey, citation: Citation, now: int)
    requires SettleMilestoneSpec(w, key, a, signer, address, destination, citation, now).Ok?
    ensures Story(w, key, a, signer, SettleMilestone(address, destination, citation),
                  SettleMilestoneSpec(w, key, a, signer, address, destination, citation, now).value)
  {
    SettleMilestoneFacts(w, key, a, signer, address, destination, citation, now);
    SettleMilestoneChange(w, key, a, signer, address, destination, citation, now);
    CitationStands(w, citation, key);
    hide SettleMilestoneSpec, Facts, RequireCitedProof, StandsApproved, TrancheFacts, TrancheChange, Told;
    var c := SettleMilestoneSpec(w, key, a, signer, address, destination, citation, now).value;
    TrancheTold(Facts(c.events), w, key, a, signer, SettleMilestone(address, destination, citation), c,
                RequireCitedProof(w, citation, key).value);
  }

  /** A step of a proof tells one fact, and moves neither the agreement nor money. */
  predicate EvidenceFact(fs: seq<Fact>, key: Pubkey, a: Agreement, signer: Pubkey, action: ReceiptAction,
                         proof: Pubkey)
  {
    && |fs| == 1 && fs[0].agreement == key && fs[0].action == action && fs[0].milestone == None
    && fs[0].previousState == Some(a.state) && fs[0].newState == a.state
    && fs[0].actor == signer && fs[0].proof == Some(proof)
  }

  lemma EvidenceTold(fs: seq<Fact>, w: Ledger, key: Pubkey, a: Agreement, signer: Pubkey, action: Action, c: Change)
    requires c.milestone.None? && c.agreement.(proofCount := a.proofCount) == a
    requires
      if action.SubmitProof? then
        && EvidenceFact(fs, key, a, signer, PROOF_SUBMITTED, ProofPda(key, a.proofCount))
        && fs[0].proofIndex == Some(a.proofCount)
      else
        && KernelEvidence.IsDecision(action)
        && EvidenceFact(fs, key, a, signer,
                        if action.ApproveProof? then PROOF_APPROVED else PROOF_REJECTED, action.proof)
    ensures Told(fs, w, key, a, signer, action, c)
  {
    hide StandsApproved, Records.StateAfter, Remaining;
  }

  lemma SubmittedFact(w: Ledger, key: Pubkey, a: Agreement, signer: Pubkey, contentHash: Hash, metadataHash: Hash,
                      now: int)
    requires SubmitProofSpec(w, key, a, signer, contentHash, metadataHash, now).Ok?
    ensures
      var c := SubmitProofSpec(w, key, a, signer, contentHash, metadataHash, now).value;
      && c.milestone.None? && c.agreement.(proofCount := a.proofCount) == a
      && EvidenceFact(Facts(c.events), key, a, signer, PROOF_SUBMITTED, ProofPda(key, a.proofCount))
      && Facts(c.events)[0].proofIndex == Some(a.proofCount)
  {
    hide CoreProofAddress;
  }

  lemma SubmitProofStory(w: Ledger, key: Pubkey, a: Agreement, signer: Pubkey, contentHash: Hash, metadataHash: Hash,
                         now: int)
    requires SubmitProofSpec(w, key, a, signer, contentHash, metadataHash, now).Ok?
    ensures Story(w, key, a, signer, SubmitProof(contentHash, metadataHash),
                  SubmitProofSpec(w, key, a, signer, contentHash, metadataHash, now).value)
  {
    SubmittedFact(w, key, a, signer, contentHash, metadataHash, now);
    hide SubmitProofSpec, Facts, EvidenceFact, Told;
    var c := SubmitProofSpec(w, key, a, signer, contentHash, metadataHash, now).value;
    EvidenceTold(Facts(c.events), w, key, a, signer, SubmitProof(contentHash, metadataHash), c);
  }

  lemma DecidedFact(w: Ledger, key: Pubkey, a: Agreement, signer: Pubkey, address: Pubkey, approve: bool, now: int)
    requires DecideProofSpec(w, key, a, signer, address, approve, now).Ok?
    ensures
      var c := DecideProofSpec(w, key, a, signer, address, approve, now).value;
      && c.milestone.None? && c.agreement == a
      && EvidenceFact(Facts(c.events), key, a, signer, if approve then PROOF_APPROVED else PROOF_REJECTED, address)
  {
  }

  lemma DecideStory(w: Ledger, key: Pubkey, a: Agreement, signer: Pubkey, address: Pubkey, approve: bool, now: int)
    requires DecideProofSpec(w, key, a, signer, address, approve, now).Ok?
    ensures Story(w, key, a, signer, if approve then ApproveProof(address) else RejectProof(address),
                  DecideProofSpec(w, key, a, signer, address, approve, now).value)
  {
    DecidedFact(w, key, a, signer, address, approve, now);
    hide DecideProofSpec, Facts, EvidenceFact, Told;
    var c := DecideProofSpec(w, key, a, signer, address, approve, now).value;
    EvidenceTold(Facts(c.events), w, key, a, signer,
                 if approve then ApproveProof(address) else RejectProof(address), c);
  }

  lemma DisputeFact(w: Ledger, key: Pubkey, a: Agreement, signer: Pubkey, reasonHash: Hash, now: int)
    requires OpenDisputeSpec(w, key, a, signer, reasonHash, now).Ok?
    ensures
      var c := OpenDisputeSpec(w, key, a, signer, reasonHash, now).value;
      && PlainFact(Facts(c.events), key, a, c, DISPUTE_OPENED) && (a.state == Funded || a.state == Completed)
      && c.agreement == a.(state := Disputed, disputeOpenedBy := signer, stateChangedAt := now)
  {
  }

  lemma DisputeStory(w: Ledger, key: Pubkey, a: Agreement, signer: Pubkey, reasonHash: Hash, now: int)
    requires OpenDisputeSpec(w, key, a, signer, reasonHash, now).Ok?
    ensures Story(w, key, a, signer, OpenDispute(reasonHash), OpenDisputeSpec(w, key, a, signer, reasonHash, now).value)
  {
    DisputeFact(w, key, a, signer, reasonHash, now);
    hide OpenDisputeSpec, Facts, StandsApproved, Records.StateAfter;
  }

  /** A concession tells two facts: that the dispute was resolved, and the payment the undisputed paths report. */
  predicate ConcessionFacts(fs: seq<Fact>, key: Pubkey, a: Agreement, b: Agreement) {
    && |fs| == 2
    && fs[0].agreement == key && fs[0].action == DISPUTE_RESOLVED && fs[0].milestone == None
    && fs[0].previousState == Some(b.state) && fs[0].newState == b.state
    && fs[1].agreement == key && fs[1].milestone == None && fs[1].amount == Some(Remaining(a)) && fs[1].proof == None
    && fs[1].action == (if b.state == Refunded then REFUND_EXECUTED else SETTLEMENT_EXECUTED)
    && fs[1].previousState == Some(a.state) && fs[1].newState == b.state
  }

  lemma ResolveFacts(w: Ledger, key: Pubkey, a: Agreement, signer: Pubkey, destination: Pubkey, now: int)
    requires ResolveDisputeSpec(w, key, a, signer, destination, now).Ok?
    ensures
      var c := ResolveDisputeSpec(w, key, a, signer, destination, now).value;
      ConcessionFacts(Facts(c.events), key, a, c.agreement)
  {
    hide PayOutOfVault, RequireVault, RequireResolvable;
  }

  predicate ConcessionChange(a: Agreement, c: Change) {
    var b := c.agreement;
    && c.milestone.None? && a.state == Disputed && (b.state == Refunded || b.state == AgreementState.Settled)
    && b.settledTotal == a.settledTotal + Remaining(a)
    && b.counterparty == a.counterparty && b.milestoneCount == a.milestoneCount && b.milestoneTotal == a.milestoneTotal
  }

  lemma ResolveChange(w: Ledger, key: Pubkey, a: Agreement, signer: Pubkey, destination: Pubkey, now: int)
    requires ResolveDisputeSpec(w, key, a, signer, destination, now).Ok?
    ensures ConcessionChange(a, ResolveDisputeSpec(w, key, a, signer, destination, now).value)
  {
    hide PayOutOfVault, RequireVault;
  }

  lemma ConcessionTold(fs: seq<Fact>, w: Ledger, key: Pubkey, a: Agreement, signer: Pubkey, action: Action, c: Change)
    requires action.ResolveDispute? && ConcessionChange(a, c) && ConcessionFacts(fs, key, a, c.agreement)
    ensures Told(fs, w, key, a, signer, action, c)
  {
    hide StandsApproved, Remaining;
  }

  lemma ResolveStory(w: Ledger, key: Pubkey, a: Agreement, signer: Pubkey, destination: Pubkey, now: int)
    requires ResolveDisputeSpec(w, key, a, signer, destination, now).Ok?
    ensures Story(w, key, a, signer, ResolveDispute(destination),
                  ResolveDisputeSpec(w, key, a, signer, destination, now).value)
  {
    ResolveFacts(w, key, a, signer, destination, now);
    ResolveChange(w, key, a, signer, destination, now);
    hide ResolveDisputeSpec, Facts, ConcessionFacts, ConcessionChange, Told;
    var c := ResolveDisputeSpec(w, key, a, signer, destination, now).value;
    ConcessionTold(Facts(c.events), w, key, a, signer, ResolveDispute(destination), c);
  }

  predicate RefundFact(fs: seq<Fact>, key: Pubkey, a: Agreement) {
    && |fs| == 1 && fs[0].agreement == key && fs[0].action == REFUND_EXECUTED && fs[0].milestone == None
    && fs[0].previousState == Some(a.state) && fs[0].newState == Refunded
    && fs[0].amount == Some(Remaining(a)) && fs[0].proof == None
  }

  predicate RefundChange(a: Agreement, c: Change) {
    var b := c.agreement;
    && c.milestone.None? && IsLive(a.state) && a.state != Disputed && b.state == Refunded
    && b.settledTotal == a.settledTotal + Remaining(a)
    && b.counterparty == a.counterparty && b.milestoneCount == a.milestoneCount && b.milestoneTotal == a.milestoneTotal
  }

  lemma RefundFacts(w: Ledger, key: Pubkey, a: Agreement, signer: Pubkey, destination: Pubkey, now: int)
    requires RefundSpec(w, key, a, signer, destination, now).Ok?
    ensures
      var c := RefundSpec(w, key, a, signer, destination, now).value;
      RefundFact(Facts(c.events), key, a) && RefundChange(a, c)
  {
    hide PayOutOfVault, RequireVault, RequireTokenAccount;
  }

  lemma RefundTold(fs: seq<Fact>, w: Ledger, key: Pubkey, a: Agreement, signer: Pubkey, action: Action, c: Change)
    requires action.Refund? && RefundChange(a, c) && RefundFact(fs, key, a)
    ensures Told(fs, w, key, a, signer, action, c)
  {
    hide StandsApproved, Remaining;
  }

  lemma RefundStory(w: Ledger, key: Pubkey, a: Agreement, signer: Pubkey, destination: Pubkey, now: int)
    requires RefundSpec(w, key, a, signer, destination, now).Ok?
    ensures Story(w, key, a, signer, Refund(destination), RefundSpec(w, key, a, signer, destination, now).value)
  {
    RefundFacts(w, key, a, signer, destination, now);
    hide RefundSpec, Facts, RefundFact, RefundChange, Told;
    var c := RefundSpec(w, key, a, signer, destination, now).value;
    RefundTold(Facts(c.events), w, key, a, signer, Refund(destination), c);
  }

  lemma CancelStory(w: Ledger, key: Pubkey, a: Agreement, signer: Pubkey, now: int)
    requires CancelSpec(w, key, a, signer, now).Ok?
    ensures Story(w, key, a, signer, Cancel, CancelSpec(w, key, a, signer, now).value)
  {
  }

  /** The events of every committed action tell what it changed. */
  lemma ActionStory(w: Ledger, key: Pubkey, a: Agreement, signer: Pubkey, action: Action, now: int)
    requires Act(w, key, a, signer, action, now).Ok?
    ensures Story(w, key, a, signer, action, Act(w, key, a, signer, action, now).value)
  {
    hide Story, SelectCounterpartySpec, CreateMilestoneSpec, FundSpec, MarkCompletedSpec, SettleSpec;
    hide SubmitMilestoneSpec, ApproveMilestoneSpec, RejectMilestoneSpec, SettleMilestoneSpec, SubmitProofSpec;
    hide DecideProofSpec, OpenDisputeSpec, ResolveDisputeSpec, RefundSpec, CancelSpec;
    if action.SelectCounterparty? {
      SelectStory(w, key, a, signer, action.winner, now);
    } else if action.CreateMilestone? {
      CreateMilestoneStory(w, key, a, signer, action.amount, action.termsHash, now);
    } else if action.Fund? {
      FundStory(w, key, a, signer, action.source, now);
    } else if action.MarkCompleted? {
      CompleteStory(w, key, a, signer, now);
    } else if action.Settle? {
      SettleStory(w, key, a, signer, action.destination, action.citation, now);
    } else if action.SettleMilestone? {
      SettleMilestoneStory(w, key, a, signer, action.milestone, action.destination, action.citation, now);
    } else if action.SubmitProof? {
      SubmitProofStory(w, key, a, signer, action.contentHash, action.metadataHash, now);
    } else if action.ApproveProof? || action.RejectProof? {
      DecideStory(w, key, a, signer, action.proof, action.ApproveProof?, now);
    } else if action.OpenDispute? {
      DisputeStory(w, key, a, signer, action.reasonHash, now);
    } else if action.ResolveDispute? {
      ResolveStory(w, key, a, signer, action.destination, now);
    } else if action.Refund? {
      RefundStory(w, key, a, signer, action.destination, now);
    } else if action.Cancel? {
      CancelStory(w, key, a, signer, now);
    } else if action.SubmitMilestone? {
      SubmitStepStory(w, key, a, signer, action.milestone, now);
    } else if action.ApproveMilestone? {
      ApproveStepStory(w, key, a, signer, action.milestone, now);
    } else {
      RejectStepStory(w, key, a, signer, action.milestone, now);
    }
  }
}
