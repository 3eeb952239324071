/**
 What the receipts of a run say about the account the run leaves behind. This is
 an invariant of the program, kept step by step; Replay.dfy draws from it that
 the reconstruction succeeds.
 */
module ReplayTrace {
  import opened Wrappers
  import opened Keys
  import opened EscrowState
  import opened EscrowEvents
  import opened EscrowKernel
  import opened KernelFrames
  import opened KernelBooks
  import opened KernelEvidence
  import opened KernelStory
  import opened Receipts
  import opened Reconstruction
  import opened Records
  import opened Lifecycles

  /** Receipts for these events, in the same order, whatever coordinates they carry. */
  ghost predicate Stamped(rs: seq<Receipt>, events: seq<Event>) {
    && |rs| == |events|
    && forall i :: 0 <= i < |rs| ==>
         rs[i].fact == FactOf(events[i]) && rs[i].kind == KindOf(rs[i].fact.previousState, rs[i].fact.newState)
  }

  // ---- The invariant ----

  ghost predicate OpeningTells(r: Receipt, key: Pubkey, a: Agreement) {
    && r.kind == Transition && r.fact.action == AGREEMENT_OPENED && r.fact.previousState.None?
    && r.fact.newState == Open
    && r.fact.agreementId == a.agreementId && r.fact.buyer == a.creator && r.fact.mint == Some(a.mint)
  }

  /** The transitions form one path that moves strictly on and ends in the account's state. */
  ghost predicate MovesTell(moves: seq<Receipt>, state: AgreementState) {
    && moves != [] && moves[|moves| - 1].fact.newState == state && moves[0].fact.previousState.None?
    && (forall i :: 0 < i < |moves| ==> moves[i].fact.previousState == Some(moves[i - 1].fact.newState))
    && (forall i, j :: 0 <= i < j < |moves| ==> Rank(moves[i].fact.newState) < Rank(moves[j].fact.newState))
  }

  predicate HasAction(rs: seq<Receipt>, action: ReceiptAction) {
    exists r :: r in rs && r.fact.action == action
  }

  function Paid(rs: seq<Receipt>): nat {
    OrZero(PaidOut(rs, SETTLEMENT_EXECUTED)) + OrZero(PaidOut(rs, REFUND_EXECUTED))
  }

  ghost predicate MoneyTells(rs: seq<Receipt>, a: Agreement) {
    && Paid(rs) == a.settledTotal
    && (HasAction(rs, AGREEMENT_FUNDED) <==> a.state != Open && a.state != Cancelled)
    && (forall r :: r in rs && r.fact.action == AGREEMENT_FUNDED ==>
          && r.kind == Transition && r.fact.amount == Some(a.amount)
          && (IsMilestoneContract(a) ==> a.milestoneTotal == a.amount))
    && (forall r :: r in rs && r.fact.action == SETTLEMENT_EXECUTED ==>
          && a.state != Open && a.state != Cancelled
          && (r.kind == Transition ==> a.state == AgreementState.Settled))
    && (forall r :: r in rs && r.fact.action == REFUND_EXECUTED ==> r.kind == Transition && a.state == Refunded)
  }

  ghost predicate PayeeTells(rs: seq<Receipt>, a: Agreement) {
    && (forall r :: r in rs && r.fact.action == COUNTERPARTY_ASSIGNED ==>
          r.kind == Annotation && a.counterparty != Default && r.fact.seller == a.counterparty)
    && (forall i, j :: 0 <= i < j < |rs| && rs[i].fact.action == COUNTERPARTY_ASSIGNED ==>
          rs[j].fact.action != COUNTERPARTY_ASSIGNED)
    && (rs != [] && !HasAction(rs, COUNTERPARTY_ASSIGNED) ==> rs[0].fact.seller == a.counterparty)
  }

  predicate TellsProof(r: Receipt, w: Ledger, key: Pubkey) {
    && r.kind == Annotation && r.fact.proof.Some? && r.fact.proof.value in w.proofs
    && r.fact.proof.value == ProofPda(key, w.proofs[r.fact.proof.value].index)
  }

  predicate TellsSubmission(r: Receipt, w: Ledger, key: Pubkey) {
    && TellsProof(r, w, key)
    && r.fact.proofIndex == Some(w.proofs[r.fact.proof.value].index)
    && r.fact.actor == w.proofs[r.fact.proof.value].submitter
  }

  predicate TellsDecision(r: Receipt, w: Ledger, key: Pubkey) {
    && TellsProof(r, w, key)
    && w.proofs[r.fact.proof.value].decidedBy == r.fact.actor
    && w.proofs[r.fact.proof.value].status
       == (if r.fact.action == PROOF_APPROVED then ProofStatus.Approved else Rejected)
  }

  ghost predicate ProofsTell(rs: seq<Receipt>, w: Ledger, key: Pubkey) {
    && (forall r :: r in rs && r.fact.action == PROOF_SUBMITTED ==> TellsSubmission(r, w, key))
    && (forall r :: r in rs && Reconstruction.IsDecision(r) ==> TellsDecision(r, w, key))
    && (forall i: nat :: HasProof(w, key, i) ==> exists r :: r in rs && SubmitsProof(r, ProofPda(key, i)))
    && (forall i: nat :: HasProof(w, key, i) && w.proofs[ProofPda(key, i)].status != ProofStatus.Submitted ==>
          exists r :: r in rs && DecidesProof(r, ProofPda(key, i)))
    && (forall i, j :: 0 <= i < j < |rs| && Reconstruction.IsDecision(rs[i]) && Reconstruction.IsDecision(rs[j]) ==>
          rs[i].fact.proof != rs[j].fact.proof)
    && (forall r :: r in rs && r.fact.action == SETTLEMENT_EXECUTED && r.fact.proof.Some? ==>
          StandsApproved(w, key, r.fact.proof.value))
  }

  predicate TellsTranche(r: Receipt, w: Ledger, key: Pubkey) {
    && r.kind == Annotation && r.fact.milestone.Some? && r.fact.milestone.value in w.milestones
    && r.fact.milestone.value == MilestonePda(key, w.milestones[r.fact.milestone.value].index)
  }

  predicate TellsCreation(r: Receipt, w: Ledger, key: Pubkey) {
    && TellsTranche(r, w, key)
    && r.fact.milestoneIndex == Some(w.milestones[r.fact.milestone.value].index)
    && r.fact.amount == Some(w.milestones[r.fact.milestone.value].amount)
  }

  ghost predicate ScheduleTells(rs: seq<Receipt>, w: Ledger, key: Pubkey) {
    && (forall r :: r in rs && r.fact.milestone.Some? ==> TellsTranche(r, w, key))
    && (forall r :: r in rs && r.fact.action == MILESTONE_CREATED ==> TellsCreation(r, w, key))
    && (forall i: nat :: HasTranche(w.milestones, key, i) ==> TrancheTells(rs, w, key, i))
  }

  /** A tranche was created, and its state is the one its last step reported. */
  ghost predicate TrancheTells(rs: seq<Receipt>, w: Ledger, key: Pubkey, i: nat)
    requires HasTranche(w.milestones, key, i)
  {
    var m := MilestonePda(key, i);
    && (exists r :: r in rs && CreatesMilestone(r, m))
    && (forall k :: LastStepAt(rs, k, m) ==> Tranche(w.milestones, key, i).state == StateAfter(rs[k].fact.action))
    && ((forall r :: r in rs ==> !IsStepOf(r, m)) ==> Tranche(w.milestones, key, i).state == Pending)
  }

  ghost predicate PaymentsPositive(rs: seq<Receipt>) {
    forall r :: r in rs && IsPayment(r.fact.action) ==> OrZero(r.fact.amount) > 0
  }

  predicate StandsAt(r: Receipt, w: Ledger, settled: bool) {
    && r.fact.milestone.Some? && r.fact.milestone.value in w.milestones
    && (w.milestones[r.fact.milestone.value].state == MilestoneState.Settled
        || (!settled && w.milestones[r.fact.milestone.value].state == MilestoneState.Approved))
  }

  /**
   An approved tranche stays approved until it settles, and a settlement that does not
   end the agreement is a tranche's.
   */
  ghost predicate ApprovalsStand(rs: seq<Receipt>, w: Ledger, state: AgreementState) {
    && (forall r :: r in rs && r.fact.action == MILESTONE_APPROVED ==> StandsAt(r, w, false))
    && (forall r :: r in rs && r.fact.action == MILESTONE_SETTLED ==> StandsAt(r, w, true))
    && (HasAction(rs, MILESTONE_SETTLED) ==> HasAction(rs, SETTLEMENT_EXECUTED))
    && (HasAction(rs, SETTLEMENT_EXECUTED) ==> state == AgreementState.Settled || HasAction(rs, MILESTONE_SETTLED))
  }

  /** At most one dispute, at most one resolution, after it, and the agreement disputed in between. */
  ghost predicate DisputeTells(rs: seq<Receipt>, state: AgreementState) {
    && (HasAction(rs, DISPUTE_OPENED) ==> state == Disputed || state == AgreementState.Settled || state == Refunded)
    && (state == Disputed <==> HasAction(rs, DISPUTE_OPENED) && !HasAction(rs, DISPUTE_RESOLVED))
    && (HasAction(rs, DISPUTE_RESOLVED) ==> HasAction(rs, DISPUTE_OPENED))
    && (forall i, j :: 0 <= i < j < |rs| && rs[i].fact.action == DISPUTE_OPENED ==> rs[j].fact.action != DISPUTE_OPENED)
    && (forall i, j :: 0 <= i < j < |rs| && rs[i].fact.action == DISPUTE_RESOLVED ==> !IsDispute(rs[j].fact.action))
  }

  ghost predicate Stands(rs: seq<Receipt>, w: Ledger, state: AgreementState) {
    PaymentsPositive(rs) && ApprovalsStand(rs, w, state) && DisputeTells(rs, state)
  }

  ghost predicate Tells(rs: seq<Receipt>, w: Ledger, key: Pubkey) {
    if key !in w.agreements then rs == []
    else
      var a := w.agreements[key];
      && rs != [] && OpeningTells(rs[0], key, a)
      && (forall i :: 0 < i < |rs| ==> rs[i].fact.previousState.Some?)
      && (forall r :: r in rs ==> r.fact.agreement == key)
      && MovesTell(Select(rs, Transition), a.state)
      && MoneyTells(rs, a)
      && PayeeTells(rs, a)
      && ProofsTell(rs, w, key)
      && ScheduleTells(rs, w, key)
      && Stands(rs, w, a.state)
  }

  // ---- Every action continues the story ----

  /** The receipts of one action's events. */
  ghost predicate Chapter(ss: seq<Receipt>, w: Ledger, key: Pubkey, a: Agreement, signer: Pubkey, action: Action,
                          c: Change)
  {
    var fs := Facts(c.events);
    && |ss| == |fs|
    && (forall i :: 0 <= i < |ss| ==> ss[i].fact == fs[i] && ss[i].kind == KindOf(fs[i].previousState, fs[i].newState))
    && Told(fs, w, key, a, signer, action, c)
    && KeepsTerms(a, c.agreement)
  }

  /** The receipts of an action hold at most one transition, the last of them, from one state to the next. */
  ghost predicate OneMove(ss: seq<Receipt>, from: AgreementState, to: AgreementState) {
    && ss != []
    && (forall i :: 0 <= i < |ss| - 1 ==> ss[i].kind == Annotation)
    && (ss[|ss| - 1].kind == Transition <==> from != to)
    && (from != to ==>
          && ss[|ss| - 1].fact.previousState == Some(from) && ss[|ss| - 1].fact.newState == to
          && Rank(from) < Rank(to))
  }

  /** Each receipt of a chapter fits, and its kind is the one its states give. */
  lemma ReceiptsFit(ss: seq<Receipt>, w: Ledger, key: Pubkey, a: Agreement, signer: Pubkey, action: Action, c: Change)
    requires Chapter(ss, w, key, a, signer, action, c)
    ensures forall r :: r in ss ==>
              Fits(r.fact, w, key, a, c.agreement) && r.kind == KindOf(r.fact.previousState, r.fact.newState)
  {
    hide Fits, EvidenceStory, ScheduleStory, StandingStory, MoneyStory, KeepsTerms, FactOf;
    forall r | r in ss
      ensures Fits(r.fact, w, key, a, c.agreement) && r.kind == KindOf(r.fact.previousState, r.fact.newState)
    {
      var i :| 0 <= i < |ss| && ss[i] == r;
    }
  }

  /** What there is in a chapter to tell. */
  lemma ChapterParts(ss: seq<Receipt>, w: Ledger, key: Pubkey, a: Agreement, signer: Pubkey, action: Action, c: Change)
    returns (fs: seq<Fact>)
    requires Chapter(ss, w, key, a, signer, action, c)
    ensures fs == Facts(c.events) && |ss| == |fs| && ss != []
    ensures forall i :: 0 <= i < |ss| ==>
              ss[i].fact == fs[i] && ss[i].kind == KindOf(fs[i].previousState, fs[i].newState)
    ensures MoneyStory(fs, a, c.agreement) && EvidenceStory(fs, key, a, signer, action, c)
    ensures ScheduleStory(fs, w, key, a, action, c) && StandingStory(fs, w, a, action, c)
  {
    fs := Facts(c.events);
    assert MoneyStory(fs, a, c.agreement);
    hide EvidenceStory, ScheduleStory, StandingStory, Fits, KeepsTerms, FactOf, IsMove, AmountPaid;
  }

  lemma ChapterMovesOnce(ss: seq<Receipt>, w: Ledger, key: Pubkey, a: Agreement, signer: Pubkey, action: Action,
                         c: Change)
    requires Chapter(ss, w, key, a, signer, action, c)
    ensures OneMove(ss, a.state, c.agreement.state)
  {
    hide EvidenceStory, ScheduleStory, StandingStory, StandsApproved, AmountPaid;
    var last := ss[|ss| - 1];
    assert Fits(last.fact, w, key, a, c.agreement);
  }

  lemma MovesContinue(rs: seq<Receipt>, ss: seq<Receipt>, from: AgreementState, to: AgreementState)
    requires MovesTell(Select(rs, Transition), from) && OneMove(ss, from, to)
    ensures MovesTell(Select(rs + ss, Transition), to)
  {
    var moves := Select(rs, Transition);
    var front, last := ss[..|ss| - 1], ss[|ss| - 1];
    SelectNone(front, Transition);
    SelectOfJoin(rs, ss, Transition);
    assert Select(ss, Transition) == if from == to then [] else [last];
    hide Select;
    if from == to {
      assert Select(rs + ss, Transition) == moves;
    } else {
      MoreMoves(moves, from, last);
    }
  }

  lemma MoreMoves(moves: seq<Receipt>, from: AgreementState, last: Receipt)
    requires MovesTell(moves, from) && last.fact.previousState == Some(from) && Rank(from) < Rank(last.fact.newState)
    ensures MovesTell(moves + [last], last.fact.newState)
  {
    hide Rank;
    forall i | 0 <= i < |moves| ensures Rank(moves[i].fact.newState) < Rank(last.fact.newState) {
      assert i < |moves| - 1 ==> Rank(moves[i].fact.newState) < Rank(moves[|moves| - 1].fact.newState);
    }
  }

  lemma PaidByLast(ss: seq<Receipt>)
    requires ss != [] && forall i :: 0 <= i < |ss| - 1 ==> !IsPayment(ss[i].fact.action)
    ensures Paid(ss) == if IsPayment(ss[|ss| - 1].fact.action) then OrZero(ss[|ss| - 1].fact.amount) else 0
  {
    var rest := ss[..|ss| - 1];
    PaidOutExactlyWhen(rest, SETTLEMENT_EXECUTED);
    PaidOutExactlyWhen(rest, REFUND_EXECUTED);
  }

  lemma PaidInChapter(ss: seq<Receipt>, fs: seq<Fact>, a: Agreement, b: Agreement)
    requires |ss| == |fs| && (forall i :: 0 <= i < |ss| ==> ss[i].fact == fs[i]) && MoneyStory(fs, a, b)
    ensures Paid(ss) == b.settledTotal - a.settledTotal
  {
    hide Paid, IsMove;
    PaidByLast(ss);
  }

  lemma PaidOfJoin(rs: seq<Receipt>, ss: seq<Receipt>)
    ensures Paid(rs + ss) == Paid(rs) + Paid(ss)
  {
    PaidOutOfJoin(rs, ss, SETTLEMENT_EXECUTED);
    PaidOutOfJoin(rs, ss, REFUND_EXECUTED);
  }

  /** What the receipts of an action say about money. */
  ghost predicate MoneyInChapter(ss: seq<Receipt>, a: Agreement, b: Agreement) {
    && Paid(ss) == b.settledTotal - a.settledTotal
    && (HasAction(ss, AGREEMENT_FUNDED) <==> a.state == Open && b.state == Funded)
    && (forall r :: r in ss && r.fact.action == AGREEMENT_FUNDED ==>
          && r.kind == Transition && r.fact.amount == Some(a.amount)
          && (IsMilestoneContract(a) ==> a.milestoneTotal == a.amount))
    && (forall r :: r in ss && r.fact.action == SETTLEMENT_EXECUTED ==>
          IsLive(a.state) && (r.kind == Transition ==> b.state == AgreementState.Settled))
    && (forall r :: r in ss && r.fact.action == REFUND_EXECUTED ==> r.kind == Transition && b.state == Refunded)
  }

  lemma ChapterMoney(ss: seq<Receipt>, w: Ledger, key: Pubkey, a: Agreement, signer: Pubkey, action: Action, c: Change)
    requires Chapter(ss, w, key, a, signer, action, c)
    ensures MoneyInChapter(ss, a, c.agreement)
  {
    var fs := ChapterParts(ss, w, key, a, signer, action, c);
    ReceiptsFit(ss, w, key, a, signer, action, c);
    hide Chapter, Paid, Fits, MoneyStory, EvidenceStory, ScheduleStory, StandingStory, MoneyInChapter;
    PaidInChapter(ss, fs, a, c.agreement);
    MoneyOfFits(ss, fs, w, key, a, c.agreement);
  }

  lemma MoneyOfFits(ss: seq<Receipt>, fs: seq<Fact>, w: Ledger, key: Pubkey, a: Agreement, b: Agreement)
    requires |ss| == |fs| && ss != [] && forall i :: 0 <= i < |ss| ==> ss[i].fact == fs[i]
    requires forall r :: r in ss ==>
               Fits(r.fact, w, key, a, b) && r.kind == KindOf(r.fact.previousState, r.fact.newState)
    requires MoneyStory(fs, a, b) && Paid(ss) == b.settledTotal - a.settledTotal
    ensures MoneyInChapter(ss, a, b)
  {
    hide Paid, StandsApproved, AmountPaid;
    assert ss[|ss| - 1] in ss;
  }

  lemma MoneyContinues(rs: seq<Receipt>, ss: seq<Receipt>, a: Agreement, b: Agreement)
    requires MoneyTells(rs, a) && MoneyInChapter(ss, a, b) && KeepsTerms(a, b)
    requires b.state != Open ==> b.milestoneTotal == a.milestoneTotal
    requires b.state == Cancelled ==> a.state == Open || a.state == Cancelled
    requires a.state == Open ==> b.state == Open || b.state == Funded || b.state == Cancelled
    ensures MoneyTells(rs + ss, b)
  {
    PaidOfJoin(rs, ss);
    hide Paid;
    var both := rs + ss;
    assert forall r :: r in both <==> r in rs || r in ss;
    assert HasAction(both, AGREEMENT_FUNDED) <==> HasAction(rs, AGREEMENT_FUNDED) || HasAction(ss, AGREEMENT_FUNDED);
  }

  /** What the receipts of an action say about the payee: nothing, or in one receipt that there now is one. */
  ghost predicate PayeeInChapter(ss: seq<Receipt>, a: Agreement, b: Agreement) {
    && ss != []
    && (b.counterparty != a.counterparty ==> |ss| == 1 && ss[0].fact.action == COUNTERPARTY_ASSIGNED)
    && (forall i :: 0 <= i < |ss| && ss[i].fact.action == COUNTERPARTY_ASSIGNED ==>
          && |ss| == 1 && a.counterparty == Default && b.counterparty != Default
          && ss[i].kind == Annotation && ss[i].fact.seller == b.counterparty)
  }

  lemma ChapterPayee(ss: seq<Receipt>, w: Ledger, key: Pubkey, a: Agreement, signer: Pubkey, action: Action, c: Change)
    requires Chapter(ss, w, key, a, signer, action, c)
    ensures PayeeInChapter(ss, a, c.agreement)
  {
    var fs := ChapterParts(ss, w, key, a, signer, action, c);
    ReceiptsFit(ss, w, key, a, signer, action, c);
    hide Chapter, EvidenceStory, ScheduleStory, StandingStory, StandsApproved, AmountPaid;
    forall i | 0 <= i < |ss| ensures Fits(ss[i].fact, w, key, a, c.agreement) {
      assert ss[i] in ss;
    }
  }

  lemma PayeeContinues(rs: seq<Receipt>, ss: seq<Receipt>, a: Agreement, b: Agreement)
    requires PayeeTells(rs, a) && rs != [] && PayeeInChapter(ss, a, b)
    ensures PayeeTells(rs + ss, b)
  {
    var both := rs + ss;
    assert forall i :: 0 <= i < |rs| ==> both[i] in rs;
    assert forall i :: |rs| <= i < |both| ==> both[i] == ss[i - |rs|];
    if !HasAction(both, COUNTERPARTY_ASSIGNED) {
      assert ss[0] in both;
      assert forall r :: r in rs ==> r in both;
    }
  }

  // ---- Evidence ----

  /** The one receipt of an action that concerns evidence. */
  ghost predicate EvidenceInChapter(ss: seq<Receipt>, w: Ledger, v: Ledger, key: Pubkey) {
    && (forall r :: r in ss && r.fact.action == PROOF_SUBMITTED ==> TellsSubmission(r, v, key))
    && (forall r :: r in ss && Reconstruction.IsDecision(r) ==>
          && TellsDecision(r, v, key) && r.fact.proof.value in w.proofs
          && w.proofs[r.fact.proof.value].status == ProofStatus.Submitted)
    && (forall i: nat :: HasProof(v, key, i) && !HasProof(w, key, i) ==>
          exists r :: r in ss && SubmitsProof(r, ProofPda(key, i)))
    && (forall i: nat :: HasProof(v, key, i) && v.proofs[ProofPda(key, i)].status != ProofStatus.Submitted
                         && !(HasProof(w, key, i) && w.proofs[ProofPda(key, i)].status != ProofStatus.Submitted) ==>
          exists r :: r in ss && DecidesProof(r, ProofPda(key, i)))
    && (forall i, j :: 0 <= i < j < |ss| && Reconstruction.IsDecision(ss[i]) ==> !Reconstruction.IsDecision(ss[j]))
    && (forall r :: r in ss && r.fact.action == SETTLEMENT_EXECUTED && r.fact.proof.Some? ==>
          StandsApproved(w, key, r.fact.proof.value))
  }

  /** Proof accounts never change hands or index, and decided ones never change at all. */
  ghost predicate ProofsKept(w: Ledger, v: Ledger) {
    forall p :: p in w.proofs ==>
      && p in v.proofs && v.proofs[p].agreement == w.proofs[p].agreement && v.proofs[p].index == w.proofs[p].index
      && v.proofs[p].submitter == w.proofs[p].submitter
      && (w.proofs[p].status != ProofStatus.Submitted ==> v.proofs[p] == w.proofs[p])
  }

  lemma ActionKeepsProofs(w: Ledger, key: Pubkey, a: Agreement, signer: Pubkey, action: Action, c: Change)
    requires EvidenceEffect(w, key, a, signer, action, c) && EvidenceSound(w, key, a)
    ensures ProofsKept(w, Commit(w, key, c).ledger)
  {
    assert !HasProof(w, key, a.proofCount);
    hide EvidenceSound, ProofSound, CoreProofAddress, IsParty, IsLive;
  }

  lemma SubmissionChapter(ss: seq<Receipt>, w: Ledger, key: Pubkey, a: Agreement, signer: Pubkey, action: Action,
                          c: Change)
    requires action.SubmitProof? && |ss| == 1 && ss[0].kind == Annotation
    requires ss[0].fact.action == PROOF_SUBMITTED && ss[0].fact.actor == signer
    requires ss[0].fact.proof == Some(ProofPda(key, a.proofCount)) && ss[0].fact.proofIndex == Some(a.proofCount)
    requires EvidenceEffect(w, key, a, signer, action, c) && !HasProof(w, key, a.proofCount)
    ensures EvidenceInChapter(ss, w, Commit(w, key, c).ledger, key)
  {
    hide CoreProofAddress, IsParty, IsLive, StandsApproved;
    assert ss[0] in ss;
  }

  lemma DecisionChapter(ss: seq<Receipt>, w: Ledger, key: Pubkey, a: Agreement, signer: Pubkey, action: Action,
                        c: Change)
    requires KernelEvidence.IsDecision(action) && |ss| == 1 && ss[0].kind == Annotation
    requires ss[0].fact.action == (if action.ApproveProof? then PROOF_APPROVED else PROOF_REJECTED)
    requires ss[0].fact.actor == signer && ss[0].fact.proof == Some(action.proof)
    requires EvidenceEffect(w, key, a, signer, action, c)
    ensures EvidenceInChapter(ss, w, Commit(w, key, c).ledger, key)
  {
    DecisionIsTold(ss[0], w, key, a, signer, action, c);
    hide EvidenceEffect, Commit;
    OneDecisionTold(ss[0], w, Commit(w, key, c).ledger, key, action.proof);
    assert ss == [ss[0]];
  }

  /** A chapter that is one decision. */
  lemma OneDecisionTold(r: Receipt, w: Ledger, v: Ledger, key: Pubkey, proof: Pubkey)
    requires Reconstruction.IsDecision(r) && TellsDecision(r, v, key) && r.fact.proof == Some(proof)
    requires proof in w.proofs && w.proofs[proof].status == ProofStatus.Submitted
    requires v.proofs.Keys == w.proofs.Keys && forall p :: p in w.proofs && p != proof ==> v.proofs[p] == w.proofs[p]
    ensures EvidenceInChapter([r], w, v, key)
  {
    hide TellsDecision, StandsApproved;
    assert forall x :: x in [r] ==> x == r;
    assert r in [r];
  }

  /** A decision is told of its own proof, and decides that proof alone. */
  lemma DecisionIsTold(r: Receipt, w: Ledger, key: Pubkey, a: Agreement, signer: Pubkey, action: Action, c: Change)
    requires KernelEvidence.IsDecision(action) && r.kind == Annotation
    requires r.fact.action == (if action.ApproveProof? then PROOF_APPROVED else PROOF_REJECTED)
    requires r.fact.actor == signer && r.fact.proof == Some(action.proof)
    requires EvidenceEffect(w, key, a, signer, action, c)
    ensures
      var v := Commit(w, key, c).ledger;
      && TellsDecision(r, v, key) && action.proof in w.proofs
      && w.proofs[action.proof].status == ProofStatus.Submitted
      && v.proofs.Keys == w.proofs.Keys && forall p :: p in w.proofs && p != action.proof ==> v.proofs[p] == w.proofs[p]
  {
    hide IsParty, IsLive;
  }

  lemma OtherChapter(ss: seq<Receipt>, w: Ledger, key: Pubkey, a: Agreement, signer: Pubkey, action: Action, c: Change)
    requires !action.SubmitProof? && !KernelEvidence.IsDecision(action)
    requires forall r :: r in ss ==> !IsEvidence(r.fact.action)
    requires forall r :: r in ss && r.fact.action == SETTLEMENT_EXECUTED && r.fact.proof.Some? ==>
               StandsApproved(w, key, r.fact.proof.value)
    requires EvidenceEffect(w, key, a, signer, action, c)
    ensures EvidenceInChapter(ss, w, Commit(w, key, c).ledger, key)
  {
    hide StandsApproved;
  }

  lemma EvidenceMovesNothing(e: Event)
    ensures IsEvidence(FactOf(e).action) ==> KindOf(FactOf(e).previousState, FactOf(e).newState) == Annotation
  {
  }

  lemma EvidenceIsNoted(events: seq<Event>)
    ensures
      var fs := Facts(events);
      forall i :: 0 <= i < |fs| && IsEvidence(fs[i].action) ==>
          KindOf(fs[i].previousState, fs[i].newState) == Annotation
  {
    hide IsEvidence, FactOf, KindOf;
    forall i | 0 <= i < |events|
      ensures IsEvidence(FactOf(events[i]).action) ==>
                KindOf(FactOf(events[i]).previousState, FactOf(events[i]).newState) == Annotation
    {
      EvidenceMovesNothing(events[i]);
    }
  }

  lemma NextProofIsFree(w: Ledger, key: Pubkey, a: Agreement)
    requires EvidenceSound(w, key, a)
    ensures !HasProof(w, key, a.proofCount)
  {
    hide HasProof, ProofSound;
  }

  lemma ChapterEvidence(ss: seq<Receipt>, w: Ledger, key: Pubkey, a: Agreement, signer: Pubkey, action: Action,
                        c: Change)
    requires Chapter(ss, w, key, a, signer, action, c)
    requires EvidenceEffect(w, key, a, signer, action, c) && EvidenceSound(w, key, a)
    ensures EvidenceInChapter(ss, w, Commit(w, key, c).ledger, key)
  {
    hide Chapter, EvidenceSound, EvidenceEffect, EvidenceInChapter, ScheduleStory, StandingStory, StandsApproved;
    hide AmountPaid, Commit, HasProof;
    NextProofIsFree(w, key, a);
    var fs := ChapterParts(ss, w, key, a, signer, action, c);
    ReceiptsFit(ss, w, key, a, signer, action, c);
    EvidenceIsNoted(c.events);
    hide Facts, MoneyStory, KindOf;
    if action.SubmitProof? {
      SubmissionChapter(ss, w, key, a, signer, action, c);
    } else if KernelEvidence.IsDecision(action) {
      DecisionChapter(ss, w, key, a, signer, action, c);
    } else {
      OtherChapter(ss, w, key, a, signer, action, c);
    }
  }

  lemma DecisionsContinue(rs: seq<Receipt>, ss: seq<Receipt>, w: Ledger, v: Ledger, key: Pubkey, i: nat)
    requires ProofsTell(rs, w, key) && EvidenceInChapter(ss, w, v, key) && HasProof(v, key, i)
    ensures exists r :: r in rs + ss && SubmitsProof(r, ProofPda(key, i))
    ensures v.proofs[ProofPda(key, i)].status != ProofStatus.Submitted ==>
              exists r :: r in rs + ss && DecidesProof(r, ProofPda(key, i))
  {
    hide TellsSubmission, TellsDecision, StandsApproved, Reconstruction.IsDecision;
    if HasProof(w, key, i) {
      var r :| r in rs && SubmitsProof(r, ProofPda(key, i));
      assert r in rs + ss;
    } else {
      var r :| r in ss && SubmitsProof(r, ProofPda(key, i));
      assert r in rs + ss;
    }
    if v.proofs[ProofPda(key, i)].status != ProofStatus.Submitted {
      if HasProof(w, key, i) && w.proofs[ProofPda(key, i)].status != ProofStatus.Submitted {
        var r :| r in rs && DecidesProof(r, ProofPda(key, i));
        assert r in rs + ss;
      } else {
        var r :| r in ss && DecidesProof(r, ProofPda(key, i));
        assert r in rs + ss;
      }
    }
  }

  /** A second decision about the same proof would find it decided. */
  lemma NoSecondDecision(rs: seq<Receipt>, ss: seq<Receipt>, w: Ledger, v: Ledger, key: Pubkey, i: int, j: int)
    requires ProofsTell(rs, w, key) && EvidenceInChapter(ss, w, v, key)
    requires 0 <= i < j < |rs + ss| && Reconstruction.IsDecision((rs + ss)[i])
             && Reconstruction.IsDecision((rs + ss)[j])
    ensures (rs + ss)[i].fact.proof != (rs + ss)[j].fact.proof
  {
    hide StandsApproved, SubmitsProof, DecidesProof;
    var both := rs + ss;
    assert forall k :: 0 <= k < |ss| ==> both[|rs| + k] == ss[k];
    if j < |rs| {
      assert both[i] == rs[i] && both[j] == rs[j];
    } else {
      assert both[j] in ss;
      if i < |rs| {
        assert both[i] == rs[i] && rs[i] in rs;
      }
    }
  }

  lemma StillTold(r: Receipt, w: Ledger, v: Ledger, key: Pubkey)
    requires ProofsKept(w, v)
    ensures TellsSubmission(r, w, key) ==> TellsSubmission(r, v, key)
    ensures TellsDecision(r, w, key) ==> TellsDecision(r, v, key)
    ensures r.fact.proof.Some? && StandsApproved(w, key, r.fact.proof.value) ==>
              StandsApproved(v, key, r.fact.proof.value)
  {
  }

  lemma ProofsContinue(rs: seq<Receipt>, ss: seq<Receipt>, w: Ledger, v: Ledger, key: Pubkey)
    requires ProofsTell(rs, w, key) && EvidenceInChapter(ss, w, v, key) && ProofsKept(w, v)
    ensures ProofsTell(rs + ss, v, key)
  {
    var both := rs + ss;
    forall i: nat | HasProof(v, key, i)
      ensures exists r :: r in both && SubmitsProof(r, ProofPda(key, i))
      ensures v.proofs[ProofPda(key, i)].status != ProofStatus.Submitted ==>
                exists r :: r in both && DecidesProof(r, ProofPda(key, i))
    {
      DecisionsContinue(rs, ss, w, v, key, i);
    }
    forall i, j | 0 <= i < j < |both| && Reconstruction.IsDecision(both[i]) && Reconstruction.IsDecision(both[j])
      ensures both[i].fact.proof != both[j].fact.proof
    {
      NoSecondDecision(rs, ss, w, v, key, i, j);
    }
    forall r | r in both
      ensures r.fact.action == PROOF_SUBMITTED ==> TellsSubmission(r, v, key)
      ensures Reconstruction.IsDecision(r) ==> TellsDecision(r, v, key)
      ensures r.fact.action == SETTLEMENT_EXECUTED && r.fact.proof.Some? ==> StandsApproved(v, key, r.fact.proof.value)
    {
      hide TellsSubmission, TellsDecision, StandsApproved, SubmitsProof, DecidesProof, ProofsKept;
      hide Reconstruction.IsDecision;
      StillTold(r, w, v, key);
    }
  }

  // ---- Milestones ----

  ghost predicate ScheduleInChapter(ss: seq<Receipt>, w: Ledger, v: Ledger, key: Pubkey) {
    && (forall r :: r in ss && r.fact.milestone.Some? ==> TellsTranche(r, v, key))
    && (forall r :: r in ss && r.fact.action == MILESTONE_CREATED ==> TellsCreation(r, v, key))
    && (forall i: nat :: HasTranche(v.milestones, key, i) ==> TrancheInChapter(ss, w, v, key, i))
  }

  ghost predicate TrancheInChapter(ss: seq<Receipt>, w: Ledger, v: Ledger, key: Pubkey, i: nat)
    requires HasTranche(v.milestones, key, i)
  {
    var m := MilestonePda(key, i);
    var quiet := forall r :: r in ss ==> !IsStepOf(r, m);
    && (!HasTranche(w.milestones, key, i) ==>
          && (exists r :: r in ss && CreatesMilestone(r, m)) && quiet
          && Tranche(v.milestones, key, i).state == Pending)
    && (HasTranche(w.milestones, key, i) && quiet ==>
          Tranche(v.milestones, key, i).state == Tranche(w.milestones, key, i).state)
    && (forall k :: 0 <= k < |ss| && IsStepOf(ss[k], m) ==>
          && k == 0 && Tranche(v.milestones, key, i).state == StateAfter(ss[k].fact.action))
    && (forall k :: 1 <= k < |ss| ==> !IsStepOf(ss[k], m))
  }

  ghost predicate TranchesKept(w: Ledger, v: Ledger) {
    forall m :: m in w.milestones ==>
      && m in v.milestones && v.milestones[m].index == w.milestones[m].index
      && v.milestones[m].amount == w.milestones[m].amount
  }

  lemma StepsAcross(rs: seq<Receipt>, ss: seq<Receipt>, k: int, m: Pubkey)
    requires LastStepAt(rs + ss, k, m)
    ensures k < |rs| ==> LastStepAt(rs, k, m) && forall r :: r in ss ==> !IsStepOf(r, m)
    ensures |rs| <= k ==> LastStepAt(ss, k - |rs|, m)
  {
    var both := rs + ss;
    forall j | 0 <= j < |ss| && k - |rs| < j ensures !IsStepOf(ss[j], m) {
      assert both[|rs| + j] == ss[j];
    }
    if k < |rs| {
      forall j | k < j < |rs| ensures !IsStepOf(rs[j], m) {
        assert both[j] == rs[j];
      }
    }
  }

  lemma TrancheContinues(rs: seq<Receipt>, ss: seq<Receipt>, w: Ledger, v: Ledger, key: Pubkey, i: nat)
    requires ScheduleTells(rs, w, key) && ScheduleInChapter(ss, w, v, key)
    requires HasTranche(v.milestones, key, i)
    ensures TrancheTells(rs + ss, v, key, i)
  {
    var both := rs + ss;
    var m := MilestonePda(key, i);
    assert TrancheInChapter(ss, w, v, key, i);
    assert forall r :: r in both <==> r in rs || r in ss;
    assert HasTranche(w.milestones, key, i) ==> TrancheTells(rs, w, key, i);
    assert !HasTranche(w.milestones, key, i) ==> forall r :: r in rs ==> !IsStepOf(r, m);
    hide ScheduleTells, ScheduleInChapter, StateAfter;
    if HasTranche(w.milestones, key, i) {
      var r :| r in rs && CreatesMilestone(r, m);
      assert r in both;
    } else {
      var r :| r in ss && CreatesMilestone(r, m);
      assert r in both;
    }
    forall k | LastStepAt(both, k, m)
      ensures Tranche(v.milestones, key, i).state == StateAfter(both[k].fact.action)
    {
      StepsAcross(rs, ss, k, m);
      if k < |rs| {
        assert both[k] == rs[k] && rs[k] in rs;
      } else {
        assert both[k] == ss[k - |rs|];
      }
    }
  }

  lemma ScheduleContinues(rs: seq<Receipt>, ss: seq<Receipt>, w: Ledger, v: Ledger, key: Pubkey)
    requires ScheduleTells(rs, w, key) && ScheduleInChapter(ss, w, v, key) && TranchesKept(w, v)
    ensures ScheduleTells(rs + ss, v, key)
  {
    forall i: nat | HasTranche(v.milestones, key, i) ensures TrancheTells(rs + ss, v, key, i) {
      TrancheContinues(rs, ss, w, v, key, i);
    }
    hide TrancheTells, TrancheInChapter;
    assert forall r :: r in rs + ss <==> r in rs || r in ss;
  }

  lemma CreationChapter(ss: seq<Receipt>, w: Ledger, key: Pubkey, a: Agreement, action: Action, c: Change)
    requires action.CreateMilestone? && |ss| == 1 && ss[0].kind == Annotation
    requires ScheduleStory([ss[0].fact], w, key, a, action, c)
    ensures ScheduleInChapter(ss, w, Commit(w, key, c).ledger, key) && TranchesKept(w, Commit(w, key, c).ledger)
  {
    CreationIsTold(ss[0], w, key, a, action, c);
    hide ScheduleStory, Commit;
    OneCreationTold(ss[0], w, Commit(w, key, c).ledger, key, a.milestoneCount);
    assert ss == [ss[0]];
  }

  /** A chapter that is one creation. */
  lemma OneCreationTold(r: Receipt, w: Ledger, v: Ledger, key: Pubkey, n: nat)
    requires TellsTranche(r, v, key) && TellsCreation(r, v, key) && r.fact.action == MILESTONE_CREATED
    requires r.fact.milestone == Some(MilestonePda(key, n)) && MilestonePda(key, n) !in w.milestones
    requires MilestonePda(key, n) in v.milestones && v.milestones[MilestonePda(key, n)].state == Pending
    requires v.milestones == w.milestones[MilestonePda(key, n) := v.milestones[MilestonePda(key, n)]]
    ensures ScheduleInChapter([r], w, v, key) && TranchesKept(w, v)
  {
    hide TellsTranche, TellsCreation;
    assert r in [r] && forall x :: x in [r] ==> x == r;
  }

  lemma CreationIsTold(r: Receipt, w: Ledger, key: Pubkey, a: Agreement, action: Action, c: Change)
    requires action.CreateMilestone? && r.kind == Annotation
    requires ScheduleStory([r.fact], w, key, a, action, c)
    ensures
      var v := Commit(w, key, c).ledger;
      var m := MilestonePda(key, a.milestoneCount);
      && TellsTranche(r, v, key) && TellsCreation(r, v, key) && r.fact.milestone == Some(m)
      && r.fact.action == MILESTONE_CREATED && m !in w.milestones && m in v.milestones
      && v.milestones[m].state == Pending
      && v.milestones == w.milestones[m := v.milestones[m]]
  {
    assert [r.fact][0] == r.fact;
  }

  lemma StepChapter(ss: seq<Receipt>, fs: seq<Fact>, w: Ledger, key: Pubkey, a: Agreement, action: Action, c: Change)
    requires TouchesMilestone(action) && !action.CreateMilestone? && ss != [] && ss[0].kind == Annotation
    requires |fs| == |ss| && forall i :: 0 <= i < |ss| ==> ss[i].fact == fs[i]
    requires ScheduleStory(fs, w, key, a, action, c)
    ensures ScheduleInChapter(ss, w, Commit(w, key, c).ledger, key) && TranchesKept(w, Commit(w, key, c).ledger)
  {
    assert ss[0] in ss;
  }

  lemma ChapterSchedule(ss: seq<Receipt>, w: Ledger, key: Pubkey, a: Agreement, signer: Pubkey, action: Action,
                        c: Change)
    requires Chapter(ss, w, key, a, signer, action, c)
    ensures ScheduleInChapter(ss, w, Commit(w, key, c).ledger, key) && TranchesKept(w, Commit(w, key, c).ledger)
  {
    hide EvidenceStory, StandingStory, KeepsTerms, StandsApproved, AmountPaid, ScheduleInChapter, TranchesKept;
    var fs := Facts(c.events);
    assert ss[0].fact == fs[0];
    if action.CreateMilestone? {
      assert [ss[0].fact] == fs;
      CreationChapter(ss, w, key, a, action, c);
    } else if TouchesMilestone(action) {
      StepChapter(ss, fs, w, key, a, action, c);
    } else {
      QuietChapter(ss, fs, w, key, a, action, c);
    }
  }

  lemma QuietChapter(ss: seq<Receipt>, fs: seq<Fact>, w: Ledger, key: Pubkey, a: Agreement, action: Action, c: Change)
    requires !TouchesMilestone(action)
    requires |fs| == |ss| && forall i :: 0 <= i < |ss| ==> ss[i].fact == fs[i]
    requires ScheduleStory(fs, w, key, a, action, c)
    ensures ScheduleInChapter(ss, w, Commit(w, key, c).ledger, key) && TranchesKept(w, Commit(w, key, c).ledger)
  {
  }

  // ---- Standing ----

  /** What the receipts of an action say about disputes. */
  ghost predicate DisputeInChapter(ss: seq<Receipt>, from: AgreementState, to: AgreementState) {
    && (forall i :: 0 <= i < |ss| && ss[i].fact.action == DISPUTE_OPENED ==>
          i == 0 && (from == Funded || from == Completed) && to == Disputed)
    && (forall i :: 0 <= i < |ss| && ss[i].fact.action == DISPUTE_RESOLVED ==>
          i == 0 && from == Disputed && to != Disputed)
    && (from != Disputed && to == Disputed ==> ss != [] && ss[0].fact.action == DISPUTE_OPENED)
    && (from == Disputed && to != Disputed ==> ss != [] && ss[0].fact.action == DISPUTE_RESOLVED)
    && (from == Disputed && to != Disputed ==> to == AgreementState.Settled || to == Refunded)
    && (IsTerminal(from) ==> to == from)
  }

  /** What they say about approvals. */
  ghost predicate ApprovalInChapter(ss: seq<Receipt>, v: Ledger, to: AgreementState) {
    && (forall r :: r in ss && r.fact.action == MILESTONE_APPROVED ==> StandsAt(r, v, false))
    && (forall r :: r in ss && r.fact.action == MILESTONE_SETTLED ==> StandsAt(r, v, true))
    && (HasAction(ss, MILESTONE_SETTLED) ==> HasAction(ss, SETTLEMENT_EXECUTED))
    && (HasAction(ss, SETTLEMENT_EXECUTED) ==> to == AgreementState.Settled || HasAction(ss, MILESTONE_SETTLED))
  }

  /** An approved tranche can only settle, and a settled one stays. */
  ghost predicate ApprovalsKept(w: Ledger, v: Ledger) {
    forall m :: m in w.milestones ==>
      && m in v.milestones
      && (w.milestones[m].state == MilestoneState.Settled ==> v.milestones[m].state == MilestoneState.Settled)
      && (w.milestones[m].state == MilestoneState.Approved ==>
            v.milestones[m].state == MilestoneState.Approved || v.milestones[m].state == MilestoneState.Settled)
  }

  lemma HasActionOfJoin(rs: seq<Receipt>, ss: seq<Receipt>, action: ReceiptAction)
    ensures HasAction(rs + ss, action) <==> HasAction(rs, action) || HasAction(ss, action)
  {
    assert forall r :: r in rs + ss <==> r in rs || r in ss;
  }

  lemma DisputeOrderContinues(rs: seq<Receipt>, ss: seq<Receipt>, from: AgreementState, to: AgreementState)
    requires DisputeTells(rs, from) && DisputeInChapter(ss, from, to)
    ensures
      var both := rs + ss;
      && (forall i, j :: 0 <= i < j < |both| && both[i].fact.action == DISPUTE_OPENED ==>
            both[j].fact.action != DISPUTE_OPENED)
      && (forall i, j :: 0 <= i < j < |both| && both[i].fact.action == DISPUTE_RESOLVED ==>
            !IsDispute(both[j].fact.action))
  {
    var both := rs + ss;
    assert forall i :: 0 <= i < |rs| ==> both[i] == rs[i] && rs[i] in rs;
    assert forall i :: |rs| <= i < |both| ==> both[i] == ss[i - |rs|];
  }

  lemma DisputesContinue(rs: seq<Receipt>, ss: seq<Receipt>, from: AgreementState, to: AgreementState)
    requires DisputeTells(rs, from) && DisputeInChapter(ss, from, to)
    ensures DisputeTells(rs + ss, to)
  {
    DisputeOrderContinues(rs, ss, from, to);
    HasActionOfJoin(rs, ss, DISPUTE_OPENED);
    HasActionOfJoin(rs, ss, DISPUTE_RESOLVED);
    assert ss != [] ==> ss[0] in ss;
    assert HasAction(ss, DISPUTE_OPENED) <==> ss != [] && ss[0].fact.action == DISPUTE_OPENED;
    assert HasAction(ss, DISPUTE_RESOLVED) <==> ss != [] && ss[0].fact.action == DISPUTE_RESOLVED;
    hide HasAction;
  }

  lemma ApprovalsContinue(rs: seq<Receipt>, ss: seq<Receipt>, w: Ledger, v: Ledger, from: AgreementState,
                          to: AgreementState)
    requires ApprovalsStand(rs, w, from) && ApprovalInChapter(ss, v, to) && ApprovalsKept(w, v)
    requires IsTerminal(from) ==> to == from
    ensures ApprovalsStand(rs + ss, v, to)
  {
    HasActionOfJoin(rs, ss, MILESTONE_SETTLED);
    HasActionOfJoin(rs, ss, SETTLEMENT_EXECUTED);
    assert forall r :: r in rs + ss <==> r in rs || r in ss;
    forall r, settled | StandsAt(r, w, settled) ensures StandsAt(r, v, settled) {
      assert r.fact.milestone.value in w.milestones;
    }
    hide HasAction, StandsAt, ApprovalsKept;
  }

  /** Payments are positive because a live agreement still owes something and a tranche is worth something. */
  lemma ChapterPaysSomething(ss: seq<Receipt>, w: Ledger, key: Pubkey, a: Agreement, signer: Pubkey, action: Action,
                             c: Change)
    requires Chapter(ss, w, key, a, signer, action, c)
    requires MoneySound(a) && MoneySound(c.agreement)
    requires action.SettleMilestone? ==> c.milestone.Some? && c.milestone.value.amount > 0
    ensures PaymentsPositive(ss)
  {
    var fs := Facts(c.events);
    assert |ss| == |fs| && forall i :: 0 <= i < |ss| ==> ss[i].fact == fs[i];
    FactsPaySomething(fs, w, key, a, signer, action, c);
    hide Chapter, Facts, IsPayment, MoneySound;
    forall r | r in ss && IsPayment(r.fact.action) ensures OrZero(r.fact.amount) > 0 {
      var i :| 0 <= i < |ss| && ss[i] == r;
    }
  }

  lemma FactsPaySomething(fs: seq<Fact>, w: Ledger, key: Pubkey, a: Agreement, signer: Pubkey, action: Action,
                          c: Change)
    requires Told(fs, w, key, a, signer, action, c) && KeepsTerms(a, c.agreement)
    requires MoneySound(a) && MoneySound(c.agreement)
    requires action.SettleMilestone? ==> c.milestone.Some? && c.milestone.value.amount > 0
    ensures forall i :: 0 <= i < |fs| && IsPayment(fs[i].action) ==> OrZero(fs[i].amount) > 0
  {
    hide StandsApproved, EvidenceStory, ScheduleStory;
    assert Fits(fs[|fs| - 1], w, key, a, c.agreement);
    assert |fs| == 2 ==> !IsPayment(fs[0].action);
  }

  lemma ChapterDisputes(ss: seq<Receipt>, w: Ledger, key: Pubkey, a: Agreement, signer: Pubkey, action: Action,
                        c: Change)
    requires Chapter(ss, w, key, a, signer, action, c)
    ensures DisputeInChapter(ss, a.state, c.agreement.state)
  {
    hide EvidenceStory, ScheduleStory, Fits;
    assert forall i :: 0 <= i < |ss| ==> ss[i].fact == Facts(c.events)[i];
  }

  /** The step an action reports is where its tranche now stands. */
  lemma StepStands(ss: seq<Receipt>, fs: seq<Fact>, w: Ledger, key: Pubkey, a: Agreement, action: Action, c: Change)
    requires |fs| == |ss| && (forall i :: 0 <= i < |ss| ==> ss[i].fact == fs[i])
    requires ScheduleStory(fs, w, key, a, action, c) && StandingStory(fs, w, a, action, c)
    ensures forall r :: r in ss && r.fact.action == MILESTONE_APPROVED ==> StandsAt(r, Commit(w, key, c).ledger, false)
    ensures forall r :: r in ss && r.fact.action == MILESTONE_SETTLED ==> StandsAt(r, Commit(w, key, c).ledger, true)
  {
  }

  lemma ChapterApprovals(ss: seq<Receipt>, w: Ledger, key: Pubkey, a: Agreement, signer: Pubkey, action: Action,
                         c: Change)
    requires Chapter(ss, w, key, a, signer, action, c)
    ensures ApprovalInChapter(ss, Commit(w, key, c).ledger, c.agreement.state)
  {
    var fs := Facts(c.events);
    assert forall i :: 0 <= i < |ss| ==> ss[i].fact == fs[i];
    StepStands(ss, fs, w, key, a, action, c);
    SettlementsOfChapter(ss, fs, w, key, a, action, c);
    hide Chapter, StandsAt, Commit, HasAction;
  }

  /** A tranche settles with a payment, and any other payment of a settlement ends the agreement. */
  lemma SettlementsOfChapter(ss: seq<Receipt>, fs: seq<Fact>, w: Ledger, key: Pubkey, a: Agreement, action: Action,
                             c: Change)
    requires |fs| == |ss| && (forall i :: 0 <= i < |ss| ==> ss[i].fact == fs[i])
    requires StandingStory(fs, w, a, action, c) && forall i :: 0 <= i < |fs| ==> Fits(fs[i], w, key, a, c.agreement)
    ensures HasAction(ss, MILESTONE_SETTLED) ==> HasAction(ss, SETTLEMENT_EXECUTED)
    ensures HasAction(ss, SETTLEMENT_EXECUTED) ==>
              c.agreement.state == AgreementState.Settled || HasAction(ss, MILESTONE_SETTLED)
  {
    hide StandsApproved;
    if action.SettleMilestone? {
      assert ss[0] in ss && ss[1] in ss;
    } else {
      assert !HasAction(ss, MILESTONE_SETTLED);
      forall r | r in ss && r.fact.action == SETTLEMENT_EXECUTED ensures c.agreement.state == AgreementState.Settled {
        var i :| 0 <= i < |ss| && ss[i] == r;
        assert Fits(fs[i], w, key, a, c.agreement) && IsMove(fs[i]);
      }
    }
  }

  lemma ChangeKeepsApprovals(w: Ledger, key: Pubkey, c: Change)
    requires c.milestone.Some? ==>
               var m := MilestonePda(key, c.milestone.value.index);
               m in w.milestones ==>
                 && w.milestones[m].state != MilestoneState.Settled
                 && (w.milestones[m].state == MilestoneState.Approved ==>
                       c.milestone.value.state == MilestoneState.Settled)
    ensures ApprovalsKept(w, Commit(w, key, c).ledger)
  {
  }

  lemma ChapterKeepsApprovals(ss: seq<Receipt>, w: Ledger, key: Pubkey, a: Agreement, signer: Pubkey, action: Action,
                              c: Change)
    requires Chapter(ss, w, key, a, signer, action, c)
    ensures ApprovalsKept(w, Commit(w, key, c).ledger)
  {
    hide EvidenceStory, MoneyStory, Fits, KeepsTerms, ApprovalsKept, Commit;
    ChangeKeepsApprovals(w, key, c);
  }

  lemma StandingContinues(rs: seq<Receipt>, ss: seq<Receipt>, w: Ledger, key: Pubkey, a: Agreement, signer: Pubkey,
                          action: Action, c: Change)
    requires Stands(rs, w, a.state) && Chapter(ss, w, key, a, signer, action, c)
    requires MoneySound(a) && MoneySound(c.agreement)
    requires action.SettleMilestone? ==> c.milestone.Some? && c.milestone.value.amount > 0
    ensures Stands(rs + ss, Commit(w, key, c).ledger, c.agreement.state)
  {
    ChapterPaysSomething(ss, w, key, a, signer, action, c);
    ChapterDisputes(ss, w, key, a, signer, action, c);
    ChapterApprovals(ss, w, key, a, signer, action, c);
    ChapterKeepsApprovals(ss, w, key, a, signer, action, c);
    assert IsTerminal(a.state) ==> c.agreement.state == a.state;
    hide Chapter, Commit, ApprovalsStand, ApprovalInChapter, ApprovalsKept, DisputeTells, DisputeInChapter, MoneySound;
    DisputesContinue(rs, ss, a.state, c.agreement.state);
    ApprovalsContinue(rs, ss, w, Commit(w, key, c).ledger, a.state, c.agreement.state);
    assert forall r :: r in rs + ss <==> r in rs || r in ss;
  }

  // ---- One step of a run ----

  /** Every proof account is at the address its own fields derive. */
  ghost predicate ProofsAtHome(w: Ledger) {
    forall p :: p in w.proofs ==> p == ProofPda(w.proofs[p].agreement, w.proofs[p].index)
  }

  lemma ActionKeepsHome(w: Ledger, key: Pubkey, a: Agreement, signer: Pubkey, action: Action, c: Change)
    requires ProofsAtHome(w) && EvidenceEffect(w, key, a, signer, action, c)
    ensures ProofsAtHome(Commit(w, key, c).ledger)
  {
    hide IsParty, IsLive, CoreProofAddress;
  }

  lemma StepKeepsHome(w: Ledger, t: Tick)
    requires ProofsAtHome(w)
    ensures ProofsAtHome(After(w, t))
  {
    hide *;
    if t.ix.OnAgreement? && Step(w, t.ix, t.now).Ok? {
      ActedStepCommits(w, t);
      var key := t.ix.agreement;
      var a := w.agreements[key];
      ActionEvidence(w, key, a, t.ix.signer, t.ix.action, t.now);
      ActionKeepsHome(w, key, a, t.ix.signer, t.ix.action, Act(w, key, a, t.ix.signer, t.ix.action, t.now).value);
    } else {
      OutsideStepsKeepProofs(w, t);
      HomeIsInProofs(w, After(w, t));
    }
  }

  lemma OutsideStepsKeepProofs(w: Ledger, t: Tick)
    requires !t.ix.OnAgreement? || Step(w, t.ix, t.now).Err?
    ensures After(w, t).proofs == w.proofs
  {
    hide Act;
  }

  lemma HomeIsInProofs(w: Ledger, v: Ledger)
    requires ProofsAtHome(w) && v.proofs == w.proofs
    ensures ProofsAtHome(v)
  {
  }

  lemma {:induction false} RunKeepsHome(start: Ledger, ticks: seq<Tick>)
    requires Genesis(start)
    ensures ProofsAtHome(Run(start, ticks))
  {
    if ticks != [] {
      RunKeepsHome(start, ticks[..|ticks| - 1]);
      StepKeepsHome(Run(start, ticks[..|ticks| - 1]), ticks[|ticks| - 1]);
    }
  }

  lemma ProofsTellLocally(rs: seq<Receipt>, w: Ledger, v: Ledger, key: Pubkey)
    requires SameAgreement(w, v, key) && ProofsAtHome(w) && ProofsTell(rs, w, key)
    ensures ProofsTell(rs, v, key)
  {
    forall i: nat ensures SameEntry(w.proofs, v.proofs, ProofPda(key, i)) {
    }
    forall r | r in rs
      ensures TellsSubmission(r, w, key) ==> TellsSubmission(r, v, key)
      ensures TellsDecision(r, w, key) ==> TellsDecision(r, v, key)
      ensures r.fact.proof.Some? && StandsApproved(w, key, r.fact.proof.value) ==>
                StandsApproved(v, key, r.fact.proof.value)
    {
      if r.fact.proof.Some? && r.fact.proof.value in w.proofs {
        assert SameEntry(w.proofs, v.proofs, ProofPda(key, w.proofs[r.fact.proof.value].index));
      }
    }
    hide TellsSubmission, TellsDecision, StandsApproved, SubmitsProof, DecidesProof;
    hide Reconstruction.IsDecision, SameAgreement;
    forall i: nat ensures HasProof(w, key, i) == HasProof(v, key, i) {
      assert SameEntry(w.proofs, v.proofs, ProofPda(key, i));
    }
  }

  lemma ScheduleTellsLocally(rs: seq<Receipt>, w: Ledger, v: Ledger, key: Pubkey)
    requires SameAgreement(w, v, key) && ScheduleTells(rs, w, key)
    ensures ScheduleTells(rs, v, key)
  {
    forall r | r in rs
      ensures TellsTranche(r, w, key) ==> TellsTranche(r, v, key)
      ensures TellsCreation(r, w, key) ==> TellsCreation(r, v, key)
    {
      if r.fact.milestone.Some? && r.fact.milestone.value in w.milestones {
        assert SameEntry(w.milestones, v.milestones, MilestonePda(key, w.milestones[r.fact.milestone.value].index));
      }
    }
    hide TellsCreation, TellsTranche;
    forall i: nat | HasTranche(v.milestones, key, i) ensures TrancheTells(rs, v, key, i) {
      assert SameEntry(w.milestones, v.milestones, MilestonePda(key, i));
      assert TrancheTells(rs, w, key, i);
    }
  }

  lemma StandsLocally(rs: seq<Receipt>, w: Ledger, v: Ledger, key: Pubkey, state: AgreementState)
    requires SameAgreement(w, v, key) && ScheduleTells(rs, w, key) && Stands(rs, w, state)
    ensures Stands(rs, v, state)
  {
    hide TellsCreation, TrancheTells, DisputeTells, PaymentsPositive;
    forall r, settled | r in rs && StandsAt(r, w, settled) ensures StandsAt(r, v, settled) {
      assert TellsTranche(r, w, key);
      assert SameEntry(w.milestones, v.milestones, MilestonePda(key, w.milestones[r.fact.milestone.value].index));
    }
  }

  lemma TellsLocally(rs: seq<Receipt>, w: Ledger, v: Ledger, key: Pubkey)
    requires SameAgreement(w, v, key) && ProofsAtHome(w) && Tells(rs, w, key)
    ensures Tells(rs, v, key)
  {
    if key in w.agreements {
      ProofsTellLocally(rs, w, v, key);
      ScheduleTellsLocally(rs, w, v, key);
      StandsLocally(rs, w, v, key, w.agreements[key].state);
    }
    hide ProofsTell, ScheduleTells, PayeeTells, MoneyTells, MovesTell, OpeningTells, Stands;
  }

  lemma ChapterFrame(rs: seq<Receipt>, ss: seq<Receipt>, w: Ledger, key: Pubkey, a: Agreement, signer: Pubkey,
                     action: Action, c: Change)
    requires rs != [] && OpeningTells(rs[0], key, a) && Chapter(ss, w, key, a, signer, action, c)
    requires forall i :: 0 < i < |rs| ==> rs[i].fact.previousState.Some?
    requires forall r :: r in rs ==> r.fact.agreement == key
    ensures
      var b := c.agreement;
      && OpeningTells((rs + ss)[0], key, b)
      && (forall i :: 0 < i < |rs + ss| ==> (rs + ss)[i].fact.previousState.Some?)
      && (forall r :: r in rs + ss ==> r.fact.agreement == key)
      && KeepsTerms(a, b)
      && (b.state != Open ==> b.milestoneTotal == a.milestoneTotal)
      && (b.state == Cancelled ==> a.state == Open || a.state == Cancelled)
      && (a.state == Open ==> b.state == Open || b.state == Funded || b.state == Cancelled)
  {
    hide EvidenceStory, ScheduleStory, StandingStory, StandsApproved, AmountPaid;
    forall i | 0 <= i < |ss| ensures ss[i].fact.previousState.Some? && ss[i].fact.agreement == key {
      assert Fits(Facts(c.events)[i], w, key, a, c.agreement);
    }
    assert forall r :: r in rs + ss <==> r in rs || r in ss;
  }

  lemma BooksContinue(rs: seq<Receipt>, ss: seq<Receipt>, w: Ledger, key: Pubkey, a: Agreement, signer: Pubkey,
                      action: Action, c: Change)
    requires rs != [] && OpeningTells(rs[0], key, a) && Chapter(ss, w, key, a, signer, action, c)
    requires forall i :: 0 < i < |rs| ==> rs[i].fact.previousState.Some?
    requires forall r :: r in rs ==> r.fact.agreement == key
    requires MovesTell(Select(rs, Transition), a.state) && MoneyTells(rs, a) && PayeeTells(rs, a)
    ensures MovesTell(Select(rs + ss, Transition), c.agreement.state)
    ensures MoneyTells(rs + ss, c.agreement) && PayeeTells(rs + ss, c.agreement)
  {
    ChapterMovesOnce(ss, w, key, a, signer, action, c);
    ChapterMoney(ss, w, key, a, signer, action, c);
    ChapterPayee(ss, w, key, a, signer, action, c);
    ChapterFrame(rs, ss, w, key, a, signer, action, c);
    hide Chapter, OneMove, MoneyInChapter, PayeeInChapter, MovesTell, MoneyTells, PayeeTells, OpeningTells;
    MovesContinue(rs, ss, a.state, c.agreement.state);
    MoneyContinues(rs, ss, a, c.agreement);
    PayeeContinues(rs, ss, a, c.agreement);
  }

  lemma RecordsContinue(rs: seq<Receipt>, ss: seq<Receipt>, w: Ledger, key: Pubkey, a: Agreement, signer: Pubkey,
                        action: Action, c: Change)
    requires Chapter(ss, w, key, a, signer, action, c)
    requires EvidenceSound(w, key, a) && EvidenceEffect(w, key, a, signer, action, c)
    requires ProofsTell(rs, w, key) && ScheduleTells(rs, w, key)
    ensures ProofsTell(rs + ss, Commit(w, key, c).ledger, key) && ScheduleTells(rs + ss, Commit(w, key, c).ledger, key)
  {
    hide Chapter, EvidenceEffect, EvidenceSound, EvidenceInChapter, ScheduleInChapter, TranchesKept, ProofsKept;
    hide ProofsTell, ScheduleTells, Commit;
    var v := Commit(w, key, c).ledger;
    ChapterEvidence(ss, w, key, a, signer, action, c);
    ChapterSchedule(ss, w, key, a, signer, action, c);
    ActionKeepsProofs(w, key, a, signer, action, c);
    ProofsContinue(rs, ss, w, v, key);
    ScheduleContinues(rs, ss, w, v, key);
  }

  /** A committed action leaves the account and its receipts agreeing. */
  lemma ActionContinues(rs: seq<Receipt>, ss: seq<Receipt>, w: Ledger, key: Pubkey, a: Agreement, signer: Pubkey,
                        action: Action, c: Change)
    requires key in w.agreements && w.agreements[key] == a && Tells(rs, w, key)
    requires EvidenceSound(w, key, a) && EvidenceEffect(w, key, a, signer, action, c)
    requires Chapter(ss, w, key, a, signer, action, c)
    requires MoneySound(a) && MoneySound(c.agreement)
    requires action.SettleMilestone? ==> c.milestone.Some? && c.milestone.value.amount > 0
    ensures Tells(rs + ss, Commit(w, key, c).ledger, key)
  {
    hide Chapter, EvidenceEffect, EvidenceSound, MovesTell, MoneyTells, PayeeTells, ProofsTell;
    hide ScheduleTells, OpeningTells;
    hide Stands, MoneySound;
    assert Commit(w, key, c).ledger.agreements[key] == c.agreement;
    ChapterFrame(rs, ss, w, key, a, signer, action, c);
    BooksContinue(rs, ss, w, key, a, signer, action, c);
    RecordsContinue(rs, ss, w, key, a, signer, action, c);
    StandingContinues(rs, ss, w, key, a, signer, action, c);
  }

  /** A fresh account, and the one receipt there is about it. */
  ghost predicate Opened(r: Receipt, v: Ledger, key: Pubkey) {
    && key in v.agreements && OpeningTells(r, key, v.agreements[key])
    && v.agreements[key].state == Open && v.agreements[key].settledTotal == 0
    && r.fact.agreement == key && r.fact.seller == v.agreements[key].counterparty
    && r.fact.proof.None? && r.fact.milestone.None?
    && (forall i: nat :: !HasProof(v, key, i) && !HasTranche(v.milestones, key, i))
  }

  lemma OpenedMoney(r: Receipt, a: Agreement)
    requires r.fact.action == AGREEMENT_OPENED && a.state == Open && a.settledTotal == 0
    requires r.fact.seller == a.counterparty
    ensures MoneyTells([r], a) && PayeeTells([r], a)
  {
    PaidByLast([r]);
    assert forall x :: x in [r] ==> x == r;
  }

  lemma OpenedMoves(r: Receipt)
    requires r.kind == Transition && r.fact.previousState.None? && r.fact.newState == Open
    ensures MovesTell(Select([r], Transition), Open)
  {
    assert [r][..0] == [];
    assert Select([r], Transition) == [r];
  }

  lemma OpenedRecords(r: Receipt, v: Ledger, key: Pubkey)
    requires r.fact.action == AGREEMENT_OPENED && r.fact.milestone.None?
    requires forall i: nat :: !HasProof(v, key, i) && !HasTranche(v.milestones, key, i)
    ensures ProofsTell([r], v, key) && ScheduleTells([r], v, key)
  {
    assert forall x :: x in [r] ==> x == r;
  }

  lemma OpenedStands(r: Receipt, v: Ledger)
    requires r.fact.action == AGREEMENT_OPENED
    ensures Stands([r], v, Open)
  {
    assert forall x :: x in [r] ==> x == r;
  }

  lemma OpenedTells(r: Receipt, v: Ledger, key: Pubkey)
    requires Opened(r, v, key)
    ensures Tells([r], v, key)
  {
    OpenedMoney(r, v.agreements[key]);
    OpenedMoves(r);
    OpenedRecords(r, v, key);
    OpenedStands(r, v);
    hide MoneyTells, PayeeTells, MovesTell, ProofsTell, ScheduleTells, Select, Stands;
  }

  lemma OpeningStarts(r: Receipt, w: Ledger, ix: Instruction, now: int)
    requires ix.InitializeAgreement? && Step(w, ix, now).Ok? && AllEvidenceSound(w) && NoStrayMilestones(w)
    requires Stamped([r], Step(w, ix, now).value.events)
    ensures
      var key := AgreementPda(ix.signer, ix.agreementId);
      key !in w.agreements && Opened(r, Step(w, ix, now).value.ledger, key)
  {
    var key := AgreementPda(ix.signer, ix.agreementId);
    var v := Step(w, ix, now).value.ledger;
    assert [r][0].fact == FactOf(Step(w, ix, now).value.events[0]);
    assert v.proofs == w.proofs && v.milestones == w.milestones && key !in w.agreements;
    forall i: nat ensures !HasProof(v, key, i) && !HasTranche(v.milestones, key, i) {
      assert !HasProof(w, key, i) && !HasTranche(w.milestones, key, i);
    }
  }

  // ---- Events of a step, filtered by agreement ----

  lemma {:induction false} AllAbout(events: seq<Event>, key: Pubkey)
    requires forall e :: e in events ==> e.agreement == key
    ensures About(events, key) == events
  {
    if events != [] {
      AllAbout(events[1..], key);
      assert events == [events[0]] + events[1..];
    }
  }

  lemma {:induction false} NoneAbout(events: seq<Event>, key: Pubkey)
    requires forall e :: e in events ==> e.agreement != key
    ensures About(events, key) == []
  {
    if events != [] {
      NoneAbout(events[1..], key);
    }
  }

  /** A successful action commits what it decided. */
  lemma ActedStepCommits(w: Ledger, t: Tick)
    requires t.ix.OnAgreement? && Step(w, t.ix, t.now).Ok?
    ensures t.ix.agreement in w.agreements
    ensures Act(w, t.ix.agreement, w.agreements[t.ix.agreement], t.ix.signer, t.ix.action, t.now).Ok?
    ensures
      var c := Act(w, t.ix.agreement, w.agreements[t.ix.agreement], t.ix.signer, t.ix.action, t.now).value;
      && After(w, t) == Commit(w, t.ix.agreement, c).ledger && EventsOf(w, t) == c.events
  {
    hide Act;
  }

  lemma ActedStepContinues(rs: seq<Receipt>, ss: seq<Receipt>, w: Ledger, t: Tick)
    requires t.ix.OnAgreement? && Step(w, t.ix, t.now).Ok? && AllEvidenceSound(w) && AllBooksSound(w)
    requires Tells(rs, w, t.ix.agreement) && Stamped(ss, EventsOf(w, t))
    ensures Tells(rs + ss, After(w, t), t.ix.agreement)
  {
    ActedStepCommits(w, t);
    var key := t.ix.agreement;
    var a := w.agreements[key];
    var c := Act(w, key, a, t.ix.signer, t.ix.action, t.now).value;
    assert BooksSound(w.milestones, key, a) && EvidenceSound(w, key, a);
    hide Step, Act, Commit, Story, EvidenceEffect, EvidenceSound, Tells, BooksSound, MoneySound;
    hide After, EventsOf, Chapter;
    hide AllBooksSound, AllEvidenceSound;
    ActionStory(w, key, a, t.ix.signer, t.ix.action, t.now);
    ActionEvidence(w, key, a, t.ix.signer, t.ix.action, t.now);
    StoryMakesChapter(ss, w, key, a, t.ix.signer, t.ix.action, c);
    ActionKeepsBooks(w, key, t.ix.signer, t.ix.action, t.now);
    BooksGiveMoney(w, key, a, t.ix.signer, t.ix.action, c);
    ActionContinues(rs, ss, w, key, a, t.ix.signer, t.ix.action, c);
  }

  lemma BooksGiveMoney(w: Ledger, key: Pubkey, a: Agreement, signer: Pubkey, action: Action, c: Change)
    requires BooksSound(w.milestones, key, a) && BooksSound(Commit(w, key, c).ledger.milestones, key, c.agreement)
    requires Story(w, key, a, signer, action, c)
    ensures MoneySound(a) && MoneySound(c.agreement)
    ensures action.SettleMilestone? ==> c.milestone.Some? && c.milestone.value.amount > 0
  {
    hide MoneyStory, EvidenceStory, StandingStory, Fits, MoneySound, IdentitySound, Commit, Facts;
    if action.SettleMilestone? {
      var i := c.milestone.value.index;
      assert HasTranche(w.milestones, key, i);
      assert TrancheSound(w.milestones, key, i);
    }
  }

  lemma StoryMakesChapter(ss: seq<Receipt>, w: Ledger, key: Pubkey, a: Agreement, signer: Pubkey, action: Action,
                          c: Change)
    requires Story(w, key, a, signer, action, c) && KeepsTerms(a, c.agreement) && Stamped(ss, c.events)
    ensures Chapter(ss, w, key, a, signer, action, c)
  {
    hide Told, KeepsTerms, FactOf;
  }

  lemma StepContinues(rs: seq<Receipt>, ss: seq<Receipt>, w: Ledger, t: Tick, key: Pubkey)
    requires AllEvidenceSound(w) && NoStrayMilestones(w) && ProofsAtHome(w) && AllBooksSound(w)
    requires Tells(rs, w, key) && Stamped(ss, About(EventsOf(w, t), key))
    ensures Tells(rs + ss, After(w, t), key)
  {
    hide Step, Tells, AllEvidenceSound, NoStrayMilestones, ProofsAtHome, AllBooksSound;
    if Step(w, t.ix, t.now).Err? {
      assert rs + ss == rs;
    } else if KeyOf(t.ix) != Some(key) {
      OtherAgreementsUntouched(w, t.ix, t.now, key);
      EventsNameTheirAgreement(w, t.ix, t.now);
      NoneAbout(EventsOf(w, t), key);
      assert rs + ss == rs;
      TellsLocally(rs, w, After(w, t), key);
    } else {
      EventsNameTheirAgreement(w, t.ix, t.now);
      AllAbout(EventsOf(w, t), key);
      if t.ix.OnAgreement? {
        ActedStepContinues(rs, ss, w, t);
      } else {
        OpenedStepContinues(rs, ss, w, t, key);
      }
    }
  }

  lemma OpenedStepContinues(rs: seq<Receipt>, ss: seq<Receipt>, w: Ledger, t: Tick, key: Pubkey)
    requires AllEvidenceSound(w) && NoStrayMilestones(w)
    requires t.ix.InitializeAgreement? && key == AgreementPda(t.ix.signer, t.ix.agreementId) && Step(w, t.ix, t.now).Ok?
    requires Tells(rs, w, key) && Stamped(ss, EventsOf(w, t))
    ensures Tells(rs + ss, After(w, t), key)
  {
    OpensWithOneEvent(w, t);
    assert ss == [ss[0]];
    OpeningStarts(ss[0], w, t.ix, t.now);
    hide Step, Opened;
    OpenedTells(ss[0], After(w, t), key);
    assert rs + ss == ss;
  }

  lemma OpensWithOneEvent(w: Ledger, t: Tick)
    requires t.ix.InitializeAgreement? && Step(w, t.ix, t.now).Ok?
    ensures |EventsOf(w, t)| == 1
  {
  }

  lemma LastStepTells(rs: seq<Receipt>, before: seq<Event>, w: Ledger, t: Tick, key: Pubkey)
    requires AllEvidenceSound(w) && NoStrayMilestones(w) && ProofsAtHome(w) && AllBooksSound(w)
    requires Stamped(rs, before + About(EventsOf(w, t), key)) && |before| <= |rs|
    requires Tells(rs[..|before|], w, key)
    ensures Tells(rs, After(w, t), key)
  {
    hide Step, Tells, Stamped, AllEvidenceSound, NoStrayMilestones, ProofsAtHome, AllBooksSound, EventsOf, After;
    var n := |before|;
    StampedSplits(rs, before, About(EventsOf(w, t), key));
    StepContinues(rs[..n], rs[n..], w, t, key);
    assert rs[..n] + rs[n..] == rs;
  }

  /** Along every run, the receipts of an agreement's events say exactly what its account says. */
  lemma {:induction false} RunTells(start: Ledger, ticks: seq<Tick>, key: Pubkey, rs: seq<Receipt>)
    requires Genesis(start) && Stamped(rs, Trace(start, ticks, key))
    ensures Tells(rs, Run(start, ticks), key)
  {
    if ticks == [] {
      StartsEmpty(start, key);
    } else {
      hide Step, Genesis, After, EventsOf, About, Tells, AllEvidenceSound, AllBooksSound;
      hide NoStrayMilestones, ProofsAtHome;
      hide Stamped;
      var init, t := ticks[..|ticks| - 1], ticks[|ticks| - 1];
      var before := Trace(start, init, key);
      StampedSplits(rs, before, About(EventsOf(Run(start, init), t), key));
      RunTells(start, init, key, rs[..|before|]);
      RunKeepsEvidence(start, init);
      RunKeepsBooks(start, init);
      RunKeepsHome(start, init);
      LastStepTells(rs, before, Run(start, init), t, key);
    }
  }

  lemma StartsEmpty(start: Ledger, key: Pubkey)
    requires Genesis(start)
    ensures key !in start.agreements
  {
  }

  lemma StampedSplits(rs: seq<Receipt>, before: seq<Event>, after: seq<Event>)
    requires Stamped(rs, before + after)
    ensures |before| <= |rs|
    ensures Stamped(rs[..|before|], before) && Stamped(rs[|before|..], after)
  {
    hide FactOf;
  }
}
