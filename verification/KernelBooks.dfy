/**
 The books every agreement keeps: who it is, what it has paid, and how its
 milestone schedule accounts for what it has paid.
 */
module KernelBooks {
  import opened Wrappers
  import opened Keys
  import opened EscrowState
  import opened EscrowKernel
  import opened KernelFrames

  type Milestones = map<Pubkey, Milestone>

  // ---- Sums over the first n tranches of an agreement ----

  predicate HasTranche(ms: Milestones, key: Pubkey, i: nat) {
    MilestonePda(key, i) in ms
  }

  function Tranche(ms: Milestones, key: Pubkey, i: nat): Milestone
    requires HasTranche(ms, key, i)
  {
    ms[MilestonePda(key, i)]
  }

  predicate TrancheSound(ms: Milestones, key: Pubkey, i: nat) {
    && HasTranche(ms, key, i)
    && Tranche(ms, key, i).agreement == key
    && Tranche(ms, key, i).index == i
    && Tranche(ms, key, i).amount > 0
  }

  predicate IsSettledAt(ms: Milestones, key: Pubkey, i: nat) {
    HasTranche(ms, key, i) && Tranche(ms, key, i).state == MilestoneState.Settled
  }

  predicate IsPendingAt(ms: Milestones, key: Pubkey, i: nat) {
    HasTranche(ms, key, i) && Tranche(ms, key, i).state == Pending
  }

  function AmountAt(ms: Milestones, key: Pubkey, i: nat): nat {
    if HasTranche(ms, key, i) then Tranche(ms, key, i).amount else 0
  }

  /** The sum of all tranche amounts. */
  function Scheduled(ms: Milestones, key: Pubkey, n: nat): nat {
    if n == 0 then 0 else Scheduled(ms, key, n - 1) + AmountAt(ms, key, n - 1)
  }

  /** The sum over the tranches that have settled. */
  function SettledSum(ms: Milestones, key: Pubkey, n: nat): nat {
    if n == 0 then 0
    else SettledSum(ms, key, n - 1) + if IsSettledAt(ms, key, n - 1) then AmountAt(ms, key, n - 1) else 0
  }

  /** How many tranches have settled. */
  function SettledCount(ms: Milestones, key: Pubkey, n: nat): nat {
    if n == 0 then 0
    else SettledCount(ms, key, n - 1) + if IsSettledAt(ms, key, n - 1) then 1 else 0
  }

  lemma {:induction false} SumsAreLocal(ms: Milestones, ns: Milestones, key: Pubkey, n: nat)
    requires forall i: nat :: i < n ==> SameEntry(ms, ns, MilestonePda(key, i))
    ensures Scheduled(ms, key, n) == Scheduled(ns, key, n)
    ensures SettledSum(ms, key, n) == SettledSum(ns, key, n)
    ensures SettledCount(ms, key, n) == SettledCount(ns, key, n)
  {
    if n > 0 {
      SumsAreLocal(ms, ns, key, n - 1);
      assert SameEntry(ms, ns, MilestonePda(key, n - 1));
    }
  }

  /** Rewriting one tranche moves the settled sums by exactly that tranche when, and only when, it settles. */
  lemma {:induction false} RewriteTranche(ms: Milestones, key: Pubkey, n: nat, j: nat, m: Milestone)
    requires j < n && HasTranche(ms, key, j)
    requires m.amount == Tranche(ms, key, j).amount
    requires Tranche(ms, key, j).state != MilestoneState.Settled
    ensures
      var ns := ms[MilestonePda(key, j) := m];
      var settles := m.state == MilestoneState.Settled;
      && Scheduled(ns, key, n) == Scheduled(ms, key, n)
      && SettledSum(ns, key, n) == SettledSum(ms, key, n) + (if settles then m.amount else 0)
      && SettledCount(ns, key, n) == SettledCount(ms, key, n) + (if settles then 1 else 0)
  {
    var ns := ms[MilestonePda(key, j) := m];
    if j == n - 1 {
      SumsAreLocal(ms, ns, key, n - 1);
    } else {
      RewriteTranche(ms, key, n - 1, j, m);
    }
  }

  /** The counter and the money agree about being finished, given that every tranche is worth something. */
  lemma {:induction false} CountersAndMoney(ms: Milestones, key: Pubkey, n: nat)
    requires forall i: nat :: i < n ==> TrancheSound(ms, key, i)
    ensures SettledCount(ms, key, n) <= n
    ensures SettledSum(ms, key, n) <= Scheduled(ms, key, n)
    ensures SettledCount(ms, key, n) == n <==> SettledSum(ms, key, n) == Scheduled(ms, key, n)
  {
    if n > 0 {
      CountersAndMoney(ms, key, n - 1);
      assert TrancheSound(ms, key, n - 1);
    }
  }

  /** A tranche that has not settled is still covered by what is left. */
  lemma {:induction false} UnsettledIsCovered(ms: Milestones, key: Pubkey, n: nat, j: nat)
    requires forall i: nat :: i < n ==> TrancheSound(ms, key, i)
    requires j < n && !IsSettledAt(ms, key, j)
    ensures SettledSum(ms, key, n) + AmountAt(ms, key, j) <= Scheduled(ms, key, n)
    ensures SettledCount(ms, key, n) < n
  {
    CountersAndMoney(ms, key, n - 1);
    if j < n - 1 {
      UnsettledIsCovered(ms, key, n - 1, j);
    }
  }

  // ---- What is true of every agreement ----

  /** Who the agreement is: fixed at its address, with a payee unless it is an unclaimed bounty. */
  predicate IdentitySound(key: Pubkey, a: Agreement) {
    && key == AgreementPda(a.creator, a.agreementId)
    && CanSign(a.creator)
    && a.vault == VaultToken(key)
    && a.counterparty != a.creator
    && 0 < a.amount <= U64_MAX
    && (a.agreementType == Escrow || a.agreementType == MilestoneContract || a.agreementType == Bounty)
    && (!HasCounterparty(a) ==>
          a.agreementType == Bounty && (a.state == Open || a.state == Funded || a.state == Cancelled))
    && (IsMilestoneContract(a) ==> a.state != Completed)
  }

  /** What it has paid, given where it is in its life. */
  predicate MoneySound(a: Agreement) {
    && (a.state == Open || a.state == Cancelled ==> a.settledTotal == 0)
    && (a.state == AgreementState.Settled || a.state == Refunded ==> a.settledTotal == a.amount)
    && (IsLive(a.state) ==> a.settledTotal < a.amount)
    && (IsLive(a.state) && !IsMilestoneContract(a) ==> a.settledTotal == 0)
  }

  /** How its tranches account for it. */
  ghost predicate ScheduleSound(ms: Milestones, key: Pubkey, a: Agreement) {
    && (forall i: nat :: i < a.milestoneCount ==> TrancheSound(ms, key, i))
    && (forall i: nat :: a.milestoneCount <= i ==> !HasTranche(ms, key, i))
    && a.milestoneTotal == Scheduled(ms, key, a.milestoneCount)
    && a.milestoneTotal <= a.amount
    && a.milestonesSettled == SettledCount(ms, key, a.milestoneCount)
    && a.milestoneCount <= U32_MAX
    && (!IsMilestoneContract(a) ==> a.milestoneCount == 0)
    && (a.state == Open || a.state == Cancelled ==>
          forall i: nat :: i < a.milestoneCount ==> IsPendingAt(ms, key, i))
    && (IsMilestoneContract(a) && IsLive(a.state) ==>
          && a.milestoneTotal == a.amount
          && a.settledTotal == SettledSum(ms, key, a.milestoneCount)
          && a.milestonesSettled < a.milestoneCount)
  }

  ghost predicate BooksSound(ms: Milestones, key: Pubkey, a: Agreement) {
    IdentitySound(key, a) && MoneySound(a) && ScheduleSound(ms, key, a)
  }

  ghost predicate AllBooksSound(w: Ledger) {
    forall key :: key in w.agreements ==> BooksSound(w.milestones, key, w.agreements[key])
  }

  /** No milestone exists for an agreement that does not. */
  ghost predicate NoStrayMilestones(w: Ledger) {
    forall key, i: nat :: key !in w.agreements ==> !HasTranche(w.milestones, key, i)
  }

  lemma BooksAreLocal(w: Ledger, v: Ledger, key: Pubkey)
    requires SameAgreement(w, v, key)
    requires key in w.agreements && BooksSound(w.milestones, key, w.agreements[key])
    ensures key in v.agreements && BooksSound(v.milestones, key, v.agreements[key])
  {
    var a := w.agreements[key];
    SumsAreLocal(w.milestones, v.milestones, key, a.milestoneCount);
    forall i: nat
      ensures HasTranche(v.milestones, key, i) == HasTranche(w.milestones, key, i)
      ensures TrancheSound(v.milestones, key, i) == TrancheSound(w.milestones, key, i)
      ensures IsPendingAt(v.milestones, key, i) == IsPendingAt(w.milestones, key, i)
    {
      assert SameEntry(w.milestones, v.milestones, MilestonePda(key, i));
    }
  }

  // ---- Every action keeps the books ----

  /** An unfunded schedule has settled nothing. */
  lemma {:induction false} NothingSettled(ms: Milestones, key: Pubkey, n: nat)
    requires forall i: nat :: i < n ==> IsPendingAt(ms, key, i)
    ensures SettledSum(ms, key, n) == 0 && SettledCount(ms, key, n) == 0
  {
    if n > 0 {
      NothingSettled(ms, key, n - 1);
      assert IsPendingAt(ms, key, n - 1);
    }
  }

  /** A move of the agreement that leaves its schedule alone. */
  predicate QuietMove(key: Pubkey, a: Agreement, b: Agreement) {
    && IdentitySound(key, b) && MoneySound(b)
    && a.agreementType == b.agreementType && a.amount == b.amount
    && a.milestoneCount == b.milestoneCount && a.milestoneTotal == b.milestoneTotal
    && a.milestonesSettled == b.milestonesSettled
    && (b.state == Open ==> a.state == Open)
    && (b.state == Cancelled ==> a.state == Open || a.state == Cancelled)
    && (IsLive(b.state) ==>
          && a.settledTotal == b.settledTotal
          && (IsLive(a.state) || (a.state == Open && (IsMilestoneContract(a) ==> a.milestoneTotal == a.amount))))
  }

  predicate MovesTokens(action: Action) {
    action.Fund? || action.Settle? || action.SettleMilestone? || action.ResolveDispute? || action.Refund?
  }

  /** A quiet move that pays nothing either. */
  predicate QuietChange(w: Ledger, key: Pubkey, a: Agreement, c: Change) {
    && c.milestone.None? && QuietMove(key, a, c.agreement) && c.tokens == w.tokens
    && c.agreement.settledTotal == a.settledTotal && IsLive(c.agreement.state) == IsLive(a.state)
  }

  lemma EvidenceIsQuiet(w: Ledger, key: Pubkey, a: Agreement, signer: Pubkey, action: Action, now: int)
    requires IdentitySound(key, a) && MoneySound(a)
    requires action.SubmitProof? || action.ApproveProof? || action.RejectProof?
    requires Act(w, key, a, signer, action, now).Ok?
    ensures QuietChange(w, key, a, Act(w, key, a, signer, action, now).value)
  {
    hide RequireProofDecidable, RequireProofSubmittable, CreateCoreRecord;
    if action.SubmitProof? {
      assert SubmitProofSpec(w, key, a, signer, action.contentHash, action.metadataHash, now).Ok?;
    } else {
      assert DecideProofSpec(w, key, a, signer, action.proof, action.ApproveProof?, now).Ok?;
    }
  }

  lemma MoveIsQuiet(w: Ledger, key: Pubkey, a: Agreement, signer: Pubkey, action: Action, now: int)
    requires IdentitySound(key, a) && MoneySound(a)
    requires action.SelectCounterparty? || action.MarkCompleted? || action.OpenDispute? || action.Cancel?
    requires Act(w, key, a, signer, action, now).Ok?
    ensures QuietChange(w, key, a, Act(w, key, a, signer, action, now).value)
  {
    if action.OpenDispute? {
      assert OpenDisputeSpec(w, key, a, signer, action.reasonHash, now).Ok?;
    } else if action.SelectCounterparty? {
      assert SelectCounterpartySpec(w, key, a, signer, action.winner, now).Ok?;
    } else if action.MarkCompleted? {
      assert MarkCompletedSpec(w, key, a, signer, now).Ok?;
    } else {
      assert CancelSpec(w, key, a, signer, now).Ok?;
    }
  }

  lemma UnpaidActionIsQuiet(w: Ledger, key: Pubkey, a: Agreement, signer: Pubkey, action: Action, now: int)
    requires IdentitySound(key, a) && MoneySound(a)
    requires !TouchesMilestone(action) && !MovesTokens(action)
    requires Act(w, key, a, signer, action, now).Ok?
    ensures QuietChange(w, key, a, Act(w, key, a, signer, action, now).value)
  {
    hide Act, QuietChange, IdentitySound, MoneySound;
    if action.SubmitProof? || action.ApproveProof? || action.RejectProof? {
      EvidenceIsQuiet(w, key, a, signer, action, now);
    } else {
      MoveIsQuiet(w, key, a, signer, action, now);
    }
  }

  lemma PaidActionIsQuiet(w: Ledger, key: Pubkey, a: Agreement, signer: Pubkey, action: Action, now: int)
    requires IdentitySound(key, a) && MoneySound(a)
    requires !TouchesMilestone(action) && MovesTokens(action)
    requires Act(w, key, a, signer, action, now).Ok?
    ensures
      var c := Act(w, key, a, signer, action, now).value;
      c.milestone.None? && QuietMove(key, a, c.agreement)
  {
    hide FundSpec, SettleSpec, ResolveDisputeSpec, RefundSpec, IdentitySound, MoneySound, QuietMove;
    match action
    case Fund(source) => FundIsQuiet(w, key, a, signer, source, now);
    case Settle(destination, citation) => SettleIsQuiet(w, key, a, signer, destination, citation, now);
    case ResolveDispute(destination) => ResolveIsQuiet(w, key, a, signer, destination, now);
    case Refund(destination) => RefundIsQuiet(w, key, a, signer, destination, now);
  }

  lemma FundIsQuiet(w: Ledger, key: Pubkey, a: Agreement, signer: Pubkey, source: Pubkey, now: int)
    requires IdentitySound(key, a) && MoneySound(a)
    requires FundSpec(w, key, a, signer, source, now).Ok?
    ensures
      var c := FundSpec(w, key, a, signer, source, now).value;
      c.milestone.None? && QuietMove(key, a, c.agreement)
  {
  }

  lemma SettleIsQuiet(w: Ledger, key: Pubkey, a: Agreement, signer: Pubkey, destination: Pubkey,
                      citation: Citation, now: int)
    requires IdentitySound(key, a) && MoneySound(a)
    requires SettleSpec(w, key, a, signer, destination, citation, now).Ok?
    ensures
      var c := SettleSpec(w, key, a, signer, destination, citation, now).value;
      c.milestone.None? && QuietMove(key, a, c.agreement)
  {
  }

  lemma ResolveIsQuiet(w: Ledger, key: Pubkey, a: Agreement, signer: Pubkey, destination: Pubkey, now: int)
    requires IdentitySound(key, a) && MoneySound(a)
    requires ResolveDisputeSpec(w, key, a, signer, destination, now).Ok?
    ensures
      var c := ResolveDisputeSpec(w, key, a, signer, destination, now).value;
      c.milestone.None? && QuietMove(key, a, c.agreement)
  {
  }

  lemma RefundIsQuiet(w: Ledger, key: Pubkey, a: Agreement, signer: Pubkey, destination: Pubkey, now: int)
    requires IdentitySound(key, a) && MoneySound(a)
    requires RefundSpec(w, key, a, signer, destination, now).Ok?
    ensures
      var c := RefundSpec(w, key, a, signer, destination, now).value;
      c.milestone.None? && QuietMove(key, a, c.agreement)
  {
  }

  lemma QuietMoveKeepsBooks(ms: Milestones, key: Pubkey, a: Agreement, b: Agreement)
    requires BooksSound(ms, key, a) && QuietMove(key, a, b)
    ensures BooksSound(ms, key, b)
  {
    CountersAndMoney(ms, key, a.milestoneCount);
    if a.state == Open {
      NothingSettled(ms, key, a.milestoneCount);
    }
  }

  /** Appending a pending tranche to a schedule not yet funded. */
  lemma AddTrancheKeepsBooks(ms: Milestones, key: Pubkey, a: Agreement, b: Agreement, m: Milestone)
    requires BooksSound(ms, key, a) && IsMilestoneContract(a) && a.state == Open
    requires m.agreement == key && m.index == a.milestoneCount && m.amount > 0 && m.state == Pending
    requires RecordMilestone(a, m.amount) == Ok(b)
    ensures BooksSound(ms[MilestonePda(key, a.milestoneCount) := m], key, b)
  {
    var n := a.milestoneCount;
    var ns := ms[MilestonePda(key, n) := m];
    SumsAreLocal(ms, ns, key, n);
    forall i: nat
      ensures i < n ==> TrancheSound(ns, key, i) && IsPendingAt(ns, key, i)
      ensures n + 1 <= i ==> !HasTranche(ns, key, i)
    {
      assert i < n ==> TrancheSound(ms, key, i) && IsPendingAt(ms, key, i);
      assert n <= i ==> !HasTranche(ms, key, i);
    }
  }

  lemma CreateMilestoneKeepsBooks(w: Ledger, key: Pubkey, signer: Pubkey, amount: nat, termsHash: Hash, now: int)
    requires key in w.agreements && BooksSound(w.milestones, key, w.agreements[key])
    requires CreateMilestoneSpec(w, key, w.agreements[key], signer, amount, termsHash, now).Ok?
    ensures
      var c := CreateMilestoneSpec(w, key, w.agreements[key], signer, amount, termsHash, now).value;
      BooksSound(Commit(w, key, c).ledger.milestones, key, c.agreement)
  {
    hide BooksSound;
    var a := w.agreements[key];
    var c := CreateMilestoneSpec(w, key, a, signer, amount, termsHash, now).value;
    AddTrancheKeepsBooks(w.milestones, key, a, c.agreement, c.milestone.value);
  }

  /** Rewriting a live tranche to a state other than settled. */
  lemma MoveTrancheKeepsBooks(ms: Milestones, key: Pubkey, a: Agreement, j: nat, m: Milestone)
    requires BooksSound(ms, key, a) && IsMilestoneContract(a) && a.state == Funded
    requires HasTranche(ms, key, j) && Tranche(ms, key, j).state != MilestoneState.Settled
    requires m.agreement == key && m.index == j && m.amount == Tranche(ms, key, j).amount
    requires m.state != MilestoneState.Settled
    ensures BooksSound(ms[MilestonePda(key, j) := m], key, a)
  {
    var ns := ms[MilestonePda(key, j) := m];
    assert j < a.milestoneCount;
    RewriteTranche(ms, key, a.milestoneCount, j, m);
    forall i: nat
      ensures HasTranche(ns, key, i) == HasTranche(ms, key, i)
      ensures i < a.milestoneCount ==> TrancheSound(ns, key, i)
    {
      assert i < a.milestoneCount ==> TrancheSound(ms, key, i);
    }
  }

  /**
   Settling a tranche: the step that makes the counters meet is the step that
   pays the last of the amount.
   */
  lemma SettleTrancheKeepsBooks(ms: Milestones, key: Pubkey, a: Agreement, j: nat, m: Milestone, b: Agreement,
                                now: int)
    requires BooksSound(ms, key, a) && IsMilestoneContract(a) && a.state == Funded
    requires HasTranche(ms, key, j) && Tranche(ms, key, j).state != MilestoneState.Settled
    requires m.agreement == key && m.index == j && m.amount == Tranche(ms, key, j).amount
    requires m.state == MilestoneState.Settled
    requires RecordMilestoneSettled(a, m.amount, now) == Ok(b)
    ensures BooksSound(ms[MilestonePda(key, j) := m], key, b)
    ensures b.state == AgreementState.Settled <==> b.settledTotal == b.amount
  {
    var ns := ms[MilestonePda(key, j) := m];
    assert j < a.milestoneCount;
    RewriteTranche(ms, key, a.milestoneCount, j, m);
    forall i: nat
      ensures HasTranche(ns, key, i) == HasTranche(ms, key, i)
      ensures i < a.milestoneCount ==> TrancheSound(ns, key, i)
    {
      assert i < a.milestoneCount ==> TrancheSound(ms, key, i);
    }
    CountersAndMoney(ns, key, a.milestoneCount);
  }

  lemma SettleMilestoneKeepsBooks(w: Ledger, key: Pubkey, signer: Pubkey, address: Pubkey, destination: Pubkey,
                                  citation: Citation, now: int)
    requires key in w.agreements && BooksSound(w.milestones, key, w.agreements[key])
    requires SettleMilestoneSpec(w, key, w.agreements[key], signer, address, destination, citation, now).Ok?
    ensures
      var c := SettleMilestoneSpec(w, key, w.agreements[key], signer, address, destination, citation, now).value;
      BooksSound(Commit(w, key, c).ledger.milestones, key, c.agreement)
  {
    var a := w.agreements[key];
    var c := SettleMilestoneSpec(w, key, a, signer, address, destination, citation, now).value;
    var m := c.milestone.value;
    SettleTrancheKeepsBooks(w.milestones, key, a, m.index, m, RecordMilestoneSettled(a, m.amount, now).value, now);
  }

  lemma StepMilestoneKeepsBooks(w: Ledger, key: Pubkey, signer: Pubkey, action: Action, now: int)
    requires key in w.agreements && BooksSound(w.milestones, key, w.agreements[key])
    requires action.SubmitMilestone? || action.ApproveMilestone? || action.RejectMilestone?
    requires Act(w, key, w.agreements[key], signer, action, now).Ok?
    ensures
      var c := Act(w, key, w.agreements[key], signer, action, now).value;
      BooksSound(Commit(w, key, c).ledger.milestones, key, c.agreement)
  {
    var a := w.agreements[key];
    var m := Act(w, key, a, signer, action, now).value.milestone.value;
    MoveTrancheKeepsBooks(w.milestones, key, a, m.index, m);
  }

  lemma QuietActionKeepsBooks(w: Ledger, key: Pubkey, signer: Pubkey, action: Action, now: int)
    requires key in w.agreements && BooksSound(w.milestones, key, w.agreements[key])
    requires !TouchesMilestone(action)
    requires Act(w, key, w.agreements[key], signer, action, now).Ok?
    ensures
      var c := Act(w, key, w.agreements[key], signer, action, now).value;
      BooksSound(Commit(w, key, c).ledger.milestones, key, c.agreement)
  {
    var a := w.agreements[key];
    var c := Act(w, key, a, signer, action, now).value;
    if MovesTokens(action) {
      PaidActionIsQuiet(w, key, a, signer, action, now);
    } else {
      UnpaidActionIsQuiet(w, key, a, signer, action, now);
    }
    QuietMoveKeepsBooks(w.milestones, key, a, c.agreement);
  }

  lemma ActionKeepsBooks(w: Ledger, key: Pubkey, signer: Pubkey, action: Action, now: int)
    requires key in w.agreements && BooksSound(w.milestones, key, w.agreements[key])
    requires Act(w, key, w.agreements[key], signer, action, now).Ok?
    ensures
      var c := Act(w, key, w.agreements[key], signer, action, now).value;
      BooksSound(Commit(w, key, c).ledger.milestones, key, c.agreement)
  {
    if action.CreateMilestone? {
      CreateMilestoneKeepsBooks(w, key, signer, action.amount, action.termsHash, now);
    } else if action.SettleMilestone? {
      SettleMilestoneKeepsBooks(w, key, signer, action.milestone, action.destination, action.citation, now);
    } else if TouchesMilestone(action) {
      StepMilestoneKeepsBooks(w, key, signer, action, now);
    } else {
      QuietActionKeepsBooks(w, key, signer, action, now);
    }
  }

  lemma InitializeKeepsBooks(w: Ledger, signer: Pubkey, id: nat, mint: Pubkey, counterparty: Pubkey,
                             agreementType: AgreementType, amount: U64, termsHash: Hash, now: int)
    requires NoStrayMilestones(w) && CanSign(signer)
    requires InitializeSpec(w, signer, id, mint, counterparty, agreementType, amount, termsHash, now).Ok?
    ensures
      var c := InitializeSpec(w, signer, id, mint, counterparty, agreementType, amount, termsHash, now).value;
      c.milestone.None? && BooksSound(w.milestones, AgreementPda(signer, id), c.agreement)
  {
  }

  /** Milestones are only ever created under an agreement that exists. */
  lemma StepAddsNoStrayMilestone(w: Ledger, ix: Instruction, now: int)
    requires NoStrayMilestones(w) && Step(w, ix, now).Ok?
    ensures NoStrayMilestones(Step(w, ix, now).value.ledger)
  {
    var v := Step(w, ix, now).value.ledger;
    forall key, i: nat | key !in v.agreements
      ensures !HasTranche(v.milestones, key, i)
    {
      OtherAgreementsUntouched(w, ix, now, key);
      assert SameEntry(w.milestones, v.milestones, MilestonePda(key, i));
      assert !HasTranche(w.milestones, key, i);
    }
  }

  lemma StepKeepsBooks(w: Ledger, ix: Instruction, now: int)
    requires AllBooksSound(w) && NoStrayMilestones(w) && Step(w, ix, now).Ok?
    ensures AllBooksSound(Step(w, ix, now).value.ledger)
  {
    var v := Step(w, ix, now).value.ledger;
    forall key | key in v.agreements
      ensures BooksSound(v.milestones, key, v.agreements[key])
    {
      if KeyOf(ix) != Some(key) {
        OtherAgreementsUntouched(w, ix, now, key);
        BooksAreLocal(w, v, key);
      } else if ix.OnAgreement? {
        ActionKeepsBooks(w, key, ix.signer, ix.action, now);
      } else {
        InitializeKeepsBooks(w, ix.signer, ix.agreementId, ix.mint, ix.counterparty, ix.agreementType, ix.amount,
                             ix.termsHash, now);
      }
    }
  }

  /** In every reachable ledger the books of every agreement are sound. */
  lemma {:induction false} RunKeepsBooks(start: Ledger, ticks: seq<Tick>)
    requires Genesis(start)
    ensures AllBooksSound(Run(start, ticks)) && NoStrayMilestones(Run(start, ticks))
  {
    if ticks != [] {
      var init := ticks[..|ticks| - 1];
      var w := Run(start, init);
      var t := ticks[|ticks| - 1];
      RunKeepsBooks(start, init);
      if Step(w, t.ix, t.now).Ok? {
        StepKeepsBooks(w, t.ix, t.now);
        StepAddsNoStrayMilestone(w, t.ix, t.now);
      }
    }
  }

  /**
   An approved tranche of a funded contract is never refused by the arithmetic:
   it fits in what is left, and the checked additions do not overflow.
   */
  lemma ApprovedTrancheIsAlwaysPayable(ms: Milestones, key: Pubkey, a: Agreement, j: nat, now: int)
    requires BooksSound(ms, key, a) && IsMilestoneContract(a) && a.state == Funded
    requires HasTranche(ms, key, j) && Tranche(ms, key, j).state == MilestoneState.Approved
    ensures Tranche(ms, key, j).amount <= Remaining(a)
    ensures RecordMilestoneSettled(a, Tranche(ms, key, j).amount, now).Ok?
  {
    UnsettledIsCovered(ms, key, a.milestoneCount, j);
  }

  /**
   What the counters say and what the money says coincide: a funded milestone
   contract has paid exactly its settled tranches, and the tranche that makes
   the counters equal is the one whose amount is all that is left.
   */
  lemma LastTranchePaysTheRest(ms: Milestones, key: Pubkey, a: Agreement, j: nat)
    requires BooksSound(ms, key, a) && IsMilestoneContract(a) && a.state == Funded
    requires HasTranche(ms, key, j) && Tranche(ms, key, j).state != MilestoneState.Settled
    ensures a.settledTotal == SettledSum(ms, key, a.milestoneCount)
    ensures a.milestonesSettled + 1 == a.milestoneCount <==> Tranche(ms, key, j).amount == Remaining(a)
  {
    var m := Tranche(ms, key, j).(state := MilestoneState.Settled);
    var ns := ms[MilestonePda(key, j) := m];
    assert j < a.milestoneCount;
    assert TrancheSound(ms, key, j);
    RewriteTranche(ms, key, a.milestoneCount, j, m);
    forall i: nat | i < a.milestoneCount
      ensures TrancheSound(ns, key, i)
    {
      assert TrancheSound(ms, key, i);
    }
    CountersAndMoney(ns, key, a.milestoneCount);
  }
}
