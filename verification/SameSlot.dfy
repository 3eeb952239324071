/**
 Why the states of tranches are a condition of their own. Two transactions of one
 slot: the first submits a tranche in its second instruction, the next approves it
 in its first. The approval is committed last but reads first.
 */
module SameSlot {
  import opened Wrappers
  import opened Keys
  import opened EscrowState
  import opened EscrowEvents
  import opened EscrowKernel
  import opened KernelOutcomes
  import opened ConcreteRuns
  import opened Receipts
  import opened Sequences
  import opened ReceiptOrder
  import opened Reconstruction
  import opened Records
  import opened Replay

  const BUYER := Wallet(0)
  const SELLER := Wallet(1)
  const PURSE := Wallet(10)
  const KEY := AgreementPda(BUYER, 0)
  const TRANCHE := MilestonePda(KEY, 0)

  function Ticks(): seq<Tick> {
    [Tick(InitializeAgreement(BUYER, 0, MINT, SELLER, MilestoneContract, 5, 1), 0),
     Tick(OnAgreement(BUYER, KEY, CreateMilestone(5, 1)), 0),
     Tick(OnAgreement(BUYER, KEY, Fund(PURSE)), 0),
     Tick(OnAgreement(SELLER, KEY, SubmitMilestone(TRANCHE)), 0),
     Tick(OnAgreement(BUYER, KEY, ApproveMilestone(TRANCHE)), 0)]
  }

  function Events(): seq<Event> {
    [AgreementOpened(KEY, 0, BUYER, SELLER, MilestoneContract, MINT, VaultToken(KEY), 5, 1, Open, 0),
     MilestoneCreated(KEY, TRANCHE, BUYER, SELLER, 0, 5, 1, Open, 0),
     AgreementFunded(KEY, BUYER, SELLER, 5, MINT, VaultToken(KEY), Open, Funded, 0),
     MilestoneSubmitted(KEY, TRANCHE, BUYER, SELLER, 0, Pending, MilestoneState.Submitted, Funded, 0),
     MilestoneApproved(KEY, TRANCHE, BUYER, SELLER, 0, MilestoneState.Submitted, MilestoneState.Approved, Funded, 0)]
  }

  /** One transaction to set up, and two in one later slot. */
  function Envelopes(): seq<Envelope> {
    [Envelope(Events()[0], "escrow", "a", 1, 2, None, None),
     Envelope(Events()[1], "escrow", "a", 1, 3, None, None),
     Envelope(Events()[2], "escrow", "a", 1, 4, None, None),
     Envelope(Events()[3], "escrow", "b", 5, 1, None, None),
     Envelope(Events()[4], "escrow", "c", 5, 0, None, None)]
  }

  // ---- The run, ledger by ledger ----

  function AgreementAt(state: AgreementState, tranches: nat, scheduled: nat): Agreement {
    Agreement(BUYER, SELLER, 0, MilestoneContract, MINT, VaultToken(KEY), 5, 1, state, 0, 0, 0, 0, 0,
              Default, Default, 0, tranches, 0, scheduled, 0)
  }

  function TrancheAt(state: MilestoneState): Milestone {
    Milestone(KEY, 0, 5, 1, state, Default, 0, 0, 0, 0)
  }

  function Tokens(purse: nat, vault: nat): map<Pubkey, TokenAccount> {
    map[PURSE := TokenAccount(MINT, BUYER, purse), VaultToken(KEY) := TokenAccount(MINT, VaultAuthority(KEY), vault)]
  }

  function Opened(): Ledger {
    Ledger(map[KEY := AgreementAt(Open, 0, 0)], map[], map[], map[], Tokens(5, 0))
  }

  function Planned(): Ledger {
    Ledger(map[KEY := AgreementAt(Open, 1, 5)], map[TRANCHE := TrancheAt(Pending)], map[], map[], Tokens(5, 0))
  }

  function Escrowed(state: MilestoneState): Ledger {
    Ledger(map[KEY := AgreementAt(Funded, 1, 5)], map[TRANCHE := TrancheAt(state)], map[], map[], Tokens(0, 5))
  }

  function LedgerAt(n: nat): Ledger {
    if n == 0 then GiftStart()
    else if n == 1 then Opened()
    else if n == 2 then Planned()
    else if n == 3 then Escrowed(Pending)
    else if n == 4 then Escrowed(MilestoneState.Submitted)
    else Escrowed(MilestoneState.Approved)
  }

  predicate Commits(n: nat)
    requires n < 5
  {
    Step(LedgerAt(n), Ticks()[n].ix, 0) == Ok(Committed(LedgerAt(n + 1), [Events()[n]]))
  }

  lemma OpeningCommits()
    ensures Commits(0)
  {
    var c := InitializeSpec(GiftStart(), BUYER, 0, MINT, SELLER, MilestoneContract, 5, 1, 0);
    assert c == Ok(Change(AgreementAt(Open, 0, 0), None, None, Tokens(5, 0), map[], [Events()[0]])) by {
      assert GiftStart().tokens[VaultToken(KEY) := TokenAccount(MINT, VaultAuthority(KEY), 0)] == Tokens(5, 0);
    }
    hide InitializeSpec, Act;
    assert GiftStart().agreements[KEY := AgreementAt(Open, 0, 0)] == Opened().agreements;
  }

  lemma PlanningCommits()
    ensures Commits(1)
  {
    var w, n := Opened(), TrancheAt(Pending);
    var c := Change(AgreementAt(Open, 1, 5), Some(n), None, Tokens(5, 0), map[], [Events()[1]]);
    assert CreateMilestoneSpec(w, KEY, w.agreements[KEY], BUYER, 5, 1, 0) == Ok(c);
    assert w.agreements[KEY := c.agreement] == Planned().agreements
           && w.milestones[TRANCHE := n] == Planned().milestones;
    ActionCommits(w, KEY, BUYER, CreateMilestone(5, 1), 0, c, LedgerAt(2));
  }

  lemma FundingCommits()
    ensures Commits(2)
  {
    var w := Planned();
    var c := Change(AgreementAt(Funded, 1, 5), None, None, Tokens(0, 5), map[], [Events()[2]]);
    assert Moved(w.tokens, PURSE, VaultToken(KEY), 5) == Tokens(0, 5);
    assert FundSpec(w, KEY, w.agreements[KEY], BUYER, PURSE, 0) == Ok(c);
    assert w.agreements[KEY := c.agreement] == Escrowed(Pending).agreements;
    ActionCommits(w, KEY, BUYER, Fund(PURSE), 0, c, LedgerAt(3));
  }

  lemma SubmissionCommits()
    ensures Commits(3)
  {
    var w, n := Escrowed(Pending), TrancheAt(MilestoneState.Submitted);
    var c := Change(AgreementAt(Funded, 1, 5), Some(n), None, Tokens(0, 5), map[], [Events()[3]]);
    assert SubmitMilestoneSpec(w, KEY, w.agreements[KEY], SELLER, TRANCHE, 0) == Ok(c);
    SameLedger(w, c.agreement, n);
    ActionCommits(w, KEY, SELLER, SubmitMilestone(TRANCHE), 0, c, LedgerAt(4));
  }

  lemma ApprovalCommits()
    ensures Commits(4)
  {
    var w, n := Escrowed(MilestoneState.Submitted), TrancheAt(MilestoneState.Approved);
    var c := Change(AgreementAt(Funded, 1, 5), Some(n), None, Tokens(0, 5), map[], [Events()[4]]);
    assert ApproveMilestoneSpec(w, KEY, w.agreements[KEY], BUYER, TRANCHE, 0) == Ok(c);
    SameLedger(w, c.agreement, n);
    ActionCommits(w, KEY, BUYER, ApproveMilestone(TRANCHE), 0, c, LedgerAt(5));
  }

  lemma SameLedger(w: Ledger, a: Agreement, n: Milestone)
    requires w.agreements.Keys == {KEY} && w.milestones.Keys == {TRANCHE}
    ensures w.agreements[KEY := a] == map[KEY := a] && w.milestones[TRANCHE := n] == map[TRANCHE := n]
  {
  }

  lemma EveryTickCommits(n: nat)
    requires n < 5
    ensures Commits(n)
  {
    OpeningCommits();
    PlanningCommits();
    FundingCommits();
    SubmissionCommits();
    ApprovalCommits();
    hide Commits;
    assert n == 0 || n == 1 || n == 2 || n == 3 || n == 4;
  }

  lemma {:induction false} RunIs(n: nat)
    requires n <= 5
    ensures Reaches(GiftStart(), Ticks()[..n], LedgerAt(n), Events()[..n], KEY)
  {
    hide Step, LedgerAt, GiftStart, Ticks, Events, Reaches;
    Lengths();
    if n == 0 {
      StartsThere();
      assert Ticks()[..0] == [] && Events()[..0] == [];
      StartsAt(GiftStart(), KEY);
    } else {
      RunIs(n - 1);
      EveryTickCommits(n - 1);
      GoesOn(GiftStart(), Ticks()[..n - 1], LedgerAt(n - 1), Events()[..n - 1], KEY, Ticks()[n - 1], LedgerAt(n),
             [Events()[n - 1]]);
      assert Ticks()[..n] == Ticks()[..n - 1] + [Ticks()[n - 1]];
      assert Events()[..n] == Events()[..n - 1] + [Events()[n - 1]];
    }
  }

  lemma Lengths()
    ensures |Ticks()| == 5 && |Events()| == 5
    ensures forall n :: 0 <= n < 5 ==> Events()[n].agreement == KEY && Ticks()[n].now == 0
  {
  }

  lemma StartsThere()
    ensures LedgerAt(0) == GiftStart()
  {
  }

  lemma WholeRun()
    ensures Run(GiftStart(), Ticks()) == Escrowed(MilestoneState.Approved)
    ensures Trace(GiftStart(), Ticks(), KEY) == Events()
    ensures KEY in Run(GiftStart(), Ticks()).agreements
  {
    RunIs(5);
    Lengths();
    hide Run, Trace, Ticks, Events;
    assert Ticks()[..5] == Ticks() && Events()[..5] == Events();
  }

  // ---- What its receipts are read as ----

  lemma Coordinates()
    ensures
      var all := Envelopes();
      && |all| == 5
      && all[0].instructionIndex == 2 && all[1].instructionIndex == 3 && all[2].instructionIndex == 4
      && all[3].instructionIndex == 1 && all[4].instructionIndex == 0
      && all[0].slot == all[1].slot == all[2].slot == 1 && all[3].slot == all[4].slot == 5
  {
    hide Events;
    Lengths();
  }

  lemma Carriage(i: nat)
    requires i < 5
    ensures
      var all := Envelopes();
      |all| == 5 && all[i].event == Events()[i] && TimeOf(all[i]) == 0 && all[i].transactionSignature != ""
  {
    assert i == 0 || i == 1 || i == 2 || i == 3 || i == 4;
  }

  lemma CarriedInOrder()
    ensures Carried(Envelopes(), Events())
  {
    hide Envelopes, Events, TimeOf, Carried;
    Coordinates();
    Lengths();
    forall i | 0 <= i < 5
      ensures Envelopes()[i].event == Events()[i] && TimeOf(Envelopes()[i]) == 0
      ensures Envelopes()[i].transactionSignature != ""
    {
      Carriage(i);
    }
    OwnIndicesCarry(Envelopes(), Events());
  }

  lemma ApprovalReadsFirst(idOf: IdFunction, rs: seq<Receipt>)
    requires forall i :: 0 <= i < |Envelopes()| ==> EscrowReceiptFromEvent(idOf, Envelopes()[i]).Ok?
    requires rs == ReceiptsOf(idOf, Envelopes())
    ensures !StepsReadRight(rs)
  {
    StepsThere(idOf);
    hide EscrowReceiptFromEvent, Envelopes, IsStepOf, Precedes;
    assert LastStepAt(rs, 4, TRANCHE);
    assert ReadsLast(rs, 3, TRANCHE);
    assert !ReadsRight(rs, TRANCHE);
  }

  lemma StepsThere(idOf: IdFunction)
    requires forall i :: 0 <= i < |Envelopes()| ==> EscrowReceiptFromEvent(idOf, Envelopes()[i]).Ok?
    ensures
      var rs := ReceiptsOf(idOf, Envelopes());
      && |rs| == 5 && (forall i :: 0 <= i < 5 ==> (IsStepOf(rs[i], TRANCHE) <==> i >= 3))
      && rs[3].fact.action == MILESTONE_SUBMITTED && rs[4].fact.action == MILESTONE_APPROVED
      && Precedes(rs[4], rs[3])
  {
    var rs := ReceiptsOf(idOf, Envelopes());
    Coordinates();
    hide EscrowReceiptFromEvent, Envelopes, Events;
    forall i | 0 <= i < 5
      ensures rs[i].fact.action == ActionOf(Events()[i]) && (IsStepOf(rs[i], TRANCHE) <==> i >= 3)
      ensures rs[i].slot == Envelopes()[i].slot && rs[i].instructionIndex == Envelopes()[i].instructionIndex
    {
      ReceiptKeeps(idOf, Envelopes()[i]);
      Carriage(i);
      WhatEventsSay(i);
    }
    WhatEventsSay(3);
    WhatEventsSay(4);
  }

  lemma ReceiptKeeps(idOf: IdFunction, envelope: Envelope)
    requires EscrowReceiptFromEvent(idOf, envelope).Ok?
    ensures
      var r := EscrowReceiptFromEvent(idOf, envelope).value;
      r.fact == FactOf(envelope.event) && r.slot == envelope.slot && r.instructionIndex == envelope.instructionIndex
  {
  }

  lemma WhatEventsSay(i: nat)
    requires i < 5
    ensures |Events()| == 5
    ensures
      var f := FactOf(Events()[i]);
      && f.action == ActionOf(Events()[i]) && (f.milestone == Some(TRANCHE) && IsStep(f.action) <==> i >= 3)
      && (i == 3 ==> f.action == MILESTONE_SUBMITTED) && (i == 4 ==> f.action == MILESTONE_APPROVED)
  {
    assert i == 0 || i == 1 || i == 2 || i == 3 || i == 4;
  }

  /**
   A run of the program, carried as the chain may carry it, after which every bag
   of its receipts is accepted and reports the tranche in a state its account is
   not in.
   */
  lemma SameSlotCanMisreport(idOf: IdFunction, bag: seq<Receipt>)
    requires InjectiveIds(idOf)
    ensures Genesis(GiftStart()) && KEY in Run(GiftStart(), Ticks()).agreements
    ensures Carried(Envelopes(), Trace(GiftStart(), Ticks(), KEY))
    ensures forall i :: 0 <= i < |Envelopes()| ==> EscrowReceiptFromEvent(idOf, Envelopes()[i]).Ok?
    ensures SameElements(bag, ReceiptsOf(idOf, Envelopes())) ==>
              && Reconstruct(bag).Ok?
              && !TrancheStatesMatch(Reconstruct(bag).value.milestones, Run(GiftStart(), Ticks()), KEY)
  {
    hide *;
    GenesisIsBounded();
    WholeRun();
    CarriedInOrder();
    ReplayIsComplete(GiftStart(), Ticks(), KEY, idOf, Envelopes(), bag);
    ApprovalReadsFirst(idOf, ReceiptsOf(idOf, Envelopes()));
  }
}
