/**
 Runs on which the code does otherwise than its documentation says: seals that
 disagree on confirmation and on an open dispute, and a party that stands in its own
 way.
 */
module OddRuns {
  import opened Wrappers
  import opened Keys
  import opened EscrowState
  import opened EscrowEvents
  import opened EscrowKernel
  import opened KernelBooks
  import opened KernelMinting
  import opened KernelOutcomes
  import opened ConcreteRuns
  import opened Receipts
  import opened Sequences
  import opened Reconstruction
  import opened Records
  import opened Replay
  import opened Seal
  import SameSlot

  // ---- An approved tranche and nothing else ----

  /** The run of SameSlot, with the approval in a later slot than the submission. */
  function InTurn(): seq<Envelope> {
    SameSlot.Envelopes()[4 := SameSlot.Envelopes()[4].(slot := 6)]
  }

  /** The last event may come in any later slot. */
  lemma LastMayBeLater(envelopes: seq<Envelope>, events: seq<Event>, slot: int)
    requires Carried(envelopes, events) && envelopes != [] && slot >= envelopes[|envelopes| - 1].slot
    ensures Carried(envelopes[|envelopes| - 1 := envelopes[|envelopes| - 1].(slot := slot)], events)
  {
    var last := envelopes[|envelopes| - 1];
    assert TimeOf(last.(slot := slot)) == TimeOf(last);
    hide TimeOf;
    forall i | 0 <= i < |envelopes| - 1 ensures !SameCoordinates(envelopes[i], last.(slot := slot)) {
      assert !SameCoordinates(envelopes[i], last);
    }
  }

  lemma TurnsAreCarried()
    ensures |InTurn()| == 5 && Carried(InTurn(), SameSlot.Events())
    ensures forall i :: 0 <= i < 5 ==> InTurn()[i].programId == "escrow"
  {
    SameSlot.CarriedInOrder();
    SameSlot.Coordinates();
    assert forall i :: 0 <= i < 5 ==> SameSlot.Envelopes()[i].programId == "escrow";
    hide SameSlot.Envelopes, SameSlot.Events, Carried;
    LastMayBeLater(SameSlot.Envelopes(), SameSlot.Events(), 6);
  }

  lemma WhatTurnsSay(i: nat)
    requires i < 5
    ensures |InTurn()| == 5 && ActionOf(InTurn()[i].event) == ActionOf(SameSlot.Events()[i])
    ensures i < 3 ==> !IsStep(ActionOf(InTurn()[i].event))
    ensures i >= 3 ==> InTurn()[i].slot == i + 2
  {
    SameSlot.Carriage(i);
    SameSlot.Coordinates();
    assert i == 0 || i == 1 || i == 2 || i == 3 || i == 4;
    hide SameSlot.Envelopes;
  }

  lemma SlotIsKept(idOf: IdFunction, envelope: Envelope)
    requires EscrowReceiptFromEvent(idOf, envelope).Ok?
    ensures EscrowReceiptFromEvent(idOf, envelope).value.slot == envelope.slot
  {
  }

  lemma TurnsReadRight(idOf: IdFunction)
    requires forall i :: 0 <= i < |InTurn()| ==> EscrowReceiptFromEvent(idOf, InTurn()[i]).Ok?
    ensures StepsReadRight(ReceiptsOf(idOf, InTurn()))
  {
    hide EscrowReceiptFromEvent, InTurn;
    WhatTurnsSay(0);
    var rs := ReceiptsOf(idOf, InTurn());
    forall i | 0 <= i < 5
      ensures i < 3 ==> !IsStep(rs[i].fact.action)
      ensures i >= 3 ==> rs[i].slot == i + 2
    {
      WhatTurnsSay(i);
      BuiltReceiptsAreWellFormed(idOf, InTurn()[i]);
      SlotIsKept(idOf, InTurn()[i]);
    }
    hide IsStep;
    assert TranchesOrdered(rs);
    OrderedStepsReadRight(rs);
  }

  lemma OnlyApprovedThere()
    ensures
      var w := SameSlot.Escrowed(MilestoneState.Approved);
      SameSlot.KEY in w.agreements && OnlyApprovedTranches(w, SameSlot.KEY)
  {
    var w := SameSlot.Escrowed(MilestoneState.Approved);
    assert HasTranche(w.milestones, SameSlot.KEY, 0);
    assert Tranche(w.milestones, SameSlot.KEY, 0).state == MilestoneState.Approved;
  }

  /**
   One seal takes the approval of a tranche for the other party's confirmation, the
   other does not: after this run the two differ, although its steps read right.
   */
  lemma ApprovalSplitsTheSeals(idOf: IdFunction, bag: seq<Receipt>, chainVerified: bool)
    requires InjectiveIds(idOf)
    ensures Genesis(GiftStart()) && Carried(InTurn(), Trace(GiftStart(), SameSlot.Ticks(), SameSlot.KEY))
    ensures forall i :: 0 <= i < |InTurn()| ==> EscrowReceiptFromEvent(idOf, InTurn()[i]).Ok?
    ensures StepsReadRight(ReceiptsOf(idOf, InTurn()))
    ensures
      var folded := FactsFrom(NormalizedAll(InTurn(), "escrow"), chainVerified);
      SameElements(bag, ReceiptsOf(idOf, InTurn())) ==>
        && Reconstruct(bag).Ok?
        && folded.counterpartyConfirmed != EscrowSealFacts(Reconstruct(bag).value, chainVerified).counterpartyConfirmed
  {
    hide *;
    GenesisIsBounded();
    SameSlot.WholeRun();
    TurnsAreCarried();
    NormalizedAllNormalizes(InTurn(), "escrow");
    CarriedEventsBuild(idOf, InTurn(), SameSlot.Events());
    TurnsReadRight(idOf);
    OnlyApprovedThere();
    SealDiamond(GiftStart(), SameSlot.Ticks(), SameSlot.KEY, idOf, InTurn(), bag, NormalizedAll(InTurn(), "escrow"),
                "escrow", chainVerified);
    if SameElements(bag, ReceiptsOf(idOf, InTurn())) {
      DiamondOnConfirmation(FactsFrom(NormalizedAll(InTurn(), "escrow"), chainVerified),
                            EscrowSealFacts(Reconstruct(bag).value, chainVerified),
                            SameSlot.Escrowed(MilestoneState.Approved), SameSlot.KEY, ReceiptsOf(idOf, InTurn()));
    }
  }

  lemma DiamondOnConfirmation(folded: SealFacts, read: SealFacts, w: Ledger, key: Pubkey, rs: seq<Receipt>)
    requires key in w.agreements && Diamond(folded, read, w, key, rs)
    requires StepsReadRight(rs) && OnlyApprovedTranches(w, key)
    ensures folded.counterpartyConfirmed != read.counterpartyConfirmed
  {
    hide StepsReadRight, OnlyApprovedTranches, OnlyApprovedReads, TimeOfFirst;
  }

  // ---- A funded escrow ----

  const BUYER := Wallet(0)
  const SELLER := Wallet(1)
  const PURSE := Wallet(10)
  const KEY := AgreementPda(BUYER, 0)

  const OPENING := Tick(InitializeAgreement(BUYER, 0, MINT, SELLER, Escrow, 5, 1), 0)
  const FUNDING := Tick(OnAgreement(BUYER, KEY, Fund(PURSE)), 0)

  function EscrowIn(state: AgreementState, paid: nat, openedBy: Pubkey): Agreement {
    Agreement(BUYER, SELLER, 0, Escrow, MINT, VaultToken(KEY), 5, 1, state, 0, 0, 0, 0, 0, Default, openedBy,
              0, 0, 0, 0, paid)
  }

  function LedgerWith(a: Agreement, purse: nat, vault: nat): Ledger {
    Ledger(map[KEY := a], map[], map[], map[],
           map[PURSE := TokenAccount(MINT, BUYER, purse),
               VaultToken(KEY) := TokenAccount(MINT, VaultAuthority(KEY), vault)])
  }

  const OPENED := AgreementOpened(KEY, 0, BUYER, SELLER, Escrow, MINT, VaultToken(KEY), 5, 1, Open, 0)
  const FUNDED := AgreementFunded(KEY, BUYER, SELLER, 5, MINT, VaultToken(KEY), Open, Funded, 0)

  lemma Opens()
    ensures Step(GiftStart(), OPENING.ix, 0) == Ok(Committed(LedgerWith(EscrowIn(Open, 0, Default), 5, 0), [OPENED]))
  {
    var w := LedgerWith(EscrowIn(Open, 0, Default), 5, 0);
    var c := InitializeSpec(GiftStart(), BUYER, 0, MINT, SELLER, Escrow, 5, 1, 0);
    assert c == Ok(Change(EscrowIn(Open, 0, Default), None, None, w.tokens, map[], [OPENED])) by {
      assert GiftStart().tokens[VaultToken(KEY) := TokenAccount(MINT, VaultAuthority(KEY), 0)] == w.tokens;
    }
    hide InitializeSpec, Act;
    assert GiftStart().agreements[KEY := EscrowIn(Open, 0, Default)] == w.agreements;
  }

  lemma Funds()
    ensures Step(LedgerWith(EscrowIn(Open, 0, Default), 5, 0), FUNDING.ix, 0)
            == Ok(Committed(LedgerWith(EscrowIn(Funded, 0, Default), 0, 5), [FUNDED]))
  {
    var w, v := LedgerWith(EscrowIn(Open, 0, Default), 5, 0), LedgerWith(EscrowIn(Funded, 0, Default), 0, 5);
    var c := Change(EscrowIn(Funded, 0, Default), None, None, v.tokens, map[], [FUNDED]);
    assert Moved(w.tokens, PURSE, VaultToken(KEY), 5) == v.tokens;
    assert FundSpec(w, KEY, w.agreements[KEY], BUYER, PURSE, 0) == Ok(c);
    assert w.agreements[KEY := c.agreement] == v.agreements;
    ActionCommits(w, KEY, BUYER, Fund(PURSE), 0, c, v);
  }

  lemma FundedThere()
    ensures Reaches(GiftStart(), [OPENING, FUNDING], LedgerWith(EscrowIn(Funded, 0, Default), 0, 5),
                    [OPENED, FUNDED], KEY)
  {
    hide Step, Reaches, GiftStart, EscrowIn, LedgerWith;
    Opens();
    Funds();
    StartsAt(GiftStart(), KEY);
    GoesOn(GiftStart(), [], GiftStart(), [], KEY, OPENING, LedgerWith(EscrowIn(Open, 0, Default), 5, 0), [OPENED]);
    assert [] + [OPENING] == [OPENING] && [] + [OPENED] == [OPENED];
    GoesOn(GiftStart(), [OPENING], LedgerWith(EscrowIn(Open, 0, Default), 5, 0), [OPENED], KEY, FUNDING,
           LedgerWith(EscrowIn(Funded, 0, Default), 0, 5), [FUNDED]);
    assert [OPENING] + [FUNDING] == [OPENING, FUNDING] && [OPENED] + [FUNDED] == [OPENED, FUNDED];
  }

  // ---- A party in its own way ----

  const MINTING := Tick(CreateCoreProof(SELLER, EscrowMinted(KEY, 0), 1, 1), 0)

  function MintedLedger(): Ledger {
    LedgerWith(EscrowIn(Funded, 0, Default), 0, 5)
    .(records := map[CoreProofAddress(SELLER, KEY, 0) := CoreRecord(EscrowMinted(KEY, 0), SELLER, 1, 1, Active, 0, 0)])
  }

  lemma MintedThere()
    ensures Run(GiftStart(), [OPENING, FUNDING, MINTING]) == MintedLedger()
    ensures Mints(GiftStart(), [OPENING, FUNDING, MINTING], SELLER, EscrowMinted(KEY, 0))
  {
    var w := LedgerWith(EscrowIn(Funded, 0, Default), 0, 5);
    assert Step(w, MINTING.ix, 0) == Ok(Committed(MintedLedger(), []));
    hide Step, EscrowIn, LedgerWith, GiftStart, MintedLedger;
    FundedThere();
    GoesOn(GiftStart(), [OPENING, FUNDING], w, [OPENED, FUNDED], KEY, MINTING, MintedLedger(), []);
    var ticks := [OPENING, FUNDING, MINTING];
    assert [OPENING, FUNDING] + [MINTING] == ticks && ticks[..2] == [OPENING, FUNDING];
  }

  /**
   A seller that mints for itself the id escrow will derive for the next proof cannot
   submit that proof, while the buyer can.
   */
  lemma MintingBlocksOneself(now: int)
    ensures Genesis(GiftStart())
    ensures
      var ticks := [OPENING, FUNDING, MINTING];
      var w := Run(GiftStart(), ticks);
      && KEY in w.agreements && IsParty(w.agreements[KEY], SELLER) && IsLive(w.agreements[KEY].state)
      && After(w, Tick(OnAgreement(SELLER, KEY, SubmitProof(1, 1)), now)) == w
      && Step(w, OnAgreement(BUYER, KEY, SubmitProof(1, 1)), now).Ok?
  {
    hide Run, Genesis, GiftStart, MintedLedger, Step, After;
    GenesisIsBounded();
    MintedThere();
    SubmissionsThere(now);
  }

  lemma SubmissionsThere(now: int)
    ensures
      var w := MintedLedger();
      && KEY in w.agreements && IsParty(w.agreements[KEY], SELLER) && IsLive(w.agreements[KEY].state)
      && After(w, Tick(OnAgreement(SELLER, KEY, SubmitProof(1, 1)), now)) == w
      && Step(w, OnAgreement(BUYER, KEY, SubmitProof(1, 1)), now).Ok?
  {
    SellerIsRefused(now);
    BuyerIsServed(now);
    hide SubmitProofSpec;
  }

  lemma SellerIsRefused(now: int)
    ensures SubmitProofSpec(MintedLedger(), KEY, EscrowIn(Funded, 0, Default), SELLER, 1, 1, now).Err?
  {
    assert CoreProofAddress(SELLER, KEY, 0) in MintedLedger().records;
  }

  lemma BuyerIsServed(now: int)
    ensures SubmitProofSpec(MintedLedger(), KEY, EscrowIn(Funded, 0, Default), BUYER, 1, 1, now).Ok?
  {
  }

  // ---- A dispute across the year 10000 ----

  const DISPUTE := Tick(OnAgreement(BUYER, KEY, OpenDispute(1)), 0)
  const CONCESSION := Tick(OnAgreement(SELLER, KEY, ResolveDispute(PURSE)), 0)

  const DISPUTED := DisputeOpened(KEY, BUYER, SELLER, BUYER, 1, Funded, Disputed, 0)
  const RESOLVED := DisputeResolved(KEY, BUYER, SELLER, SELLER, BUYER, BuyerRefunded, BUYER, Refunded, 0)
  const REFUNDED := RefundExecuted(KEY, BUYER, SELLER, SELLER, 5, MINT, PURSE, Disputed, Refunded, 0)

  function DisputeRun(): seq<Tick> {
    [OPENING, FUNDING, DISPUTE, CONCESSION]
  }

  function DisputeTrace(): seq<Event> {
    [OPENED, FUNDED, DISPUTED, RESOLVED, REFUNDED]
  }

  lemma Disputes()
    ensures Step(LedgerWith(EscrowIn(Funded, 0, Default), 0, 5), DISPUTE.ix, 0)
            == Ok(Committed(LedgerWith(EscrowIn(Disputed, 0, BUYER), 0, 5), [DISPUTED]))
  {
    var w, v := LedgerWith(EscrowIn(Funded, 0, Default), 0, 5), LedgerWith(EscrowIn(Disputed, 0, BUYER), 0, 5);
    var c := Change(EscrowIn(Disputed, 0, BUYER), None, None, w.tokens, map[], [DISPUTED]);
    assert OpenDisputeSpec(w, KEY, w.agreements[KEY], BUYER, 1, 0) == Ok(c);
    assert w.agreements[KEY := c.agreement] == v.agreements;
    ActionCommits(w, KEY, BUYER, OpenDispute(1), 0, c, v);
  }

  lemma Concedes()
    ensures Step(LedgerWith(EscrowIn(Disputed, 0, BUYER), 0, 5), CONCESSION.ix, 0)
            == Ok(Committed(LedgerWith(EscrowIn(Refunded, 5, BUYER), 5, 0), [RESOLVED, REFUNDED]))
  {
    var w, v := LedgerWith(EscrowIn(Disputed, 0, BUYER), 0, 5), LedgerWith(EscrowIn(Refunded, 5, BUYER), 5, 0);
    var c := Change(EscrowIn(Refunded, 5, BUYER), None, None, v.tokens, map[], [RESOLVED, REFUNDED]);
    assert Moved(w.tokens, VaultToken(KEY), PURSE, 5) == v.tokens;
    assert ResolveDisputeSpec(w, KEY, w.agreements[KEY], SELLER, PURSE, 0) == Ok(c);
    assert w.agreements[KEY := c.agreement] == v.agreements;
    ActionCommits(w, KEY, SELLER, ResolveDispute(PURSE), 0, c, v);
  }

  lemma ConcededThere()
    ensures Reaches(GiftStart(), DisputeRun(), LedgerWith(EscrowIn(Refunded, 5, BUYER), 5, 0), DisputeTrace(), KEY)
  {
    hide Step, Reaches, GiftStart, EscrowIn, LedgerWith;
    FundedThere();
    Disputes();
    Concedes();
    var w := LedgerWith(EscrowIn(Disputed, 0, BUYER), 0, 5);
    GoesOn(GiftStart(), [OPENING, FUNDING], LedgerWith(EscrowIn(Funded, 0, Default), 0, 5), [OPENED, FUNDED], KEY,
           DISPUTE, w, [DISPUTED]);
    var ticks, events := [OPENING, FUNDING, DISPUTE], [OPENED, FUNDED, DISPUTED];
    assert [OPENING, FUNDING] + [DISPUTE] == ticks && [OPENED, FUNDED] + [DISPUTED] == events;
    GoesOn(GiftStart(), ticks, w, events, KEY, CONCESSION, LedgerWith(EscrowIn(Refunded, 5, BUYER), 5, 0),
           [RESOLVED, REFUNDED]);
    assert ticks + [CONCESSION] == DisputeRun() && events + [RESOLVED, REFUNDED] == DisputeTrace();
  }

  /** The dispute in the last second of the year 9999, the resolution in the next. */
  function EnvelopeAt(i: nat): Envelope
    requires i < 5
  {
    var e := DisputeTrace()[i];
    if i < 2 then Envelope(e, "escrow", "a", 1, i, None, None)
    else if i == 2 then Envelope(e, "escrow", "b", 2, i, None, Some(LAST_FOUR_DIGIT_SECOND))
    else Envelope(e, "escrow", "c", 3, i, None, Some(LAST_FOUR_DIGIT_SECOND + 1))
  }

  function AcrossTheYear(): seq<Envelope> {
    seq(5, i requires 0 <= i < 5 => EnvelopeAt(i))
  }

  lemma WhatYearSays(i: nat)
    requires i < 5
    ensures
      var e := AcrossTheYear()[i];
      && |DisputeTrace()| == 5 && e.event == DisputeTrace()[i] && e.programId == "escrow"
      && e.transactionSignature != ""
      && e.instructionIndex == i && e.slot == (if i < 2 then 1 else if i == 2 then 2 else 3)
      && (ActionOf(e.event) == DISPUTE_OPENED <==> i == 2) && (ActionOf(e.event) == DISPUTE_RESOLVED <==> i == 3)
      && TimeOf(e) == if i < 2 then 0 else if i == 2 then LAST_FOUR_DIGIT_SECOND else LAST_FOUR_DIGIT_SECOND + 1
  {
    assert i == 0 || i == 1 || i == 2 || i == 3 || i == 4;
  }

  lemma YearIsCarried()
    ensures |AcrossTheYear()| == 5 && Carried(AcrossTheYear(), DisputeTrace())
    ensures forall i :: 0 <= i < 5 ==> AcrossTheYear()[i].programId == "escrow"
  {
    WhatYearSays(0);
    assert |AcrossTheYear()| == 5;
    hide AcrossTheYear, DisputeTrace, TimeOf, Carried;
    forall i | 0 <= i < 5
      ensures
        var e := AcrossTheYear()[i];
        && e.event == DisputeTrace()[i] && e.programId == "escrow" && e.transactionSignature != ""
        && e.instructionIndex == i && e.slot == (if i < 2 then 1 else if i == 2 then 2 else 3)
        && 0 <= TimeOf(e) <= MAX_UNIX_SECONDS
    {
      WhatYearSays(i);
    }
    OwnIndicesCarry(AcrossTheYear(), DisputeTrace());
  }

  lemma TimeIsKept(idOf: IdFunction, envelope: Envelope)
    requires EscrowReceiptFromEvent(idOf, envelope).Ok?
    ensures EscrowReceiptFromEvent(idOf, envelope).value.occurredAt == TimeOf(envelope)
  {
  }

  lemma TimesThere(idOf: IdFunction)
    requires forall i :: 0 <= i < |AcrossTheYear()| ==> EscrowReceiptFromEvent(idOf, AcrossTheYear()[i]).Ok?
    ensures
      var rs := ReceiptsOf(idOf, AcrossTheYear());
      && TimeOfFirst(rs, DISPUTE_OPENED) == Some(LAST_FOUR_DIGIT_SECOND)
      && TimeOfFirst(rs, DISPUTE_RESOLVED) == Some(LAST_FOUR_DIGIT_SECOND + 1)
  {
    var rs := ReceiptsOf(idOf, AcrossTheYear());
    assert |rs| == 5;
    hide AcrossTheYear, EscrowReceiptFromEvent, TimeOf;
    forall i | 0 <= i < 5
      ensures (rs[i].fact.action == DISPUTE_OPENED <==> i == 2) && (rs[i].fact.action == DISPUTE_RESOLVED <==> i == 3)
      ensures i == 2 ==> rs[i].occurredAt == LAST_FOUR_DIGIT_SECOND
      ensures i == 3 ==> rs[i].occurredAt == LAST_FOUR_DIGIT_SECOND + 1
    {
      WhatYearSays(i);
      BuiltReceiptsAreWellFormed(idOf, AcrossTheYear()[i]);
      TimeIsKept(idOf, AcrossTheYear()[i]);
    }
    TimeOfOnly(rs, DISPUTE_OPENED);
    TimeOfOnly(rs, DISPUTE_RESOLVED);
    hide TimeOfFirst;
    assert rs[2] in rs && rs[3] in rs;
  }

  /**
   A dispute opened in the last second of the year 9999 and conceded in the next:
   one seal still sees it open, because the text of the later time sorts first.
   */
  lemma YearSplitsTheSeals(idOf: IdFunction, bag: seq<Receipt>, chainVerified: bool)
    requires InjectiveIds(idOf)
    ensures Genesis(GiftStart()) && Carried(AcrossTheYear(), Trace(GiftStart(), DisputeRun(), KEY))
    ensures forall i :: 0 <= i < |AcrossTheYear()| ==> EscrowReceiptFromEvent(idOf, AcrossTheYear()[i]).Ok?
    ensures
      var folded := FactsFrom(NormalizedAll(AcrossTheYear(), "escrow"), chainVerified);
      SameElements(bag, ReceiptsOf(idOf, AcrossTheYear())) ==>
        && Reconstruct(bag).Ok?
        && folded.disputeOpen != EscrowSealFacts(Reconstruct(bag).value, chainVerified).disputeOpen
  {
    hide *;
    GenesisIsBounded();
    ConcededThere();
    EndOfDispute();
    YearIsCarried();
    NormalizedAllNormalizes(AcrossTheYear(), "escrow");
    CarriedEventsBuild(idOf, AcrossTheYear(), DisputeTrace());
    TimesThere(idOf);
    SealDiamond(GiftStart(), DisputeRun(), KEY, idOf, AcrossTheYear(), bag, NormalizedAll(AcrossTheYear(), "escrow"),
                "escrow", chainVerified);
    if SameElements(bag, ReceiptsOf(idOf, AcrossTheYear())) {
      DiamondOnDispute(FactsFrom(NormalizedAll(AcrossTheYear(), "escrow"), chainVerified),
                       EscrowSealFacts(Reconstruct(bag).value, chainVerified),
                       Run(GiftStart(), DisputeRun()), KEY, ReceiptsOf(idOf, AcrossTheYear()));
    }
  }

  lemma EndOfDispute()
    ensures KEY in Run(GiftStart(), DisputeRun()).agreements
    ensures Trace(GiftStart(), DisputeRun(), KEY) == DisputeTrace()
  {
    ConcededThere();
    hide Run, Trace, GiftStart, DisputeTrace, DisputeRun;
  }

  lemma DiamondOnDispute(folded: SealFacts, read: SealFacts, w: Ledger, key: Pubkey, rs: seq<Receipt>)
    requires key in w.agreements && Diamond(folded, read, w, key, rs)
    requires TimeOfFirst(rs, DISPUTE_OPENED) == Some(LAST_FOUR_DIGIT_SECOND)
    requires TimeOfFirst(rs, DISPUTE_RESOLVED) == Some(LAST_FOUR_DIGIT_SECOND + 1)
    ensures folded.disputeOpen != read.disputeOpen
  {
    hide StepsReadRight, OnlyApprovedTranches, OnlyApprovedReads, TimeOfFirst;
  }
}
