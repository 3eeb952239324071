/**
 Bags of receipts on which the code does otherwise than its documentation says: a
 settled history with a refund beside it, and an event delivered with two block
 times.
 */
module OddBags {
  import opened Wrappers
  import opened Keys
  import opened EscrowState
  import opened EscrowEvents
  import opened Receipts
  import opened Sequences
  import opened ReceiptOrder
  import opened Reconstruction
  import opened Histories
  import opened Lifecycles
  import opened Replay
  import opened Projections

  const BUYER := Wallet(0)
  const SELLER := Wallet(1)
  const MINT := Wallet(99)
  const KEY := AgreementPda(BUYER, 0)

  const OPENING := AgreementOpened(KEY, 0, BUYER, SELLER, Escrow, MINT, VaultToken(KEY), 5, 1, Open, 0)
  const FUNDING := AgreementFunded(KEY, BUYER, SELLER, 5, MINT, VaultToken(KEY), Open, Funded, 0)
  const COMPLETION := WorkCompleted(KEY, BUYER, SELLER, SELLER, Funded, Completed, 0)
  const SETTLEMENT :=
    SettlementExecuted(KEY, BUYER, SELLER, 5, MINT, Wallet(11), None, Completed, AgreementState.Settled, 0)
  const REFUND :=
    RefundExecuted(KEY, BUYER, SELLER, SELLER, 1, MINT, Wallet(10), AgreementState.Settled, AgreementState.Settled, 0)

  // ---- A refund beside a settlement ----

  function Report(id: char, e: Event, slot: int): Receipt {
    var fact := FactOf(e);
    Receipt([id], "escrow", KindOf(fact.previousState, fact.newState), fact, 0, "signature", slot, 0, None)
  }

  function Moved(): seq<Receipt> {
    [Report('a', OPENING, 1), Report('b', FUNDING, 2), Report('c', COMPLETION, 3), Report('d', SETTLEMENT, 4)]
  }

  function Noted(): Receipt {
    Report('e', REFUND, 5)
  }

  predicate Says(r: Receipt, id: char, action: ReceiptAction, slot: int, from: Option<AgreementState>,
                 to: AgreementState)
  {
    && r.receiptId == [id] && r.fact.action == action && r.slot == slot && r.fact.agreement == KEY
    && r.fact.previousState == from && r.fact.newState == to
    && r.kind == KindOf(from, to)
  }

  lemma WhatTheySay()
    ensures
      var s := Moved();
      && |s| == 4
      && Says(s[0], 'a', AGREEMENT_OPENED, 1, None, Open) && Says(s[1], 'b', AGREEMENT_FUNDED, 2, Some(Open), Funded)
      && Says(s[2], 'c', WORK_COMPLETED, 3, Some(Funded), Completed)
      && Says(s[3], 'd', SETTLEMENT_EXECUTED, 4, Some(Completed), AgreementState.Settled)
      && s[1].fact.amount == Some(5) && s[3].fact.amount == Some(5) && s[3].fact.proof == None
    ensures Says(Noted(), 'e', REFUND_EXECUTED, 5, Some(AgreementState.Settled), AgreementState.Settled)
    ensures Noted().fact.amount == Some(1)
  {
  }

  lemma MovesAreOneHistory()
    ensures IsHistory(Moved())
  {
    WhatTheySay();
    hide Moved, Noted;
    assert forall i, j :: 0 <= i < j < 4 ==> Moved()[i].fact.newState != Moved()[j].fact.newState;
  }

  lemma BagIsInOrder()
    ensures Ascending(Moved() + [Noted()]) && DistinctIds(Moved() + [Noted()])
    ensures Select(Moved() + [Noted()], Transition) == Moved()
  {
    WhatTheySay();
    hide Moved, Noted;
    var bag := Moved() + [Noted()];
    assert bag[..4] == Moved() && bag[4] == Noted();
    forall i | 0 <= i < 5 ensures bag[i].slot == i + 1 && bag[i].receiptId == ["abcde"[i]] {
    }
    SelectAll(Moved());
  }

  lemma {:induction false} SelectAll(s: seq<Receipt>)
    requires forall r :: r in s ==> r.kind == Transition
    ensures Select(s, Transition) == s
  {
    if s != [] {
      assert s == s[..|s| - 1] + [s[|s| - 1]];
      SelectAll(s[..|s| - 1]);
    }
  }

  lemma FirstOfEach()
    ensures FirstWith(Moved(), AGREEMENT_FUNDED) == Some(Moved()[1])
    ensures FirstWith(Moved(), SETTLEMENT_EXECUTED) == Some(Moved()[3])
    ensures FirstWith(Moved(), REFUND_EXECUTED) == None
  {
    WhatTheySay();
    hide Moved, Noted;
    OnlyWith(Moved(), AGREEMENT_FUNDED, 1);
    OnlyWith(Moved(), SETTLEMENT_EXECUTED, 3);
    FirstWithIs(Moved(), REFUND_EXECUTED);
    hide FirstWith;
  }

  lemma OnlyWith(s: seq<Receipt>, action: ReceiptAction, k: nat)
    requires k < |s| && s[k].fact.action == action
    requires forall i :: 0 <= i < |s| && i != k ==> s[i].fact.action != action
    ensures FirstWith(s, action) == Some(s[k])
  {
    FirstWithIs(s, action);
    hide FirstWith;
    assert s[k] in s;
  }

  lemma PaymentsOf()
    ensures PaidOut(Moved() + [Noted()], SETTLEMENT_EXECUTED) == Some(5)
    ensures PaidOut(Moved() + [Noted()], REFUND_EXECUTED) == Some(1)
  {
    WhatTheySay();
    hide Moved, Noted;
    var s := Moved();
    var before := s[..3];
    assert (s + [Noted()])[..4] == s && s == before + [s[3]];
    PaidOutExactlyWhen(before, SETTLEMENT_EXECUTED);
    PaidOutExactlyWhen(s, REFUND_EXECUTED);
    PaidOutOfJoin(before, [s[3]], SETTLEMENT_EXECUTED);
    PaidOutOfJoin(s, [Noted()], SETTLEMENT_EXECUTED);
    PaidOutOfJoin(s, [Noted()], REFUND_EXECUTED);
    OnePayment(s[3], SETTLEMENT_EXECUTED);
    OnePayment(Noted(), SETTLEMENT_EXECUTED);
    OnePayment(Noted(), REFUND_EXECUTED);
    hide PaidOut;
  }

  lemma OnePayment(r: Receipt, action: ReceiptAction)
    ensures PaidOut([r], action) == if r.fact.action == action then Some(OrZero(r.fact.amount)) else None
  {
    assert [r][..0] == [];
  }

  lemma OneNote()
    ensures Sorted([Noted()]) == [Noted()] && Assignments([Noted()]) == []
    ensures ProofRecords([Noted()]) == Ok([]) && MilestoneRecords([Noted()]) == Ok([])
  {
    assert [Noted()][..0] == [];
    var empty: Tranches := Table([], map[]);
    assert Creations([Noted()]) == empty && StepsTaken(empty, [Noted()]) == Ok(empty) && empty.Values() == [];
    var none: Proofs := Table([], map[]);
    assert Submissions([Noted()]) == none && Decided(none, [Noted()]) == Ok(none) && none.Values() == [];
  }

  /**
   A history that ends by a settlement need not add up: this bag is accepted with 5
   funded, 5 settled and 1 refunded, because a refund that ends nothing is an
   annotation and no check looks at it.
   */
  lemma RefundBesideSettlement()
    ensures
      var bag := Moved() + [Noted()];
      && OneReceiptPerId(bag) && Reconstruct(bag).Ok? && Reconstruct(bag).value.fundedAmount == Some(5)
      && Reconstruct(bag).value.settledAmount == Some(5) && Reconstruct(bag).value.refundedAmount == Some(1)
  {
    hide IsHistory, Select, Moved, Noted, Ascending, DistinctIds, Drawn, Reconstruct, Assemble;
    var bag := Moved() + [Noted()];
    MovesAreOneHistory();
    BagIsInOrder();
    DistinctMeansOne(bag);
    var annotations := BagTakenApart(bag, bag);
    OneIsLeft(annotations, Moved(), Noted());
    TheSettlementStands();
  }

  lemma DistinctMeansOne(s: seq<Receipt>)
    requires DistinctIds(s)
    ensures OneReceiptPerId(s)
  {
  }

  lemma OneIsLeft(left: seq<Receipt>, path: seq<Receipt>, r: Receipt)
    requires multiset(path + left) == multiset(path + [r])
    ensures left == [r]
  {
    assert multiset(path + left) == multiset(path) + multiset(left);
    assert multiset(path + [r]) == multiset(path) + multiset{r};
    forall x ensures multiset(left)[x] == multiset{r}[x] {
      assert multiset(path + left)[x] == multiset(path + [r])[x];
    }
    assert multiset(left) == multiset{r};
    assert |left| == |multiset(left)| == 1;
    assert left[0] in multiset(left);
  }

  lemma TheSettlementStands()
    ensures
      var life := Assemble(Moved(), [Noted()]);
      && life.Ok? && life.value.fundedAmount == Some(5)
      && life.value.settledAmount == Some(5) && life.value.refundedAmount == Some(1)
  {
    FirstOfEach();
    PaymentsOf();
    OneNote();
    WhatTheySay();
    assert Home(Moved(), Noted()) == 3;
    hide Moved, Noted, FirstWith, PaidOut, Sorted, Assignments, ProofRecords, MilestoneRecords, Interleaved;
  }

  // ---- One event with two block times ----

  const UNTIMED := Envelope(OPENING, "escrow", "signature", 1, 0, None, None)
  const TIMED := Envelope(OPENING, "escrow", "signature", 1, 0, None, Some(7))

  function Opened(idOf: IdFunction, occurredAt: int): Receipt {
    Receipt(IdOf(idOf, UNTIMED), "escrow", Transition, FactOf(OPENING), occurredAt, "signature", 1, 0, None)
  }

  lemma OpeningIsAccepted(idOf: IdFunction, occurredAt: int)
    ensures Reconstruct([Opened(idOf, occurredAt)]).Ok?
  {
    var r := Opened(idOf, occurredAt);
    var bag := [r];
    assert bag[..0] == [] && Select(bag, Transition) == bag && IsHistory(bag);
    assert SameElements(bag, bag) && DistinctIds(bag) && Ascending(bag);
    assert r.fact.action == AGREEMENT_OPENED;
    hide IsHistory, Select, Opened, Assemble, Reconstruct, Drawn;
    var annotations := BagTakenApart(bag, bag);
    assert multiset(bag + annotations) == multiset(bag) + multiset(annotations);
    assert |multiset(annotations)| == 0;
    assert annotations == [];
    OpeningStands(r);
  }

  lemma OpeningStands(r: Receipt)
    requires r.fact.action == AGREEMENT_OPENED
    ensures Assemble([r], []).Ok?
  {
    assert [r] + [] == [r];
    NothingNoted();
    FirstWithIs([r], AGREEMENT_FUNDED);
    FirstWithIs([r], SETTLEMENT_EXECUTED);
    FirstWithIs([r], REFUND_EXECUTED);
    PaidOutExactlyWhen([r], SETTLEMENT_EXECUTED);
    PaidOutExactlyWhen([r], REFUND_EXECUTED);
    hide FirstWith, PaidOut, Sorted, Assignments, ProofRecords, MilestoneRecords, Interleaved, Home;
  }

  lemma NothingNoted()
    ensures Sorted([]) == [] && Assignments([]) == []
    ensures ProofRecords([]) == Ok([]) && MilestoneRecords([]) == Ok([])
  {
    var milestones: Tranches := Table([], map[]);
    assert Creations([]) == milestones && StepsTaken(milestones, []) == Ok(milestones) && milestones.Values() == [];
    var proofs: Proofs := Table([], map[]);
    assert Submissions([]) == proofs && Decided(proofs, []) == Ok(proofs) && proofs.Values() == [];
  }

  /**
   The same event with a block time and without: one receipt id, two receipts.
   Neither the store nor the reconstruction refuses them, and both answer by the
   order they came in.
   */
  lemma RedeliveryShows(idOf: IdFunction)
    ensures EscrowReceiptFromEvent(idOf, UNTIMED).Ok? && EscrowReceiptFromEvent(idOf, TIMED).Ok?
    ensures
      var r, s := EscrowReceiptFromEvent(idOf, UNTIMED).value, EscrowReceiptFromEvent(idOf, TIMED).value;
      var empty: Collection := Table([], map[]);
      && r.receiptId == s.receiptId && r.occurredAt != s.occurredAt
      && AllAdmitted(empty, [r, s]).Ok? && AllAdmitted(empty, [s, r]).Ok?
      && AllAdmitted(empty, [r, s]).value.at != AllAdmitted(empty, [s, r]).value.at
      && Reconstruct([r, s]).Ok? && Reconstruct([s, r]).Ok? && Reconstruct([r, s]) != Reconstruct([s, r])
  {
    var r, s := Opened(idOf, 0), Opened(idOf, 7);
    assert EscrowReceiptFromEvent(idOf, UNTIMED) == Ok(r) && EscrowReceiptFromEvent(idOf, TIMED) == Ok(s);
    assert r.receiptId == s.receiptId && r.fact == s.fact && r.occurredAt != s.occurredAt;
    OpeningIsAccepted(idOf, 0);
    OpeningIsAccepted(idOf, 7);
    hide Opened, EscrowReceiptFromEvent;
    FirstIsHeld(r, s);
    FirstIsHeld(s, r);
    LastIsKept(r, s);
    LastIsKept(s, r);
    if Reconstruct([r, s]) == Reconstruct([s, r]) {
      SameAnswerSameKept([r, s], [s, r]);
    }
  }

  lemma FirstIsHeld(r: Receipt, s: Receipt)
    requires r.receiptId == s.receiptId && r.fact == s.fact
    ensures AllAdmitted(Table([], map[]), [r, s]).Ok?
    ensures
      var at := AllAdmitted(Table([], map[]), [r, s]).value.at;
      r.receiptId in at && at[r.receiptId] == r
  {
    StoreHoldsExactly([r, s]);
    assert FirstOfId([r, s], 0);
    hide AllAdmitted;
  }

  lemma LastIsKept(r: Receipt, s: Receipt)
    requires r.receiptId == s.receiptId && r.fact == s.fact && Reconstruct([s]).Ok?
    ensures Reconstruct([r, s]) == Reconstruct([s])
    ensures Collected([r, s]).Ok?
    ensures
      var at := Collected([r, s]).value.at;
      s.receiptId in at && at[s.receiptId] == s
  {
    hide Reconstruct, Collected;
    CollectedExactlyWhen([r, s]);
    CollectedExactlyWhen([s]);
    assert LastOfId([r, s], 1) && LastOfId([s], 0) && s in [s];
    var c, d := Collected([r, s]).value.at, Collected([s]).value.at;
    assert forall id :: id in c ==> id == s.receiptId;
    assert forall id :: id in d ==> id == s.receiptId;
    OnlyTheKeptMatter([r, s], [s]);
  }
}
