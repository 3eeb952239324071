/** What whole runs guarantee the parties. */
module KernelOutcomes {
  import opened Wrappers
  import opened Keys
  import opened EscrowState
  import opened EscrowKernel
  import opened KernelFrames
  import opened KernelBooks
  import opened KernelCustody

  // ---- Frozen identity ----

  lemma StepKeepsTerms(w: Ledger, t: Tick, key: Pubkey)
    requires key in w.agreements
    ensures key in After(w, t).agreements && KeepsTerms(w.agreements[key], After(w, t).agreements[key])
  {
    if Step(w, t.ix, t.now).Ok? && KeyOf(t.ix) != Some(key) {
      OtherAgreementsUntouched(w, t.ix, t.now, key);
    }
  }

  /** An agreement read early in a run and again later: the same terms, and the payee rule over any number of steps. */
  predicate Frozen(a: Agreement, b: Agreement) {
    && b.creator == a.creator && b.agreementId == a.agreementId && b.agreementType == a.agreementType
    && b.mint == a.mint && b.vault == a.vault && b.amount == a.amount && b.termsHash == a.termsHash
    && a.settledTotal <= b.settledTotal
    && (b.counterparty != a.counterparty ==>
          && a.counterparty == Default && b.counterparty != a.creator
          && a.agreementType == Bounty && (a.state == Open || a.state == Funded))
    && (b.state == a.state || Rank(a.state) < Rank(b.state))
    && (IsTerminal(a.state) ==> b.settledTotal == a.settledTotal)
  }

  /**
   Over every run the terms of an agreement never change, its payee changes at
   most once (from nobody, for a bounty still open or funded), its state only moves
   on, and a terminal state is final.
   */
  lemma {:induction false} TermsAreFrozen(start: Ledger, ticks: seq<Tick>, more: seq<Tick>, key: Pubkey)
    requires key in Run(start, ticks).agreements
    ensures key in Run(start, ticks + more).agreements
    ensures Frozen(Run(start, ticks).agreements[key], Run(start, ticks + more).agreements[key])
    decreases |more|
  {
    hide After;
    if more == [] {
      assert ticks + more == ticks;
    } else {
      var init := more[..|more| - 1];
      var t := more[|more| - 1];
      assert (ticks + more)[..|ticks + more| - 1] == ticks + init;
      TermsAreFrozen(start, ticks, init, key);
      StepKeepsTerms(Run(start, ticks + init), t, key);
    }
  }

  /**
   Once an agreement is past the point where a payee may be named, it has one, and
   it is not the buyer. A milestone contract is never Completed.
   */
  lemma PayeeIsKnownInTime(start: Ledger, ticks: seq<Tick>, key: Pubkey)
    requires Genesis(start) && key in Run(start, ticks).agreements
    ensures
      var a := Run(start, ticks).agreements[key];
      var pastNaming := a.state == Completed || a.state == Disputed || a.state == AgreementState.Settled
                        || a.state == Refunded;
      && a.counterparty != a.creator
      && (pastNaming ==> HasCounterparty(a))
      && (a.agreementType == MilestoneContract ==> a.state != Completed)
      && (a.state == AgreementState.Settled || a.state == Refunded ==> a.settledTotal == a.amount)
  {
    RunKeepsBooks(start, ticks);
    assert BooksSound(Run(start, ticks).milestones, key, Run(start, ticks).agreements[key]);
  }

  // ---- Isolation between vaults ----

  /**
   A step on one agreement leaves every other vault exactly as it was, unless it
   is a payout whose destination is that very vault. That can only happen to an
   agreement whose payee is the other agreement's vault authority.
   */
  lemma OtherVaultUnchangedExactlyWhen(w: Ledger, ix: Instruction, now: int, other: Pubkey, gifts: nat)
    requires AllBooksSound(w) && ix.OnAgreement? && Step(w, ix, now).Ok?
    requires other != ix.agreement && VaultSound(w, other, gifts)
    ensures
      var v := Step(w, ix, now).value.ledger;
      var intoIt := IsPayout(ix.action) && ix.action.destination == VaultToken(other);
      && (SameEntry(w.tokens, v.tokens, VaultToken(other)) <==> !intoIt)
      && (intoIt ==> w.agreements[ix.agreement].counterparty == VaultAuthority(other))
  {
    var a := w.agreements[ix.agreement];
    var c := Act(w, ix.agreement, a, ix.signer, ix.action, now).value;
    ActionEffect(w, ix.agreement, a, ix.signer, ix.action, now);
    IsolatedUnlessPaid(w, ix.agreement, a, ix.signer, ix.action, c, other, gifts);
  }

  lemma IsolatedUnlessPaid(w: Ledger, key: Pubkey, a: Agreement, signer: Pubkey, action: Action, c: Change,
                           other: Pubkey, gifts: nat)
    requires OwnEffect(w, key, a, signer, action, c) && CanSign(signer) && CanSign(a.creator)
    requires other != key && VaultSound(w, other, gifts)
    ensures
      var intoIt := IsPayout(action) && action.destination == VaultToken(other);
      && (SameEntry(w.tokens, c.tokens, VaultToken(other)) <==> !intoIt)
      && (intoIt ==> a.counterparty == VaultAuthority(other))
  {
  }

  // A run that shows the exception is real: the buyer of one agreement names another
  // agreement's vault authority as its payee, disputes, and concedes into that vault.

  const MINT := Wallet(99)
  const GIVER := AgreementPda(Wallet(0), 0)
  const TAKER := AgreementPda(Wallet(1), 0)

  function GiftStart(): Ledger {
    Ledger(map[], map[], map[], map[], map[Wallet(10) := TokenAccount(MINT, Wallet(0), 5)])
  }

  function GiftRun(): seq<Tick> {
    [Tick(InitializeAgreement(Wallet(1), 0, MINT, Wallet(2), Escrow, 1, 1), 0),
     Tick(InitializeAgreement(Wallet(0), 0, MINT, VaultAuthority(TAKER), Escrow, 5, 1), 0),
     Tick(OnAgreement(Wallet(0), GIVER, Fund(Wallet(10))), 0),
     Tick(OnAgreement(Wallet(0), GIVER, OpenDispute(1)), 0),
     Tick(OnAgreement(Wallet(0), GIVER, ResolveDispute(VaultToken(TAKER))), 0)]
  }

  lemma GiftOpened()
    ensures
      var w := Run(GiftStart(), GiftRun()[..2]);
      && TAKER in w.agreements && GIVER in w.agreements
      && w.agreements[GIVER] == GiverIn(Open, Default)
      && w.tokens == map[Wallet(10) := TokenAccount(MINT, Wallet(0), 5),
                         VaultToken(TAKER) := TokenAccount(MINT, VaultAuthority(TAKER), 0),
                         VaultToken(GIVER) := TokenAccount(MINT, VaultAuthority(GIVER), 0)]
  {
    hide Act;
    var ticks := GiftRun();
    assert ticks[..2][..1] == ticks[..1];
    assert ticks[..1][..0] == [];
    assert Run(GiftStart(), []) == GiftStart();
    assert Run(GiftStart(), ticks[..1]) == After(GiftStart(), ticks[0]);
    assert Run(GiftStart(), ticks[..2]) == After(After(GiftStart(), ticks[0]), ticks[1]);
  }

  function GiverIn(state: AgreementState, openedBy: Pubkey): Agreement {
    Agreement(Wallet(0), VaultAuthority(TAKER), 0, Escrow, MINT, VaultToken(GIVER), 5, 1,
              state, 0, 0, 0, 0, 0, Default, openedBy, 0, 0, 0, 0, 0)
  }

  lemma GiftFunded()
    ensures
      var w := Run(GiftStart(), GiftRun()[..3]);
      && TAKER in w.agreements && GIVER in w.agreements
      && w.agreements[GIVER] == GiverIn(Funded, Default)
      && w.tokens == map[Wallet(10) := TokenAccount(MINT, Wallet(0), 0),
                         VaultToken(TAKER) := TokenAccount(MINT, VaultAuthority(TAKER), 0),
                         VaultToken(GIVER) := TokenAccount(MINT, VaultAuthority(GIVER), 5)]
  {
    hide Act, After;
    var ticks := GiftRun();
    GiftOpened();
    assert ticks[..3][..2] == ticks[..2];
    var w := Run(GiftStart(), ticks[..2]);
    assert FundSpec(w, GIVER, w.agreements[GIVER], Wallet(0), Wallet(10), 0).Ok?;
    AfterFund(w, Wallet(0), GIVER, Wallet(10), 0);
  }

  lemma GiftDisputed()
    ensures
      var w := Run(GiftStart(), GiftRun()[..4]);
      && TAKER in w.agreements && GIVER in w.agreements
      && w.agreements[GIVER] == GiverIn(Disputed, Wallet(0))
      && w.tokens == map[Wallet(10) := TokenAccount(MINT, Wallet(0), 0),
                         VaultToken(TAKER) := TokenAccount(MINT, VaultAuthority(TAKER), 0),
                         VaultToken(GIVER) := TokenAccount(MINT, VaultAuthority(GIVER), 5)]
  {
    hide Act, After;
    var ticks := GiftRun();
    GiftFunded();
    assert ticks[..4][..3] == ticks[..3];
    var w := Run(GiftStart(), ticks[..3]);
    assert OpenDisputeSpec(w, GIVER, w.agreements[GIVER], Wallet(0), 1, 0).Ok?;
    AfterDispute(w, Wallet(0), GIVER, 1, 0);
  }

  // An accepted action takes the ledger to the one it commits.

  lemma AfterFund(w: Ledger, signer: Pubkey, key: Pubkey, source: Pubkey, now: int)
    requires CanSign(signer) && LoadAgreement(w, key).Ok?
    requires FundSpec(w, key, w.agreements[key], signer, source, now).Ok?
    ensures After(w, Do(signer, key, Fund(source), now))
              == Commit(w, key, FundSpec(w, key, w.agreements[key], signer, source, now).value).ledger
  {
    hide FundSpec;
  }

  lemma AfterDispute(w: Ledger, signer: Pubkey, key: Pubkey, reasonHash: Hash, now: int)
    requires CanSign(signer) && LoadAgreement(w, key).Ok?
    requires OpenDisputeSpec(w, key, w.agreements[key], signer, reasonHash, now).Ok?
    ensures After(w, Do(signer, key, OpenDispute(reasonHash), now))
              == Commit(w, key, OpenDisputeSpec(w, key, w.agreements[key], signer, reasonHash, now).value).ledger
  {
    hide OpenDisputeSpec;
  }

  lemma AfterResolve(w: Ledger, signer: Pubkey, key: Pubkey, destination: Pubkey, now: int)
    requires CanSign(signer) && LoadAgreement(w, key).Ok?
    requires ResolveDisputeSpec(w, key, w.agreements[key], signer, destination, now).Ok?
    ensures After(w, Do(signer, key, ResolveDispute(destination), now))
              == Commit(w, key, ResolveDisputeSpec(w, key, w.agreements[key], signer, destination, now).value).ledger
  {
    hide ResolveDisputeSpec;
  }

  /**
   The exception happens: at the end of this run a payout of 5 sits in the vault
   of an agreement that took no part in it.
   */
  lemma PayoutCanReachAnotherVault()
    ensures Genesis(GiftStart())
    ensures
      var before := Run(GiftStart(), GiftRun()[..4]);
      var after := Run(GiftStart(), GiftRun());
      && !SameEntry(before.tokens, after.tokens, VaultToken(TAKER))
      && VaultHolds(after.tokens, TAKER, MINT, 5)
  {
    GenesisIsBounded();
    GiftDisputed();
    var ticks := GiftRun();
    assert ticks[..|ticks| - 1] == ticks[..4];
    var w := Run(GiftStart(), ticks[..4]);
    GiftIsPaid(w);
    hide Act, After, ResolveDisputeSpec, Genesis, GiftStart, GiverIn;
    AfterResolve(w, Wallet(0), GIVER, VaultToken(TAKER), 0);
  }

  lemma GiftIsPaid(w: Ledger)
    requires GIVER in w.agreements && w.agreements[GIVER] == GiverIn(Disputed, Wallet(0))
    requires w.tokens == map[Wallet(10) := TokenAccount(MINT, Wallet(0), 0),
                             VaultToken(TAKER) := TokenAccount(MINT, VaultAuthority(TAKER), 0),
                             VaultToken(GIVER) := TokenAccount(MINT, VaultAuthority(GIVER), 5)]
    ensures
      var r := ResolveDisputeSpec(w, GIVER, w.agreements[GIVER], Wallet(0), VaultToken(TAKER), 0);
      && LoadAgreement(w, GIVER).Ok? && CanSign(Wallet(0)) && r.Ok? && VaultHolds(r.value.tokens, TAKER, MINT, 5)
  {
  }

  lemma GenesisIsBounded()
    ensures Genesis(GiftStart())
  {
    var tokens := GiftStart().tokens;
    forall mint ensures Supply(tokens, mint) <= U64_MAX {
      SupplyWithout(tokens, mint, Wallet(10));
      assert tokens - {Wallet(10)} == map[];
    }
  }

  // ---- No stranded custody ----

  /** Money can be sent to `account` on behalf of `owner` for agreement `key`. */
  predicate CanReceive(w: Ledger, key: Pubkey, account: Pubkey, owner: Pubkey)
    requires key in w.agreements
  {
    && account in w.tokens && account != VaultToken(key)
    && w.tokens[account].owner == owner && w.tokens[account].mint == w.agreements[key].mint
  }

  /** A vault that holds what is owed can pay any part of it into another account: nothing overflows. */
  lemma PayoutGoesThrough(w: Ledger, key: Pubkey, account: Pubkey, owner: Pubkey, gifts: nat, amount: nat)
    requires key in w.agreements && VaultSound(w, key, gifts)
    requires CanReceive(w, key, account, owner)
    requires amount <= Owed(w.agreements[key])
    requires Supply(w.tokens, w.agreements[key].mint) <= U64_MAX
    ensures PayOutOfVault(w.tokens, key, w.agreements[key].mint, account, amount).Ok?
  {
    TwoAccountsWithinSupply(w.tokens, VaultToken(key), account);
  }

  /** A ledger in which custody is in order for one agreement. */
  ghost predicate Ready(w: Ledger, key: Pubkey) {
    && AllBooksSound(w) && key in w.agreements
    && (exists gifts: nat :: VaultSound(w, key, gifts))
    && Supply(w.tokens, w.agreements[key].mint) <= U64_MAX
  }

  lemma ReachableIsReady(start: Ledger, ticks: seq<Tick>, key: Pubkey)
    requires Genesis(start) && key in Run(start, ticks).agreements
    ensures Ready(Run(start, ticks), key)
  {
    RunKeepsBooks(start, ticks);
    CustodyEquation(start, ticks, key);
    RunConservesSupply(start, ticks, Run(start, ticks).agreements[key].mint);
  }

  function Do(signer: Pubkey, key: Pubkey, action: Action, now: int): Tick {
    Tick(OnAgreement(signer, key, action), now)
  }

  lemma CancelEnds(w: Ledger, key: Pubkey, now: int)
    requires Ready(w, key) && w.agreements[key].state == Open
    ensures
      var v := After(w, Do(w.agreements[key].creator, key, Cancel, now));
      key in v.agreements && v.agreements[key].state == Cancelled
  {
    hide CancelSpec, Ready, LoadAgreement;
    CancelAccepted(w, key, now);
  }

  lemma CancelAccepted(w: Ledger, key: Pubkey, now: int)
    requires Ready(w, key) && w.agreements[key].state == Open
    ensures
      var a := w.agreements[key];
      var r := CancelSpec(w, key, a, a.creator, now);
      CanSign(a.creator) && LoadAgreement(w, key) == Ok(a) && r.Ok? && r.value.agreement.state == Cancelled
  {
    assert BooksSound(w.milestones, key, w.agreements[key]);
  }

  /** The seller gives the money back. */
  lemma RefundEnds(w: Ledger, key: Pubkey, account: Pubkey, now: int)
    requires Ready(w, key) && HasCounterparty(w.agreements[key]) && CanSign(w.agreements[key].counterparty)
    requires w.agreements[key].state == Funded || w.agreements[key].state == Completed
    requires CanReceive(w, key, account, w.agreements[key].creator)
    ensures
      var v := After(w, Do(w.agreements[key].counterparty, key, Refund(account), now));
      key in v.agreements && v.agreements[key].state == Refunded
  {
    hide RefundSpec, Ready, CanReceive, LoadAgreement;
    RefundAccepted(w, key, account, now);
  }

  lemma RefundAccepted(w: Ledger, key: Pubkey, account: Pubkey, now: int)
    requires Ready(w, key) && HasCounterparty(w.agreements[key])
    requires w.agreements[key].state == Funded || w.agreements[key].state == Completed
    requires CanReceive(w, key, account, w.agreements[key].creator)
    ensures
      var a := w.agreements[key];
      var r := RefundSpec(w, key, a, a.counterparty, account, now);
      LoadAgreement(w, key) == Ok(a) && r.Ok? && r.value.agreement.state == Refunded
  {
    var a := w.agreements[key];
    assert BooksSound(w.milestones, key, a);
    var gifts: nat :| VaultSound(w, key, gifts);
    PayoutGoesThrough(w, key, account, a.creator, gifts, Remaining(a));
  }

  /** A party concedes an open dispute: the other one is made whole. */
  lemma ConcessionEnds(w: Ledger, key: Pubkey, signer: Pubkey, beneficiary: Pubkey, account: Pubkey, now: int)
    requires Ready(w, key) && w.agreements[key].state == Disputed
    requires IsParty(w.agreements[key], signer) && IsParty(w.agreements[key], beneficiary)
    requires signer != beneficiary && CanSign(signer)
    requires CanReceive(w, key, account, beneficiary)
    ensures
      var a := w.agreements[key];
      var v := After(w, Do(signer, key, ResolveDispute(account), now));
      && key in v.agreements
      && v.agreements[key].state == (if beneficiary == a.counterparty then AgreementState.Settled else Refunded)
  {
    hide ResolveDisputeSpec, Ready, CanReceive, LoadAgreement;
    ConcessionAccepted(w, key, signer, beneficiary, account, now);
  }

  lemma ConcessionAccepted(w: Ledger, key: Pubkey, signer: Pubkey, beneficiary: Pubkey, account: Pubkey, now: int)
    requires Ready(w, key) && w.agreements[key].state == Disputed
    requires IsParty(w.agreements[key], signer) && IsParty(w.agreements[key], beneficiary)
    requires signer != beneficiary
    requires CanReceive(w, key, account, beneficiary)
    ensures
      var a := w.agreements[key];
      var r := ResolveDisputeSpec(w, key, a, signer, account, now);
      && LoadAgreement(w, key) == Ok(a) && r.Ok?
      && r.value.agreement.state == (if beneficiary == a.counterparty then AgreementState.Settled else Refunded)
  {
    var a := w.agreements[key];
    assert BooksSound(w.milestones, key, a);
    hide AllBooksSound, ScheduleSound, Supply;
    var gifts: nat :| VaultSound(w, key, gifts);
    PayoutGoesThrough(w, key, account, beneficiary, gifts, Remaining(a));
    hide PayOutOfVault, VaultHolds, BooksSound;
  }

  lemma QuietStepKeepsVault(w: Ledger, t: Tick, gifts: nat)
    requires t.ix.OnAgreement? && !MovesTokens(t.ix.action) && Step(w, t.ix, t.now).Ok?
    requires VaultSound(w, t.ix.agreement, gifts)
    requires BooksSound(w.milestones, t.ix.agreement, w.agreements[t.ix.agreement])
    ensures VaultSound(After(w, t), t.ix.agreement, gifts) && After(w, t).tokens == w.tokens
    ensures t.ix.agreement in After(w, t).agreements
    ensures After(w, t).agreements[t.ix.agreement].mint == w.agreements[t.ix.agreement].mint
  {
    hide Act, BooksSound;
    var key := t.ix.agreement;
    ActionEffect(w, key, w.agreements[key], t.ix.signer, t.ix.action, t.now);
  }

  /** An action that moves no tokens leaves custody in order. */
  lemma ReadyParts(w: Ledger, key: Pubkey) returns (gifts: nat)
    requires Ready(w, key)
    ensures AllBooksSound(w) && key in w.agreements && BooksSound(w.milestones, key, w.agreements[key])
    ensures VaultSound(w, key, gifts) && Supply(w.tokens, w.agreements[key].mint) <= U64_MAX
  {
    assert BooksSound(w.milestones, key, w.agreements[key]);
    hide BooksSound, VaultSound, Supply;
    gifts :| VaultSound(w, key, gifts);
  }

  lemma ReadyWhen(w: Ledger, key: Pubkey, gifts: nat)
    requires AllBooksSound(w) && VaultSound(w, key, gifts) && Supply(w.tokens, w.agreements[key].mint) <= U64_MAX
    ensures Ready(w, key)
  {
    hide AllBooksSound, VaultHolds, Supply;
  }

  lemma QuietStepStaysReady(w: Ledger, t: Tick)
    requires t.ix.OnAgreement? && Ready(w, t.ix.agreement) && !MovesTokens(t.ix.action)
    requires Step(w, t.ix, t.now).Ok?
    ensures Ready(After(w, t), t.ix.agreement) && After(w, t).tokens == w.tokens
  {
    hide *;
    var gifts := ReadyParts(w, t.ix.agreement);
    KeepBooks(w, t);
    QuietStepKeepsVault(w, t, gifts);
    ReadyWhen(After(w, t), t.ix.agreement, gifts);
  }

  lemma DisputeAccepted(w: Ledger, key: Pubkey, signer: Pubkey, now: int)
    requires Ready(w, key) && HasCounterparty(w.agreements[key])
    requires w.agreements[key].state == Funded || w.agreements[key].state == Completed
    requires IsParty(w.agreements[key], signer)
    ensures
      var a := w.agreements[key];
      var r := OpenDisputeSpec(w, key, a, signer, 1, now);
      && LoadAgreement(w, key) == Ok(a) && r.Ok?
      && r.value.agreement == a.(state := Disputed, disputeOpenedBy := signer, stateChangedAt := now)
  {
    assert BooksSound(w.milestones, key, w.agreements[key]);
  }

  /** A party halts the normal path; the money stays where it is. */
  lemma DisputeOpens(w: Ledger, key: Pubkey, signer: Pubkey, now: int)
    requires Ready(w, key) && HasCounterparty(w.agreements[key])
    requires w.agreements[key].state == Funded || w.agreements[key].state == Completed
    requires IsParty(w.agreements[key], signer) && CanSign(signer)
    ensures
      var v := After(w, Do(signer, key, OpenDispute(1), now));
      && Ready(v, key) && v.tokens == w.tokens
      && v.agreements[key]
           == w.agreements[key].(state := Disputed, disputeOpenedBy := signer, stateChangedAt := now)
  {
    hide OpenDisputeSpec, Ready, LoadAgreement;
    DisputeAccepted(w, key, signer, now);
    QuietStepStaysReady(w, Do(signer, key, OpenDispute(1), now));
  }

  lemma KeepBooks(w: Ledger, t: Tick)
    requires AllBooksSound(w) && t.ix.OnAgreement?
    ensures AllBooksSound(After(w, t))
  {
    if Step(w, t.ix, t.now).Ok? {
      var v := After(w, t);
      forall key | key in v.agreements ensures BooksSound(v.milestones, key, v.agreements[key]) {
        if key != t.ix.agreement {
          OtherAgreementsUntouched(w, t.ix, t.now, key);
          BooksAreLocal(w, v, key);
        } else {
          ActionKeepsBooks(w, key, t.ix.signer, t.ix.action, t.now);
        }
      }
    }
  }

  lemma SelectionAccepted(w: Ledger, key: Pubkey, winner: Pubkey, now: int)
    requires Ready(w, key) && !HasCounterparty(w.agreements[key]) && w.agreements[key].state == Funded
    requires CanSign(winner) && winner != w.agreements[key].creator
    ensures
      var a := w.agreements[key];
      var r := SelectCounterpartySpec(w, key, a, a.creator, winner, now);
      && LoadAgreement(w, key) == Ok(a) && r.Ok?
      && r.value.agreement == a.(counterparty := winner, stateChangedAt := now)
  {
    assert BooksSound(w.milestones, key, w.agreements[key]);
  }

  /** The sponsor names a winner; nothing else moves. */
  lemma SelectionNames(w: Ledger, key: Pubkey, winner: Pubkey, now: int)
    requires Ready(w, key) && !HasCounterparty(w.agreements[key]) && w.agreements[key].state == Funded
    requires CanSign(winner) && winner != w.agreements[key].creator
    ensures
      var v := After(w, Do(w.agreements[key].creator, key, SelectCounterparty(winner), now));
      && Ready(v, key) && v.tokens == w.tokens
      && v.agreements[key] == w.agreements[key].(counterparty := winner, stateChangedAt := now)
  {
    hide SelectCounterpartySpec;
    assert BooksSound(w.milestones, key, w.agreements[key]);
    SelectionAccepted(w, key, winner, now);
    QuietStepStaysReady(w, Do(w.agreements[key].creator, key, SelectCounterparty(winner), now));
  }

  ghost predicate EndsWithNothingOwed(w: Ledger, key: Pubkey) {
    && key in w.agreements && IsTerminal(w.agreements[key].state)
    && Owed(w.agreements[key]) == 0
  }

  /**
   The buyer alone can bring every funded agreement that has a payee to an end, in
   two steps at most, by disputing and conceding. The payee need not be able to sign.
   */
  lemma BuyerCanAlwaysEndIt(start: Ledger, ticks: seq<Tick>, key: Pubkey, sellerAccount: Pubkey, now: int)
    returns (steps: seq<Tick>)
    requires Genesis(start) && key in Run(start, ticks).agreements
    requires
      var a := Run(start, ticks).agreements[key];
      && !IsTerminal(a.state) && (a.state != Open ==> HasCounterparty(a))
      && (a.state != Open ==> CanReceive(Run(start, ticks), key, sellerAccount, a.counterparty))
    ensures |steps| <= 2
    ensures forall t :: t in steps ==> t.ix.OnAgreement? && t.ix.agreement == key
                                       && t.ix.signer == Run(start, ticks).agreements[key].creator
    ensures EndsWithNothingOwed(Run(start, ticks + steps), key)
  {
    hide After, Run;
    ReachableIsReady(start, ticks, key);
    var w := Run(start, ticks);
    var a := w.agreements[key];
    if a.state == Open {
      steps := [Do(a.creator, key, Cancel, now)];
      CancelEnds(w, key, now);
      OneMore(start, ticks, steps[0]);
    } else if a.state == Disputed {
      steps := [Do(a.creator, key, ResolveDispute(sellerAccount), now)];
      BuyerConcedes(w, key, sellerAccount, now);
      OneMore(start, ticks, steps[0]);
    } else {
      steps := [Do(a.creator, key, OpenDispute(1), now), Do(a.creator, key, ResolveDispute(sellerAccount), now)];
      BuyerDisputesAndConcedes(w, key, sellerAccount, now);
      TwoMore(start, ticks, steps[0], steps[1]);
    }
  }

  lemma BuyerConcedes(w: Ledger, key: Pubkey, sellerAccount: Pubkey, now: int)
    requires Ready(w, key) && w.agreements[key].state == Disputed
    requires CanReceive(w, key, sellerAccount, w.agreements[key].counterparty)
    ensures EndsWithNothingOwed(After(w, Do(w.agreements[key].creator, key, ResolveDispute(sellerAccount), now)), key)
  {
    hide After;
    var a := w.agreements[key];
    assert BooksSound(w.milestones, key, a);
    ConcessionEnds(w, key, a.creator, a.counterparty, sellerAccount, now);
  }

  lemma BuyerDisputesAndConcedes(w: Ledger, key: Pubkey, sellerAccount: Pubkey, now: int)
    requires Ready(w, key) && HasCounterparty(w.agreements[key])
    requires w.agreements[key].state == Funded || w.agreements[key].state == Completed
    requires CanReceive(w, key, sellerAccount, w.agreements[key].counterparty)
    ensures
      var creator := w.agreements[key].creator;
      var v := After(w, Do(creator, key, OpenDispute(1), now));
      EndsWithNothingOwed(After(v, Do(creator, key, ResolveDispute(sellerAccount), now)), key)
  {
    hide After;
    assert BooksSound(w.milestones, key, w.agreements[key]);
    var creator := w.agreements[key].creator;
    DisputeOpens(w, key, creator, now);
    BuyerConcedes(After(w, Do(creator, key, OpenDispute(1), now)), key, sellerAccount, now);
  }

  /**
   A funded bounty nobody has claimed is not stuck either: its sponsor names a
   wallet, and that wallet gives the money back.
   */
  lemma UnclaimedBountyCanBeEnded(start: Ledger, ticks: seq<Tick>, key: Pubkey, winner: Pubkey,
                                  buyerAccount: Pubkey, now: int)
    returns (steps: seq<Tick>)
    requires Genesis(start) && key in Run(start, ticks).agreements
    requires
      var a := Run(start, ticks).agreements[key];
      && a.state == Funded && !HasCounterparty(a)
      && CanSign(winner) && winner != a.creator
      && CanReceive(Run(start, ticks), key, buyerAccount, a.creator)
    ensures |steps| == 2
    ensures steps[0].ix == OnAgreement(Run(start, ticks).agreements[key].creator, key, SelectCounterparty(winner))
    ensures steps[1].ix.OnAgreement? && steps[1].ix.signer == winner
    ensures EndsWithNothingOwed(Run(start, ticks + steps), key)
  {
    hide After, Run, Genesis, Ready;
    ReachableIsReady(start, ticks, key);
    var w := Run(start, ticks);
    var a := w.agreements[key];
    var name := Do(a.creator, key, SelectCounterparty(winner), now);
    var giveBack := Do(winner, key, Refund(buyerAccount), now);
    steps := [name, giveBack];
    SelectionNames(w, key, winner, now);
    RefundEnds(After(w, name), key, buyerAccount, now);
    TwoMore(start, ticks, name, giveBack);
  }

  /** The seller alone can always give everything back, in one step. */
  lemma SellerCanAlwaysGiveBack(start: Ledger, ticks: seq<Tick>, key: Pubkey, buyerAccount: Pubkey, now: int)
    returns (step: Tick)
    requires Genesis(start) && key in Run(start, ticks).agreements
    requires
      var a := Run(start, ticks).agreements[key];
      && IsLive(a.state) && CanSign(a.counterparty)
      && CanReceive(Run(start, ticks), key, buyerAccount, a.creator)
    ensures step.ix.OnAgreement? && step.ix.signer == Run(start, ticks).agreements[key].counterparty
    ensures EndsWithNothingOwed(Run(start, ticks + [step]), key)
    ensures Run(start, ticks + [step]).agreements[key].state == Refunded
  {
    hide After, Run;
    ReachableIsReady(start, ticks, key);
    var w := Run(start, ticks);
    var a := w.agreements[key];
    assert BooksSound(w.milestones, key, a);
    if a.state == Disputed {
      step := Do(a.counterparty, key, ResolveDispute(buyerAccount), now);
      ConcessionEnds(w, key, a.counterparty, a.creator, buyerAccount, now);
    } else {
      step := Do(a.counterparty, key, Refund(buyerAccount), now);
      RefundEnds(w, key, buyerAccount, now);
    }
    OneMore(start, ticks, step);
  }

  lemma OneMore(start: Ledger, ticks: seq<Tick>, t: Tick)
    ensures Run(start, ticks + [t]) == After(Run(start, ticks), t)
  {
    assert (ticks + [t])[..|ticks + [t]| - 1] == ticks;
  }

  lemma TwoMore(start: Ledger, ticks: seq<Tick>, t: Tick, u: Tick)
    ensures Run(start, ticks + [t, u]) == After(After(Run(start, ticks), t), u)
  {
    OneMore(start, ticks, t);
    OneMore(start, ticks + [t], u);
    assert ticks + [t] + [u] == ticks + [t, u];
  }

  // ---- A tranche to be redone ----

  function Submits(seller: Pubkey, key: Pubkey, address: Pubkey): Instruction {
    OnAgreement(seller, key, SubmitMilestone(address))
  }

  function Rejects(buyer: Pubkey, key: Pubkey, address: Pubkey): Instruction {
    OnAgreement(buyer, key, RejectMilestone(address))
  }

  lemma SubmissionLeaves(w: Ledger, key: Pubkey, seller: Pubkey, address: Pubkey, now: int)
    requires Step(w, Submits(seller, key, address), now).Ok?
    ensures
      var v := Step(w, Submits(seller, key, address), now).value.ledger;
      && LoadAgreement(w, key).Ok? && LoadMilestone(w, key, address).Ok? && CanSign(seller)
      && RequireMilestoneActive(w.agreements[key]).Pass?
      && RequireSubmittable(w.milestones[address], w.agreements[key], key, seller).Pass?
      && v == w.(milestones := w.milestones[address := w.milestones[address].(state := MilestoneState.Submitted,
                                                                              submittedAt := now)])
  {
    var v := Step(w, Submits(seller, key, address), now).value.ledger;
    assert v.agreements == w.agreements;
  }

  /**
   A rejection undoes the submission it answers. It is open to the buyer as soon as
   the tranche is submitted, it leaves the ledger as it was before the submission
   but for the time noted on the tranche, and the seller may submit again at once.
   */
  lemma RejectionUndoesSubmission(w: Ledger, key: Pubkey, seller: Pubkey, address: Pubkey, submitted: int,
                                  rejected: int, again: int)
    requires Step(w, Submits(seller, key, address), submitted).Ok?
    requires CanSign(w.agreements[key].creator)
    ensures
      var v := Step(w, Submits(seller, key, address), submitted).value.ledger;
      var back := Step(v, Rejects(w.agreements[key].creator, key, address), rejected);
      && back.Ok?
      && back.value.ledger == w.(milestones := w.milestones[address := w.milestones[address].(submittedAt := rejected)])
      && Step(back.value.ledger, Submits(seller, key, address), again).Ok?
  {
    SubmissionLeaves(w, key, seller, address, submitted);
    var v := Step(w, Submits(seller, key, address), submitted).value.ledger;
    var m := v.milestones[address].(state := Pending, submittedAt := rejected);
    var u := w.(milestones := w.milestones[address := w.milestones[address].(submittedAt := rejected)]);
    var buyer := w.agreements[key].creator;
    assert RejectMilestoneSpec(v, key, v.agreements[key], buyer, address, rejected).Ok?;
    assert v.milestones[address := m] == u.milestones && v.agreements[key := v.agreements[key]] == u.agreements;
    assert SubmitMilestoneSpec(u, key, u.agreements[key], seller, address, again).Ok?;
  }
}
