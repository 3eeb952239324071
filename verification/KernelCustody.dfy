/** Where the tokens are: every vault holds what its agreement still owes, plus gifts. */
module KernelCustody {
  import opened Wrappers
  import opened Keys
  import opened EscrowState
  import opened EscrowKernel
  import opened KernelFrames
  import opened KernelBooks

  type Tokens = map<Pubkey, TokenAccount>

  // ---- Conservation ----

  lemma {:induction false} SupplyWithout(tokens: Tokens, mint: Pubkey, k: Pubkey)
    requires k in tokens
    ensures Supply(tokens, mint) == HeldIn(tokens[k], mint) + Supply(tokens - {k}, mint)
    decreases |tokens|
  {
    var p :| p in tokens && Supply(tokens, mint) == HeldIn(tokens[p], mint) + Supply(tokens - {p}, mint);
    if p != k {
      SupplyWithout(tokens - {p}, mint, k);
      SupplyWithout(tokens - {k}, mint, p);
      assert tokens - {p} - {k} == tokens - {k} - {p};
    }
  }

  lemma SupplyOfUpdate(tokens: Tokens, mint: Pubkey, k: Pubkey, t: TokenAccount)
    ensures Supply(tokens[k := t], mint) == HeldIn(t, mint) + Supply(tokens - {k}, mint)
  {
    SupplyWithout(tokens[k := t], mint, k);
    assert tokens[k := t] - {k} == tokens - {k};
  }

  lemma MovedConservesSupply(tokens: Tokens, from: Pubkey, to: Pubkey, amount: nat, mint: Pubkey)
    requires from in tokens && to in tokens && from != to && amount <= tokens[from].amount
    requires tokens[from].mint == tokens[to].mint
    ensures Supply(Moved(tokens, from, to, amount), mint) == Supply(tokens, mint)
  {
    var debited := tokens[from].(amount := tokens[from].amount - amount);
    var credited := tokens[to].(amount := tokens[to].amount + amount);
    SupplyOfUpdate(tokens[from := debited], mint, to, credited);
    SupplyWithout(tokens[from := debited], mint, to);
    SupplyOfUpdate(tokens, mint, from, debited);
    SupplyWithout(tokens, mint, from);
  }

  /** Two accounts of one mint never hold more than was issued. */
  lemma TwoAccountsWithinSupply(tokens: Tokens, a: Pubkey, b: Pubkey)
    requires a in tokens && b in tokens && a != b && tokens[a].mint == tokens[b].mint
    ensures tokens[a].amount + tokens[b].amount <= Supply(tokens, tokens[a].mint)
  {
    SupplyWithout(tokens, tokens[a].mint, a);
    SupplyWithout(tokens - {a}, tokens[a].mint, b);
  }

  // ---- What an agreement's own actions do to tokens ----

  /** What the vault still has to pay out for this agreement. */
  function Owed(a: Agreement): nat {
    if IsLive(a.state) && a.settledTotal <= a.amount then a.amount - a.settledTotal else 0
  }

  predicate IsPayout(action: Action) {
    action.Settle? || action.SettleMilestone? || action.ResolveDispute? || action.Refund?
  }

  function PayoutAmount(w: Ledger, a: Agreement, action: Action): nat {
    if action.SettleMilestone? then
      if action.milestone in w.milestones then w.milestones[action.milestone].amount else 0
    else Remaining(a)
  }

  /** Money enters by one door and leaves by one door. */
  ghost predicate OwnEffect(w: Ledger, key: Pubkey, a: Agreement, signer: Pubkey, action: Action, c: Change) {
    var vault := VaultToken(key);
    if action.Fund? then
      && Owed(a) == 0 && Owed(c.agreement) == a.amount
      && action.source in w.tokens && vault in w.tokens && action.source != vault
      && w.tokens[action.source].owner == signer && w.tokens[action.source].mint == a.mint == w.tokens[vault].mint
      && a.amount <= w.tokens[action.source].amount
      && c.tokens == Moved(w.tokens, action.source, vault, a.amount)
    else if IsPayout(action) then
      var paid := PayoutAmount(w, a, action);
      && 0 < paid <= Owed(a) && Owed(c.agreement) == Owed(a) - paid
      && action.destination in w.tokens && vault in w.tokens && action.destination != vault
      && w.tokens[action.destination].mint == a.mint == w.tokens[vault].mint
      && w.tokens[action.destination].owner
           == (if c.agreement.state == Refunded then a.creator else a.counterparty)
      && paid <= w.tokens[vault].amount
      && c.tokens == Moved(w.tokens, vault, action.destination, paid)
    else
      c.tokens == w.tokens && Owed(c.agreement) == Owed(a)
  }

  lemma FundEffect(w: Ledger, key: Pubkey, a: Agreement, signer: Pubkey, source: Pubkey, now: int)
    requires BooksSound(w.milestones, key, a)
    requires FundSpec(w, key, a, signer, source, now).Ok?
    ensures OwnEffect(w, key, a, signer, Fund(source), FundSpec(w, key, a, signer, source, now).value)
  {
  }

  lemma SettleEffect(w: Ledger, key: Pubkey, a: Agreement, signer: Pubkey, destination: Pubkey,
                     citation: Citation, now: int)
    requires BooksSound(w.milestones, key, a)
    requires SettleSpec(w, key, a, signer, destination, citation, now).Ok?
    ensures OwnEffect(w, key, a, signer, Settle(destination, citation),
                      SettleSpec(w, key, a, signer, destination, citation, now).value)
  {
  }

  lemma SettleMilestoneEffect(w: Ledger, key: Pubkey, a: Agreement, signer: Pubkey, address: Pubkey,
                              destination: Pubkey, citation: Citation, now: int)
    requires BooksSound(w.milestones, key, a)
    requires SettleMilestoneSpec(w, key, a, signer, address, destination, citation, now).Ok?
    ensures OwnEffect(w, key, a, signer, SettleMilestone(address, destination, citation),
                      SettleMilestoneSpec(w, key, a, signer, address, destination, citation, now).value)
  {
    var m := w.milestones[address];
    var b := RecordMilestoneSettled(a, m.amount, now).value;
    assert HasTranche(w.milestones, key, m.index) && TrancheSound(w.milestones, key, m.index);
    SettleTrancheKeepsBooks(w.milestones, key, a, m.index, m.(state := MilestoneState.Settled), b, now);
  }

  lemma ResolveEffect(w: Ledger, key: Pubkey, a: Agreement, signer: Pubkey, destination: Pubkey, now: int)
    requires BooksSound(w.milestones, key, a)
    requires ResolveDisputeSpec(w, key, a, signer, destination, now).Ok?
    ensures OwnEffect(w, key, a, signer, ResolveDispute(destination),
                      ResolveDisputeSpec(w, key, a, signer, destination, now).value)
  {
  }

  lemma RefundEffect(w: Ledger, key: Pubkey, a: Agreement, signer: Pubkey, destination: Pubkey, now: int)
    requires BooksSound(w.milestones, key, a)
    requires RefundSpec(w, key, a, signer, destination, now).Ok?
    ensures OwnEffect(w, key, a, signer, Refund(destination),
                      RefundSpec(w, key, a, signer, destination, now).value)
  {
  }

  /** Neither tokens nor money is touched. */
  predicate KeepsMoney(w: Ledger, a: Agreement, c: Change) {
    c.tokens == w.tokens && c.agreement.state == a.state && c.agreement.settledTotal == a.settledTotal
  }

  lemma CreationKeepsMoney(w: Ledger, key: Pubkey, a: Agreement, signer: Pubkey, amount: nat, termsHash: Hash, now: int)
    requires CreateMilestoneSpec(w, key, a, signer, amount, termsHash, now).Ok?
    ensures KeepsMoney(w, a, CreateMilestoneSpec(w, key, a, signer, amount, termsHash, now).value)
  {
  }

  lemma StepKeepsMoney(w: Ledger, key: Pubkey, a: Agreement, signer: Pubkey, address: Pubkey, now: int)
    ensures var r := SubmitMilestoneSpec(w, key, a, signer, address, now); r.Ok? ==> KeepsMoney(w, a, r.value)
    ensures var r := ApproveMilestoneSpec(w, key, a, signer, address, now); r.Ok? ==> KeepsMoney(w, a, r.value)
    ensures var r := RejectMilestoneSpec(w, key, a, signer, address, now); r.Ok? ==> KeepsMoney(w, a, r.value)
  {
  }

  lemma MilestoneStepEffect(w: Ledger, key: Pubkey, a: Agreement, signer: Pubkey, action: Action, now: int)
    requires !MovesTokens(action) && TouchesMilestone(action)
    requires Act(w, key, a, signer, action, now).Ok?
    ensures OwnEffect(w, key, a, signer, action, Act(w, key, a, signer, action, now).value)
  {
    hide CreateMilestoneSpec, SubmitMilestoneSpec, ApproveMilestoneSpec, RejectMilestoneSpec;
    if action.CreateMilestone? {
      CreationKeepsMoney(w, key, a, signer, action.amount, action.termsHash, now);
    } else {
      StepKeepsMoney(w, key, a, signer, action.milestone, now);
    }
  }

  lemma ActionEffect(w: Ledger, key: Pubkey, a: Agreement, signer: Pubkey, action: Action, now: int)
    requires BooksSound(w.milestones, key, a)
    requires Act(w, key, a, signer, action, now).Ok?
    ensures OwnEffect(w, key, a, signer, action, Act(w, key, a, signer, action, now).value)
  {
    if action.Fund? {
      FundEffect(w, key, a, signer, action.source, now);
    } else if action.Settle? {
      SettleEffect(w, key, a, signer, action.destination, action.citation, now);
    } else if action.SettleMilestone? {
      SettleMilestoneEffect(w, key, a, signer, action.milestone, action.destination, action.citation, now);
    } else if action.ResolveDispute? {
      ResolveEffect(w, key, a, signer, action.destination, now);
    } else if action.Refund? {
      RefundEffect(w, key, a, signer, action.destination, now);
    } else if TouchesMilestone(action) {
      MilestoneStepEffect(w, key, a, signer, action, now);
    } else {
      UnpaidActionIsQuiet(w, key, a, signer, action, now);
    }
  }

  // ---- The custody equation ----

  /** What an instruction that is not the agreement's own would add to its vault. */
  function GiftOf(w: Ledger, ix: Instruction, key: Pubkey): nat {
    match ix
    case TransferTokens(_, _, to, amount) => if to == VaultToken(key) then amount else 0
    case OnAgreement(_, from, action) =>
      if from in w.agreements then GiftFrom(w, w.agreements[from], action, key) else 0
    case _ => 0
  }

  function GiftFrom(w: Ledger, a: Agreement, action: Action, key: Pubkey): nat {
    if IsPayout(action) && action.destination == VaultToken(key) then PayoutAmount(w, a, action) else 0
  }

  function DonationIn(w: Ledger, t: Tick, key: Pubkey): nat {
    if Step(w, t.ix, t.now).Ok? then GiftOf(w, t.ix, key) else 0
  }

  /** Everything outsiders and other agreements put into a vault along a run. */
  function Donated(start: Ledger, ticks: seq<Tick>, key: Pubkey): nat {
    if ticks == [] then 0
    else
      var init := ticks[..|ticks| - 1];
      Donated(start, init, key) + DonationIn(Run(start, init), ticks[|ticks| - 1], key)
  }

  /** The token account at an agreement's vault address, and what is in it. */
  predicate VaultHolds(tokens: Tokens, key: Pubkey, mint: Pubkey, balance: nat) {
    VaultToken(key) in tokens && tokens[VaultToken(key)] == TokenAccount(mint, VaultAuthority(key), balance)
  }

  /** A vault holds its gifts and what its agreement owes. */
  predicate VaultSound(w: Ledger, key: Pubkey, gifts: nat) {
    && key in w.agreements
    && VaultHolds(w.tokens, key, w.agreements[key].mint, gifts + Owed(w.agreements[key]))
  }

  /** A token account is at a wallet's address or is the vault of an agreement. */
  predicate Placed(agreements: map<Pubkey, Agreement>, k: Pubkey) {
    k.Wallet? || (k.VaultToken? && k.agreement in agreements)
  }

  ghost predicate TokensPlaced(w: Ledger) {
    forall k :: k in w.tokens ==> Placed(w.agreements, k)
  }

  /** An agreement's own action changes its vault by what it owes, up or down. */
  lemma OwnVault(w: Ledger, key: Pubkey, a: Agreement, signer: Pubkey, action: Action, c: Change, gifts: nat)
    requires OwnEffect(w, key, a, signer, action, c)
    requires VaultHolds(w.tokens, key, a.mint, gifts + Owed(a))
    ensures VaultHolds(c.tokens, key, a.mint, gifts + Owed(c.agreement))
    ensures GiftFrom(w, a, action, key) == 0
  {
  }

  /** It changes another vault only by paying into it. */
  lemma OtherVault(w: Ledger, key: Pubkey, a: Agreement, signer: Pubkey, action: Action, c: Change,
                   other: Pubkey, mint: Pubkey, balance: nat)
    requires OwnEffect(w, key, a, signer, action, c) && CanSign(signer) && other != key
    requires VaultHolds(w.tokens, other, mint, balance)
    ensures VaultHolds(c.tokens, other, mint, balance + GiftFrom(w, a, action, other))
  {
  }

  /** The accounts a committed action leaves: its agreement's, and the tokens. */
  lemma ActedAccounts(w: Ledger, ix: Instruction, now: int, key: Pubkey)
    requires ix.OnAgreement? && Step(w, ix, now).Ok?
    ensures ix.agreement in w.agreements && CanSign(ix.signer)
    ensures Act(w, ix.agreement, w.agreements[ix.agreement], ix.signer, ix.action, now).Ok?
    ensures
      var c := Act(w, ix.agreement, w.agreements[ix.agreement], ix.signer, ix.action, now).value;
      var v := Step(w, ix, now).value.ledger;
      && v.agreements == w.agreements[ix.agreement := c.agreement] && v.tokens == c.tokens
      && c.agreement.mint == w.agreements[ix.agreement].mint
      && GiftOf(w, ix, key) == GiftFrom(w, w.agreements[ix.agreement], ix.action, key)
  {
    hide Act, GiftFrom;
  }

  lemma VaultAfterAction(w: Ledger, from: Pubkey, a: Agreement, signer: Pubkey, action: Action, c: Change, v: Ledger,
                         key: Pubkey, gifts: nat)
    requires from in w.agreements && w.agreements[from] == a && CanSign(signer)
    requires OwnEffect(w, from, a, signer, action, c)
    requires v.agreements == w.agreements[from := c.agreement] && v.tokens == c.tokens
    requires VaultSound(w, key, gifts) && c.agreement.mint == a.mint
    ensures VaultSound(v, key, gifts + GiftFrom(w, a, action, key))
  {
    hide VaultHolds, OwnEffect, GiftFrom, Owed, CanSign;
    if key == from {
      OwnVault(w, key, a, signer, action, c, gifts);
    } else {
      var b := w.agreements[key];
      OtherVault(w, from, a, signer, action, c, key, b.mint, gifts + Owed(b));
    }
  }

  lemma BooksOf(w: Ledger, key: Pubkey)
    requires AllBooksSound(w) && key in w.agreements
    ensures BooksSound(w.milestones, key, w.agreements[key])
  {
    hide BooksSound;
  }

  lemma ActionKeepsVault(w: Ledger, ix: Instruction, now: int, key: Pubkey, gifts: nat)
    requires AllBooksSound(w) && ix.OnAgreement? && Step(w, ix, now).Ok?
    requires VaultSound(w, key, gifts)
    ensures VaultSound(Step(w, ix, now).value.ledger, key, gifts + GiftOf(w, ix, key))
  {
    ActedAccounts(w, ix, now, key);
    BooksOf(w, ix.agreement);
    hide *;
    var a := w.agreements[ix.agreement];
    var c := Act(w, ix.agreement, a, ix.signer, ix.action, now).value;
    ActionEffect(w, ix.agreement, a, ix.signer, ix.action, now);
    VaultAfterAction(w, ix.agreement, a, ix.signer, ix.action, c, Step(w, ix, now).value.ledger, key, gifts);
  }

  lemma TransferKeepsVault(tokens: Tokens, from: Pubkey, to: Pubkey, signer: Pubkey, amount: nat, key: Pubkey,
                           mint: Pubkey, balance: nat)
    requires from in tokens && CanSign(signer)
    requires TransferChecked(tokens, from, to, tokens[from].mint, signer, amount).Ok?
    requires VaultHolds(tokens, key, mint, balance)
    ensures
      var moved := TransferChecked(tokens, from, to, tokens[from].mint, signer, amount).value;
      VaultHolds(moved, key, mint, balance + if to == VaultToken(key) then amount else 0)
  {
  }

  lemma OutsideStepKeepsVault(w: Ledger, ix: Instruction, now: int, key: Pubkey, gifts: nat)
    requires !ix.OnAgreement? && Step(w, ix, now).Ok?
    requires VaultSound(w, key, gifts)
    ensures VaultSound(Step(w, ix, now).value.ledger, key, gifts + GiftOf(w, ix, key))
  {
    if ix.TransferTokens? {
      var a := w.agreements[key];
      TransferKeepsVault(w.tokens, ix.from, ix.to, ix.signer, ix.amount, key, a.mint, gifts + Owed(a));
    }
  }

  /** A new agreement starts with an empty vault of its own. */
  lemma InitializeOpensVault(w: Ledger, ix: Instruction, now: int)
    requires ix.InitializeAgreement? && Step(w, ix, now).Ok?
    ensures VaultSound(Step(w, ix, now).value.ledger, AgreementPda(ix.signer, ix.agreementId), 0)
  {
  }

  lemma ActionPlacesTokens(w: Ledger, key: Pubkey, a: Agreement, signer: Pubkey, action: Action, c: Change)
    requires OwnEffect(w, key, a, signer, action, c)
    ensures c.tokens.Keys == w.tokens.Keys
  {
  }

  lemma StepPlacesTokens(w: Ledger, ix: Instruction, now: int)
    requires AllBooksSound(w) && TokensPlaced(w) && Step(w, ix, now).Ok?
    ensures TokensPlaced(Step(w, ix, now).value.ledger)
  {
    var v := Step(w, ix, now).value.ledger;
    if ix.OnAgreement? {
      var a := w.agreements[ix.agreement];
      var c := Act(w, ix.agreement, a, ix.signer, ix.action, now).value;
      ActionEffect(w, ix.agreement, a, ix.signer, ix.action, now);
      ActionPlacesTokens(w, ix.agreement, a, ix.signer, ix.action, c);
    }
    forall k | k in v.tokens ensures Placed(v.agreements, k) {
      assert k in w.tokens ==> Placed(w.agreements, k);
    }
  }

  lemma NoGiftFromAction(w: Ledger, key: Pubkey, a: Agreement, signer: Pubkey, action: Action, c: Change, other: Pubkey)
    requires OwnEffect(w, key, a, signer, action, c) && VaultToken(other) !in w.tokens
    ensures GiftFrom(w, a, action, other) == 0
  {
  }

  lemma NoGiftsBeforeOpening(w: Ledger, t: Tick, key: Pubkey)
    requires AllBooksSound(w) && TokensPlaced(w) && key !in w.agreements
    ensures DonationIn(w, t, key) == 0
  {
    assert !Placed(w.agreements, VaultToken(key));
    if Step(w, t.ix, t.now).Ok? && t.ix.OnAgreement? {
      var a := w.agreements[t.ix.agreement];
      var c := Act(w, t.ix.agreement, a, t.ix.signer, t.ix.action, t.now).value;
      ActionEffect(w, t.ix.agreement, a, t.ix.signer, t.ix.action, t.now);
      NoGiftFromAction(w, t.ix.agreement, a, t.ix.signer, t.ix.action, c, key);
    }
  }

  lemma ActionConservesSupply(w: Ledger, key: Pubkey, a: Agreement, signer: Pubkey, action: Action, c: Change,
                              mint: Pubkey)
    requires OwnEffect(w, key, a, signer, action, c)
    ensures Supply(c.tokens, mint) == Supply(w.tokens, mint)
  {
    if action.Fund? {
      MovedConservesSupply(w.tokens, action.source, VaultToken(key), a.amount, mint);
    } else if IsPayout(action) {
      MovedConservesSupply(w.tokens, VaultToken(key), action.destination, PayoutAmount(w, a, action), mint);
    }
  }

  lemma EmptyAccountConservesSupply(tokens: Tokens, k: Pubkey, t: TokenAccount, mint: Pubkey)
    requires k !in tokens && t.amount == 0
    ensures Supply(tokens[k := t], mint) == Supply(tokens, mint)
  {
    SupplyOfUpdate(tokens, mint, k, t);
    assert tokens - {k} == tokens;
  }

  /** No instruction creates or destroys a token. */
  lemma StepConservesSupply(w: Ledger, ix: Instruction, now: int, mint: Pubkey)
    requires AllBooksSound(w) && Step(w, ix, now).Ok?
    ensures Supply(Step(w, ix, now).value.ledger.tokens, mint) == Supply(w.tokens, mint)
  {
    var v := Step(w, ix, now).value.ledger;
    if ix.OnAgreement? {
      var a := w.agreements[ix.agreement];
      var c := Act(w, ix.agreement, a, ix.signer, ix.action, now).value;
      ActionEffect(w, ix.agreement, a, ix.signer, ix.action, now);
      ActionConservesSupply(w, ix.agreement, a, ix.signer, ix.action, c, mint);
    } else if ix.InitializeAgreement? {
      var vault := VaultToken(AgreementPda(ix.signer, ix.agreementId));
      EmptyAccountConservesSupply(w.tokens, vault, v.tokens[vault], mint);
    } else if ix.OpenTokenAccount? {
      EmptyAccountConservesSupply(w.tokens, ix.account, v.tokens[ix.account], mint);
    } else if ix.TransferTokens? && ix.from != ix.to {
      MovedConservesSupply(w.tokens, ix.from, ix.to, ix.amount, mint);
    }
  }

  /** One vault across one instruction, whether the agreement is old, new or still to come. */
  lemma OnlyOpeningIsNew(w: Ledger, ix: Instruction, now: int, key: Pubkey)
    requires Step(w, ix, now).Ok? && KeyOf(ix) == Some(key) && key !in w.agreements
    ensures ix.InitializeAgreement? && key == AgreementPda(ix.signer, ix.agreementId)
  {
    hide Act;
  }

  lemma StepKeepsOneVault(w: Ledger, ix: Instruction, now: int, key: Pubkey, gifts: nat)
    requires AllBooksSound(w) && TokensPlaced(w) && Step(w, ix, now).Ok?
    requires if key in w.agreements then VaultSound(w, key, gifts) else gifts == 0
    ensures
      var v := Step(w, ix, now).value.ledger;
      var after := gifts + DonationIn(w, Tick(ix, now), key);
      if key in v.agreements then VaultSound(v, key, after) else after == 0
  {
    hide Step, VaultHolds, AllBooksSound, TokensPlaced, GiftOf;
    if key in w.agreements {
      if ix.OnAgreement? {
        ActionKeepsVault(w, ix, now, key, gifts);
      } else {
        OutsideStepKeepsVault(w, ix, now, key, gifts);
      }
    } else {
      NoGiftsBeforeOpening(w, Tick(ix, now), key);
      if KeyOf(ix) != Some(key) {
        OtherAgreementsUntouched(w, ix, now, key);
      } else {
        OnlyOpeningIsNew(w, ix, now, key);
        InitializeOpensVault(w, ix, now);
      }
    }
  }

  lemma TickKeepsOneVault(w: Ledger, t: Tick, key: Pubkey, gifts: nat)
    requires AllBooksSound(w) && TokensPlaced(w)
    requires if key in w.agreements then VaultSound(w, key, gifts) else gifts == 0
    ensures
      var after := gifts + DonationIn(w, t, key);
      if key in After(w, t).agreements then VaultSound(After(w, t), key, after) else after == 0
  {
    hide Step, VaultSound, AllBooksSound, TokensPlaced, GiftOf;
    if Step(w, t.ix, t.now).Ok? {
      StepKeepsOneVault(w, t.ix, t.now, key, gifts);
    }
  }

  lemma OneTickMore(start: Ledger, ticks: seq<Tick>, key: Pubkey)
    requires ticks != []
    ensures
      var init, t := ticks[..|ticks| - 1], ticks[|ticks| - 1];
      && Run(start, ticks) == After(Run(start, init), t)
      && Donated(start, ticks, key) == Donated(start, init, key) + DonationIn(Run(start, init), t, key)
  {
    hide After, DonationIn;
  }

  lemma NothingYet(start: Ledger, key: Pubkey)
    requires Genesis(start)
    ensures key !in Run(start, []).agreements && Donated(start, [], key) == 0
  {
  }

  /**
   The custody equation: along every run each vault holds exactly its gifts plus
   amount minus settled_total while the agreement is Funded, Completed or
   Disputed, and exactly its gifts otherwise.
   */
  lemma {:induction false} CustodyEquation(start: Ledger, ticks: seq<Tick>, key: Pubkey)
    requires Genesis(start)
    ensures
      var w := Run(start, ticks);
      var gifts := Donated(start, ticks, key);
      if key in w.agreements then VaultSound(w, key, gifts) else gifts == 0
  {
    hide *;
    if ticks == [] {
      NothingYet(start, key);
    } else {
      var init := ticks[..|ticks| - 1];
      CustodyEquation(start, init, key);
      RunKeepsBooks(start, init);
      RunPlacesTokens(start, init);
      TickKeepsOneVault(Run(start, init), ticks[|ticks| - 1], key, Donated(start, init, key));
      OneTickMore(start, ticks, key);
    }
  }

  lemma {:induction false} RunPlacesTokens(start: Ledger, ticks: seq<Tick>)
    requires Genesis(start)
    ensures TokensPlaced(Run(start, ticks))
  {
    if ticks != [] {
      var init := ticks[..|ticks| - 1];
      var t := ticks[|ticks| - 1];
      RunPlacesTokens(start, init);
      RunKeepsBooks(start, init);
      if Step(Run(start, init), t.ix, t.now).Ok? {
        StepPlacesTokens(Run(start, init), t.ix, t.now);
      }
    }
  }

  /** Tokens are conserved over every run. */
  lemma {:induction false} RunConservesSupply(start: Ledger, ticks: seq<Tick>, mint: Pubkey)
    requires Genesis(start)
    ensures Supply(Run(start, ticks).tokens, mint) == Supply(start.tokens, mint)
  {
    if ticks != [] {
      var init := ticks[..|ticks| - 1];
      var t := ticks[|ticks| - 1];
      RunConservesSupply(start, init, mint);
      RunKeepsBooks(start, init);
      if Step(Run(start, init), t.ix, t.now).Ok? {
        StepConservesSupply(Run(start, init), t.ix, t.now, mint);
      }
    }
  }
}
