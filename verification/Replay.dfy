/**
 Replay completeness: from the program's run to its events, to their receipts, to
 any shuffle of those with repetitions, and back to the account.
 */
module Replay {
  import opened Wrappers
  import opened Keys
  import opened EscrowState
  import opened EscrowEvents
  import opened EscrowKernel
  import opened KernelBooks
  import opened KernelEvidence
  import opened KernelStory
  import opened Receipts
  import opened Sequences
  import opened ReceiptOrder
  import opened Reconstruction
  import opened Records
  import opened Histories
  import opened Lifecycles
  import opened ReplayTrace

  // ---- What agreeing with the account means ----

  predicate ProofMatches(r: ProofRecord, address: Pubkey, p: Proof) {
    && r.proof == address && r.proofIndex == p.index && r.submitter == p.submitter && r.status == p.status
    && r.decidedBy == if p.status == ProofStatus.Submitted then None else Some(p.decidedBy)
  }

  /** One record for each proof of the agreement, and it says what the proof account says. */
  ghost predicate ProofsMatch(records: seq<ProofRecord>, w: Ledger, key: Pubkey) {
    && (forall r :: r in records ==>
          && r.proof in w.proofs && r.proof == ProofPda(key, w.proofs[r.proof].index)
          && ProofMatches(r, r.proof, w.proofs[r.proof]))
    && (forall i: nat :: HasProof(w, key, i) ==> exists r :: r in records && r.proof == ProofPda(key, i))
    && (forall i, j :: 0 <= i < j < |records| ==> records[i].proof != records[j].proof)
  }

  /** The tranches in index order, with the amounts that were scheduled. */
  ghost predicate ScheduleMatches(records: seq<MilestoneRecord>, w: Ledger, key: Pubkey, count: nat) {
    && |records| == count
    && forall i: nat :: i < count ==>
         && HasTranche(w.milestones, key, i) && records[i].milestone == MilestonePda(key, i)
         && records[i].milestoneIndex == i && records[i].amount == Tranche(w.milestones, key, i).amount
  }

  ghost predicate TrancheStatesMatch(records: seq<MilestoneRecord>, w: Ledger, key: Pubkey) {
    forall i: nat :: i < |records| && HasTranche(w.milestones, key, i) ==>
      records[i].state == Tranche(w.milestones, key, i).state
  }

  ghost predicate Matches(life: Lifecycle, w: Ledger, key: Pubkey)
    requires key in w.agreements
  {
    var a := w.agreements[key];
    && life.agreement == key && life.agreementId == a.agreementId && life.state == a.state
    && life.buyer == a.creator && life.seller == a.counterparty && life.mint == a.mint
    && OrZero(life.settledAmount) + OrZero(life.refundedAmount) == a.settledTotal
    && life.fundedAmount == (if a.state == Open || a.state == Cancelled then None else Some(a.amount))
    && life.outcome == EndingOf(a.state)
    && ProofsMatch(life.proofs, w, key)
    && ScheduleMatches(life.milestones, w, key, a.milestoneCount)
  }

  // ---- The hypotheses ----

  predicate SameCoordinates(e: Envelope, f: Envelope) {
    && e.programId == f.programId && e.transactionSignature == f.transactionSignature
    && e.instructionIndex == f.instructionIndex && e.innerInstructionIndex == f.innerInstructionIndex
  }

  /** How the chain carries a trace: each event at its own coordinates, in slots that never go back, at real times. */
  ghost predicate Carried(envelopes: seq<Envelope>, events: seq<Event>) {
    && |envelopes| == |events|
    && (forall i :: 0 <= i < |envelopes| ==>
          && envelopes[i].event == events[i] && envelopes[i].transactionSignature != ""
          && envelopes[i].instructionIndex >= 0 && envelopes[i].slot >= 0
          && 0 <= TimeOf(envelopes[i]) <= MAX_UNIX_SECONDS)
    && (forall i, j :: 0 <= i < j < |envelopes| ==> envelopes[i].slot <= envelopes[j].slot)
    && (forall i, j :: 0 <= i < j < |envelopes| ==> !SameCoordinates(envelopes[i], envelopes[j]))
  }

  /** Events at instruction indices of their own are carried when their slots never go back. */
  lemma OwnIndicesCarry(envelopes: seq<Envelope>, events: seq<Event>)
    requires |envelopes| == |events|
    requires forall i :: 0 <= i < |envelopes| ==>
               && envelopes[i].event == events[i] && envelopes[i].transactionSignature != ""
               && envelopes[i].instructionIndex >= 0 && envelopes[i].slot >= 0
               && 0 <= TimeOf(envelopes[i]) <= MAX_UNIX_SECONDS
    requires forall i, j :: 0 <= i < j < |envelopes| ==> envelopes[i].slot <= envelopes[j].slot
    requires forall i, j :: 0 <= i < j < |envelopes| ==> envelopes[i].instructionIndex != envelopes[j].instructionIndex
    ensures Carried(envelopes, events)
  {
    hide TimeOf;
  }

  /** The steps of each tranche come at strictly increasing coordinates. */
  ghost predicate TranchesOrdered(rs: seq<Receipt>) {
    forall m, i, j :: 0 <= i < j < |rs| && IsStepOf(rs[i], m) && IsStepOf(rs[j], m) ==> CoordinateBelow(rs[i], rs[j])
  }

  /** The step of a tranche that every reader reads last: all its others precede it. */
  predicate ReadsLast(rs: seq<Receipt>, i: int, m: Pubkey) {
    && 0 <= i < |rs| && IsStepOf(rs[i], m)
    && forall j :: 0 <= j < |rs| && j != i && IsStepOf(rs[j], m) ==> Precedes(rs[j], rs[i])
  }

  /** The step of a tranche read last leaves it where the one committed last does. */
  ghost predicate ReadsRight(rs: seq<Receipt>, m: Pubkey) {
    forall i, k :: ReadsLast(rs, i, m) && LastStepAt(rs, k, m) ==>
        StateAfter(rs[i].fact.action) == StateAfter(rs[k].fact.action)
  }

  /** So it is for every tranche: what tranche states depend on, and nothing else does. */
  ghost predicate StepsReadRight(rs: seq<Receipt>) {
    forall m :: ReadsRight(rs, m)
  }

  /** A tranche is where its step that reads last leaves it, or where it began when it took none. */
  ghost predicate StateAsRead(state: MilestoneState, rs: seq<Receipt>, m: Pubkey) {
    && (forall n :: ReadsLast(rs, n, m) ==> state == StateAfter(rs[n].fact.action))
    && ((exists r :: r in rs && IsStepOf(r, m)) ==> exists n :: ReadsLast(rs, n, m))
    && ((forall r :: r in rs ==> !IsStepOf(r, m)) ==> state == Pending)
  }

  ghost predicate StatesAsRead(records: seq<MilestoneRecord>, rs: seq<Receipt>) {
    forall i :: 0 <= i < |records| ==> StateAsRead(records[i].state, rs, records[i].milestone)
  }

  function ReceiptsOf(idOf: IdFunction, envelopes: seq<Envelope>): (rs: seq<Receipt>)
    requires forall i :: 0 <= i < |envelopes| ==> EscrowReceiptFromEvent(idOf, envelopes[i]).Ok?
    ensures |rs| == |envelopes|
    ensures forall i :: 0 <= i < |rs| ==> rs[i] == EscrowReceiptFromEvent(idOf, envelopes[i]).value
  {
    seq(|envelopes|, i requires 0 <= i < |envelopes| => EscrowReceiptFromEvent(idOf, envelopes[i]).value)
  }

  lemma CarriedEventsBuild(idOf: IdFunction, envelopes: seq<Envelope>, events: seq<Event>)
    requires Carried(envelopes, events)
    ensures forall i :: 0 <= i < |envelopes| ==> EscrowReceiptFromEvent(idOf, envelopes[i]).Ok?
  {
    hide FactOf, SameCoordinates;
  }

  lemma CarriedReceipts(idOf: IdFunction, envelopes: seq<Envelope>, events: seq<Event>)
    requires Carried(envelopes, events) && InjectiveIds(idOf)
    requires forall i :: 0 <= i < |envelopes| ==> EscrowReceiptFromEvent(idOf, envelopes[i]).Ok?
    ensures Stamped(ReceiptsOf(idOf, envelopes), events)
    ensures DistinctIds(ReceiptsOf(idOf, envelopes)) && Ascending(ReceiptsOf(idOf, envelopes))
  {
    hide FactOf;
    var rs := ReceiptsOf(idOf, envelopes);
    forall i, j | 0 <= i < j < |rs| ensures rs[i].receiptId != rs[j].receiptId {
      assert rs[i].receiptId == IdOf(idOf, envelopes[i]) && rs[j].receiptId == IdOf(idOf, envelopes[j]);
      assert !SameCoordinates(envelopes[i], envelopes[j]);
    }
  }

  // ---- A bag with the right set, taken apart ----

  /** The annotations in reading order and the transitions in path order, drawn from receipts in commit order. */
  ghost predicate Drawn(rs: seq<Receipt>, path: seq<Receipt>, notes: seq<Receipt>) {
    && DistinctIds(rs) && Ascending(rs)
    && path == Select(rs, Transition)
    && InOrder(notes) && (forall r :: r in notes <==> r in rs && r.kind == Annotation)
  }

  lemma {:induction false} SelectAscends(rs: seq<Receipt>, kind: Kind)
    requires Ascending(rs)
    ensures Ascending(Select(rs, kind))
  {
    if rs != [] {
      SelectAscends(rs[..|rs| - 1], kind);
      SelectKeeps(rs[..|rs| - 1], kind);
    }
  }

  lemma {:induction false} SelectStartsWith(rs: seq<Receipt>, kind: Kind)
    requires rs != [] && rs[0].kind == kind
    ensures Select(rs, kind) != [] && Select(rs, kind)[0] == rs[0]
  {
    if |rs| > 1 {
      SelectStartsWith(rs[..|rs| - 1], kind);
    } else {
      assert rs[..0] == [];
    }
  }

  lemma MovesAreTold(rs: seq<Receipt>, w: Ledger, key: Pubkey)
    requires Tells(rs, w, key) && key in w.agreements
    ensures rs != [] && rs[0].kind == Transition && forall r :: r in rs ==> r.fact.agreement == key
    ensures MovesTell(Select(rs, Transition), w.agreements[key].state)
  {
    hide MoneyTells, PayeeTells, ProofsTell, ScheduleTells, MovesTell, Select;
  }

  lemma MovesAreHistory(rs: seq<Receipt>, state: AgreementState, key: Pubkey)
    requires rs != [] && rs[0].kind == Transition && Ascending(rs) && forall r :: r in rs ==> r.fact.agreement == key
    requires MovesTell(Select(rs, Transition), state)
    ensures IsHistory(Select(rs, Transition)) && Select(rs, Transition)[0] == rs[0]
  {
    var path := Select(rs, Transition);
    SelectStartsWith(rs, Transition);
    SelectAscends(rs, Transition);
    SelectKeeps(rs, Transition);
    hide Select, Rank;
    assert OneAgreement(path);
    forall i, j | 0 <= i < j < |path| ensures path[i].fact.newState != path[j].fact.newState {
      assert Rank(path[i].fact.newState) < Rank(path[j].fact.newState);
    }
  }

  lemma CollectionOf(bag: seq<Receipt>, rs: seq<Receipt>) returns (c: Collection)
    requires DistinctIds(rs) && SameElements(bag, rs)
    ensures c.Valid() && Collected(bag) == Ok(c) && DistinctIds(c.Values()) && SameElements(c.Values(), rs)
    ensures forall id :: id in c.at ==> c.at[id].receiptId == id
  {
    forall r, s | r in bag && s in bag && r.receiptId == s.receiptId ensures r == s {
      assert r in rs && s in rs;
    }
    CollectedKeepsAll(bag);
    c := Collected(bag).value;
    ValuesOfCollection(c);
  }

  lemma PathInCollection(c: Collection, rs: seq<Receipt>)
    requires c.Valid() && DistinctIds(c.Values()) && SameElements(c.Values(), rs)
    requires forall id :: id in c.at ==> c.at[id].receiptId == id
    requires IsHistory(Select(rs, Transition))
    ensures PathOf(Deleted(c, Select(c.Values(), Annotation)).Values()) == Ok(Select(rs, Transition))
  {
    hide IsHistory, PathOf;
    var moves := Deleted(c, Select(c.Values(), Annotation)).Values();
    MovesOf(c);
    SelectKeeps(c.Values(), Transition);
    SelectKeeps(rs, Transition);
    assert SameElements(Select(rs, Transition), moves);
    PathExactlyWhen(moves, Select(rs, Transition));
  }

  lemma NotesInOrder(kept: seq<Receipt>, rs: seq<Receipt>)
    requires DistinctIds(kept) && DistinctIds(rs) && SameElements(kept, rs) && Ascending(rs)
    ensures Drawn(rs, Select(rs, Transition), Sorted(Select(kept, Annotation)))
  {
    SelectKeeps(kept, Annotation);
    SortedIsInOrder(Select(kept, Annotation));
    SortedPermutes(Select(kept, Annotation));
    hide InOrder, Sorted, Select, DistinctIds;
  }

  /**
   Whatever was delivered, the reconstruction works on the transitions in commit order
   and the annotations in reading order.
   */
  lemma BagTakenApart(bag: seq<Receipt>, rs: seq<Receipt>) returns (annotations: seq<Receipt>)
    requires Ascending(rs) && DistinctIds(rs) && SameElements(bag, rs) && IsHistory(Select(rs, Transition))
    ensures
      var path := Select(rs, Transition);
      && path != [] && Reconstruct(bag) == Assemble(path, annotations)
      && Drawn(rs, path, Sorted(annotations))
      && multiset(path + annotations) == multiset(rs)
  {
    var path := Select(rs, Transition);
    assert path[0] in rs by {
      SelectKeeps(rs, Transition);
      assert path[0] in path;
    }
    hide IsHistory, Drawn, Assemble, PathOf, Select, Sorted;
    var c := CollectionOf(bag, rs);
    annotations := Select(c.Values(), Annotation);
    PathInCollection(c, rs);
    NotesInOrder(c.Values(), rs);
    SplitIsWhole(c.Values(), rs, path, annotations);
    assert bag != [];
  }

  lemma SplitIsWhole(kept: seq<Receipt>, rs: seq<Receipt>, path: seq<Receipt>, annotations: seq<Receipt>)
    requires DistinctIds(kept) && DistinctIds(rs) && SameElements(kept, rs)
    requires path == Select(rs, Transition) && annotations == Select(kept, Annotation)
    ensures multiset(path + annotations) == multiset(rs)
  {
    SelectKeeps(kept, Annotation);
    SelectKeeps(rs, Annotation);
    DistinctPermutation(annotations, Select(rs, Annotation));
    SelectSplits(rs);
  }

  // ---- Each check of the assembly passes ----

  lemma NotesArePlaced(rs: seq<Receipt>, path: seq<Receipt>, notes: seq<Receipt>)
    requires Drawn(rs, path, notes) && path != [] && path[0] == rs[0]
    ensures AllPlaced(path, notes)
  {
    forall i | 0 <= i < |notes| ensures Home(path, notes[i]) >= 0 {
      assert notes[i] in rs;
      var j :| 0 <= j < |rs| && rs[j] == notes[i];
      HomeIsLast(path, notes[i]);
      assert rs[0].slot <= rs[j].slot;
    }
  }

  /** What the books of the account say about being paid. */
  predicate PaidUp(a: Agreement) {
    a.state == AgreementState.Settled || a.state == Refunded ==> a.settledTotal == a.amount
  }

  lemma MoneyPasses(rs: seq<Receipt>, path: seq<Receipt>, annotations: seq<Receipt>, a: Agreement)
    requires MoneyTells(rs, a) && PaidUp(a) && path == Select(rs, Transition)
    requires multiset(path + annotations) == multiset(rs)
    ensures
      var funded := FirstWith(path, AGREEMENT_FUNDED);
      var settledTotal := PaidOut(path + annotations, SETTLEMENT_EXECUTED);
      var refundedTotal := PaidOut(path + annotations, REFUND_EXECUTED);
      && CheckMoney(funded, FirstWith(path, SETTLEMENT_EXECUTED), FirstWith(path, REFUND_EXECUTED),
                    settledTotal, refundedTotal).Pass?
      && OrZero(settledTotal) + OrZero(refundedTotal) == a.settledTotal
      && FundedIs(funded, a)
  {
    PaidOutPermutes(path + annotations, rs, SETTLEMENT_EXECUTED);
    PaidOutPermutes(path + annotations, rs, REFUND_EXECUTED);
    PaymentIsPaid(path, annotations, SETTLEMENT_EXECUTED);
    hide MoneyTells, PaidOut, FirstWith, Select, PaidUp, FundedIs;
    MoneyOnPath(rs, path, a);
    TotalsPass(rs, path, a);
  }

  /** The funding transition, if there was one, carried the whole amount and the whole schedule. */
  predicate FundedIs(funded: Option<Receipt>, a: Agreement) {
    && (funded.Some? ==> funded.value.fact.amount == Some(a.amount)
                         && (IsMilestoneContract(a) ==> a.milestoneTotal == a.amount))
    && (funded.Some? <==> a.state != Open && a.state != Cancelled)
  }

  lemma MoneyOnPath(rs: seq<Receipt>, path: seq<Receipt>, a: Agreement)
    requires MoneyTells(rs, a) && path == Select(rs, Transition)
    ensures FundedIs(FirstWith(path, AGREEMENT_FUNDED), a)
    ensures FirstWith(path, SETTLEMENT_EXECUTED).Some? ==> a.state == AgreementState.Settled
    ensures FirstWith(path, REFUND_EXECUTED).Some? ==> a.state == Refunded
  {
    SelectKeeps(rs, Transition);
    FirstWithIs(path, AGREEMENT_FUNDED);
    FirstWithIs(path, SETTLEMENT_EXECUTED);
    FirstWithIs(path, REFUND_EXECUTED);
    hide PaidOut, FirstWith, Select;
    FundedIffOnPath(rs, path, a);
  }

  lemma TotalsPass(rs: seq<Receipt>, path: seq<Receipt>, a: Agreement)
    requires MoneyTells(rs, a) && PaidUp(a)
    requires FundedIs(FirstWith(path, AGREEMENT_FUNDED), a)
    requires FirstWith(path, SETTLEMENT_EXECUTED).Some? ==> a.state == AgreementState.Settled
    requires FirstWith(path, REFUND_EXECUTED).Some? ==> a.state == Refunded
    requires PaidOnPath(rs, path)
    ensures
      var settledTotal := PaidOut(rs, SETTLEMENT_EXECUTED);
      var refundedTotal := PaidOut(rs, REFUND_EXECUTED);
      && CheckMoney(FirstWith(path, AGREEMENT_FUNDED), FirstWith(path, SETTLEMENT_EXECUTED),
                    FirstWith(path, REFUND_EXECUTED), settledTotal, refundedTotal).Pass?
      && OrZero(settledTotal) + OrZero(refundedTotal) == a.settledTotal
  {
    PaidOutExactlyWhen(rs, SETTLEMENT_EXECUTED);
    PaidOutExactlyWhen(rs, REFUND_EXECUTED);
    hide PaidOut, FirstWith;
  }

  predicate PaidOnPath(rs: seq<Receipt>, path: seq<Receipt>) {
    FirstWith(path, SETTLEMENT_EXECUTED).Some? ==> PaidOut(rs, SETTLEMENT_EXECUTED).Some?
  }

  lemma FundedIffOnPath(rs: seq<Receipt>, path: seq<Receipt>, a: Agreement)
    requires MoneyTells(rs, a) && forall r :: r in path <==> r in rs && r.kind == Transition
    ensures (exists r :: r in path && r.fact.action == AGREEMENT_FUNDED) <==> a.state != Open && a.state != Cancelled
  {
    if HasAction(rs, AGREEMENT_FUNDED) {
      var r :| r in rs && r.fact.action == AGREEMENT_FUNDED;
      assert r in path;
    }
  }

  lemma {:induction false} AssignmentsAre(notes: seq<Receipt>)
    ensures forall r :: r in Assignments(notes) <==> r in notes && r.fact.action == COUNTERPARTY_ASSIGNED
    ensures InOrder(notes) ==> InOrder(Assignments(notes))
  {
    if notes != [] {
      var init, last := notes[..|notes| - 1], notes[|notes| - 1];
      assert notes == init + [last];
      AssignmentsAre(init);
      assert InOrder(notes) ==> forall r :: r in init ==> Precedes(r, last);
    }
  }

  lemma PayeePasses(rs: seq<Receipt>, path: seq<Receipt>, notes: seq<Receipt>, a: Agreement)
    requires PayeeTells(rs, a) && Drawn(rs, path, notes) && rs != []
    ensures
      var payees := Assignments(notes);
      |payees| <= 1 && (if payees == [] then rs[0] else payees[0]).fact.seller == a.counterparty
  {
    var payees := Assignments(notes);
    AssignmentsAre(notes);
    if |payees| > 1 {
      assert payees[0] in payees && payees[1] in payees;
      var i :| 0 <= i < |rs| && rs[i] == payees[0];
      var j :| 0 <= j < |rs| && rs[j] == payees[1];
      ReceiptOrderIsTotal(payees[0], payees[1]);
      assert false;
    }
    if payees == [] {
      forall r | r in rs ensures r.fact.action != COUNTERPARTY_ASSIGNED {
        assert r in notes ==> r in payees || r.fact.action != COUNTERPARTY_ASSIGNED;
      }
    } else {
      assert payees[0] in payees;
    }
  }

  // ---- Evidence ----

  ghost predicate ProofTableMatches(t: Proofs, w: Ledger, key: Pubkey) {
    && t.Valid()
    && (forall p :: p in t.at ==>
          p in w.proofs && p == ProofPda(key, w.proofs[p].index) && ProofMatches(t.at[p], p, w.proofs[p]))
    && (forall i: nat :: HasProof(w, key, i) ==> ProofPda(key, i) in t.at)
  }

  ghost predicate SubmissionsMatch(t: Proofs, w: Ledger, key: Pubkey) {
    && t.Valid()
    && (forall p :: p in t.at ==>
          && p in w.proofs && p == ProofPda(key, w.proofs[p].index) && t.at[p].proof == p
          && t.at[p].proofIndex == w.proofs[p].index && t.at[p].submitter == w.proofs[p].submitter
          && t.at[p].status == ProofStatus.Submitted && t.at[p].decidedBy == None)
    && (forall i: nat :: HasProof(w, key, i) ==> ProofPda(key, i) in t.at)
  }

  lemma SubmissionsOf(rs: seq<Receipt>, path: seq<Receipt>, notes: seq<Receipt>, w: Ledger, key: Pubkey)
    requires ProofsTell(rs, w, key) && Drawn(rs, path, notes)
    ensures SubmissionsMatch(Submissions(notes), w, key)
  {
    hide InOrder, Ascending, DistinctIds, Select, ProofsTell, TellsSubmission, StandsApproved, Submissions;
    SubmissionsAre(notes);
    var t := Submissions(notes);
    forall p | p in t.at
      ensures p in w.proofs && p == ProofPda(key, w.proofs[p].index) && t.at[p].proof == p
      ensures t.at[p].proofIndex == w.proofs[p].index && t.at[p].submitter == w.proofs[p].submitter
      ensures t.at[p].status == ProofStatus.Submitted && t.at[p].decidedBy == None
    {
      var r :| r in notes && SubmitsProof(r, p) && t.at[p] == Submission(r);
      SubmissionTold(rs, w, key, r, p);
    }
    forall i: nat | HasProof(w, key, i) ensures ProofPda(key, i) in t.at {
      var r := ToldSubmission(rs, w, key, i);
      assert r in notes;
    }
  }

  /** A submission's receipt says what the proof account says. */
  lemma SubmissionTold(rs: seq<Receipt>, w: Ledger, key: Pubkey, r: Receipt, p: Pubkey)
    requires ProofsTell(rs, w, key) && r in rs && SubmitsProof(r, p)
    ensures r.kind == Annotation && p in w.proofs && p == ProofPda(key, w.proofs[p].index)
    ensures Submission(r).proof == p && Submission(r).proofIndex == w.proofs[p].index
    ensures Submission(r).submitter == w.proofs[p].submitter
    ensures Submission(r).status == ProofStatus.Submitted && Submission(r).decidedBy == None
  {
    hide TellsDecision, StandsApproved;
    assert TellsSubmission(r, w, key);
  }

  lemma ToldSubmission(rs: seq<Receipt>, w: Ledger, key: Pubkey, i: nat) returns (r: Receipt)
    requires ProofsTell(rs, w, key) && HasProof(w, key, i)
    ensures r in rs && SubmitsProof(r, ProofPda(key, i)) && r.kind == Annotation
  {
    r :| r in rs && SubmitsProof(r, ProofPda(key, i));
    SubmissionTold(rs, w, key, r, ProofPda(key, i));
  }

  lemma DecisionsPass(rs: seq<Receipt>, path: seq<Receipt>, notes: seq<Receipt>, t: Proofs, w: Ledger, key: Pubkey)
    requires ProofsTell(rs, w, key) && Drawn(rs, path, notes) && SubmissionsMatch(t, w, key)
    ensures DecidableBy(t, notes)
  {
    hide Ascending, Select, TellsSubmission, StandsApproved, SubmitsProof, DecidesProof, Reconstruction.IsDecision;
    assert forall i :: 0 <= i < |notes| ==> notes[i] in rs;
    forall i | 0 <= i < |notes| && Reconstruction.IsDecision(notes[i])
      ensures notes[i].fact.proof.Some? && OrNobody(notes[i].fact.proof) in t.at
    {
      assert TellsDecision(notes[i], w, key);
      assert HasProof(w, key, w.proofs[notes[i].fact.proof.value].index);
    }
    hide SubmissionsMatch, TellsDecision;
    forall i, j | 0 <= i < j < |notes| && Reconstruction.IsDecision(notes[i]) && Reconstruction.IsDecision(notes[j])
      ensures notes[i].fact.proof != notes[j].fact.proof
    {
      var k :| 0 <= k < |rs| && rs[k] == notes[i];
      var l :| 0 <= l < |rs| && rs[l] == notes[j];
      ReceiptOrderIsTotal(notes[i], notes[j]);
      assert k < l || l < k;
    }
  }

  lemma DecisionMatches(rs: seq<Receipt>, path: seq<Receipt>, notes: seq<Receipt>, before: ProofRecord,
                        after: ProofRecord, w: Ledger, key: Pubkey, i: nat)
    requires ProofsTell(rs, w, key) && Drawn(rs, path, notes) && HasProof(w, key, i)
    requires RuledOne(before, after, notes, ProofPda(key, i))
    requires before.proof == ProofPda(key, i) && before.proofIndex == w.proofs[ProofPda(key, i)].index
    requires before.submitter == w.proofs[ProofPda(key, i)].submitter
    requires before.status == ProofStatus.Submitted && before.decidedBy == None
    ensures ProofMatches(after, ProofPda(key, i), w.proofs[ProofPda(key, i)])
  {
    hide InOrder, Ascending, DistinctIds, Select, TellsSubmission, StandsApproved;
    var address := ProofPda(key, i);
    if w.proofs[address].status != ProofStatus.Submitted {
      var r :| r in rs && DecidesProof(r, address);
      assert TellsDecision(r, w, key);
      assert r in notes;
      assert after == Ruled(before, r);
    } else {
      forall r | r in notes ensures !DecidesProof(r, address) {
        assert Reconstruction.IsDecision(r) ==> TellsDecision(r, w, key);
      }
    }
  }

  lemma RuledTableMatches(rs: seq<Receipt>, path: seq<Receipt>, notes: seq<Receipt>, t: Proofs, d: Proofs, w: Ledger,
                          key: Pubkey)
    requires ProofsTell(rs, w, key) && Drawn(rs, path, notes) && SubmissionsMatch(t, w, key)
    requires d.Valid() && RuledBy(t, d, notes)
    ensures ProofTableMatches(d, w, key)
  {
    hide ProofsTell, Drawn, RuledOne, ProofMatches;
    forall p | p in d.at ensures ProofMatches(d.at[p], p, w.proofs[p]) {
      assert p in t.at;
      DecisionMatches(rs, path, notes, t.at[p], d.at[p], w, key, w.proofs[p].index);
    }
  }

  lemma ProofsPass(rs: seq<Receipt>, path: seq<Receipt>, notes: seq<Receipt>, w: Ledger, key: Pubkey)
    requires ProofsTell(rs, w, key) && Drawn(rs, path, notes)
    ensures Decided(Submissions(notes), notes).Ok?
    ensures ProofTableMatches(Decided(Submissions(notes), notes).value, w, key)
  {
    var t := Submissions(notes);
    SubmissionsOf(rs, path, notes, w, key);
    assert forall p :: p in t.at ==> t.at[p].decidedBy.None?;
    hide ProofsTell, Drawn, RuledBy, DecidableBy, ProofTableMatches, SubmissionsMatch, Decided, Submissions;
    DecisionsPass(rs, path, notes, t, w, key);
    DecidedExactlyWhen(t, notes);
    RuledTableMatches(rs, path, notes, t, Decided(t, notes).value, w, key);
  }

  lemma TableListed(t: Proofs, w: Ledger, key: Pubkey)
    requires ProofTableMatches(t, w, key)
    ensures ProofsMatch(t.Values(), w, key)
  {
    var records := t.Values();
    ValuesAre(t);
    forall i: nat | HasProof(w, key, i) ensures exists r :: r in records && r.proof == ProofPda(key, i) {
      assert t.at[ProofPda(key, i)] in records;
    }
    forall i, j | 0 <= i < j < |records| ensures records[i].proof != records[j].proof {
      assert t.keys[i] in t.keys && t.keys[j] in t.keys;
    }
  }

  lemma CitationPasses(rs: seq<Receipt>, path: seq<Receipt>, records: seq<ProofRecord>, w: Ledger, key: Pubkey)
    requires ProofsTell(rs, w, key) && path == Select(rs, Transition) && ProofsMatch(records, w, key) && ProofsAtHome(w)
    ensures CheckCitation(records, FirstWith(path, SETTLEMENT_EXECUTED)).Pass?
  {
    FirstWithIs(path, SETTLEMENT_EXECUTED);
    SelectKeeps(rs, Transition);
    var settled := FirstWith(path, SETTLEMENT_EXECUTED);
    if settled.Some? && settled.value.fact.proof.Some? {
      var p := settled.value.fact.proof.value;
      assert StandsApproved(w, key, p);
      assert HasProof(w, key, w.proofs[p].index);
      FindProofIn(records, p);
    }
  }

  // ---- Milestones ----

  ghost predicate TrancheTableMatches(t: Tranches, w: Ledger, key: Pubkey) {
    && t.Valid()
    && (forall m :: m in t.at ==>
          && m in w.milestones && m == MilestonePda(key, w.milestones[m].index) && t.at[m].milestone == m
          && t.at[m].milestoneIndex == w.milestones[m].index && t.at[m].amount == w.milestones[m].amount)
    && (forall i: nat :: HasTranche(w.milestones, key, i) ==> MilestonePda(key, i) in t.at)
  }

  lemma CreationsOf(rs: seq<Receipt>, path: seq<Receipt>, notes: seq<Receipt>, w: Ledger, key: Pubkey)
    requires ScheduleTells(rs, w, key) && Drawn(rs, path, notes)
    ensures TrancheTableMatches(Creations(notes), w, key)
    ensures forall m :: m in Creations(notes).at ==> Creations(notes).at[m].state == Pending
  {
    hide InOrder, Ascending, DistinctIds, Select, Creations, IsStepOf, LastStepAt;
    CreationsAre(notes);
    var t := Creations(notes);
    forall m | m in t.at
      ensures m in w.milestones && m == MilestonePda(key, w.milestones[m].index) && t.at[m].milestone == m
      ensures t.at[m].milestoneIndex == w.milestones[m].index && t.at[m].amount == w.milestones[m].amount
      ensures t.at[m].state == Pending
    {
      var r :| r in notes && CreatesMilestone(r, m) && t.at[m] == Creation(r);
      assert TellsCreation(r, w, key);
    }
    forall i: nat | HasTranche(w.milestones, key, i) ensures MilestonePda(key, i) in t.at {
      assert TrancheTells(rs, w, key, i);
      var r :| r in rs && CreatesMilestone(r, MilestonePda(key, i));
      assert TellsCreation(r, w, key);
      assert r in notes;
    }
  }

  lemma StepsPass(rs: seq<Receipt>, path: seq<Receipt>, notes: seq<Receipt>, t: Tranches, w: Ledger, key: Pubkey)
    requires ScheduleTells(rs, w, key) && Drawn(rs, path, notes) && TrancheTableMatches(t, w, key)
    ensures StepsKnown(t, notes)
  {
    hide InOrder, Ascending, DistinctIds, Select, IsStepOf, LastStepAt, TrancheTells;
    forall r | r in notes && r.fact.milestone.Some? ensures r.fact.milestone.value in t.at {
      assert TellsTranche(r, w, key);
      assert HasTranche(w.milestones, key, w.milestones[r.fact.milestone.value].index);
    }
  }

  lemma SteppedTableMatches(t: Tranches, d: Tranches, notes: seq<Receipt>, w: Ledger, key: Pubkey)
    requires TrancheTableMatches(t, w, key) && d.Valid() && SteppedBy(t, d, notes)
    ensures TrancheTableMatches(d, w, key)
  {
    hide StateEndsOn, PaidTo, HasTranche;
    forall m | m in d.at
      ensures m in t.at && d.at[m].milestone == t.at[m].milestone
      ensures d.at[m].milestoneIndex == t.at[m].milestoneIndex && d.at[m].amount == t.at[m].amount
    {
      assert EndsOn(t.at[m], d.at[m], notes, m);
    }
    hide SteppedBy;
  }

  lemma MilestonesPass(rs: seq<Receipt>, path: seq<Receipt>, notes: seq<Receipt>, w: Ledger, key: Pubkey)
    returns (d: Tranches)
    requires ScheduleTells(rs, w, key) && Drawn(rs, path, notes)
    ensures StepsTaken(Creations(notes), notes) == Ok(d)
    ensures TrancheTableMatches(d, w, key) && SteppedBy(Creations(notes), d, notes)
  {
    hide ScheduleTells, Drawn, StepsTaken, Creations, StepsKnown, TrancheTableMatches, SteppedBy;
    var t := Creations(notes);
    CreationsOf(rs, path, notes, w, key);
    StepsPass(rs, path, notes, t, w, key);
    StepsTakenExactlyWhen(t, notes);
    d := StepsTaken(t, notes).value;
    SteppedTableMatches(t, d, notes, w, key);
  }

  /** The last step in a list of annotations is the one that reads last among the receipts it is drawn from. */
  lemma LastNoteReadsLast(rs: seq<Receipt>, path: seq<Receipt>, notes: seq<Receipt>, n: int, m: Pubkey) returns (i: int)
    requires Drawn(rs, path, notes) && LastStepAt(notes, n, m)
    requires forall r :: r in rs && IsStepOf(r, m) ==> r.kind == Annotation
    ensures ReadsLast(rs, i, m) && rs[i] == notes[n]
  {
    hide Select, Ascending, IsStepOf, Precedes;
    assert notes[n] in rs;
    i :| 0 <= i < |rs| && rs[i] == notes[n];
    forall j | 0 <= j < |rs| && j != i && IsStepOf(rs[j], m) ensures Precedes(rs[j], rs[i]) {
      assert rs[j] in notes;
      var q :| 0 <= q < |notes| && notes[q] == rs[j];
      assert q != n && q <= n;
    }
  }

  /** Two steps cannot both read last. */
  lemma OneReadsLast(rs: seq<Receipt>, i: int, j: int, m: Pubkey)
    requires ReadsLast(rs, i, m) && ReadsLast(rs, j, m)
    ensures i == j
  {
    ReceiptOrderIsTotal(rs[i], rs[j]);
  }

  lemma {:induction false} SomeStepIsLast(notes: seq<Receipt>, m: Pubkey) returns (i: int)
    requires exists r :: r in notes && IsStepOf(r, m)
    ensures LastStepAt(notes, i, m)
  {
    var init, last := notes[..|notes| - 1], notes[|notes| - 1];
    if IsStepOf(last, m) {
      i := |notes| - 1;
    } else {
      assert notes == init + [last];
      i := SomeStepIsLast(init, m);
    }
  }

  lemma StateIsAsRead(rs: seq<Receipt>, path: seq<Receipt>, notes: seq<Receipt>, before: MilestoneRecord,
                      after: MilestoneRecord, w: Ledger, key: Pubkey, i: nat)
    requires ScheduleTells(rs, w, key) && Drawn(rs, path, notes)
    requires HasTranche(w.milestones, key, i) && before.state == Pending
    requires EndsOn(before, after, notes, MilestonePda(key, i))
    ensures StateAsRead(after.state, rs, MilestonePda(key, i))
  {
    var m := MilestonePda(key, i);
    forall r | r in rs && IsStepOf(r, m) ensures r.kind == Annotation {
      assert TellsTranche(r, w, key);
    }
    hide ScheduleTells;
    if exists r :: r in notes && IsStepOf(r, m) {
      var n := SomeStepIsLast(notes, m);
      var read := LastNoteReadsLast(rs, path, notes, n, m);
      assert rs[read] in rs;
      hide Drawn, IsStepOf, ReadsLast;
      forall j | ReadsLast(rs, j, m) ensures j == read {
        OneReadsLast(rs, j, read, m);
      }
    } else {
      assert forall r :: r in rs ==> !IsStepOf(r, m);
    }
  }

  lemma TrancheStateExactlyWhen(rs: seq<Receipt>, path: seq<Receipt>, notes: seq<Receipt>, before: MilestoneRecord,
                                after: MilestoneRecord, w: Ledger, key: Pubkey, i: nat)
    requires ScheduleTells(rs, w, key) && Drawn(rs, path, notes)
    requires HasTranche(w.milestones, key, i) && before.state == Pending
    requires EndsOn(before, after, notes, MilestonePda(key, i))
    ensures after.state == Tranche(w.milestones, key, i).state <==> ReadsRight(rs, MilestonePda(key, i))
  {
    var m := MilestonePda(key, i);
    assert TrancheTells(rs, w, key, i);
    forall r | r in rs && IsStepOf(r, m) ensures r.kind == Annotation {
      assert TellsTranche(r, w, key);
    }
    if exists r :: r in notes && IsStepOf(r, m) {
      var n := SomeStepIsLast(notes, m);
      var read := LastNoteReadsLast(rs, path, notes, n, m);
      assert rs[read] in rs;
      var committed := SomeStepIsLast(rs, m);
      hide ScheduleTells, Drawn, IsStepOf, TrancheTells, ReadsLast;
      forall j, k | ReadsLast(rs, j, m) && LastStepAt(rs, k, m) ensures j == read && k == committed {
        OneReadsLast(rs, j, read, m);
      }
    } else {
      assert forall r :: r in rs ==> !IsStepOf(r, m);
    }
  }

  /** Strict coordinates suffice: the step read last is then the one committed last. */
  lemma OrderedStepsReadRight(rs: seq<Receipt>)
    requires TranchesOrdered(rs)
    ensures StepsReadRight(rs)
  {
    forall m, i, k | ReadsLast(rs, i, m) && LastStepAt(rs, k, m) ensures i == k {
      if i < k {
        assert CoordinateBelow(rs[i], rs[k]);
        ReceiptOrderIsTotal(rs[i], rs[k]);
      }
    }
  }

  predicate Occurs(records: seq<MilestoneRecord>, k: nat) {
    exists i :: 0 <= i < |records| && records[i].milestoneIndex == k
  }

  /** Strictly increasing indices that cover 0..n are exactly 0..n. */
  lemma IndicesAreDense(records: seq<MilestoneRecord>, n: nat)
    requires forall i, j :: 0 <= i < j < |records| ==> records[i].milestoneIndex < records[j].milestoneIndex
    requires forall i :: 0 <= i < |records| ==> records[i].milestoneIndex < n
    requires forall k: nat :: k < n ==> Occurs(records, k)
    ensures |records| == n && forall i :: 0 <= i < n ==> records[i].milestoneIndex == i
  {
    forall i | 0 <= i < |records| ensures records[i].milestoneIndex == i {
      IndexIsPosition(records, n, i);
    }
    if |records| > 0 {
      assert records[|records| - 1].milestoneIndex == |records| - 1;
    }
    assert |records| < n ==> Occurs(records, |records|);
  }

  lemma {:induction false} IndexIsPosition(records: seq<MilestoneRecord>, n: nat, i: nat)
    requires forall i, j :: 0 <= i < j < |records| ==> records[i].milestoneIndex < records[j].milestoneIndex
    requires forall i :: 0 <= i < |records| ==> records[i].milestoneIndex < n
    requires forall k: nat :: k < n ==> Occurs(records, k)
    requires i < |records|
    ensures records[i].milestoneIndex == i
  {
    if i > 0 {
      IndexIsPosition(records, n, i - 1);
    }
    assert i < n && records[i].milestoneIndex >= i;
    assert Occurs(records, i);
    assert forall l :: 0 <= l < i ==> records[l].milestoneIndex < i;
    var j :| 0 <= j < |records| && records[j].milestoneIndex == i;
  }

  lemma SortedTable(d: Tranches)
    requires d.Valid() && forall m :: m in d.at ==> d.at[m].milestone == m
    ensures
      var records := SortedByIndex(d.Values());
      && ByIndex(records) && Distinct(records)
      && (forall m :: m in d.at ==> d.at[m] in records)
      && (forall r :: r in records ==> r.milestone in d.at && d.at[r.milestone] == r)
  {
    var values := d.Values();
    var records := SortedByIndex(values);
    ValuesAre(d);
    SortedByIndexPermutes(values);
    hide SortedByIndex;
    forall i, j | 0 <= i < j < |values| ensures values[i] != values[j] {
      assert d.keys[i] in d.keys && d.keys[j] in d.keys;
    }
    PermutationOfDistinct(values, records);
  }

  lemma SortedTableMatches(d: Tranches, w: Ledger, key: Pubkey, count: nat)
    requires TrancheTableMatches(d, w, key)
    requires forall i: nat :: HasTranche(w.milestones, key, i) <==> i < count
    ensures ScheduleMatches(SortedByIndex(d.Values()), w, key, count)
    ensures forall r :: r in SortedByIndex(d.Values()) ==> r.milestone in d.at && d.at[r.milestone] == r
  {
    var records := SortedByIndex(d.Values());
    SortedTable(d);
    forall i | 0 <= i < |records| ensures records[i].milestoneIndex < count && Listed(records[i], d, w, key) {
      assert records[i] in records;
      RecordIsListed(d, records[i], w, key, count);
    }
    forall k: nat | k < count ensures Occurs(records, k) {
      TrancheOccurs(d, records, w, key, k);
    }
    hide SortedByIndex, TrancheTableMatches, Occurs, Listed, ScheduleMatches, ByIndex, Distinct;
    ListedInOrder(records, d, w, key, count);
  }

  lemma TrancheOccurs(d: Tranches, records: seq<MilestoneRecord>, w: Ledger, key: Pubkey, k: nat)
    requires TrancheTableMatches(d, w, key) && HasTranche(w.milestones, key, k)
    requires forall m :: m in d.at ==> d.at[m] in records
    ensures Occurs(records, k)
  {
    var r := d.at[MilestonePda(key, k)];
    var i :| 0 <= i < |records| && records[i] == r;
    assert records[i].milestoneIndex == k;
  }

  lemma ListedInOrder(records: seq<MilestoneRecord>, d: Tranches, w: Ledger, key: Pubkey, count: nat)
    requires forall i :: 0 <= i < |records| ==> records[i].milestoneIndex < count && Listed(records[i], d, w, key)
    requires ByIndex(records) && Distinct(records) && forall k: nat :: k < count ==> Occurs(records, k)
    ensures ScheduleMatches(records, w, key, count)
  {
    hide Occurs;
    forall i, j | 0 <= i < j < |records| ensures records[i].milestoneIndex < records[j].milestoneIndex {
      assert Listed(records[i], d, w, key) && Listed(records[j], d, w, key);
    }
    IndicesAreDense(records, count);
    forall i: nat | i < count
      ensures HasTranche(w.milestones, key, i) && records[i].milestone == MilestonePda(key, i)
      ensures records[i].amount == Tranche(w.milestones, key, i).amount
    {
      assert Listed(records[i], d, w, key);
    }
  }

  lemma RecordIsListed(d: Tranches, r: MilestoneRecord, w: Ledger, key: Pubkey, count: nat)
    requires TrancheTableMatches(d, w, key) && r.milestone in d.at && d.at[r.milestone] == r
    requires forall i: nat :: HasTranche(w.milestones, key, i) <==> i < count
    ensures r.milestoneIndex < count && Listed(r, d, w, key)
  {
    assert HasTranche(w.milestones, key, w.milestones[r.milestone].index);
  }

  predicate Listed(r: MilestoneRecord, d: Tranches, w: Ledger, key: Pubkey) {
    && r.milestone in d.at && d.at[r.milestone] == r
    && r.milestone == MilestonePda(key, r.milestoneIndex)
    && r.milestone in w.milestones && r.amount == w.milestones[r.milestone].amount
  }

  lemma {:induction false} ScheduleTotals(records: seq<MilestoneRecord>, w: Ledger, key: Pubkey, count: nat, k: nat)
    requires ScheduleMatches(records, w, key, count) && k <= count
    ensures ScheduledTotal(records[..k]) == Scheduled(w.milestones, key, k)
  {
    if k > 0 {
      ScheduleTotals(records, w, key, count, k - 1);
      assert records[..k][..k - 1] == records[..k - 1];
    }
  }

  lemma SchedulePasses(records: seq<MilestoneRecord>, funded: Option<Receipt>, w: Ledger, key: Pubkey, a: Agreement)
    requires ScheduleMatches(records, w, key, a.milestoneCount) && FundedIs(funded, a)
    requires a.milestoneTotal == Scheduled(w.milestones, key, a.milestoneCount)
    requires !IsMilestoneContract(a) ==> a.milestoneCount == 0
    ensures CheckSchedule(records, funded).Pass?
  {
    ScheduleTotals(records, w, key, a.milestoneCount, a.milestoneCount);
    assert records[..|records|] == records;
  }

  // ---- The theorem ----

  /** Every check of the assembly passes, with these tables of records. */
  ghost predicate Answerable(path: seq<Receipt>, annotations: seq<Receipt>, p: Proofs, d: Tranches) {
    var notes := Sorted(annotations);
    && path != [] && p.Valid() && d.Valid() && AllPlaced(path, notes)
    && CheckMoney(FirstWith(path, AGREEMENT_FUNDED), FirstWith(path, SETTLEMENT_EXECUTED),
                  FirstWith(path, REFUND_EXECUTED), PaidOut(path + annotations, SETTLEMENT_EXECUTED),
                  PaidOut(path + annotations, REFUND_EXECUTED)).Pass?
    && |Assignments(notes)| <= 1
    && Decided(Submissions(notes), notes) == Ok(p)
    && StepsTaken(Creations(notes), notes) == Ok(d)
    && CheckSchedule(SortedByIndex(d.Values()), FirstWith(path, AGREEMENT_FUNDED)).Pass?
    && CheckCitation(p.Values(), FirstWith(path, SETTLEMENT_EXECUTED)).Pass?
  }

  /** What passing the checks yields says what the account says. */
  ghost predicate Answers(path: seq<Receipt>, annotations: seq<Receipt>, p: Proofs, d: Tranches, w: Ledger, key: Pubkey)
    requires path != [] && p.Valid() && d.Valid() && key in w.agreements
  {
    var a := w.agreements[key];
    var payees := Assignments(Sorted(annotations));
    && path[0].fact.agreement == key && path[0].fact.agreementId == a.agreementId
    && path[0].fact.buyer == a.creator && path[0].fact.mint == Some(a.mint)
    && path[|path| - 1].fact.newState == a.state
    && (if payees == [] then path[0] else payees[0]).fact.seller == a.counterparty
    && OrZero(PaidOut(path + annotations, SETTLEMENT_EXECUTED)) + OrZero(PaidOut(path + annotations, REFUND_EXECUTED))
       == a.settledTotal
    && FundedIs(FirstWith(path, AGREEMENT_FUNDED), a)
    && ProofsMatch(p.Values(), w, key)
    && ScheduleMatches(SortedByIndex(d.Values()), w, key, a.milestoneCount)
  }

  lemma AnswerMatches(path: seq<Receipt>, annotations: seq<Receipt>, p: Proofs, d: Tranches, w: Ledger, key: Pubkey)
    requires key in w.agreements && Answerable(path, annotations, p, d) && Answers(path, annotations, p, d, w, key)
    ensures Assemble(path, annotations).Ok?
    ensures Matches(Assemble(path, annotations).value, w, key)
    ensures Assemble(path, annotations).value.milestones == SortedByIndex(d.Values())
  {
    hide AllPlaced, Sorted, CheckMoney, FirstWith, PaidOut, Assignments, Decided, Submissions, StepsTaken, Creations;
    hide CheckSchedule, CheckCitation, SortedByIndex, Interleaved, EndingOf, ProofsMatch, ScheduleMatches;
  }

  /** The account as the theorem needs it: its books are in order and its tranches are the scheduled ones. */
  ghost predicate AccountInOrder(w: Ledger, key: Pubkey)
    requires key in w.agreements
  {
    var a := w.agreements[key];
    && PaidUp(a) && ProofsAtHome(w)
    && (forall i: nat :: HasTranche(w.milestones, key, i) <==> i < a.milestoneCount)
    && a.milestoneTotal == Scheduled(w.milestones, key, a.milestoneCount)
    && (!IsMilestoneContract(a) ==> a.milestoneCount == 0)
  }

  lemma ReachableInOrder(start: Ledger, ticks: seq<Tick>, key: Pubkey)
    requires Genesis(start) && key in Run(start, ticks).agreements
    ensures AccountInOrder(Run(start, ticks), key)
  {
    RunKeepsBooks(start, ticks);
    RunKeepsHome(start, ticks);
    var w := Run(start, ticks);
    assert BooksSound(w.milestones, key, w.agreements[key]);
    hide Run, Genesis, ProofsAtHome;
    forall i: nat ensures HasTranche(w.milestones, key, i) <==> i < w.agreements[key].milestoneCount {
      assert i < w.agreements[key].milestoneCount ==> TrancheSound(w.milestones, key, i);
    }
  }

  lemma RecordsPass(rs: seq<Receipt>, path: seq<Receipt>, notes: seq<Receipt>, w: Ledger, key: Pubkey)
    returns (p: Proofs, d: Tranches)
    requires key in w.agreements && AccountInOrder(w, key) && Drawn(rs, path, notes)
    requires ProofsTell(rs, w, key) && ScheduleTells(rs, w, key)
    requires FundedIs(FirstWith(path, AGREEMENT_FUNDED), w.agreements[key])
    ensures p.Valid() && d.Valid()
    ensures Decided(Submissions(notes), notes) == Ok(p) && ProofsMatch(p.Values(), w, key)
    ensures StepsTaken(Creations(notes), notes) == Ok(d)
    ensures ScheduleMatches(SortedByIndex(d.Values()), w, key, w.agreements[key].milestoneCount)
    ensures TrancheStatesMatch(SortedByIndex(d.Values()), w, key) <==> StepsReadRight(rs)
    ensures StatesAsRead(SortedByIndex(d.Values()), rs)
    ensures CheckSchedule(SortedByIndex(d.Values()), FirstWith(path, AGREEMENT_FUNDED)).Pass?
    ensures CheckCitation(p.Values(), FirstWith(path, SETTLEMENT_EXECUTED)).Pass?
  {
    var a := w.agreements[key];
    ProofsPass(rs, path, notes, w, key);
    p := Decided(Submissions(notes), notes).value;
    d := MilestonesPass(rs, path, notes, w, key);
    assert path == Select(rs, Transition);
    hide ProofsTell, ScheduleTells, Drawn, Decided, Submissions, StepsTaken, Creations, SteppedBy, SortedByIndex;
    hide FirstWith, FundedIs, ProofTableMatches, TrancheTableMatches, ProofsMatch, ScheduleMatches, CheckSchedule;
    hide CheckCitation, Select, StepsReadRight, StatesAsRead, TrancheStatesMatch;
    TableListed(p, w, key);
    SortedTableMatches(d, w, key, a.milestoneCount);
    SchedulePasses(SortedByIndex(d.Values()), FirstWith(path, AGREEMENT_FUNDED), w, key, a);
    CitationPasses(rs, path, p.Values(), w, key);
    AllTrancheStatesExactlyWhen(rs, path, notes, d, w, key, a.milestoneCount);
  }

  lemma AllTrancheStatesExactlyWhen(rs: seq<Receipt>, path: seq<Receipt>, notes: seq<Receipt>, d: Tranches, w: Ledger,
                                    key: Pubkey, count: nat)
    requires ScheduleTells(rs, w, key) && Drawn(rs, path, notes)
    requires d.Valid() && SteppedBy(Creations(notes), d, notes)
    requires ScheduleMatches(SortedByIndex(d.Values()), w, key, count)
    requires forall i: nat :: HasTranche(w.milestones, key, i) <==> i < count
    requires forall r :: r in SortedByIndex(d.Values()) ==> r.milestone in d.at && d.at[r.milestone] == r
    ensures TrancheStatesMatch(SortedByIndex(d.Values()), w, key) <==> StepsReadRight(rs)
    ensures StatesAsRead(SortedByIndex(d.Values()), rs)
  {
    var records := SortedByIndex(d.Values());
    hide Drawn, SortedByIndex, Creations, EndsOn, ReadsRight, StateAsRead, SteppedBy, ScheduleTells, StepsReadRight;
    forall i: nat | i < count
      ensures records[i].state == Tranche(w.milestones, key, i).state <==> ReadsRight(rs, MilestonePda(key, i))
      ensures StateAsRead(records[i].state, rs, records[i].milestone)
    {
      assert records[i] in records;
      OneStateExactlyWhen(rs, path, notes, d, records[i], w, key, i);
    }
    ReadRightByTranche(rs, w, key, count);
  }

  /** The steps read right when those of every tranche do. */
  lemma ReadRightByTranche(rs: seq<Receipt>, w: Ledger, key: Pubkey, count: nat)
    requires ScheduleTells(rs, w, key)
    requires forall i: nat :: HasTranche(w.milestones, key, i) <==> i < count
    ensures StepsReadRight(rs) <==> forall i: nat :: i < count ==> ReadsRight(rs, MilestonePda(key, i))
  {
    hide ReadsRight, ScheduleTells, HasTranche;
    if forall i: nat :: i < count ==> ReadsRight(rs, MilestonePda(key, i)) {
      forall m ensures ReadsRight(rs, m) {
        StepsAreOfTranches(rs, w, key, m);
      }
    }
  }

  lemma OneStateExactlyWhen(rs: seq<Receipt>, path: seq<Receipt>, notes: seq<Receipt>, d: Tranches, r: MilestoneRecord,
                            w: Ledger, key: Pubkey, i: nat)
    requires ScheduleTells(rs, w, key) && Drawn(rs, path, notes)
    requires d.Valid() && SteppedBy(Creations(notes), d, notes)
    requires HasTranche(w.milestones, key, i) && r.milestone == MilestonePda(key, i)
    requires r.milestone in d.at && d.at[r.milestone] == r
    ensures r.state == Tranche(w.milestones, key, i).state <==> ReadsRight(rs, MilestonePda(key, i))
    ensures StateAsRead(r.state, rs, r.milestone)
  {
    CreationsOf(rs, path, notes, w, key);
    var t := Creations(notes);
    hide Drawn, Creations, EndsOn, ReadsRight, ScheduleTells, Tranche, StateAsRead;
    StateIsAsRead(rs, path, notes, t.at[r.milestone], r, w, key, i);
    TrancheStateExactlyWhen(rs, path, notes, t.at[r.milestone], r, w, key, i);
  }

  /** Every step is a step of one of the account's tranches. */
  lemma StepsAreOfTranches(rs: seq<Receipt>, w: Ledger, key: Pubkey, m: Pubkey)
    requires ScheduleTells(rs, w, key)
    ensures ReadsRight(rs, m) || exists i: nat :: HasTranche(w.milestones, key, i) && m == MilestonePda(key, i)
  {
    if r :| r in rs && IsStepOf(r, m) {
      assert TellsTranche(r, w, key);
      assert HasTranche(w.milestones, key, w.milestones[m].index);
    } else {
      assert forall i :: 0 <= i < |rs| ==> rs[i] in rs;
    }
  }

  lemma WhatIsTold(rs: seq<Receipt>, w: Ledger, key: Pubkey)
    requires key in w.agreements && Tells(rs, w, key)
    ensures
      var a := w.agreements[key];
      var moves := Select(rs, Transition);
      && rs != [] && rs[0].fact.agreement == key && rs[0].fact.agreementId == a.agreementId
      && rs[0].fact.buyer == a.creator && rs[0].fact.mint == Some(a.mint)
      && moves != [] && moves[|moves| - 1].fact.newState == a.state
      && MoneyTells(rs, a) && PayeeTells(rs, a) && ProofsTell(rs, w, key) && ScheduleTells(rs, w, key)
  {
    hide MoneyTells, PayeeTells, ProofsTell, ScheduleTells, Select;
  }

  lemma AccountIsRebuilt(rs: seq<Receipt>, annotations: seq<Receipt>, w: Ledger, key: Pubkey)
    requires key in w.agreements && Tells(rs, w, key) && AccountInOrder(w, key)
    requires Drawn(rs, Select(rs, Transition), Sorted(annotations))
    requires Select(rs, Transition) != [] && Select(rs, Transition)[0] == rs[0]
    requires multiset(Select(rs, Transition) + annotations) == multiset(rs)
    ensures Assemble(Select(rs, Transition), annotations).Ok?
    ensures Matches(Assemble(Select(rs, Transition), annotations).value, w, key)
    ensures TrancheStatesMatch(Assemble(Select(rs, Transition), annotations).value.milestones, w, key)
            <==> StepsReadRight(rs)
    ensures StatesAsRead(Assemble(Select(rs, Transition), annotations).value.milestones, rs)
  {
    hide Tells, Drawn, Sorted, Select, StepsReadRight, StatesAsRead, TrancheStatesMatch, Assemble;
    hide AccountInOrder, Matches;
    hide MoneyTells, PayeeTells, ProofsTell, ScheduleTells;
    WhatIsTold(rs, w, key);
    RebuiltOnPath(rs, Select(rs, Transition), annotations, w, key);
  }

  /** The path and notes of the receipts told: where they begin and end, and what they sum to. */
  ghost predicate TellsOnPath(rs: seq<Receipt>, path: seq<Receipt>, annotations: seq<Receipt>, w: Ledger, key: Pubkey)
    requires key in w.agreements
  {
    var a := w.agreements[key];
    && Drawn(rs, path, Sorted(annotations)) && path != [] && rs != [] && path[0] == rs[0]
    && multiset(path + annotations) == multiset(rs)
    && path[0].fact.agreement == key && path[0].fact.agreementId == a.agreementId
    && path[0].fact.buyer == a.creator && path[0].fact.mint == Some(a.mint)
    && path[|path| - 1].fact.newState == a.state
    && MoneyTells(rs, a) && PayeeTells(rs, a) && ProofsTell(rs, w, key) && ScheduleTells(rs, w, key)
  }

  lemma MoneyAndPayeePass(rs: seq<Receipt>, path: seq<Receipt>, annotations: seq<Receipt>, w: Ledger, key: Pubkey)
    requires key in w.agreements && AccountInOrder(w, key) && TellsOnPath(rs, path, annotations, w, key)
    ensures
      var a := w.agreements[key];
      var payees := Assignments(Sorted(annotations));
      var settledTotal := PaidOut(path + annotations, SETTLEMENT_EXECUTED);
      var refundedTotal := PaidOut(path + annotations, REFUND_EXECUTED);
      && AllPlaced(path, Sorted(annotations))
      && CheckMoney(FirstWith(path, AGREEMENT_FUNDED), FirstWith(path, SETTLEMENT_EXECUTED),
                    FirstWith(path, REFUND_EXECUTED), settledTotal, refundedTotal).Pass?
      && OrZero(settledTotal) + OrZero(refundedTotal) == a.settledTotal
      && FundedIs(FirstWith(path, AGREEMENT_FUNDED), a)
      && |payees| <= 1 && (if payees == [] then path[0] else payees[0]).fact.seller == a.counterparty
  {
    var a := w.agreements[key];
    assert PaidUp(a) && path == Select(rs, Transition);
    hide Drawn, Sorted, Select, ProofsTell, ScheduleTells, MoneyTells, PayeeTells, PaidOut, FirstWith, Assignments;
    hide AllPlaced, CheckMoney, AccountInOrder, PaidUp, FundedIs, OrZero;
    NotesArePlaced(rs, path, Sorted(annotations));
    MoneyPasses(rs, path, annotations, a);
    PayeePasses(rs, path, Sorted(annotations), a);
  }

  lemma PathAnswers(rs: seq<Receipt>, path: seq<Receipt>, annotations: seq<Receipt>, w: Ledger, key: Pubkey)
    returns (p: Proofs, d: Tranches)
    requires key in w.agreements && AccountInOrder(w, key) && TellsOnPath(rs, path, annotations, w, key)
    ensures Answerable(path, annotations, p, d) && Answers(path, annotations, p, d, w, key)
    ensures TrancheStatesMatch(SortedByIndex(d.Values()), w, key) <==> StepsReadRight(rs)
    ensures StatesAsRead(SortedByIndex(d.Values()), rs)
  {
    hide Drawn, Sorted, ProofsTell, ScheduleTells, MoneyTells, PayeeTells, PaidOut, FirstWith, Assignments, FundedIs;
    hide ProofsMatch, ScheduleMatches, StepsReadRight, StatesAsRead, TrancheStatesMatch, AllPlaced, CheckMoney;
    hide CheckCitation, CheckSchedule, SortedByIndex, Decided, Submissions, StepsTaken, Creations;
    hide AccountInOrder, OrZero;
    MoneyAndPayeePass(rs, path, annotations, w, key);
    p, d := RecordsPass(rs, path, Sorted(annotations), w, key);
  }

  lemma RebuiltOnPath(rs: seq<Receipt>, path: seq<Receipt>, annotations: seq<Receipt>, w: Ledger, key: Pubkey)
    requires key in w.agreements && AccountInOrder(w, key) && TellsOnPath(rs, path, annotations, w, key)
    ensures Assemble(path, annotations).Ok?
    ensures Matches(Assemble(path, annotations).value, w, key)
    ensures TrancheStatesMatch(Assemble(path, annotations).value.milestones, w, key) <==> StepsReadRight(rs)
    ensures StatesAsRead(Assemble(path, annotations).value.milestones, rs)
  {
    hide AccountInOrder, TellsOnPath, Answerable, Answers, Assemble, Matches, SortedByIndex;
    hide TrancheStatesMatch, StepsReadRight, StatesAsRead;
    var p, d := PathAnswers(rs, path, annotations, w, key);
    AnswerMatches(path, annotations, p, d, w, key);
  }

  /**
   For every run of the program and every agreement it opened: however the
   receipts of that agreement's events are shuffled and repeated, the
   reconstruction accepts them and reports the account, the states of its
   tranches exactly when the step of each that reads last, by coordinates, leaves
   it where the step committed last does.
   */
  lemma ReplayIsComplete(start: Ledger, ticks: seq<Tick>, key: Pubkey, idOf: IdFunction, envelopes: seq<Envelope>,
                         bag: seq<Receipt>)
    requires Genesis(start) && key in Run(start, ticks).agreements && InjectiveIds(idOf)
    requires Carried(envelopes, Trace(start, ticks, key))
    ensures forall i :: 0 <= i < |envelopes| ==> EscrowReceiptFromEvent(idOf, envelopes[i]).Ok?
    ensures SameElements(bag, ReceiptsOf(idOf, envelopes)) ==>
              && Reconstruct(bag).Ok?
              && Matches(Reconstruct(bag).value, Run(start, ticks), key)
              && (TrancheStatesMatch(Reconstruct(bag).value.milestones, Run(start, ticks), key)
                  <==> StepsReadRight(ReceiptsOf(idOf, envelopes)))
              && StatesAsRead(Reconstruct(bag).value.milestones, ReceiptsOf(idOf, envelopes))
  {
    hide Genesis, Run, Trace, Carried, InjectiveIds, Tells, AccountInOrder, Drawn, Assemble;
    hide Reconstruct, Select, IsHistory;
    hide Matches, StepsReadRight, StatesAsRead, TrancheStatesMatch, Stamped, EscrowReceiptFromEvent, Sorted, MovesTell;
    CarriedEventsBuild(idOf, envelopes, Trace(start, ticks, key));
    var rs := ReceiptsOf(idOf, envelopes);
    var w := Run(start, ticks);
    CarriedReceipts(idOf, envelopes, Trace(start, ticks, key));
    RunTells(start, ticks, key, rs);
    ReachableInOrder(start, ticks, key);
    MovesAreTold(rs, w, key);
    MovesAreHistory(rs, w.agreements[key].state, key);
    if SameElements(bag, rs) {
      var annotations := BagTakenApart(bag, rs);
      AccountIsRebuilt(rs, annotations, w, key);
    }
  }

  /**
   Along every run, an agreement that ended is rebuilt with payments that add up to
   its funding: no run reports a refund beside a settlement.
   */
  lemma EndedRunsAddUp(start: Ledger, ticks: seq<Tick>, key: Pubkey, idOf: IdFunction, envelopes: seq<Envelope>,
                       bag: seq<Receipt>)
    requires Genesis(start) && key in Run(start, ticks).agreements && InjectiveIds(idOf)
    requires Carried(envelopes, Trace(start, ticks, key))
    requires Run(start, ticks).agreements[key].state == AgreementState.Settled
             || Run(start, ticks).agreements[key].state == Refunded
    ensures forall i :: 0 <= i < |envelopes| ==> EscrowReceiptFromEvent(idOf, envelopes[i]).Ok?
    ensures SameElements(bag, ReceiptsOf(idOf, envelopes)) ==>
              && Reconstruct(bag).Ok? && Reconstruct(bag).value.fundedAmount.Some?
              && OrZero(Reconstruct(bag).value.settledAmount) + OrZero(Reconstruct(bag).value.refundedAmount)
                 == Reconstruct(bag).value.fundedAmount.value
  {
    ReplayIsComplete(start, ticks, key, idOf, envelopes, bag);
    RunKeepsBooks(start, ticks);
    assert BooksSound(Run(start, ticks).milestones, key, Run(start, ticks).agreements[key]);
    hide Run, Trace, Genesis, Carried, InjectiveIds, Reconstruct, StatesAsRead, StepsReadRight;
    hide AllBooksSound, ScheduleSound;
    hide EscrowReceiptFromEvent, TrancheStatesMatch;
  }
}
