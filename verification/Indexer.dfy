/** The reconstruction as the indexer computes it, loop by loop. */
module Indexer {
  import opened Wrappers
  import opened EscrowState
  import opened Receipts
  import opened Sequences
  import opened ReceiptOrder
  import opened Reconstruction

  // ---- A fold that has failed stays failed ----

  lemma {:induction false} CollectedStops(s: seq<Receipt>, n: nat)
    requires n <= |s| && Collected(s[..n]).Err?
    ensures Collected(s) == Collected(s[..n])
  {
    if n < |s| {
      assert s[..|s| - 1][..n] == s[..n];
      CollectedStops(s[..|s| - 1], n);
    } else {
      assert s[..n] == s;
    }
  }

  lemma {:induction false} ExitsStop(s: seq<Receipt>, n: nat)
    requires n <= |s| && ExitsOf(s[..n]).Err?
    ensures ExitsOf(s) == ExitsOf(s[..n])
  {
    if n < |s| {
      assert s[..|s| - 1][..n] == s[..n];
      ExitsStop(s[..|s| - 1], n);
    } else {
      assert s[..n] == s;
    }
  }

  lemma {:induction false} DecidedStops(t: Proofs, s: seq<Receipt>, n: nat)
    requires t.Valid() && n <= |s| && Decided(t, s[..n]).Err?
    ensures Decided(t, s) == Decided(t, s[..n])
  {
    if n < |s| {
      assert s[..|s| - 1][..n] == s[..n];
      DecidedStops(t, s[..|s| - 1], n);
    } else {
      assert s[..n] == s;
    }
  }

  lemma {:induction false} StepsStop(t: Tranches, s: seq<Receipt>, n: nat)
    requires t.Valid() && n <= |s| && StepsTaken(t, s[..n]).Err?
    ensures StepsTaken(t, s) == StepsTaken(t, s[..n])
  {
    if n < |s| {
      assert s[..|s| - 1][..n] == s[..n];
      StepsStop(t, s[..|s| - 1], n);
    } else {
      assert s[..n] == s;
    }
  }

  // ---- The loops ----

  /** Keeps the last receipt of each id, in the order ids first came. */
  method CollectById(receipts: seq<Receipt>) returns (r: Result<Collection, ReceiptError>)
    ensures r == Collected(receipts)
  {
    var byId: Collection := Table([], map[]);
    for i := 0 to |receipts|
      invariant Collected(receipts[..i]) == Ok(byId)
    {
      var receipt := receipts[i];
      assert receipts[..i + 1][..i] == receipts[..i];
      if receipt.receiptId in byId.at && byId.at[receipt.receiptId].fact.action != receipt.fact.action {
        CollectedStops(receipts, i + 1);
        return Err(ReplayedAction);
      }
      byId := byId.Put(receipt.receiptId, receipt);
    }
    assert receipts[..|receipts|] == receipts;
    return Ok(byId);
  }

  method DeleteAnnotations(c: Collection, annotations: seq<Receipt>) returns (byId: Collection)
    requires c.Valid()
    ensures byId == Deleted(c, annotations)
  {
    byId := c;
    for i := 0 to |annotations|
      invariant byId == Deleted(c, annotations[..i])
    {
      assert annotations[..i + 1][..i] == annotations[..i];
      byId := byId.Remove(annotations[i].receiptId);
    }
    assert annotations[..|annotations|] == annotations;
  }

  method CheckAgreement(moves: seq<Receipt>) returns (one: bool)
    ensures one == OneAgreement(moves)
  {
    for i := 0 to |moves|
      invariant forall j :: 0 <= j < i ==> moves[j].fact.agreement == moves[0].fact.agreement
    {
      if moves[i].fact.agreement != moves[0].fact.agreement {
        assert moves[i] in moves;
        return false;
      }
    }
    return true;
  }

  method LinkTransitions(moves: seq<Receipt>) returns (r: Result<Exits, ReceiptError>)
    ensures r == ExitsOf(moves)
  {
    var transitions: Exits := map[];
    for i := 0 to |moves|
      invariant ExitsOf(moves[..i]) == Ok(transitions)
    {
      var receipt := moves[i];
      assert moves[..i + 1][..i] == moves[..i];
      if receipt.fact.previousState.Some? {
        var from := receipt.fact.previousState.value;
        if from in transitions && transitions[from].receiptId != receipt.receiptId {
          ExitsStop(moves, i + 1);
          return Err(Forked);
        }
        transitions := transitions[from := receipt];
      }
    }
    assert moves[..|moves|] == moves;
    return Ok(transitions);
  }

  /** Follows the links from the creation receipt, using each of them up. */
  method FollowPath(exits: Exits, created: Receipt) returns (r: Result<seq<Receipt>, ReceiptError>)
    ensures r == Walk(exits, [created])
  {
    var transitions := exits;
    var ordered := [created];
    var visited := {created.fact.newState};
    var state := created.fact.newState;
    var previous := created;
    while state in transitions
      invariant ordered != [] && previous == ordered[|ordered| - 1] && state == previous.fact.newState
      invariant visited == StatesOn(ordered)
      invariant Walk(transitions, ordered) == Walk(exits, [created])
      decreases transitions.Keys
    {
      var next := transitions[state];
      if next.slot < previous.slot {
        return Err(SlotRegression);
      }
      transitions := transitions - {state};
      ghost var before := ordered;
      ordered := ordered + [next];
      assert StatesOn(ordered) == StatesOn(before) + {next.fact.newState};
      state := next.fact.newState;
      previous := next;
      if state in visited {
        return Err(Revisited);
      }
      visited := visited + {state};
    }
    if transitions != map[] {
      return Err(Orphan);
    }
    return Ok(ordered);
  }

  method FindPath(moves: seq<Receipt>) returns (r: Result<seq<Receipt>, ReceiptError>)
    ensures r == PathOf(moves)
  {
    var one := CheckAgreement(moves);
    if !one {
      return Err(ManyAgreements);
    }
    var roots := Roots(moves);
    if |roots| == 0 {
      return Err(MissingCreation);
    }
    if |roots| > 1 {
      return Err(ManyCreations);
    }
    var linked := LinkTransitions(moves);
    if linked.Err? {
      return Err(linked.error);
    }
    r := FollowPath(linked.value, roots[0]);
  }

  /** The index of the last transition that had happened, by looking at all of them. */
  method FindHome(path: seq<Receipt>, note: Receipt) returns (home: int)
    ensures home == Home(path, note)
  {
    home := -1;
    for i := 0 to |path|
      invariant home == Home(path[..i], note)
    {
      assert path[..i + 1][..i] == path[..i];
      if path[i].slot <= note.slot {
        home := i;
      }
    }
    assert path[..|path|] == path;
  }

  function Bucket(attached: map<int, seq<Receipt>>, home: int): seq<Receipt> {
    if home in attached then attached[home] else []
  }

  method Attach(path: seq<Receipt>, notes: seq<Receipt>) returns (r: Result<map<int, seq<Receipt>>, ReceiptError>)
    ensures r.Err? <==> !AllPlaced(path, notes)
    ensures r.Err? ==> r.error == EarlyAnnotation
    ensures r.Ok? ==> forall home :: Bucket(r.value, home) == NotesAt(path, notes, home)
  {
    var attached: map<int, seq<Receipt>> := map[];
    for i := 0 to |notes|
      invariant forall j :: 0 <= j < i ==> Home(path, notes[j]) >= 0
      invariant forall home :: Bucket(attached, home) == NotesAt(path, notes[..i], home)
    {
      var home := FindHome(path, notes[i]);
      if home < 0 {
        return Err(EarlyAnnotation);
      }
      assert notes[..i + 1][..i] == notes[..i];
      attached := attached[home := Bucket(attached, home) + [notes[i]]];
    }
    assert notes[..|notes|] == notes;
    return Ok(attached);
  }

  method Interleave(path: seq<Receipt>, notes: seq<Receipt>, attached: map<int, seq<Receipt>>)
    returns (all: seq<Receipt>)
    requires forall home :: Bucket(attached, home) == NotesAt(path, notes, home)
    ensures all == Interleaved(path, notes, |path|)
  {
    all := [];
    for i := 0 to |path|
      invariant all == Interleaved(path, notes, i)
    {
      all := all + [path[i]];
      all := all + Bucket(attached, i);
    }
  }

  method ApplyDecision(byProof: Proofs, receipt: Receipt) returns (r: Result<Proofs, ReceiptError>)
    requires byProof.Valid()
    ensures r == Decide(byProof, receipt)
  {
    if receipt.fact.action != PROOF_APPROVED && receipt.fact.action != PROOF_REJECTED {
      return Ok(byProof);
    }
    var proof := OrNobody(receipt.fact.proof);
    if proof !in byProof.at {
      return Err(BadDecision);
    }
    var record := byProof.at[proof];
    if record.decidedBy.Some? {
      return Err(BadDecision);
    }
    record := record.(status := if receipt.fact.action == PROOF_APPROVED then ProofStatus.Approved else Rejected);
    record := record.(decidedBy := Some(receipt.fact.actor));
    return Ok(byProof.Put(proof, record));
  }

  method FoldProofs(annotations: seq<Receipt>) returns (r: Result<seq<ProofRecord>, ReceiptError>)
    ensures r == ProofRecords(annotations)
  {
    var byProof: Proofs := Table([], map[]);
    for i := 0 to |annotations|
      invariant byProof == Submissions(annotations[..i])
    {
      assert annotations[..i + 1][..i] == annotations[..i];
      if annotations[i].fact.action == PROOF_SUBMITTED {
        byProof := byProof.Put(OrNobody(annotations[i].fact.proof), Submission(annotations[i]));
      }
    }
    assert annotations[..|annotations|] == annotations;
    ghost var submitted := byProof;
    for i := 0 to |annotations|
      invariant Decided(submitted, annotations[..i]) == Ok(byProof)
    {
      var receipt := annotations[i];
      assert annotations[..i + 1][..i] == annotations[..i];
      var decided := ApplyDecision(byProof, receipt);
      if decided.Err? {
        DecidedStops(submitted, annotations, i + 1);
        return Err(decided.error);
      }
      byProof := decided.value;
    }
    return Ok(byProof.Values());
  }

  method ApplyStep(m: MilestoneRecord, receipt: Receipt) returns (record: MilestoneRecord)
    ensures record == StepTaken(m, receipt)
  {
    record := m;
    match receipt.fact.action {
      case MILESTONE_SUBMITTED =>
        record := record.(state := MilestoneState.Submitted);
      case MILESTONE_APPROVED =>
        record := record.(state := MilestoneState.Approved);
      case MILESTONE_REJECTED =>
        record := record.(state := Pending);
      case MILESTONE_SETTLED =>
        record := record.(state := MilestoneState.Settled);
        record := record.(destination := receipt.fact.destination);
      case _ =>
    }
  }

  /** A step of a tranche that was never created is refused; other annotations change nothing. */
  method ApplyToTranche(byMilestone: Tranches, receipt: Receipt) returns (r: Result<Tranches, ReceiptError>)
    requires byMilestone.Valid()
    ensures r == TakeStep(byMilestone, receipt)
  {
    r := Ok(byMilestone);
    if receipt.fact.milestone.Some? {
      var milestone := receipt.fact.milestone.value;
      if milestone !in byMilestone.at {
        if receipt.fact.action != MILESTONE_CREATED {
          return Err(UnknownMilestone);
        }
      } else {
        var record := ApplyStep(byMilestone.at[milestone], receipt);
        r := Ok(byMilestone.Put(milestone, record));
      }
    }
  }

  method FoldMilestones(annotations: seq<Receipt>) returns (r: Result<seq<MilestoneRecord>, ReceiptError>)
    ensures r == MilestoneRecords(annotations)
  {
    var byMilestone: Tranches := Table([], map[]);
    for i := 0 to |annotations|
      invariant byMilestone == Creations(annotations[..i])
    {
      assert annotations[..i + 1][..i] == annotations[..i];
      if annotations[i].fact.action == MILESTONE_CREATED {
        byMilestone := byMilestone.Put(OrNobody(annotations[i].fact.milestone), Creation(annotations[i]));
      }
    }
    assert annotations[..|annotations|] == annotations;
    ghost var created := byMilestone;
    for i := 0 to |annotations|
      invariant StepsTaken(created, annotations[..i]) == Ok(byMilestone)
    {
      assert annotations[..i + 1][..i] == annotations[..i];
      var stepped := ApplyToTranche(byMilestone, annotations[i]);
      if stepped.Err? {
        StepsStop(created, annotations, i + 1);
        return Err(stepped.error);
      }
      byMilestone := stepped.value;
    }
    return Ok(SortedByIndex(byMilestone.Values()));
  }

  method SumAmounts(milestones: seq<MilestoneRecord>) returns (total: nat)
    ensures total == ScheduledTotal(milestones)
  {
    total := 0;
    for i := 0 to |milestones|
      invariant total == ScheduledTotal(milestones[..i])
    {
      assert milestones[..i + 1][..i] == milestones[..i];
      total := total + milestones[i].amount;
    }
    assert milestones[..|milestones|] == milestones;
  }

  /** The total of one kind of payment, by one pass. */
  method TotalPaid(receipts: seq<Receipt>, action: ReceiptAction) returns (total: Option<nat>)
    ensures total == PaidOut(receipts, action)
  {
    total := None;
    for i := 0 to |receipts|
      invariant total == PaidOut(receipts[..i], action)
    {
      assert receipts[..i + 1][..i] == receipts[..i];
      if receipts[i].fact.action == action {
        total := Some(OrZero(total) + OrZero(receipts[i].fact.amount));
      }
    }
    assert receipts[..|receipts|] == receipts;
  }

  method CheckPayments(funded: Option<Receipt>, settled: Option<Receipt>, refunded: Option<Receipt>,
                       settledTotal: Option<nat>, refundedTotal: Option<nat>) returns (r: Outcome<ReceiptError>)
    ensures r == CheckMoney(funded, settled, refunded, settledTotal, refundedTotal)
  {
    if settledTotal.Some? && funded.None? {
      return Fail(SettlementWithoutFunding);
    }
    if settled.Some? && funded.Some? && settledTotal != funded.value.fact.amount {
      return Fail(SettlementMismatch);
    }
    if settled.Some? && refunded.Some? {
      return Fail(SettledAndRefunded);
    }
    if refundedTotal.Some? && funded.None? {
      return Fail(RefundWithoutFunding);
    }
    if refunded.Some? && funded.Some? {
      var returnedAndPaid := OrZero(refundedTotal) + OrZero(settledTotal);
      if Some(returnedAndPaid) != funded.value.fact.amount {
        return Fail(RefundMismatch);
      }
    }
    return Pass;
  }

  method CheckTranches(milestones: seq<MilestoneRecord>, funded: Option<Receipt>) returns (r: Outcome<ReceiptError>)
    ensures r == CheckSchedule(milestones, funded)
  {
    var scheduled := SumAmounts(milestones);
    if |milestones| > 0 && funded.Some? && Some(scheduled) != funded.value.fact.amount {
      return Fail(ScheduleMismatch);
    }
    return Pass;
  }

  method CheckEvidence(proofs: seq<ProofRecord>, settled: Option<Receipt>) returns (r: Outcome<ReceiptError>)
    ensures r == CheckCitation(proofs, settled)
  {
    if settled.Some? && settled.value.fact.proof.Some? {
      var cited := FindProof(proofs, settled.value.fact.proof.value);
      if cited.None? {
        return Fail(UnknownCitation);
      }
      if cited.value.status != ProofStatus.Approved {
        return Fail(UnapprovedCitation);
      }
    }
    return Pass;
  }

  /** The checks on money, payee, evidence and schedule, in the order they are made. */
  method AssembleLifecycle(path: seq<Receipt>, annotations: seq<Receipt>) returns (r: Result<Lifecycle, ReceiptError>)
    requires path != []
    ensures r == Assemble(path, annotations)
  {
    hide Sorted, FirstWith, PaidOut, NotesAt, Interleaved, Assignments, ProofRecords, MilestoneRecords, AllPlaced;
    hide CheckMoney, CheckSchedule, CheckCitation, Bucket;
    var notes := Sorted(annotations);
    var attached := Attach(path, notes);
    if attached.Err? {
      return Err(attached.error);
    }
    var all := Interleave(path, notes, attached.value);
    var funded := FirstWith(path, AGREEMENT_FUNDED);
    var settled := FirstWith(path, SETTLEMENT_EXECUTED);
    var refunded := FirstWith(path, REFUND_EXECUTED);
    var settledTotal := TotalPaid(path + annotations, SETTLEMENT_EXECUTED);
    var refundedTotal := TotalPaid(path + annotations, REFUND_EXECUTED);
    var money := CheckPayments(funded, settled, refunded, settledTotal, refundedTotal);
    if money.Fail? {
      return Err(money.error);
    }
    var payees := Assignments(notes);
    if |payees| > 1 {
      return Err(ManyPayees);
    }
    var proofs := FoldProofs(notes);
    if proofs.Err? {
      return Err(proofs.error);
    }
    var milestones := FoldMilestones(notes);
    if milestones.Err? {
      return Err(milestones.error);
    }
    var schedule := CheckTranches(milestones.value, funded);
    if schedule.Fail? {
      return Err(schedule.error);
    }
    var citation := CheckEvidence(proofs.value, settled);
    if citation.Fail? {
      return Err(citation.error);
    }
    var created, last := path[0], path[|path| - 1];
    return Ok(Lifecycle(
        created.fact.agreement, created.fact.agreementId, created.fact.buyer,
        if payees == [] then created.fact.seller else payees[0].fact.seller,
        OrNobody(created.fact.mint), last.fact.newState,
        if funded.Some? then funded.value.fact.amount else None,
        settledTotal, refundedTotal, Else(DestinationOf(settled), DestinationOf(refunded)),
        EndingOf(last.fact.newState), last.slot, proofs.value, milestones.value, all));
  }

  /** Rebuilds one agreement's history, with the source's loops and in its order of checks. */
  method ReconstructAgreementLifecycle(receipts: seq<Receipt>) returns (r: Result<Lifecycle, ReceiptError>)
    ensures r == Reconstruct(receipts)
  {
    if |receipts| == 0 {
      return Err(NoReceipts);
    }
    var collected := CollectById(receipts);
    if collected.Err? {
      return Err(collected.error);
    }
    var annotations := Select(collected.value.Values(), Annotation);
    var byId := DeleteAnnotations(collected.value, annotations);
    var path := FindPath(byId.Values());
    if path.Err? {
      return Err(path.error);
    }
    PathIsNeverEmpty(byId.Values());
    r := AssembleLifecycle(path.value, annotations);
  }
}
