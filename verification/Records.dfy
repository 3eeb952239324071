/** When the proof and milestone annotations of a history fold into records, and what the records then say. */
module Records {
  import opened Wrappers
  import opened Keys
  import opened EscrowState
  import opened Receipts
  import opened Sequences
  import opened Reconstruction

  // ---- Evidence ----

  predicate SubmitsProof(r: Receipt, p: Pubkey) {
    r.fact.action == PROOF_SUBMITTED && OrNobody(r.fact.proof) == p
  }

  predicate DecidesProof(r: Receipt, p: Pubkey) {
    IsDecision(r) && OrNobody(r.fact.proof) == p
  }

  lemma {:induction false} SubmissionsAre(notes: seq<Receipt>)
    ensures forall p :: p in Submissions(notes).at ==>
                          exists r :: r in notes && SubmitsProof(r, p) && Submissions(notes).at[p] == Submission(r)
    ensures forall r :: r in notes && r.fact.action == PROOF_SUBMITTED ==>
                          OrNobody(r.fact.proof) in Submissions(notes).at
  {
    if notes != [] {
      var init, last := notes[..|notes| - 1], notes[|notes| - 1];
      assert notes == init + [last];
      SubmissionsAre(init);
      forall p | p in Submissions(notes).at
        ensures exists r :: r in notes && SubmitsProof(r, p) && Submissions(notes).at[p] == Submission(r)
      {
        if SubmitsProof(last, p) {
          assert last in notes;
        } else {
          assert p in Submissions(init).at && Submissions(notes).at[p] == Submissions(init).at[p];
          var r :| r in init && SubmitsProof(r, p) && Submissions(init).at[p] == Submission(r);
          assert r in notes;
        }
      }
    }
  }

  /** No decision names a proof outside the table, and no proof is decided twice. */
  ghost predicate DecidableBy(t: Proofs, notes: seq<Receipt>) {
    && (forall i :: 0 <= i < |notes| && IsDecision(notes[i]) ==> OrNobody(notes[i].fact.proof) in t.at)
    && (forall i, j :: 0 <= i < j < |notes| && IsDecision(notes[i]) && IsDecision(notes[j]) ==>
          OrNobody(notes[i].fact.proof) != OrNobody(notes[j].fact.proof))
  }

  /** A decided proof is ruled on by its decision, any other is as it was. */
  ghost predicate RuledOne(before: ProofRecord, after: ProofRecord, notes: seq<Receipt>, p: Pubkey) {
    && (forall r :: r in notes && DecidesProof(r, p) ==> after == Ruled(before, r))
    && ((forall r :: r in notes ==> !DecidesProof(r, p)) ==> after == before)
  }

  ghost predicate RuledBy(t: Proofs, d: Proofs, notes: seq<Receipt>) {
    && d.keys == t.keys && d.at.Keys == t.at.Keys
    && (forall p :: p in t.at ==> RuledOne(t.at[p], d.at[p], notes, p))
  }

  /** The decisions are accepted exactly when each names a submitted proof and no proof is decided twice. */
  lemma {:induction false} DecidedExactlyWhen(t: Proofs, notes: seq<Receipt>)
    requires t.Valid() && forall p :: p in t.at ==> t.at[p].decidedBy.None?
    ensures Decided(t, notes).Ok? <==> DecidableBy(t, notes)
    ensures Decided(t, notes).Ok? ==> RuledBy(t, Decided(t, notes).value, notes)
  {
    if notes != [] {
      var init, last := notes[..|notes| - 1], notes[|notes| - 1];
      assert notes == init + [last];
      DecidedExactlyWhen(t, init);
      if DecidableBy(t, init) {
        OneMoreDecision(t, Decided(t, init).value, init, last);
      } else {
        assert !DecidableBy(t, notes) by {
          assert forall i :: 0 <= i < |init| ==> init[i] == notes[i];
        }
      }
    }
  }

  lemma OneMoreDecision(t: Proofs, d: Proofs, init: seq<Receipt>, last: Receipt)
    requires t.Valid() && d.Valid() && forall p :: p in t.at ==> t.at[p].decidedBy.None?
    requires DecidableBy(t, init) && RuledBy(t, d, init)
    ensures Decide(d, last).Ok? <==> DecidableBy(t, init + [last])
    ensures Decide(d, last).Ok? ==> RuledBy(t, Decide(d, last).value, init + [last])
  {
    hide RuledOne, DecidableBy, Ruled;
    var p := OrNobody(last.fact.proof);
    if IsDecision(last) && p in t.at {
      FirstDecision(t.at[p], d.at[p], init, p);
    }
    StillDecidable(t, init, last);
    if Decide(d, last).Ok? {
      var e := Decide(d, last).value;
      forall q | q in t.at ensures RuledOne(t.at[q], e.at[q], init + [last], q) {
        if DecidesProof(last, q) {
          FirstDecision(t.at[q], d.at[q], init, q);
        }
        RuledOnce(t.at[q], d.at[q], init, last, q);
      }
    }
  }

  lemma FirstDecision(before: ProofRecord, after: ProofRecord, notes: seq<Receipt>, p: Pubkey)
    requires before.decidedBy.None? && RuledOne(before, after, notes, p)
    ensures after.decidedBy.None? <==> forall r :: r in notes ==> !DecidesProof(r, p)
  {
  }

  lemma StillDecidable(t: Proofs, init: seq<Receipt>, last: Receipt)
    requires DecidableBy(t, init)
    ensures
      var p := OrNobody(last.fact.proof);
      var undecided := forall r :: r in init ==> !DecidesProof(r, p);
      DecidableBy(t, init + [last]) <==> (IsDecision(last) ==> p in t.at && undecided)
  {
    var notes := init + [last];
    var p := OrNobody(last.fact.proof);
    assert notes[|init|] == last;
    assert forall i :: 0 <= i < |init| ==> notes[i] == init[i] && init[i] in init;
    if IsDecision(last) && p in t.at {
      if r :| r in init && DecidesProof(r, p) {
        var i :| 0 <= i < |init| && init[i] == r;
        assert notes[i] == r;
      }
    }
  }

  lemma RuledOnce(before: ProofRecord, after: ProofRecord, init: seq<Receipt>, last: Receipt, p: Pubkey)
    requires RuledOne(before, after, init, p)
    requires DecidesProof(last, p) ==> forall r :: r in init ==> !DecidesProof(r, p)
    ensures RuledOne(before, if DecidesProof(last, p) then Ruled(after, last) else after, init + [last], p)
  {
    assert last in init + [last];
    assert forall r :: r in init ==> r in init + [last];
  }

  lemma {:induction false} FindProofIn(records: seq<ProofRecord>, p: Pubkey)
    ensures FindProof(records, p).Some? ==>
              FindProof(records, p).value in records && FindProof(records, p).value.proof == p
    ensures forall r :: r in records && r.proof == p ==> FindProof(records, p).Some?
  {
    if records != [] {
      FindProofIn(records[1..], p);
      assert records == [records[0]] + records[1..];
    }
  }

  lemma ValuesAre<V>(t: Table<Pubkey, V>)
    requires t.Valid()
    ensures forall k :: k in t.at ==> t.at[k] in t.Values()
    ensures forall v :: v in t.Values() ==> exists k :: k in t.at && t.at[k] == v
  {
    forall k | k in t.at ensures t.at[k] in t.Values() {
      assert k in t.keys;
      var i :| 0 <= i < |t.keys| && t.keys[i] == k;
      assert t.Values()[i] == t.at[k];
    }
    forall v | v in t.Values() ensures exists k :: k in t.at && t.at[k] == v {
      var i :| 0 <= i < |t.Values()| && t.Values()[i] == v;
      assert t.keys[i] in t.keys;
    }
  }

  // ---- Milestones ----

  predicate CreatesMilestone(r: Receipt, m: Pubkey) {
    r.fact.action == MILESTONE_CREATED && OrNobody(r.fact.milestone) == m
  }

  predicate IsStep(action: ReceiptAction) {
    || action == MILESTONE_SUBMITTED || action == MILESTONE_APPROVED
    || action == MILESTONE_REJECTED || action == MILESTONE_SETTLED
  }

  predicate IsStepOf(r: Receipt, m: Pubkey) {
    r.fact.milestone == Some(m) && IsStep(r.fact.action)
  }

  /** The state a step leaves its tranche in. */
  function StateAfter(action: ReceiptAction): MilestoneState {
    match action
    case MILESTONE_SUBMITTED => MilestoneState.Submitted
    case MILESTONE_APPROVED => MilestoneState.Approved
    case MILESTONE_SETTLED => MilestoneState.Settled
    case _ => Pending
  }

  lemma {:induction false} CreationsAre(notes: seq<Receipt>)
    ensures forall m :: m in Creations(notes).at ==>
                          exists r :: r in notes && CreatesMilestone(r, m) && Creations(notes).at[m] == Creation(r)
    ensures forall r :: r in notes && r.fact.action == MILESTONE_CREATED ==>
                          OrNobody(r.fact.milestone) in Creations(notes).at
  {
    if notes != [] {
      var init, last := notes[..|notes| - 1], notes[|notes| - 1];
      assert notes == init + [last];
      CreationsAre(init);
      OneMoreCreation(notes);
      hide Creations, Creation, CreatesMilestone;
      forall m | m in Creations(notes).at
        ensures exists r :: r in notes && CreatesMilestone(r, m) && Creations(notes).at[m] == Creation(r)
      {
        if CreatesMilestone(last, m) {
          assert last in notes;
        } else {
          var r :| r in init && CreatesMilestone(r, m) && Creations(init).at[m] == Creation(r);
          assert r in notes;
        }
      }
    }
  }

  /** The last annotation creates its own tranche, if any, and leaves the others as they were. */
  lemma OneMoreCreation(notes: seq<Receipt>)
    requires notes != []
    ensures
      var before, last := Creations(notes[..|notes| - 1]).at, notes[|notes| - 1];
      && before.Keys <= Creations(notes).at.Keys
      && (last.fact.action == MILESTONE_CREATED ==> OrNobody(last.fact.milestone) in Creations(notes).at)
      && forall m :: m in Creations(notes).at ==>
           if CreatesMilestone(last, m) then Creations(notes).at[m] == Creation(last)
           else m in before && Creations(notes).at[m] == before[m]
  {
    hide Creation;
  }

  /** Only a creation may name a milestone outside the table. */
  ghost predicate StepsKnown(t: Tranches, notes: seq<Receipt>) {
    forall r :: r in notes && r.fact.milestone.Some? && r.fact.milestone.value !in t.at ==>
      r.fact.action == MILESTONE_CREATED
  }

  /** The last step of a milestone in a list of annotations. */
  predicate LastStepAt(notes: seq<Receipt>, i: int, m: Pubkey) {
    0 <= i < |notes| && IsStepOf(notes[i], m) && forall j :: i < j < |notes| ==> !IsStepOf(notes[j], m)
  }

  predicate PaysTranche(r: Receipt, m: Pubkey) {
    r.fact.milestone == Some(m) && r.fact.action == MILESTONE_SETTLED
  }

  /** The last payment of a milestone in a list of annotations. */
  predicate LastPaymentAt(notes: seq<Receipt>, i: int, m: Pubkey) {
    0 <= i < |notes| && PaysTranche(notes[i], m) && forall j :: i < j < |notes| ==> !PaysTranche(notes[j], m)
  }

  ghost predicate StateEndsOn(before: MilestoneRecord, after: MilestoneRecord, notes: seq<Receipt>, m: Pubkey) {
    && (forall i :: LastStepAt(notes, i, m) ==> after.state == StateAfter(notes[i].fact.action))
    && ((forall r :: r in notes ==> !IsStepOf(r, m)) ==> after.state == before.state)
  }

  ghost predicate PaidTo(before: MilestoneRecord, after: MilestoneRecord, notes: seq<Receipt>, m: Pubkey) {
    && (forall i :: LastPaymentAt(notes, i, m) ==> after.destination == notes[i].fact.destination)
    && ((forall r :: r in notes ==> !PaysTranche(r, m)) ==> after.destination == before.destination)
  }

  /**
   A tranche ends on its last step, or where it began when it took none, and names
   the destination of its last payment.
   */
  ghost predicate EndsOn(before: MilestoneRecord, after: MilestoneRecord, notes: seq<Receipt>, m: Pubkey) {
    && after.(state := before.state, destination := before.destination) == before
    && StateEndsOn(before, after, notes, m) && PaidTo(before, after, notes, m)
  }

  ghost predicate SteppedBy(t: Tranches, d: Tranches, notes: seq<Receipt>) {
    && d.keys == t.keys && d.at.Keys == t.at.Keys
    && (forall m :: m in t.at ==> EndsOn(t.at[m], d.at[m], notes, m))
  }

  /** A record after one more annotation. */
  function Next(m: MilestoneRecord, r: Receipt, tranche: Pubkey): MilestoneRecord {
    if r.fact.milestone == Some(tranche) then StepTaken(m, r) else m
  }

  lemma OneMoreState(before: MilestoneRecord, after: MilestoneRecord, init: seq<Receipt>, last: Receipt, m: Pubkey)
    requires StateEndsOn(before, after, init, m)
    ensures StateEndsOn(before, Next(after, last, m), init + [last], m)
  {
    var notes := init + [last];
    var now := Next(after, last, m);
    assert last in notes && notes[|init|] == last;
    forall i | LastStepAt(notes, i, m) ensures now.state == StateAfter(notes[i].fact.action) {
      if i < |init| {
        assert !IsStepOf(notes[|init|], m);
        forall j | i < j < |init| ensures !IsStepOf(init[j], m) {
          assert init[j] == notes[j];
        }
        assert LastStepAt(init, i, m);
      }
    }
    if forall r :: r in notes ==> !IsStepOf(r, m) {
      assert forall r :: r in init ==> r in notes;
    }
  }

  lemma OneMorePayment(before: MilestoneRecord, after: MilestoneRecord, init: seq<Receipt>, last: Receipt, m: Pubkey)
    requires PaidTo(before, after, init, m)
    ensures PaidTo(before, Next(after, last, m), init + [last], m)
  {
    var notes := init + [last];
    var now := Next(after, last, m);
    assert last in notes && notes[|init|] == last;
    forall i | LastPaymentAt(notes, i, m) ensures now.destination == notes[i].fact.destination {
      if i < |init| {
        assert !PaysTranche(notes[|init|], m);
        forall j | i < j < |init| ensures !PaysTranche(init[j], m) {
          assert init[j] == notes[j];
        }
        assert LastPaymentAt(init, i, m);
      }
    }
    if forall r :: r in notes ==> !PaysTranche(r, m) {
      assert forall r :: r in init ==> r in notes;
    }
  }

  lemma OneMoreStepOf(before: MilestoneRecord, after: MilestoneRecord, init: seq<Receipt>, last: Receipt, m: Pubkey)
    requires EndsOn(before, after, init, m)
    ensures EndsOn(before, Next(after, last, m), init + [last], m)
  {
    hide StateEndsOn, PaidTo;
    OneMoreState(before, after, init, last, m);
    OneMorePayment(before, after, init, last, m);
  }

  lemma {:induction false} StepsTakenExactlyWhen(t: Tranches, notes: seq<Receipt>)
    requires t.Valid()
    ensures StepsTaken(t, notes).Ok? <==> StepsKnown(t, notes)
    ensures StepsTaken(t, notes).Ok? ==> SteppedBy(t, StepsTaken(t, notes).value, notes)
  {
    if notes != [] {
      var init, last := notes[..|notes| - 1], notes[|notes| - 1];
      assert notes == init + [last];
      StepsTakenExactlyWhen(t, init);
      if StepsKnown(t, init) {
        OneMoreStep(t, StepsTaken(t, init).value, init, last);
      } else {
        assert forall r :: r in init ==> r in notes;
      }
    }
  }

  lemma OneMoreStep(t: Tranches, d: Tranches, init: seq<Receipt>, last: Receipt)
    requires t.Valid() && d.Valid() && StepsKnown(t, init) && SteppedBy(t, d, init)
    ensures TakeStep(d, last).Ok? <==> StepsKnown(t, init + [last])
    ensures TakeStep(d, last).Ok? ==> SteppedBy(t, TakeStep(d, last).value, init + [last])
  {
    hide EndsOn, StepTaken;
    assert last in init + [last];
    if TakeStep(d, last).Ok? {
      var e := TakeStep(d, last).value;
      forall m | m in t.at ensures EndsOn(t.at[m], e.at[m], init + [last], m) {
        OneMoreStepOf(t.at[m], d.at[m], init, last, m);
        assert e.at[m] == if last.fact.milestone == Some(m) then StepTaken(d.at[m], last) else d.at[m];
      }
    }
  }

  // ---- The schedule in index order ----

  lemma {:induction false} InsertByIndexAdds(m: MilestoneRecord, s: seq<MilestoneRecord>)
    ensures multiset(InsertByIndex(m, s)) == multiset(s) + multiset{m}
  {
    if s != [] {
      assert s == [s[0]] + s[1..];
      InsertByIndexAdds(m, s[1..]);
    }
  }

  predicate ByIndex(s: seq<MilestoneRecord>) {
    forall i, j :: 0 <= i < j < |s| ==> s[i].milestoneIndex <= s[j].milestoneIndex
  }

  lemma {:induction false} InsertKeepsIndexOrder(m: MilestoneRecord, s: seq<MilestoneRecord>)
    requires ByIndex(s)
    ensures ByIndex(InsertByIndex(m, s))
  {
    if s != [] && s[0].milestoneIndex <= m.milestoneIndex {
      InsertKeepsIndexOrder(m, s[1..]);
      InsertedAreAbove(m, s);
      PrependKeepsIndexOrder(s[0], InsertByIndex(m, s[1..]));
    }
  }

  lemma InsertedAreAbove(m: MilestoneRecord, s: seq<MilestoneRecord>)
    requires ByIndex(s) && s != [] && s[0].milestoneIndex <= m.milestoneIndex
    ensures forall x :: x in InsertByIndex(m, s[1..]) ==> s[0].milestoneIndex <= x.milestoneIndex
  {
    var rest := InsertByIndex(m, s[1..]);
    InsertByIndexAdds(m, s[1..]);
    hide InsertByIndex;
    forall x | x in rest ensures s[0].milestoneIndex <= x.milestoneIndex {
      assert x in multiset(rest);
      assert x == m || x in s[1..];
    }
  }

  lemma PrependKeepsIndexOrder(first: MilestoneRecord, rest: seq<MilestoneRecord>)
    requires ByIndex(rest) && forall x :: x in rest ==> first.milestoneIndex <= x.milestoneIndex
    ensures ByIndex([first] + rest)
  {
    assert forall i :: 0 <= i < |rest| ==> rest[i] in rest;
  }

  lemma {:induction false} SortedByIndexPermutes(s: seq<MilestoneRecord>)
    ensures multiset(SortedByIndex(s)) == multiset(s) && ByIndex(SortedByIndex(s))
  {
    if s != [] {
      var init := s[..|s| - 1];
      assert s == init + [s[|s| - 1]];
      SortedByIndexPermutes(init);
      InsertByIndexAdds(s[|s| - 1], SortedByIndex(init));
      InsertKeepsIndexOrder(s[|s| - 1], SortedByIndex(init));
    }
  }
}
