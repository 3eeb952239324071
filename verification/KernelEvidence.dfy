/**
 Evidence across two programs: ppv_escrow records what was decided about a
 commitment, and ppv_core holds the commitment.
 */
module KernelEvidence {
  import opened Wrappers
  import opened Keys
  import opened EscrowState
  import opened EscrowKernel
  import opened KernelFrames

  type Records = map<Pubkey, CoreRecord>

  predicate HasProof(w: Ledger, key: Pubkey, i: nat) {
    ProofPda(key, i) in w.proofs
  }

  /** One proof account, its party, its decision, and the core record it stands on. */
  predicate ProofSound(w: Ledger, key: Pubkey, a: Agreement, i: nat) {
    && HasProof(w, key, i)
    && var p := w.proofs[ProofPda(key, i)];
       && p.agreement == key && p.index == i
       && IsParty(a, p.submitter)
       && p.coreProof == CoreProofAddress(p.submitter, key, i)
       && p.coreProof in w.records && w.records[p.coreProof].authority == p.submitter
       && (p.status == ProofStatus.Submitted ==> p.decidedBy == Default)
       && (p.status != ProofStatus.Submitted ==> IsParty(a, p.decidedBy) && p.decidedBy != p.submitter)
  }

  ghost predicate EvidenceSound(w: Ledger, key: Pubkey, a: Agreement) {
    && (forall i: nat :: i < a.proofCount ==> ProofSound(w, key, a, i))
    && (forall i: nat :: a.proofCount <= i ==> !HasProof(w, key, i))
  }

  ghost predicate AllEvidenceSound(w: Ledger) {
    && (forall key :: key in w.agreements ==> EvidenceSound(w, key, w.agreements[key]))
    && (forall key, i: nat :: key !in w.agreements ==> !HasProof(w, key, i))
  }

  // ---- Core records are never removed, and a revocation is final ----

  predicate RecordKept(w: Records, v: Records, k: Pubkey) {
    k in w ==> k in v && v[k].authority == w[k].authority && (w[k].status == Revoked ==> v[k] == w[k])
  }

  predicate IsDecision(action: Action) {
    action.ApproveProof? || action.RejectProof?
  }

  /** What an action does to evidence: anchor one proof, decide one proof, or nothing. */
  predicate EvidenceEffect(w: Ledger, key: Pubkey, a: Agreement, signer: Pubkey, action: Action, c: Change) {
    if action.SubmitProof? then
      var core := CoreProofAddress(signer, key, a.proofCount);
      && c.agreement.proofCount == a.proofCount + 1
      && IsParty(a, signer) && IsLive(a.state) && core !in w.records && core in c.records
      && c.records[core].authority == signer && c.records[core].status == Active
      && c.records == w.records[core := c.records[core]]
      && c.proof.Some? && c.proof.value.agreement == key && c.proof.value.index == a.proofCount
      && c.proof.value.submitter == signer && c.proof.value.coreProof == core
      && c.proof.value.status == ProofStatus.Submitted && c.proof.value.decidedBy == Default
    else if IsDecision(action) then
      && c.agreement == a && c.records == w.records
      && action.proof in w.proofs && action.proof == ProofPda(key, w.proofs[action.proof].index)
      && w.proofs[action.proof].status == ProofStatus.Submitted
      && IsParty(a, signer) && IsLive(a.state) && signer != w.proofs[action.proof].submitter
      && c.proof.Some?
      && c.proof.value == w.proofs[action.proof].(status := c.proof.value.status, decidedBy := signer,
                                                  decidedAt := c.proof.value.decidedAt)
      && c.proof.value.status == (if action.ApproveProof? then ProofStatus.Approved else Rejected)
    else
      LeavesEvidence(w, a, c)
  }

  lemma SubmissionEvidence(w: Ledger, key: Pubkey, a: Agreement, signer: Pubkey, contentHash: Hash,
                           metadataHash: Hash, now: int)
    requires SubmitProofSpec(w, key, a, signer, contentHash, metadataHash, now).Ok?
    ensures EvidenceEffect(w, key, a, signer, SubmitProof(contentHash, metadataHash),
                           SubmitProofSpec(w, key, a, signer, contentHash, metadataHash, now).value)
  {
    var core := CoreProofAddress(signer, key, a.proofCount);
    var c := SubmitProofSpec(w, key, a, signer, contentHash, metadataHash, now).value;
    assert c.records == w.records[core := c.records[core]];
  }

  lemma DecisionEvidence(w: Ledger, key: Pubkey, a: Agreement, signer: Pubkey, address: Pubkey, approve: bool, now: int)
    requires DecideProofSpec(w, key, a, signer, address, approve, now).Ok?
    ensures EvidenceEffect(w, key, a, signer, if approve then ApproveProof(address) else RejectProof(address),
                           DecideProofSpec(w, key, a, signer, address, approve, now).value)
  {
  }

  lemma ActionEvidence(w: Ledger, key: Pubkey, a: Agreement, signer: Pubkey, action: Action, now: int)
    requires Act(w, key, a, signer, action, now).Ok?
    ensures EvidenceEffect(w, key, a, signer, action, Act(w, key, a, signer, action, now).value)
  {
    if action.SubmitProof? {
      SubmissionEvidence(w, key, a, signer, action.contentHash, action.metadataHash, now);
    } else if IsDecision(action) {
      DecisionEvidence(w, key, a, signer, action.proof, action.ApproveProof?, now);
    }
  }

  lemma EffectKeepsRecords(w: Ledger, key: Pubkey, a: Agreement, signer: Pubkey, action: Action, c: Change)
    requires EvidenceEffect(w, key, a, signer, action, c)
    ensures forall k :: RecordKept(w.records, c.records, k)
  {
  }

  lemma StepKeepsRecords(w: Ledger, ix: Instruction, now: int)
    requires Step(w, ix, now).Ok?
    ensures forall k :: RecordKept(w.records, Step(w, ix, now).value.ledger.records, k)
  {
    if ix.OnAgreement? {
      var a := w.agreements[ix.agreement];
      var c := Act(w, ix.agreement, a, ix.signer, ix.action, now).value;
      ActionEvidence(w, ix.agreement, a, ix.signer, ix.action, now);
      EffectKeepsRecords(w, ix.agreement, a, ix.signer, ix.action, c);
    }
  }

  // ---- Evidence stays sound ----

  lemma EffectKeepsEvidence(w: Ledger, key: Pubkey, a: Agreement, signer: Pubkey, action: Action, c: Change)
    requires EvidenceSound(w, key, a) && EvidenceEffect(w, key, a, signer, action, c)
    requires KeepsTerms(a, c.agreement)
    ensures EvidenceSound(Commit(w, key, c).ledger, key, c.agreement)
  {
    EffectKeepsRecords(w, key, a, signer, action, c);
    hide EvidenceEffect, KeepsTerms, ProofSound, Commit, RecordKept;
    var v := Commit(w, key, c).ledger;
    forall i: nat
      ensures i < c.agreement.proofCount ==> ProofSound(v, key, c.agreement, i)
      ensures c.agreement.proofCount <= i ==> !HasProof(v, key, i)
    {
      EffectKeepsProof(w, key, a, signer, action, c, i);
    }
  }

  /**
   Of each proof account: the one submitted begins sound, the one decided stays so, and
   the others are as they were.
   */
  lemma EffectKeepsProof(w: Ledger, key: Pubkey, a: Agreement, signer: Pubkey, action: Action, c: Change, i: nat)
    requires EvidenceSound(w, key, a) && EvidenceEffect(w, key, a, signer, action, c)
    requires KeepsTerms(a, c.agreement) && forall k :: RecordKept(w.records, c.records, k)
    ensures
      var v := Commit(w, key, c).ledger;
      && (i < c.agreement.proofCount ==> ProofSound(v, key, c.agreement, i))
      && (c.agreement.proofCount <= i ==> !HasProof(v, key, i))
  {
    assert i < a.proofCount ==> ProofSound(w, key, a, i);
    assert a.proofCount <= i ==> !HasProof(w, key, i);
    if IsDecision(action) {
      assert HasProof(w, key, w.proofs[action.proof].index);
    }
    assert i < a.proofCount ==> RecordKept(w.records, c.records, w.proofs[ProofPda(key, i)].coreProof);
  }

  lemma EvidenceIsLocal(w: Ledger, v: Ledger, key: Pubkey)
    requires SameAgreement(w, v, key) && key in w.agreements
    requires forall k :: RecordKept(w.records, v.records, k)
    requires EvidenceSound(w, key, w.agreements[key])
    ensures EvidenceSound(v, key, v.agreements[key])
  {
    var a := w.agreements[key];
    forall i: nat
      ensures i < a.proofCount ==> ProofSound(v, key, a, i)
      ensures a.proofCount <= i ==> !HasProof(v, key, i)
    {
      assert SameEntry(w.proofs, v.proofs, ProofPda(key, i));
      assert i < a.proofCount ==> ProofSound(w, key, a, i);
      assert a.proofCount <= i ==> !HasProof(w, key, i);
      if i < a.proofCount {
        assert RecordKept(w.records, v.records, w.proofs[ProofPda(key, i)].coreProof);
      }
    }
  }

  lemma StepKeepsEvidenceOf(w: Ledger, ix: Instruction, now: int, key: Pubkey)
    requires AllEvidenceSound(w) && Step(w, ix, now).Ok?
    requires key in Step(w, ix, now).value.ledger.agreements
    ensures
      var v := Step(w, ix, now).value.ledger;
      EvidenceSound(v, key, v.agreements[key])
  {
    var v := Step(w, ix, now).value.ledger;
    if KeyOf(ix) != Some(key) {
      OtherAgreementsUntouched(w, ix, now, key);
      StepKeepsRecords(w, ix, now);
      EvidenceIsLocal(w, v, key);
    } else if ix.OnAgreement? {
      var a := w.agreements[key];
      var c := Act(w, key, a, ix.signer, ix.action, now).value;
      ActionEvidence(w, key, a, ix.signer, ix.action, now);
      EffectKeepsEvidence(w, key, a, ix.signer, ix.action, c);
    } else {
      forall i: nat ensures !HasProof(v, key, i) {
        assert !HasProof(w, key, i);
      }
    }
  }

  lemma StepKeepsEvidence(w: Ledger, ix: Instruction, now: int)
    requires AllEvidenceSound(w) && Step(w, ix, now).Ok?
    ensures AllEvidenceSound(Step(w, ix, now).value.ledger)
  {
    var v := Step(w, ix, now).value.ledger;
    forall key | key in v.agreements ensures EvidenceSound(v, key, v.agreements[key]) {
      StepKeepsEvidenceOf(w, ix, now, key);
    }
    forall key, i: nat | key !in v.agreements ensures !HasProof(v, key, i) {
      OtherAgreementsUntouched(w, ix, now, key);
      assert SameEntry(w.proofs, v.proofs, ProofPda(key, i));
      assert !HasProof(w, key, i);
    }
  }

  /**
   In every reachable ledger the proofs of an agreement are numbered densely from
   zero, each stands on a core record its submitter owns, and each decision was
   made by the party that did not submit.
   */
  lemma {:induction false} RunKeepsEvidence(start: Ledger, ticks: seq<Tick>)
    requires Genesis(start)
    ensures AllEvidenceSound(Run(start, ticks))
  {
    if ticks != [] {
      var init := ticks[..|ticks| - 1];
      var t := ticks[|ticks| - 1];
      RunKeepsEvidence(start, init);
      if Step(Run(start, init), t.ix, t.now).Ok? {
        StepKeepsEvidence(Run(start, init), t.ix, t.now);
      }
    }
  }

  // ---- Decisions are final ----

  lemma EffectKeepsDecisions(w: Ledger, key: Pubkey, a: Agreement, signer: Pubkey, action: Action, c: Change,
                             address: Pubkey)
    requires EvidenceEffect(w, key, a, signer, action, c) && EvidenceSound(w, key, a)
    requires address in w.proofs && w.proofs[address].status != ProofStatus.Submitted
    ensures SameEntry(w.proofs, Commit(w, key, c).ledger.proofs, address)
  {
    assert !HasProof(w, key, a.proofCount);
  }

  /** A decided proof account is never written again. */
  lemma {:induction false} DecisionsAreFinal(start: Ledger, ticks: seq<Tick>, more: seq<Tick>, address: Pubkey)
    requires Genesis(start)
    requires address in Run(start, ticks).proofs
    requires Run(start, ticks).proofs[address].status != ProofStatus.Submitted
    ensures SameEntry(Run(start, ticks).proofs, Run(start, ticks + more).proofs, address)
    decreases |more|
  {
    if more == [] {
      assert ticks + more == ticks;
    } else {
      var init := more[..|more| - 1];
      var t := more[|more| - 1];
      assert (ticks + more)[..|ticks + more| - 1] == ticks + init;
      DecisionsAreFinal(start, ticks, init, address);
      RunKeepsEvidence(start, ticks + init);
      StepKeepsDecision(Run(start, ticks + init), t, address);
    }
  }

  lemma StepKeepsDecision(w: Ledger, t: Tick, address: Pubkey)
    requires AllEvidenceSound(w)
    requires address in w.proofs && w.proofs[address].status != ProofStatus.Submitted
    ensures SameEntry(w.proofs, After(w, t).proofs, address)
  {
    if Step(w, t.ix, t.now).Ok? && t.ix.OnAgreement? {
      var key := t.ix.agreement;
      var a := w.agreements[key];
      var c := Act(w, key, a, t.ix.signer, t.ix.action, t.now).value;
      ActionEvidence(w, key, a, t.ix.signer, t.ix.action, t.now);
      EffectKeepsDecisions(w, key, a, t.ix.signer, t.ix.action, c, address);
    }
  }

  // ---- Revocation ----

  /** How many times a run revoked a core record. */
  function Revocations(start: Ledger, ticks: seq<Tick>, record: Pubkey): nat {
    if ticks == [] then 0
    else
      var init := ticks[..|ticks| - 1];
      var t := ticks[|ticks| - 1];
      Revocations(start, init, record)
      + if t.ix.RevokeCoreProof? && t.ix.record == record && Step(Run(start, init), t.ix, t.now).Ok? then 1 else 0
  }

  lemma StepRevokes(w: Ledger, t: Tick, record: Pubkey)
    ensures
      var v := After(w, t).records;
      var revoked := t.ix.RevokeCoreProof? && t.ix.record == record && Step(w, t.ix, t.now).Ok?;
      && (revoked ==> record in w.records && w.records[record].status == Active
                      && v[record].status == Revoked && t.ix.signer == w.records[record].authority)
      && (!revoked && record in w.records ==> record in v && v[record] == w.records[record])
      && (record !in w.records && record in v ==> v[record].status == Active)
  {
    if Step(w, t.ix, t.now).Ok? && t.ix.OnAgreement? {
      var a := w.agreements[t.ix.agreement];
      var c := Act(w, t.ix.agreement, a, t.ix.signer, t.ix.action, t.now).value;
      ActionEvidence(w, t.ix.agreement, a, t.ix.signer, t.ix.action, t.now);
      EffectRevokesNothing(w, t.ix.agreement, a, t.ix.signer, t.ix.action, c, record);
    }
  }

  lemma EffectRevokesNothing(w: Ledger, key: Pubkey, a: Agreement, signer: Pubkey, action: Action, c: Change,
                             record: Pubkey)
    requires EvidenceEffect(w, key, a, signer, action, c)
    ensures record in w.records ==> record in c.records && c.records[record] == w.records[record]
    ensures record !in w.records && record in c.records ==> c.records[record].status == Active
  {
  }

  /** A core record stands exactly when the run never revoked it; it can be revoked once at most. */
  lemma {:induction false} ActiveMeansNeverRevoked(start: Ledger, ticks: seq<Tick>, record: Pubkey)
    requires Genesis(start)
    ensures Revocations(start, ticks, record) <= 1
    ensures
      var records := Run(start, ticks).records;
      if record in records
      then records[record].status == Active <==> Revocations(start, ticks, record) == 0
      else Revocations(start, ticks, record) == 0
  {
    if ticks != [] {
      var init := ticks[..|ticks| - 1];
      ActiveMeansNeverRevoked(start, init, record);
      StepRevokes(Run(start, init), ticks[|ticks| - 1], record);
    }
  }

  /**
   Citing a proof together with the core record it stands on is accepted exactly
   when the other party approved the proof and nobody ever revoked the record.
   */
  lemma CitationAcceptedExactlyWhen(start: Ledger, ticks: seq<Tick>, key: Pubkey, i: nat)
    requires Genesis(start) && key in Run(start, ticks).agreements
    requires i < Run(start, ticks).agreements[key].proofCount
    ensures HasProof(Run(start, ticks), key, i)
    ensures
      var w := Run(start, ticks);
      var p := w.proofs[ProofPda(key, i)];
      var citation := Citation(Some(ProofPda(key, i)), Some(p.coreProof));
      var cited := RequireCitedProof(w, citation, key);
      var standing := p.status == ProofStatus.Approved && Revocations(start, ticks, p.coreProof) == 0;
      && (cited.Ok? <==> standing)
      && (cited.Ok? ==> cited.value == Some(ProofPda(key, i)))
  {
    var w := Run(start, ticks);
    RunKeepsEvidence(start, ticks);
    assert ProofSound(w, key, w.agreements[key], i);
    ActiveMeansNeverRevoked(start, ticks, w.proofs[ProofPda(key, i)].coreProof);
  }

  /**
   Two verdicts that come to the same payment: accepted together, with the same account,
   tranche, tokens and events.
   */
  predicate SamePayment(here: Verdict, there: Verdict) {
    && here.Ok? == there.Ok?
    && (here.Ok? ==> here.value.agreement == there.value.agreement && here.value.milestone == there.value.milestone
                     && here.value.tokens == there.value.tokens && here.value.events == there.value.events)
  }

  lemma UncitedTrancheIgnoresEvidence(w: Ledger, v: Ledger, key: Pubkey, a: Agreement, signer: Pubkey,
                                      tranche: Pubkey, destination: Pubkey, now: int)
    requires v.tokens == w.tokens && v.milestones == w.milestones
    ensures SamePayment(SettleMilestoneSpec(w, key, a, signer, tranche, destination, Citation(None, None), now),
                        SettleMilestoneSpec(v, key, a, signer, tranche, destination, Citation(None, None), now))
  {
    assert RequireCitedProof(w, Citation(None, None), key) == RequireCitedProof(v, Citation(None, None), key);
    assert LoadMilestone(w, key, tranche) == LoadMilestone(v, key, tranche);
    assert RequireVault(w, key, a) == RequireVault(v, key, a);
    hide RequireCitedProof, LoadMilestone, RequireVault, RequireMilestoneSettleable, PayOutOfVault;
    hide RecordMilestoneSettled;
    hide KeepsTerms, Reports, LeavesEvidence;
  }

  lemma UncitedWholeIgnoresEvidence(w: Ledger, v: Ledger, key: Pubkey, a: Agreement, signer: Pubkey,
                                    destination: Pubkey, now: int)
    requires v.tokens == w.tokens
    ensures SamePayment(SettleSpec(w, key, a, signer, destination, Citation(None, None), now),
                        SettleSpec(v, key, a, signer, destination, Citation(None, None), now))
  {
    assert RequireCitedProof(w, Citation(None, None), key) == RequireCitedProof(v, Citation(None, None), key);
    assert RequireVault(w, key, a) == RequireVault(v, key, a);
    hide RequireCitedProof, RequireVault, RequireSettleable, PayOutOfVault, RecordPayout;
    hide KeepsTerms, Reports, LeavesEvidence;
  }

  /**
   A payment that cites nothing, of the whole or of a tranche, does not depend on
   evidence or on any revocation.
   */
  lemma UncitedSettlementIgnoresEvidence(w: Ledger, v: Ledger, key: Pubkey, a: Agreement, signer: Pubkey,
                                         destination: Pubkey, now: int)
    requires v.tokens == w.tokens && v.milestones == w.milestones
    ensures
      var uncited := Citation(None, None);
      && SamePayment(SettleSpec(w, key, a, signer, destination, uncited, now),
                     SettleSpec(v, key, a, signer, destination, uncited, now))
      && forall tranche ::
           SamePayment(SettleMilestoneSpec(w, key, a, signer, tranche, destination, uncited, now),
                       SettleMilestoneSpec(v, key, a, signer, tranche, destination, uncited, now))
  {
    hide SettleMilestoneSpec, SettleSpec, SamePayment;
    UncitedWholeIgnoresEvidence(w, v, key, a, signer, destination, now);
    forall tranche
      ensures SamePayment(SettleMilestoneSpec(w, key, a, signer, tranche, destination, Citation(None, None), now),
                          SettleMilestoneSpec(v, key, a, signer, tranche, destination, Citation(None, None), now))
    {
      UncitedTrancheIgnoresEvidence(w, v, key, a, signer, tranche, destination, now);
    }
  }
}
