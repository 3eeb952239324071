/** Who can take the address a proof's core record will be minted at, and what that blocks. */
module KernelMinting {
  import opened Keys
  import opened EscrowState
  import opened EscrowKernel
  import opened KernelEvidence

  /** An instruction that anchors the i-th proof of an agreement for one submitter. */
  predicate Anchors(w: Ledger, ix: Instruction, key: Pubkey, i: nat, submitter: Pubkey) {
    && ix.OnAgreement? && ix.agreement == key && ix.action.SubmitProof? && ix.signer == submitter
    && key in w.agreements && w.agreements[key].proofCount == i
  }

  predicate MintsDirectly(ix: Instruction, owner: Pubkey, id: CoreProofId) {
    ix.CreateCoreProof? && ix.signer == owner && ix.id == id
  }

  lemma EffectTakes(w: Ledger, key: Pubkey, a: Agreement, signer: Pubkey, action: Action, c: Change, owner: Pubkey,
                    id: CoreProofId)
    requires EvidenceEffect(w, key, a, signer, action, c)
    ensures CorePda(owner, id) in c.records
            <==> CorePda(owner, id) in w.records
                 || (action.SubmitProof? && owner == signer && id == EscrowMinted(key, a.proofCount))
  {
  }

  /**
   A core address is taken only by a step its owner signed: by minting the id, or by
   anchoring the proof it is derived for.
   */
  lemma AddressIsTakenBy(w: Ledger, ix: Instruction, now: int, owner: Pubkey, id: CoreProofId)
    requires Step(w, ix, now).Ok?
    ensures
      var v := Step(w, ix, now).value.ledger;
      var anchors := id.EscrowMinted? && Anchors(w, ix, id.agreement, id.index, owner);
      CorePda(owner, id) in v.records <==> CorePda(owner, id) in w.records || MintsDirectly(ix, owner, id) || anchors
  {
    if ix.OnAgreement? {
      var a := w.agreements[ix.agreement];
      var c := Act(w, ix.agreement, a, ix.signer, ix.action, now).value;
      ActionEvidence(w, ix.agreement, a, ix.signer, ix.action, now);
      hide Act, EvidenceEffect;
      EffectTakes(w, ix.agreement, a, ix.signer, ix.action, c, owner, id);
    }
  }

  /** Nobody but its owner can take a core address. */
  lemma OnlyItsOwnerTakesIt(w: Ledger, ix: Instruction, now: int, owner: Pubkey, id: CoreProofId)
    requires Step(w, ix, now).Ok?
    requires CorePda(owner, id) !in w.records && CorePda(owner, id) in Step(w, ix, now).value.ledger.records
    ensures ix.signer == owner
  {
    AddressIsTakenBy(w, ix, now, owner, id);
    hide Step;
  }

  // ---- Along a run ----

  /** Somewhere along the run this wallet called ppv_core itself with this id, and was served. */
  function Mints(start: Ledger, ticks: seq<Tick>, owner: Pubkey, id: CoreProofId): bool {
    if ticks == [] then false
    else
      var init := ticks[..|ticks| - 1];
      var t := ticks[|ticks| - 1];
      Mints(start, init, owner, id) || (MintsDirectly(t.ix, owner, id) && Step(Run(start, init), t.ix, t.now).Ok?)
  }

  predicate Anchored(proofs: map<Pubkey, Proof>, key: Pubkey, i: nat, submitter: Pubkey) {
    ProofPda(key, i) in proofs && proofs[ProofPda(key, i)].submitter == submitter
  }

  /** What an action leaves of the proofs: all of them, one more, or one decided anew by the same submitter. */
  lemma ProofsAfter(w: Ledger, key: Pubkey, a: Agreement, signer: Pubkey, action: Action, c: Change)
    requires EvidenceSound(w, key, a) && EvidenceEffect(w, key, a, signer, action, c)
    ensures
      var proofs := Commit(w, key, c).ledger.proofs;
      if action.SubmitProof? then
        var added := ProofPda(key, a.proofCount);
        && added !in w.proofs && c.proof.Some? && c.proof.value.submitter == signer
        && proofs == w.proofs[added := c.proof.value]
      else if c.proof.Some? then
        var decided := ProofPda(key, c.proof.value.index);
        decided in w.proofs && c.proof.value.submitter == w.proofs[decided].submitter
        && proofs == w.proofs[decided := c.proof.value]
      else
        proofs == w.proofs
  {
    assert !HasProof(w, key, a.proofCount);
    hide EvidenceSound;
  }

  lemma EffectAnchors(w: Ledger, key: Pubkey, a: Agreement, signer: Pubkey, action: Action, c: Change, other: Pubkey,
                      i: nat, submitter: Pubkey)
    requires EvidenceSound(w, key, a) && EvidenceEffect(w, key, a, signer, action, c)
    ensures Anchored(Commit(w, key, c).ledger.proofs, other, i, submitter)
            <==> Anchored(w.proofs, other, i, submitter)
                 || (action.SubmitProof? && other == key && i == a.proofCount && submitter == signer)
  {
    hide EvidenceSound, EvidenceEffect, Commit;
    ProofsAfter(w, key, a, signer, action, c);
    if action.SubmitProof? {
    } else if c.proof.Some? {
      assert ProofPda(other, i) == ProofPda(key, c.proof.value.index) ==> ProofPda(other, i) in w.proofs;
    }
  }

  lemma ProofIsAnchoredBy(w: Ledger, ix: Instruction, now: int, key: Pubkey, i: nat, submitter: Pubkey)
    requires Step(w, ix, now).Ok?
    requires ix.OnAgreement? ==> EvidenceSound(w, ix.agreement, w.agreements[ix.agreement])
    ensures Anchored(Step(w, ix, now).value.ledger.proofs, key, i, submitter)
            <==> Anchored(w.proofs, key, i, submitter) || Anchors(w, ix, key, i, submitter)
  {
    hide Act, EvidenceEffect, EvidenceSound, Anchored;
    if ix.OnAgreement? {
      var a := w.agreements[ix.agreement];
      var c := Act(w, ix.agreement, a, ix.signer, ix.action, now).value;
      ActionEvidence(w, ix.agreement, a, ix.signer, ix.action, now);
      hide Commit;
      EffectAnchors(w, ix.agreement, a, ix.signer, ix.action, c, key, i, submitter);
    }
  }

  /**
   In every reachable ledger a derived core address is taken exactly when its owner
   minted the id or anchored the proof.
   */
  lemma {:induction false} TakenExactlyWhen(start: Ledger, ticks: seq<Tick>, key: Pubkey, i: nat, owner: Pubkey)
    requires Genesis(start)
    ensures
      var w := Run(start, ticks);
      CoreProofAddress(owner, key, i) in w.records
      <==> Mints(start, ticks, owner, EscrowMinted(key, i)) || Anchored(w.proofs, key, i, owner)
  {
    if ticks != [] {
      var init, t := ticks[..|ticks| - 1], ticks[|ticks| - 1];
      TakenExactlyWhen(start, init, key, i, owner);
      RunKeepsEvidence(start, init);
      assert t.ix.OnAgreement? && t.ix.agreement in Run(start, init).agreements ==>
        EvidenceSound(Run(start, init), t.ix.agreement, Run(start, init).agreements[t.ix.agreement]);
      hide Anchored, Anchors, AllEvidenceSound, EvidenceSound, Genesis, Act, CreateCoreRecord;
      if Step(Run(start, init), t.ix, t.now).Ok? {
        AddressIsTakenBy(Run(start, init), t.ix, t.now, owner, EscrowMinted(key, i));
        ProofIsAnchoredBy(Run(start, init), t.ix, t.now, key, i, owner);
      }
    }
  }

  /**
   Exactly when a party can anchor evidence. The last condition is not in the
   documentation: ppv_core lets a wallet mint any id, so a party that minted the
   next derived id for itself blocks its own submission, and that is all that can
   block it: nothing another wallet did is part of the condition.
   */
  lemma SubmissionEnabledExactlyWhen(start: Ledger, ticks: seq<Tick>, key: Pubkey, signer: Pubkey,
                                     contentHash: Hash, metadataHash: Hash, now: int)
    requires Genesis(start) && key in Run(start, ticks).agreements
    ensures
      var w := Run(start, ticks);
      var a := w.agreements[key];
      var enabled := SubmitProofSpec(w, key, a, signer, contentHash, metadataHash, now).Ok?;
      var allowed := IsParty(a, signer) && IsLive(a.state) && contentHash != 0 && a.proofCount < U32_MAX;
      enabled <==> allowed && !Mints(start, ticks, signer, EscrowMinted(key, a.proofCount))
  {
    var w := Run(start, ticks);
    var a := w.agreements[key];
    RunKeepsEvidence(start, ticks);
    assert !HasProof(w, key, a.proofCount);
    TakenExactlyWhen(start, ticks, key, a.proofCount, signer);
  }
}
