/** What one instruction can touch: the accounts of the agreement it names, tokens, and core records. */
module KernelFrames {
  import opened Wrappers
  import opened Keys
  import opened EscrowKernel

  /** The agreement an instruction acts on, if it acts on one. */
  function KeyOf(ix: Instruction): Option<Pubkey> {
    match ix
    case InitializeAgreement(creator, id, _, _, _, _, _) => Some(AgreementPda(creator, id))
    case OnAgreement(_, key, _) => Some(key)
    case _ => None
  }

  predicate SameEntry<K, V(==)>(m: map<K, V>, n: map<K, V>, k: K) {
    (k in m) == (k in n) && (k in m ==> m[k] == n[k])
  }

  /** The accounts of agreement `key` read the same in both ledgers. */
  ghost predicate SameAgreement(w: Ledger, v: Ledger, key: Pubkey) {
    && SameEntry(w.agreements, v.agreements, key)
    && (forall i: nat :: SameEntry(w.milestones, v.milestones, MilestonePda(key, i)))
    && (forall i: nat :: SameEntry(w.proofs, v.proofs, ProofPda(key, i)))
  }

  /** An instruction leaves every agreement other than its own exactly as it was. */
  lemma OtherAgreementsUntouched(w: Ledger, ix: Instruction, now: int, key: Pubkey)
    requires Step(w, ix, now).Ok?
    requires KeyOf(ix) != Some(key)
    ensures SameAgreement(w, Step(w, ix, now).value.ledger, key)
  {
  }

  /** An instruction reports only on the agreement it names. */
  lemma EventsNameTheirAgreement(w: Ledger, ix: Instruction, now: int)
    requires Step(w, ix, now).Ok?
    ensures forall e :: e in Step(w, ix, now).value.events ==> KeyOf(ix) == Some(e.agreement)
  {
  }
}
