/** Following a run of the program instruction by instruction. */
module ConcreteRuns {
  import opened Wrappers
  import opened Keys
  import opened EscrowEvents
  import opened EscrowKernel
  import opened ReplayTrace

  /** Where a run has got to, and what it has said of one agreement. */
  ghost predicate Reaches(start: Ledger, ticks: seq<Tick>, w: Ledger, events: seq<Event>, key: Pubkey) {
    Run(start, ticks) == w && Trace(start, ticks, key) == events
  }

  lemma StartsAt(start: Ledger, key: Pubkey)
    ensures Reaches(start, [], start, [], key)
  {
  }

  /** One more instruction, accepted. */
  lemma GoesOn(start: Ledger, ticks: seq<Tick>, w: Ledger, events: seq<Event>, key: Pubkey, t: Tick, v: Ledger,
               added: seq<Event>)
    requires Reaches(start, ticks, w, events, key) && Step(w, t.ix, t.now) == Ok(Committed(v, added))
    requires forall e :: e in added ==> e.agreement == key
    ensures Reaches(start, ticks + [t], v, events + added, key)
  {
    hide Step;
    assert (ticks + [t])[..|ticks + [t]| - 1] == ticks;
    AllAbout(added, key);
  }

  /** An accepted action commits what it writes. */
  lemma ActionCommits(w: Ledger, key: Pubkey, signer: Pubkey, action: Action, now: int, c: Change, v: Ledger)
    requires CanSign(signer) && LoadAgreement(w, key).Ok?
    requires Act(w, key, w.agreements[key], signer, action, now) == Ok(c) && Commit(w, key, c).ledger == v
    ensures Step(w, OnAgreement(signer, key, action), now) == Ok(Committed(v, c.events))
  {
    hide Act;
  }
}
