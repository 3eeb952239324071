/** Does an escrow fund the contract that two parties negotiated? Re-checked from the two accounts alone. */
module Binding {
  import opened Wrappers
  import opened Keys
  import opened Commerce
  import Escrow = EscrowState
  import Kernel = EscrowKernel
  import KernelOutcomes

  datatype Side = PartyA | PartyB

  datatype Reason =
    | TermsDiffer | NotExecuted | PartiesDiffer | SameWalletTwice
    | NotSigned(side: Side) | OtherVersion(side: Side) | OtherTerms(side: Side) | OtherContent(side: Side)
    | OneSigner | Outsider(side: Side)

  function Only(condition: bool, reason: Reason): seq<Reason> {
    if condition then [reason] else []
  }

  function Parties(c: Contract): set<Pubkey> {
    {c.partyA, c.partyB}
  }

  /** Every way one signature can disagree with the contract. */
  function SignatureReasons(side: Side, signature: Option<SignatureRecord>, c: Contract): seq<Reason> {
    if signature.None? then [NotSigned(side)]
    else
      Only(signature.value.versionSigned != c.version, OtherVersion(side))
      + Only(signature.value.termsHashSigned != c.termsHash, OtherTerms(side))
      + Only(signature.value.contentHashSigned != c.contentHash, OtherContent(side))
  }

  function SignerReasons(c: Contract): seq<Reason> {
    if c.sigA.None? || c.sigB.None? then []
    else
      Only(c.sigA.value.signer == c.sigB.value.signer, OneSigner)
      + Only(c.sigA.value.signer !in Parties(c), Outsider(PartyA))
      + Only(c.sigB.value.signer !in Parties(c), Outsider(PartyB))
  }

  /** Every way the terms and the parties can disagree. */
  function PairReasons(creator: Pubkey, counterparty: Pubkey, termsHash: Hash, c: Contract): seq<Reason> {
    Only(c.termsHash != termsHash, TermsDiffer)
    + Only(c.state != Executed, NotExecuted)
    + Only(creator !in Parties(c) || counterparty !in Parties(c), PartiesDiffer)
    + Only(creator == counterparty, SameWalletTwice)
  }

  function Reasons(creator: Pubkey, counterparty: Pubkey, termsHash: Hash, c: Contract): seq<Reason> {
    PairReasons(creator, counterparty, termsHash, c)
    + SignatureReasons(PartyA, c.sigA, c)
    + SignatureReasons(PartyB, c.sigB, c)
    + SignerReasons(c)
  }

  /** Collects every disagreement; the accounts are bound when there is none. */
  method VerifyTermsBinding(creator: Pubkey, counterparty: Pubkey, termsHash: Hash, contract: Contract)
    returns (bound: bool, reasons: seq<Reason>)
    ensures reasons == Reasons(creator, counterparty, termsHash, contract)
    ensures bound <==> reasons == []
  {
    hide PairReasons, SignatureReasons, SignerReasons;
    reasons := CheckPair(creator, counterparty, termsHash, contract);
    ghost var before := reasons;
    var signatures := [(PartyA, contract.sigA), (PartyB, contract.sigB)];
    for i := 0 to 2
      invariant i == 0 ==> reasons == before
      invariant i == 1 ==> reasons == before + SignatureReasons(PartyA, contract.sigA, contract)
      invariant i == 2 ==> reasons == before + SignatureReasons(PartyA, contract.sigA, contract)
                                      + SignatureReasons(PartyB, contract.sigB, contract)
    {
      reasons := CheckSignature(signatures[i].0, signatures[i].1, contract, reasons);
    }
    reasons := CheckSigners(contract, reasons);
    bound := |reasons| == 0;
  }

  method CheckPair(creator: Pubkey, counterparty: Pubkey, termsHash: Hash, contract: Contract)
    returns (reasons: seq<Reason>)
    ensures reasons == PairReasons(creator, counterparty, termsHash, contract)
  {
    reasons := [];
    if contract.termsHash != termsHash {
      reasons := reasons + [TermsDiffer];
    }
    ghost var terms := Only(contract.termsHash != termsHash, TermsDiffer);
    assert reasons == terms;
    if contract.state != Executed {
      reasons := reasons + [NotExecuted];
    }
    ghost var executed := terms + Only(contract.state != Executed, NotExecuted);
    assert reasons == executed;
    var contractParties := {contract.partyA, contract.partyB};
    if creator !in contractParties || counterparty !in contractParties {
      reasons := reasons + [PartiesDiffer];
    }
    ghost var strangers := creator !in Parties(contract) || counterparty !in Parties(contract);
    assert reasons == executed + Only(strangers, PartiesDiffer);
    if creator == counterparty {
      reasons := reasons + [SameWalletTwice];
    }
  }

  method CheckSigners(contract: Contract, before: seq<Reason>) returns (reasons: seq<Reason>)
    ensures reasons == before + SignerReasons(contract)
  {
    reasons := before;
    var contractParties := {contract.partyA, contract.partyB};
    if contract.sigA.Some? && contract.sigB.Some? {
      if contract.sigA.value.signer == contract.sigB.value.signer {
        reasons := reasons + [OneSigner];
      }
      if contract.sigA.value.signer !in contractParties {
        reasons := reasons + [Outsider(PartyA)];
      }
      if contract.sigB.value.signer !in contractParties {
        reasons := reasons + [Outsider(PartyB)];
      }
    }
  }

  method CheckSignature(side: Side, signature: Option<SignatureRecord>, contract: Contract, before: seq<Reason>)
    returns (reasons: seq<Reason>)
    ensures reasons == before + SignatureReasons(side, signature, contract)
  {
    reasons := before;
    if signature.None? {
      return reasons + [NotSigned(side)];
    }
    if signature.value.versionSigned != contract.version {
      reasons := reasons + [OtherVersion(side)];
    }
    if signature.value.termsHashSigned != contract.termsHash {
      reasons := reasons + [OtherTerms(side)];
    }
    if signature.value.contentHashSigned != contract.contentHash {
      reasons := reasons + [OtherContent(side)];
    }
  }

  /**
   For a contract the program can reach, the whole check collapses: the accounts
   are bound exactly when the contract is executed, the terms hashes match, and
   the two pairs of parties are the same pair.
   */
  lemma BoundExactlyWhen(start: Contract, turns: seq<Turn>, creator: Pubkey, counterparty: Pubkey, termsHash: Hash)
    requires IsFresh(start)
    ensures
      var c := Play(start, turns);
      var agreed := c.state == Executed && c.termsHash == termsHash && {creator, counterparty} == {c.partyA, c.partyB};
      Reasons(creator, counterparty, termsHash, c) == [] <==> agreed
  {
    ContractInvariant(start, turns);
    hide Play, IsFresh;
    var c := Play(start, turns);
    SamePair(creator, counterparty, c.partyA, c.partyB);
  }

  lemma SamePair(a: Pubkey, b: Pubkey, c: Pubkey, d: Pubkey)
    requires c != d
    ensures {a, b} == {c, d} <==> a != b && a in {c, d} && b in {c, d}
  {
    assert a in {a, b} && b in {a, b} && c in {c, d} && d in {c, d};
    if {a, b} == {c, d} {
      assert c in {a, b} && d in {a, b};
    }
  }

  lemma StillBound(e: Escrow.Agreement, f: Escrow.Agreement, c: Contract, d: Contract)
    requires KernelOutcomes.Frozen(e, f) && ContractSound(c) && Later(c, d)
    requires Reasons(e.creator, e.counterparty, e.termsHash, c) == []
    ensures Reasons(f.creator, f.counterparty, f.termsHash, d) == []
  {
    assert c.state == Executed;
    assert e.counterparty in Parties(c);
  }

  /**
   A binding that holds once holds for ever: whatever else either program does,
   the escrow keeps its terms and its parties, and the contract stays executed.
   */
  lemma BindingIsPermanent(start: Contract, turns: seq<Turn>, moreTurns: seq<Turn>,
                           ledger: Kernel.Ledger, ticks: seq<Kernel.Tick>, moreTicks: seq<Kernel.Tick>, key: Pubkey)
    requires IsFresh(start) && key in Kernel.Run(ledger, ticks).agreements
    requires
      var e := Kernel.Run(ledger, ticks).agreements[key];
      Reasons(e.creator, e.counterparty, e.termsHash, Play(start, turns)) == []
    ensures key in Kernel.Run(ledger, ticks + moreTicks).agreements
    ensures
      var e := Kernel.Run(ledger, ticks + moreTicks).agreements[key];
      Reasons(e.creator, e.counterparty, e.termsHash, Play(start, turns + moreTurns)) == []
  {
    hide Kernel.Run, Play, IsFresh, KernelOutcomes.Frozen, Later, ContractSound, Reasons;
    KernelOutcomes.TermsAreFrozen(ledger, ticks, moreTicks, key);
    RunsGoOn(start, turns, moreTurns);
    ContractInvariant(start, turns);
    StillBound(Kernel.Run(ledger, ticks).agreements[key], Kernel.Run(ledger, ticks + moreTicks).agreements[key],
               Play(start, turns), Play(start, turns + moreTurns));
  }
}
