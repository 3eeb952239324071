/** The negotiation program: two parties revise, sign and execute one contract. */
module Commerce {
  import opened Wrappers
  import opened Keys

  datatype ContractState = Pending | Executed | Cancelled

  datatype SignatureRecord = SignatureRecord(
    signer: Pubkey,
    versionSigned: nat,
    contentHashSigned: Hash,
    termsHashSigned: Hash,
    signedAt: int
  )

  datatype Contract = Contract(
    agreementId: nat,
    partyA: Pubkey,
    partyB: Pubkey,
    version: nat,
    contentHash: Hash,
    termsHash: Hash,
    sigA: Option<SignatureRecord>,
    sigB: Option<SignatureRecord>,
    state: ContractState,
    createdAt: int,
    expiresAt: int,
    executedAt: int,
    cancelledAt: int
  )

  datatype CommerceError =
    | NotAParty | InvalidParty | BadState | Expired | AlreadySigned | StaleVersion
    | ContentHashMismatch | TermsHashMismatch | InvalidContentHash | InvalidTermsHash
    | NoChanges | InvalidExpiry | Overflow | Unsigned

  const MAX_TTL := 365 * 24 * 60 * 60
  const I64_MAX := 0x7FFF_FFFF_FFFF_FFFF

  /** What the parties can do to a contract. */
  datatype Move =
    | Revise(expectedVersion: nat, contentHash: Hash, termsHash: Hash)
    | Sign(expectedVersion: nat, contentHash: Hash, termsHash: Hash)
    | Cancel

  datatype Turn = Turn(signer: Pubkey, move: Move, now: int)

  function CreateContract(partyA: Pubkey, agreementId: nat, partyB: Pubkey, contentHash: Hash, termsHash: Hash,
                          expiresAt: int, now: int): Result<Contract, CommerceError>
  {
    var allowed := Need(CanSign(partyA), Unsigned);
    :- allowed;
    :- Need(now + MAX_TTL <= I64_MAX, Overflow);
    :- Need(partyB != Default && partyB != partyA, InvalidParty);
    :- Need(contentHash != 0, InvalidContentHash);
    :- Need(termsHash != 0, InvalidTermsHash);
    :- Need(now < expiresAt <= now + MAX_TTL, InvalidExpiry);
    Ok(Contract(agreementId, partyA, partyB, 1, contentHash, termsHash, None, None, Pending, now, expiresAt, 0, 0))
  }

  function IsParty(c: Contract, signer: Pubkey): bool {
    signer == c.partyA || signer == c.partyB
  }

  function RequireNegotiable(c: Contract, now: int): Outcome<CommerceError> {
    if c.state != Pending then Fail(BadState)
    else if now >= c.expiresAt then Fail(Expired)
    else Pass
  }

  function Revised(c: Contract, signer: Pubkey, expected: nat, contentHash: Hash, termsHash: Hash, now: int)
    : Result<Contract, CommerceError>
  {
    var allowed := Need(IsParty(c, signer), NotAParty);
    :- allowed;
    :- RequireNegotiable(c, now);
    :- Need(expected == c.version, StaleVersion);
    :- Need(contentHash != 0, InvalidContentHash);
    :- Need(termsHash != 0, InvalidTermsHash);
    :- Need(contentHash != c.contentHash || termsHash != c.termsHash, NoChanges);
    :- Need(c.version < U32_MAX, Overflow);
    Ok(c.(version := c.version + 1, contentHash := contentHash, termsHash := termsHash, sigA := None, sigB := None))
  }

  function Signed(c: Contract, signer: Pubkey, expected: nat, contentHash: Hash, termsHash: Hash, now: int)
    : Result<Contract, CommerceError>
  {
    var allowed := Need(IsParty(c, signer), NotAParty);
    :- allowed;
    :- RequireNegotiable(c, now);
    :- Need(expected == c.version, StaleVersion);
    :- Need(contentHash == c.contentHash, ContentHashMismatch);
    :- Need(termsHash == c.termsHash, TermsHashMismatch);
    var signature := Some(SignatureRecord(signer, expected, contentHash, termsHash, now));
    :- Need((if signer == c.partyA then c.sigA else c.sigB).None?, AlreadySigned);
    var d := if signer == c.partyA then c.(sigA := signature) else c.(sigB := signature);
    if d.sigA.Some? && d.sigB.Some? then Ok(d.(state := Executed, executedAt := now)) else Ok(d)
  }

  function CancelledBy(c: Contract, signer: Pubkey, now: int): Result<Contract, CommerceError> {
    var allowed := Need(IsParty(c, signer), NotAParty);
    :- allowed;
    :- Need(c.state == Pending, BadState);
    Ok(c.(state := Cancelled, cancelledAt := now))
  }

  function Take(c: Contract, t: Turn): Result<Contract, CommerceError> {
    if !CanSign(t.signer) then Err(Unsigned)
    else
      match t.move
      case Revise(expected, content, terms) => Revised(c, t.signer, expected, content, terms, t.now)
      case Sign(expected, content, terms) => Signed(c, t.signer, expected, content, terms, t.now)
      case Cancel => CancelledBy(c, t.signer, t.now)
  }

  function AfterTurn(c: Contract, t: Turn): Contract {
    match Take(c, t)
    case Ok(d) => d
    case Err(_) => c
  }

  function Play(start: Contract, turns: seq<Turn>): Contract {
    if turns == [] then start else AfterTurn(Play(start, turns[..|turns| - 1]), turns[|turns| - 1])
  }

  /** How many revisions went through. */
  function Revisions(start: Contract, turns: seq<Turn>): nat {
    if turns == [] then 0
    else
      var init := turns[..|turns| - 1];
      var last := turns[|turns| - 1];
      Revisions(start, init) + if last.move.Revise? && Take(Play(start, init), last).Ok? then 1 else 0
  }

  ghost predicate IsFresh(c: Contract) {
    exists a, id, b, content, terms, expires, now :: CreateContract(a, id, b, content, terms, expires, now) == Ok(c)
  }

  // ---- What every run keeps ----

  /** A signature in this place, if any, is its party's, on exactly the current contract. */
  predicate SignatureStands(signature: Option<SignatureRecord>, party: Pubkey, c: Contract) {
    signature.Some? ==>
      && signature.value.signer == party
      && signature.value.versionSigned == c.version
      && signature.value.contentHashSigned == c.contentHash
      && signature.value.termsHashSigned == c.termsHash
  }

  predicate ContractSound(c: Contract) {
    && SignatureStands(c.sigA, c.partyA, c) && SignatureStands(c.sigB, c.partyB, c)
    && (c.state == Executed <==> c.sigA.Some? && c.sigB.Some?)
    && CanSign(c.partyA) && c.partyB != Default && c.partyA != c.partyB
    && c.contentHash != 0 && c.termsHash != 0
    && 1 <= c.version <= U32_MAX
  }

  lemma TurnKeepsContract(c: Contract, t: Turn)
    requires ContractSound(c)
    ensures
      var d := AfterTurn(c, t);
      && ContractSound(d)
      && d.partyA == c.partyA && d.partyB == c.partyB && c.version <= d.version
      && (c.state != Pending ==> d == c)
      && (d.version == c.version ==> d.contentHash == c.contentHash && d.termsHash == c.termsHash)
      && (d.version != c.version <==> t.move.Revise? && Take(c, t).Ok?)
      && d.version <= c.version + 1
  {
  }

  /**
   On every run each stored signature is its own party's, on the current version
   and both current hashes; the contract is executed exactly when both are there;
   and the version counts the revisions.
   */
  lemma {:induction false} ContractInvariant(start: Contract, turns: seq<Turn>)
    requires IsFresh(start)
    ensures ContractSound(Play(start, turns))
    ensures Play(start, turns).version == 1 + Revisions(start, turns)
    ensures Play(start, turns).partyA == start.partyA && Play(start, turns).partyB == start.partyB
  {
    if turns != [] {
      ContractInvariant(start, turns[..|turns| - 1]);
      TurnKeepsContract(Play(start, turns[..|turns| - 1]), turns[|turns| - 1]);
    }
  }

  /** A contract read early and again later: versions only grow, one version is one text, and an end is final. */
  predicate Later(c: Contract, d: Contract) {
    && d.partyA == c.partyA && d.partyB == c.partyB && c.version <= d.version
    && (d.version == c.version ==> d.contentHash == c.contentHash && d.termsHash == c.termsHash)
    && (c.state != Pending ==> d == c)
  }

  lemma {:induction false} RunsGoOn(start: Contract, turns: seq<Turn>, more: seq<Turn>)
    requires IsFresh(start)
    ensures Later(Play(start, turns), Play(start, turns + more))
    decreases |more|
  {
    if more == [] {
      assert turns + more == turns;
    } else {
      var init, last := more[..|more| - 1], more[|more| - 1];
      assert (turns + more)[..|turns + more| - 1] == turns + init;
      RunsGoOn(start, turns, init);
      ContractInvariant(start, turns + init);
      TurnKeepsContract(Play(start, turns + init), last);
    }
  }

  /**
   The optimistic lock: once a revision has gone through, nothing written against
   the version before it is ever accepted again, so no update is lost and nobody
   signs a text that has been replaced.
   */
  lemma StaleVersionIsNeverAccepted(start: Contract, turns: seq<Turn>, revision: Turn, more: seq<Turn>, t: Turn)
    requires IsFresh(start) && revision.move.Revise? && Take(Play(start, turns), revision).Ok?
    requires t.move.Revise? || t.move.Sign?
    requires t.move.expectedVersion <= Play(start, turns).version
    ensures Take(Play(start, turns + [revision] + more), t).Err?
  {
    assert (turns + [revision])[..|turns|] == turns;
    ContractInvariant(start, turns);
    TurnKeepsContract(Play(start, turns), revision);
    RunsGoOn(start, turns + [revision], more);
  }

  // ---- The account, written in place ----

  class ContractAccount {
    var agreementId: nat
    var partyA: Pubkey
    var partyB: Pubkey
    var version: nat
    var contentHash: Hash
    var termsHash: Hash
    var sigA: Option<SignatureRecord>
    var sigB: Option<SignatureRecord>
    var state: ContractState
    var createdAt: int
    var expiresAt: int
    var executedAt: int
    var cancelledAt: int

    constructor Load(c: Contract)
      ensures Store() == c
    {
      agreementId, partyA, partyB, version := c.agreementId, c.partyA, c.partyB, c.version;
      contentHash, termsHash, sigA, sigB := c.contentHash, c.termsHash, c.sigA, c.sigB;
      state, createdAt, expiresAt := c.state, c.createdAt, c.expiresAt;
      executedAt, cancelledAt := c.executedAt, c.cancelledAt;
    }

    function Store(): Contract
      reads this
    {
      Contract(agreementId, partyA, partyB, version, contentHash, termsHash, sigA, sigB, state, createdAt, expiresAt,
               executedAt, cancelledAt)
    }

    /** Clears both signatures and answers the version that was replaced. */
    method Revise(signer: Pubkey, expected: nat, newContentHash: Hash, newTermsHash: Hash, now: int)
      returns (r: Result<nat, CommerceError>)
      modifies this
      ensures
        var revised := Revised(old(Store()), signer, expected, newContentHash, newTermsHash, now);
        && (r.Ok? <==> revised.Ok?)
        && (r.Ok? ==> Store() == revised.value && r.value == old(version))
        && (r.Err? ==> Store() == old(Store()) && r.error == revised.error)
    {
      if signer != partyA && signer != partyB {
        return Err(NotAParty);
      }
      var negotiable := RequireNegotiable(Store(), now);
      if negotiable.Fail? {
        return Err(negotiable.error);
      }
      if expected != version {
        return Err(StaleVersion);
      }
      if newContentHash == 0 {
        return Err(InvalidContentHash);
      }
      if newTermsHash == 0 {
        return Err(InvalidTermsHash);
      }
      if newContentHash == contentHash && newTermsHash == termsHash {
        return Err(NoChanges);
      }
      var previousVersion := version;
      if version >= U32_MAX {
        return Err(Overflow);
      }
      version := version + 1;
      contentHash := newContentHash;
      termsHash := newTermsHash;
      sigA := None;
      sigB := None;
      return Ok(previousVersion);
    }

    /** Adds the signer's signature and answers whether the contract is now executed. */
    method Sign(signer: Pubkey, expected: nat, expectedContent: Hash, expectedTerms: Hash, now: int)
      returns (r: Result<bool, CommerceError>)
      modifies this
      ensures
        var signed := Signed(old(Store()), signer, expected, expectedContent, expectedTerms, now);
        && (r.Ok? <==> signed.Ok?)
        && (r.Ok? ==> Store() == signed.value && (r.value <==> sigA.Some? && sigB.Some?))
        && (r.Err? ==> Store() == old(Store()) && r.error == signed.error)
    {
      if signer != partyA && signer != partyB {
        return Err(NotAParty);
      }
      var negotiable := RequireNegotiable(Store(), now);
      if negotiable.Fail? {
        return Err(negotiable.error);
      }
      if expected != version {
        return Err(StaleVersion);
      }
      if expectedContent != contentHash {
        return Err(ContentHashMismatch);
      }
      if expectedTerms != termsHash {
        return Err(TermsHashMismatch);
      }
      var signature := SignatureRecord(signer, expected, expectedContent, expectedTerms, now);
      if signer == partyA {
        if sigA.Some? {
          return Err(AlreadySigned);
        }
        sigA := Some(signature);
      } else {
        if sigB.Some? {
          return Err(AlreadySigned);
        }
        sigB := Some(signature);
      }
      var executed := sigA.Some? && sigB.Some?;
      if executed {
        state := Executed;
        executedAt := now;
      }
      return Ok(executed);
    }

    method Cancel(signer: Pubkey, now: int) returns (r: Outcome<CommerceError>)
      modifies this
      ensures
        var cancelled := CancelledBy(old(Store()), signer, now);
        && (r.Pass? <==> cancelled.Ok?)
        && (r.Pass? ==> Store() == cancelled.value)
        && (r.Fail? ==> Store() == old(Store()) && r.error == cancelled.error)
    {
      if signer != partyA && signer != partyB {
        return Fail(NotAParty);
      }
      if state != Pending {
        return Fail(BadState);
      }
      state := Cancelled;
      cancelledAt := now;
      return Pass;
    }
  }
}
