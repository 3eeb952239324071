/**
 Addresses. A program-derived address is a constructor applied to its seeds, so
 distinct seeds give distinct addresses and no derived address is a wallet's or
 the default one. That is what the derivation promises up to hash collisions.
 */
module Keys {

  datatype Pubkey =
    | Default
    | Wallet(n: nat)
    | AgreementPda(creator: Pubkey, agreementId: nat)
    | VaultAuthority(agreement: Pubkey)
    | VaultToken(agreement: Pubkey)
    | ProofPda(agreement: Pubkey, index: nat)
    | MilestonePda(agreement: Pubkey, index: nat)
    | CorePda(authority: Pubkey, proofId: CoreProofId)

  /**
   The 16-byte id of a ppv_core record: the one escrow derives for a proof, or any
   other. A wallet calling ppv_core itself may present either.
   */
  datatype CoreProofId =
    | EscrowMinted(agreement: Pubkey, index: nat)
    | Chosen(n: nat)

  /** A signature can be produced only for a key that is not program-derived. */
  predicate CanSign(k: Pubkey) {
    k.Wallet?
  }

  function CoreProofAddress(submitter: Pubkey, agreement: Pubkey, index: nat): Pubkey {
    CorePda(submitter, EscrowMinted(agreement, index))
  }

  const U32_MAX := 0xFFFF_FFFF
  const U64_MAX := 0xFFFF_FFFF_FFFF_FFFF

  type U64 = n: nat | n <= U64_MAX

  /** A 32-byte commitment; zero stands for thirty-two zero bytes. */
  type Hash = nat
}
