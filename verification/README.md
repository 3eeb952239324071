# A verified model of PPV escrow

PPV is an agreement protocol on Solana. Two programs hold custody and evidence
(`ppv_escrow` and `ppv_core`), a third records negotiated contracts
(`ppv_commerce`), and a TypeScript SDK and indexer read what those programs
emitted and rebuild, from an unordered and repeated bag of receipts, the state
the accounts are in. This project models both sides and proves what holds
between them.

## How the model is laid out

| part | files |
|---|---|
| shared vocabulary: addresses as injective constructors, bytes, sequences up to order, JavaScript's insertion-ordered Map | `Keys`, `Bytes`, `Wrappers`, `Sequences` |
| the escrow accounts and their guards; the accounts as objects whose fields the `record_*` calls write | `EscrowState`, `EscrowAccounts` |
| one instruction as an atomic step with its events; the handlers as methods that load, guard, move tokens, write and emit | `EscrowEvents`, `EscrowKernel`, `EscrowProgram` |
| what every run keeps: the books, custody, evidence, numbers that fit their widths, frozen terms, no stranded money | `KernelFrames`, `KernelBooks`, `KernelCustody`, `KernelEvidence`, `KernelMinting`, `KernelNumbers`, `KernelOutcomes` |
| what a run tells through its events | `KernelStory`, `ReplayTrace` |
| receipts, their order, and the reconstruction as a specification | `Receipts`, `ReceiptOrder`, `Reconstruction` |
| which bags the reconstruction accepts, and what it then says | `Histories`, `Records`, `Lifecycles` |
| the reconstruction as the loops it is | `Indexer` |
| program run, events, receipts, any shuffle with repetition, reconstruction: the account again | `Replay` |
| the receipt store, and that what it projects is the account | `Projections` |
| runs and bags on which code and documentation part | `ConcreteRuns`, `SameSlot`, `OddRuns`, `OddBags` |
| the two ways to a seal, over the events and over the rebuilt lifecycle | `Seal` |
| the bytes of the seventeen events, their decoder, and a run followed through them | `EventWire`, `EventBytes` |
| the Ed25519 address check, with the number theory it rests on | `NumberTheory`, `Curve` |
| base58 | `Base58` |
| canonical documents: quoting, printing trees, object graphs | `CanonicalText`, `CanonicalForm`, `CanonicalGraph` |
| negotiated contracts and the check that binds an escrow to one | `Commerce`, `Binding` |
| paging through signatures while the chain grows | `Paging` |

Where the source loops or writes in place, the model has a method or a class with
fields, proved equal to a specification function; the theorems are about those
functions, over every run and every input.

## Main results

1. **Replay is complete** (`Replay.ReplayIsComplete`). Take any run of the
   program over any number of agreements, foreign token transfers, foreign core
   records and failing instructions included. Carry one agreement's events at
   distinct chain coordinates, in slots that never go back, at times JavaScript
   can print. Then every bag with the same receipts, in any order and with any
   repetition, is accepted, and the lifecycle says exactly what the account says:
   state, parties, mint, amounts, proofs with status and decider, schedule. The
   hypothesis that receipt ids are injective stands for SHA-256. Tranche
   states are right exactly when the step of each tranche that reads last by
   coordinates leaves it where the step committed last does, and
   `SameSlot.SameSlotCanMisreport` is a run where it does not.
   `Projections.StoreRebuildsAccount` is the same through the receipt store, whatever
   else was delivered to it, and `EventBytes.BytesRebuildAccount` the same from the
   bytes the program emits.
2. **Reconstruction is sound on any input** (`Lifecycles`): the listed receipts
   are a permutation of the deduplicated ones, in slot order, along one simple
   path; only the receipt kept for each id matters, and for an accepted bag order shows
   exactly when one id comes with two contents.
3. **Custody** (`KernelCustody.CustodyEquation`): over every run each vault holds
   what others gave it plus exactly what its agreement owes. That a milestone
   contract whose *counters* match has paid out all its *money* is
   `KernelBooks.LastTranchePaysTheRest`.
4. **No stranded custody** (`KernelOutcomes`): from every reachable non-terminal
   state at most two steps, legal and signed by parties, end the agreement with
   nothing owed, given a token account to receive the money; an unclaimed funded
   bounty and a half-paid milestone contract included.
5. **The address check is decompression** (`Curve.IsOnCurve`): the only hypothesis
   is that 2^255 - 19 is prime; Fermat's theorem, Euler's criterion and that two is not
   a square are proved.
6. **Canonical text is injective up to meaning**, and an object graph is accepted
   exactly when no walk from the document leads back, every object a walk reaches is
   valid and the version fits (`CanonicalGraph.AcceptedExactlyWhen`).

## Where the code and its documentation disagree

- **A payout can land in another agreement's vault.** The model follows the code:
  a destination must be a token account of the payee, and a payee named as another
  agreement's vault authority makes that agreement's vault such an account.
  `KernelOutcomes.OtherVaultUnchangedExactlyWhen` says exactly when, and
  `PayoutCanReachAnotherVault` is a five-step run that does it.
- **Core proof ids.** `programs/ppv_escrow/src/state/proof.rs:64-68` says an id minted
  through escrow can never collide with one a wallet chose. `create_proof` accepts
  any id (`programs/ppv_core/src/lib.rs:33-51`), so a wallet can choose that very
  one first (`OddRuns.MintingBlocksOneself`). It then blocks its own next submission,
  and nothing another wallet does can (`KernelMinting.SubmissionEnabledExactlyWhen`,
  `OnlyItsOwnerTakesIt`).
- **Seals.** The two derivations of seal facts are meant to agree.
  `OddRuns.ApprovalSplitsTheSeals` is a run after which they differ on confirmation,
  `YearSplitsTheSeals` one after which they differ on an open dispute, because ISO text
  stops sorting by time at the year 10000. `Seal.SealDiamond` says exactly when either
  happens, and that nothing else differs.
- **Tranche states inside one slot.** A tranche is documented to end on what its last step
  reported (`sdk/src/escrow/receipts.ts:535-539`), but steps of one slot are read by
  instruction index (`657-666`), which does not order two transactions; see the first
  main result.
- **Adding up.** An accepted history that ends by settlement need not add up to its
  funding: a refund that ends nothing is an annotation and no check looks at it
  (`OddBags.RefundBesideSettlement`). It adds up exactly when no delivered refund that
  counts moved anything (`Lifecycles.PaymentsAddUp`), and along runs it always does
  (`Replay.EndedRunsAddUp`).
- **Repeated ids.** The store is documented to converge whatever the order
  (`indexer/src/projections.ts:10-17`, `docs/indexing.md:110-118`) and to refuse different
  content outright. It compares action and agreement only, and keeps the first receipt
  of an id; the reconstruction compares the action and keeps the last. One event
  delivered with a block time and without is enough to tell two orders apart
  (`OddBags.RedeliveryShows`). `Projections.StoreIsOrderlessExactlyWhen`,
  `Projections.FedIsOrderlessExactlyWhen` (for a store that survives refusals),
  `Histories.CollectionIsOrderlessExactlyWhen` and
  `Lifecycles.AnswerIsOrderlessExactlyWhen` say exactly when order shows;
  `Projections.StoreRebuildsAccount` shows that what was documented of accounts holds
  all the same.
- **Rejection writes a submission time.** Rejecting a tranche stamps
  `submitted_at` (`programs/ppv_escrow/src/state/milestone.rs:113-118`); the model does the same.
- **Timestamps.** An `i64` beyond 2^53 - 1 in either direction makes the event
  decoder refuse the event (`EventWire.DecodingInvertsLayout`).

## Model

| member | source | states |
|---|---|---|
| `EscrowAccounts.AgreementAccount.RecordCounterparty` | programs/ppv_escrow/src/state/agreement.rs:99-107 | Naming a payee writes the whole new account the specification gives, or refuses and writes nothing. |
| `EscrowAccounts.AgreementAccount.RecordPayout` | programs/ppv_escrow/src/state/agreement.rs:131-139 | A payment is checked against overflow and the amount before it is written; a refusal leaves the account as it was. |
| `EscrowAccounts.AgreementAccount.RecordMilestone` | programs/ppv_escrow/src/state/agreement.rs:233-245 | A tranche enters the schedule, or the account is left as it was. |
| `EscrowAccounts.AgreementAccount.RecordMilestoneSettled` | programs/ppv_escrow/src/state/agreement.rs:259-272 | A settled tranche is counted and paid, and the answer says whether the counters now match. |
| `EscrowAccounts.AgreementAccount.RecordProof` | programs/ppv_escrow/src/state/agreement.rs:394-401 | The next proof index is taken, or overflow refused with nothing written. |
| `EscrowAccounts.CoreRecordAccount.Revoke` | programs/ppv_core/src/state.rs:42-51 | Revocation succeeds exactly for the authority of an active record and is otherwise a no-op with the right error. |
| `EscrowProgram.Program.PayOut` | programs/ppv_escrow/src/instructions/custody.rs:19-69 | Transfer, reload and both balance-delta checks together come to the specified payout or its error. |
| `EscrowProgram.Program.PayIn` | programs/ppv_escrow/src/instructions/fund.rs:43-106 | Transfer into the vault and the credited-delta check come to the specified deposit or its error. |
| `EscrowProgram.Program.HandleFund` | programs/ppv_escrow/src/instructions/fund.rs:43-106 | Funding, with the full-schedule gate, leaves the ledger and events of its specification, or its error. |
| `EscrowProgram.Program.HandleSettle` | programs/ppv_escrow/src/instructions/settle.rs:69-120 | Settlement pays, writes and emits as specified, or fails with the specified error. |
| `EscrowProgram.Program.HandleSettleMilestone` | programs/ppv_escrow/src/instructions/milestone.rs:273-359 | Paying a tranche: money, both accounts and one or two events as specified, or the specified error. |
| `EscrowProgram.Program.HandleResolveDispute` | programs/ppv_escrow/src/instructions/resolve_dispute.rs:64-144 | A concession pays the other party, ends the agreement and emits its two events as specified. |
| `EscrowProgram.Program.Execute` | programs/ppv_escrow/src/lib.rs:41-174 | One instruction is all or nothing: it takes the specified step and emits its events, or leaves the whole ledger as it was. |
| `EscrowProgram.Program.ExecuteAll` | programs/ppv_escrow/src/lib.rs:41-174 | Executing instructions one after another is the run the theorems speak of. |
| `KernelFrames.OtherAgreementsUntouched` | programs/ppv_escrow/src/instructions/settle.rs:13-66 | No step changes the agreement, tranches or proofs of an agreement it does not name. |
| `KernelBooks.RunKeepsBooks` | programs/ppv_escrow/src/state/agreement.rs:233-272 | In every reachable ledger each agreement's identity, money and schedule are in order: the scheduled total is the sum of the tranches, settled_total is the sum over settled tranches and milestones_settled their count while it is live, and Settled and Refunded mean all of the amount was paid. |
| `KernelBooks.CountersAndMoney` | programs/ppv_escrow/src/state/agreement.rs:257-272 | All tranches are settled exactly when their settled sum is the whole schedule: the counters decide about the money. |
| `KernelBooks.ApprovedTrancheIsAlwaysPayable` | programs/ppv_escrow/src/state/agreement.rs:118-139 | No approved tranche of a funded contract is ever refused for the remainder or for overflow. |
| `KernelBooks.LastTranchePaysTheRest` | programs/ppv_escrow/src/state/agreement.rs:257-272 | The counters are about to match exactly when the tranche about to be paid is all that remains of the amount. |
| `KernelCustody.CustodyEquation` | programs/ppv_escrow/src/instructions/custody.rs:7-69 | Over every run of many agreements with outside transfers, a vault holds what was given to it plus what its agreement owes (the unpaid amount while funded, completed or disputed; otherwise nothing). |
| `KernelCustody.RunConservesSupply` | programs/ppv_escrow/src/instructions/custody.rs:53-68 | The supply of every mint is the same after every run. |
| `KernelEvidence.RunKeepsEvidence` | programs/ppv_escrow/src/state/proof.rs:100-204 | In every reachable ledger proofs have exactly the indices below proof_count, each was submitted by a party, stands on a core record of that party at the derived address, and was decided, if at all, by the other party. |
| `KernelEvidence.DecisionsAreFinal` | programs/ppv_escrow/src/state/proof.rs:122-152 | A decided proof account never changes again, whatever runs on. |
| `KernelEvidence.ActiveMeansNeverRevoked` | programs/ppv_core/src/state.rs:42-51 | Along every run a record is revoked at most once, and it is Active exactly when it never was. |
| `KernelEvidence.CitationAcceptedExactlyWhen` | programs/ppv_escrow/src/instructions/settlement_proof.rs:21-46 | In every reachable ledger, citing a proof with its own core record passes exactly when the proof is approved and its record was never revoked. |
| `KernelEvidence.UncitedSettlementIgnoresEvidence` | programs/ppv_escrow/src/state/proof.rs:168-171 | A settlement or a tranche payment that cites nothing has the same outcome, tranche and events included, whatever happened to proofs and core records. |
| `KernelMinting.SubmissionEnabledExactlyWhen` | programs/ppv_escrow/src/instructions/submit_proof.rs:87-181 | In every reachable ledger a party can submit exactly when the agreement is live, the hash is not zero, the index is not used up and the party has not itself minted the next derived id in ppv_core along the run. |
| `KernelMinting.OnlyItsOwnerTakesIt` | programs/ppv_core/src/lib.rs:94-109 | A core record appears at an address only in a step signed by the wallet the address is derived for. |
| `KernelMinting.TakenExactlyWhen` | programs/ppv_core/src/lib.rs:33-72 | In every reachable ledger the address of a proof's core record is taken exactly when that wallet minted the id itself or anchored that proof. |
| `OddRuns.MintingBlocksOneself` | programs/ppv_escrow/src/state/proof.rs:64-68 | A run in which a seller mints the next derived id for itself: its own submission is refused, the buyer's is not. |
| `KernelNumbers.TraceFits` | programs/ppv_escrow/src/state/agreement.rs:233-245 | Along every run each amount on an account or in an event fits u64 and each index u32. |
| `KernelOutcomes.TermsAreFrozen` | programs/ppv_escrow/src/state/agreement.rs:82-107 | Over every run terms never change, the payee changes at most once (from nobody, for an open or funded bounty), states only move on, and a terminal state pays nothing more. |
| `KernelOutcomes.PayeeIsKnownInTime` | programs/ppv_escrow/src/state/agreement.rs:173-215 | Completed, disputed, settled and refunded agreements have a payee other than the buyer; a milestone contract is never completed; ended ones paid the whole amount. |
| `KernelOutcomes.OtherVaultUnchangedExactlyWhen` | programs/ppv_escrow/src/instructions/custody.rs:15-17 | A step on one agreement leaves another's vault alone exactly when it is not a payout into that vault, and such a payout needs a payee that is that vault's authority. |
| `KernelOutcomes.PayoutCanReachAnotherVault` | programs/ppv_escrow/src/instructions/resolve_dispute.rs:64-144 | A concrete run from an empty program in which a concession pays five tokens into another agreement's vault. |
| `KernelOutcomes.BuyerCanAlwaysEndIt` | programs/ppv_escrow/src/state/agreement.rs:304-348 | From every reachable non-terminal agreement with a payee, the buyer alone ends it with nothing owed in at most two steps that succeed. |
| `KernelOutcomes.UnclaimedBountyCanBeEnded` | programs/ppv_escrow/src/state/agreement.rs:78-97 | A funded bounty without a payee is ended with nothing owed by naming a winner who then refunds. |
| `KernelOutcomes.SellerCanAlwaysGiveBack` | programs/ppv_escrow/src/state/agreement.rs:350-367 | From every reachable live agreement its payee can end it in one step, as a refund or a concession, with nothing owed. |
| `KernelOutcomes.RejectionUndoesSubmission` | programs/ppv_escrow/src/state/milestone.rs:99-118 | A rejection is open to the buyer once a tranche is submitted, leaves the whole ledger as it was before the submission but for the time noted on the tranche, and the seller may submit again at once. |
| `KernelStory.ActionStory` | programs/ppv_escrow/src/instructions/milestone.rs:273-359 | What an action's events report is what the action changed, for each of the seventeen events: states, payments, proofs and tranches. |
| `ReplayTrace.RunTells` | programs/ppv_escrow/src/events/agreement.rs:1-71 | Along every run the trace of an agreement opens it once, its state changes form one chain to the account's state, its payments sum to settled_total, and each proof and tranche of the account is told once with its latest standing. |
| `Receipts.BuiltReceiptsAreWellFormed` | sdk/src/escrow/receipts.ts:146-425 | A built receipt carries every field the reconstruction later casts. |
| `ReceiptOrder.ReceiptOrderIsTotal` | sdk/src/escrow/receipts.ts:657-666 | Placement order is total and antisymmetric on receipts with different ids. |
| `ReceiptOrder.OrderIsUnique` | sdk/src/escrow/receipts.ts:657-666 | Two ordered lists of the same receipts are the same list. |
| `Histories.CollectedExactlyWhen` | sdk/src/escrow/receipts.ts:590-597 | Collecting by id succeeds exactly when no id comes with two actions, and keeps for each id the last receipt that came. |
| `Histories.CollectionIsOrderlessExactlyWhen` | sdk/src/escrow/receipts.ts:590-597 | Every reordering of a bag keeps the same receipts, or is refused alike, exactly when equal ids mean equal receipts or an id comes with two actions. |
| `Histories.ExitsExactlyWhen` | sdk/src/escrow/receipts.ts:617-628 | The exits table exists exactly when no two transitions leave one state, and then holds every one of them. |
| `Histories.PathExactlyWhen` | sdk/src/escrow/receipts.ts:611-655 | Linking yields a path exactly when it is the simple chain from the only creation receipt through every transition, in slot order: all five ways to refuse, and no other. |
| `Records.DecidedExactlyWhen` | sdk/src/escrow/receipts.ts:503-533 | Decisions fold exactly when each names a submitted proof and none is decided twice; then each proof has its only decision. |
| `Records.StepsTakenExactlyWhen` | sdk/src/escrow/receipts.ts:540-583 | Steps fold exactly when each names a created tranche; then each tranche stands where its last step left it and names the destination of its last payment. |
| `Records.SortedByIndexPermutes` | sdk/src/escrow/receipts.ts:582 | Tranches are listed in index order, none lost. |
| `Lifecycles.ReconstructionIsSound` | sdk/src/escrow/receipts.ts:585-778 | Whatever is accepted is listed as a permutation of the deduplicated receipts, in slot order, its transitions one simple path from creation to the reported state. |
| `Lifecycles.PaymentsAddUp` | sdk/src/escrow/receipts.ts:689-726 | For an accepted bag, in terms of the delivered receipts that count: one that ends by refund has paid and returned what was funded; one that ends by settlement settled what was funded, and adds up exactly when no refund that counts moved anything. |
| `OddBags.RefundBesideSettlement` | sdk/src/escrow/receipts.ts:706-710 | A bag of five receipts, accepted with 5 funded, 5 settled and 1 refunded. |
| `Replay.EndedRunsAddUp` | sdk/src/escrow/receipts.ts:706-726 | Along every run, an agreement that ended is rebuilt with payments that add up to its funding. |
| `Lifecycles.OnlyTheKeptMatter` | sdk/src/escrow/receipts.ts:585-778 | Bags that keep the same receipt for each id get the same lifecycle, list order included, or the same refusal, whatever their order and repetitions. |
| `Lifecycles.AnswerIsOrderlessExactlyWhen` | sdk/src/escrow/receipts.ts:585-778 | An accepted bag gets the same answer in every order exactly when equal ids mean equal receipts. |
| `Replay.ReplayIsComplete` | sdk/src/escrow/receipts.ts:585-778 | Program run to events to receipts to any bag of them to reconstruction is the account, proofs and schedule included; and tranche states are reported right exactly when, for each tranche, the step that reads last by coordinates leaves it where the step committed last does. |
| `Replay.TrancheStateExactlyWhen` | sdk/src/escrow/receipts.ts:554-581 | One tranche's reported state is its account's exactly under that condition on its own steps. |
| `Replay.OrderedStepsReadRight` | sdk/src/escrow/receipts.ts:657-666 | Steps of each tranche at strictly increasing coordinates (slot, instruction, inner instruction) meet the condition. |
| `SameSlot.SameSlotCanMisreport` | sdk/src/escrow/receipts.ts:660-666 | A run of five instructions, the last two in transactions of one slot, after which every bag of its receipts is accepted and reports the tranche in a state its account is not in. |
| `Indexer.CollectById` | sdk/src/escrow/receipts.ts:590-597 | The collecting loop computes the specified table or its refusal. |
| `Indexer.FindPath` | sdk/src/escrow/receipts.ts:604-655 | The linking loops compute the specified path or its refusal. |
| `Indexer.FollowPath` | sdk/src/escrow/receipts.ts:630-655 | The walk over the mutable exits table terminates and is the specified walk. |
| `Indexer.Interleave` | sdk/src/escrow/receipts.ts:683-687 | Emitting the buckets in path order is the specified interleaving. |
| `Indexer.TotalPaid` | sdk/src/escrow/receipts.ts:695-712 | The reduction is the specified sum, and null exactly where that is. |
| `Indexer.FoldProofs` | sdk/src/escrow/receipts.ts:503-533 | The two loops over a mutable Map compute the specified proof records or their refusal. |
| `Indexer.FoldMilestones` | sdk/src/escrow/receipts.ts:540-583 | The two loops over a mutable Map compute the specified tranche records or their refusal. |
| `Indexer.ReconstructAgreementLifecycle` | sdk/src/escrow/receipts.ts:585-778 | The imperative reconstruction is the specification every theorem here is about, refusals included. |
| `Projections.ReceiptStore.Add` | indexer/src/projections.ts:26-39 | Adding is the specified admission; it answers whether the receipt was new, and a refused receipt changes nothing. |
| `Projections.ReceiptStore.AddEvents` | indexer/src/projections.ts:45-49 | A batch is admitted one by one, counted, and stops at the first refusal with what came before it kept. |
| `Projections.ReceiptStore.ProjectAgreement` | indexer/src/projections.ts:75-77 | One agreement's projection is the reconstruction of its receipts in the store. |
| `Projections.ReceiptStore.Project` | indexer/src/projections.ts:60-73 | The grouped projection has one entry for each agreement with a receipt, equal to filtering first; one bad group refuses all. |
| `Projections.StoreHoldsExactly` | indexer/src/projections.ts:26-49 | A store refuses a delivery exactly when two receipts of one id differ in action or agreement, and otherwise holds the first receipt of each id and nothing else. |
| `Projections.StoreIsOrderlessExactlyWhen` | indexer/src/projections.ts:10-17 | Every order of a delivery leaves the same contents, or is refused alike, exactly when equal ids mean equal receipts or two receipts of one id clash in action or agreement. |
| `OddBags.RedeliveryShows` | indexer/src/projections.ts:10-17 | One event with a block time and without: both receipts are admitted in either order, the two orders leave different contents, and the reconstruction answers them differently. |
| `Projections.StoreConverges` | indexer/src/projections.ts:55-77 | Two deliveries that leave the same contents project every agreement the same; with one receipt for each id, as if the agreement alone had been delivered. |
| `Projections.StoreRebuildsAccount` | indexer/src/projections.ts:41-77 | The whole indexer against the chain: whatever else was delivered, in whatever order, with or without block times, and whatever of it was refused, an agreement whose own coordinates were reported as the chain carried them is projected as its account. |
| `Projections.FedIsAdmitted` | indexer/src/projections.ts:45-49 | A batch that meets no refusal leaves what feeding its events one by one, surviving refusals, leaves. |
| `Projections.FedHoldsFirst` | indexer/src/projections.ts:26-43 | Fed event by event with every refusal survived, the store holds for each id the first receipt that was built, and nothing else. |
| `Projections.FedIsOrderlessExactlyWhen` | indexer/src/projections.ts:10-17 | In such a store order shows in no reordering of a delivery exactly when the events that build never build two receipts of one id. |
| `Projections.FedProjectsAlike` | indexer/src/projections.ts:55-77 | Then neither order nor repetition shows in what it projects of any agreement. |
| `Projections.EventsAreTheirReceipts` | indexer/src/projections.ts:41-43 | Events that build are admitted exactly as their receipts are. |
| `Seal.DeriveSealFacts` | sdk/src/reputation/seal-state.ts:40-106 | The loop over events computes the declarative facts: which types occurred, and the latest dispute against the latest resolution. |
| `Seal.LatestIsLatest` | sdk/src/reputation/seal-state.ts:69-74 | The time kept for a dispute event is the time of one that happened, none of its type comes after it in text order, and there is one exactly when one happened. |
| `Seal.FactsDependOnElements` | sdk/src/reputation/seal-state.ts:34-39 | The same events in any order and any number of times give the same facts, the dispute pair included. |
| `Seal.ReversedExactlyWhen` | sdk/src/reputation/seal-state.ts:102-104 | ISO text puts a resolution before its dispute exactly when the two fall on either side of the year 10000. |
| `Seal.SealDiamond` | sdk/src/escrow/credential.ts:50-79 | For every run, folding its events and reading its reconstruction give the same seal facts, except: confirmation differs exactly when a tranche was approved, none reads as paid and nothing else was accepted; an open dispute differs exactly when the resolution's text sorts before the opening's. |
| `OddRuns.ApprovalSplitsTheSeals` | sdk/src/escrow/credential.ts:67-73 | A run with an approved, unpaid tranche, read in order, after which the two seals differ on confirmation. |
| `OddRuns.YearSplitsTheSeals` | sdk/src/reputation/seal-state.ts:102-104 | A run disputed in the last second of the year 9999 and conceded in the next, after which the two seals differ on the open dispute. |
| `Seal.SealsDifferExactlyWhen` | sdk/src/reputation/seal-state.ts:108-115 | When only confirmation differs, the seals differ exactly when nothing stronger decides. |
| `EventWire.BorshReader.Take` | sdk/src/escrow/reader.ts:28-33 | Taking bytes moves past exactly those bytes, or reports truncation and does not move. |
| `EventWire.BorshReader.Next` | sdk/src/escrow/reader.ts:40-101 | Each field reader reads the specified field and moves past it, or fails as specified. |
| `EventWire.DecodeEscrowEventData` | sdk/src/escrow/events.ts:277-498 | The decoder is the specified reading of tag, discriminator, fields in order and nothing left over. |
| `EventWire.DecodingInvertsLayout` | sdk/src/escrow/events.ts:277-498 | For each of the seventeen layouts and all field values, decoding returns the fields that were laid out, unless a time is beyond safe integers, which is refused. |
| `EventWire.DecodingIsInjective` | sdk/src/escrow/events.ts:277-498 | Two byte strings that decode to the same event are the same bytes. |
| `EventBytes.OrdersMeet` | programs/ppv_escrow/src/events/settlement.rs:1-31 | For every event, the fields in the order the program declares them are of the kinds the decoder reads, and reading them under the decoder's names gives the event back. |
| `EventBytes.EventComesBack` | sdk/src/escrow/events.ts:277-498 | What the program emits for an event decodes to that event, name by name, addresses in base58 and digests in hexadecimal included. |
| `EventBytes.BytesRebuildAccount` | sdk/src/escrow/receipts.ts:585-778 | Program run to bytes to decoded events to receipts to any bag of them to reconstruction is the account, tranche states exactly when the steps read right; asked of events are only known addresses, 32-byte digests and times a JavaScript number can hold. |
| `NumberTheory.Fermat` | sdk/src/escrow/curve.ts:37-39 | Raising to p - 1 gives one modulo a prime, which is why inverse inverts. |
| `NumberTheory.TwoIsNotSquare` | sdk/src/escrow/curve.ts:41-45 | For a prime p of the form 8k + 5, two to the (p - 1) / 2 is minus one. |
| `NumberTheory.EulersCriterion` | sdk/src/escrow/curve.ts:41-45 | For such a prime the power test holds exactly of the squares, with the root constructed. |
| `Curve.ModPow` | sdk/src/escrow/curve.ts:25-35 | Square-and-multiply is the power modulo p. |
| `Curve.Inverse` | sdk/src/escrow/curve.ts:37-39 | For prime p the result times the value is one modulo p. |
| `Curve.IsSquare` | sdk/src/escrow/curve.ts:42-45 | For a prime of that form the answer is whether a square root exists. |
| `Curve.CheckIsDecompression` | sdk/src/escrow/curve.ts:57-67 | The checks pass exactly when some x below p with the parity of the sign bit satisfies the curve equation for y. |
| `Curve.IsOnCurve` | sdk/src/escrow/curve.ts:47-68 | If P is prime, the answer is whether the 32 bytes decode to a point as in section 5.1.3 of RFC 8032, with y reduced instead of rejected. |
| `Curve.CurveConstants` | sdk/src/escrow/curve.ts:16-18 | P is 2^255 - 19, d is -121665/121666, and both meet the conditions the check rests on. |
| `Base58.ConversionRoundTrip` | sdk/src/reputation/base58.ts:8-54 | Re-reading a digit string in another base and back restores it, leading zeros included, for any two bases. |
| `Base58.CarryBound` | sdk/src/reputation/base58.ts:13-24 | The carry out of a digit stays below the multiplier in both loops. |
| `Base58.MultiplyAdd` | sdk/src/reputation/base58.ts:14-23 | The two carry loops multiply the number by the base and add the next digit, keeping digits in range and the top one non-zero. |
| `Base58.EncodeBase58` | sdk/src/reputation/base58.ts:8-29 | The in-place encoder is conversion of base 256 to base 58 spelled in the alphabet. |
| `Base58.DecodeBase58` | sdk/src/reputation/base58.ts:31-54 | The in-place decoder is the reverse conversion, and refuses any other character. |
| `Base58.DecodeAfterEncode` | sdk/src/reputation/base58.ts:8-54 | Decoding an encoding gives the bytes back, for every byte string. |
| `Base58.EncodeAfterDecode` | sdk/src/reputation/base58.ts:31-54 | A text decodes exactly when it is over the alphabet, and encoding the result gives it back. |
| `CanonicalText.QuotedReadsBack` | sdk/src/canonical.ts:35-38 | A quoted string, as in section 7 of RFC 8259 with lone surrogates escaped, determines its content and where it ends. |
| `CanonicalForm.PrintReadsBack` | sdk/src/canonical.ts:56-152 | Printed values are uniquely readable: equal text with anything behind it means equal values and equal rests. |
| `CanonicalForm.KeyOrderDoesNotMatter` | sdk/src/canonical.ts:121-123 | Records with the same entries in any order have the same normal form, or the same refusal. |
| `CanonicalForm.NormalIsStable` | sdk/src/canonical.ts:96-124 | Normalizing a normal form changes nothing. |
| `CanonicalForm.CanonicalIsInjective` | sdk/src/canonical.ts:187-195 | Two accepted documents print the same exactly when they are equal after normalization, key sorting and version insertion. |
| `CanonicalForm.VersionMayBeLeftOut` | sdk/src/canonical.ts:135-145 | A document without a version means the same as that document with it. |
| `CanonicalGraph.UnfoldsExactlyWhen` | sdk/src/canonical.ts:173-184 | A container unfolds to a finite tree exactly when no walk from it leads back to itself or an ancestor. |
| `CanonicalGraph.SerializesUnfolding` | sdk/src/canonical.ts:154-185 | With sharing, a value prints as its unfolded tree does, and fails when it has none. |
| `CanonicalGraph.DocumentPrintsItsTree` | sdk/src/canonical.ts:188-195 | A whole document prints as its unfolded tree does, version included, and fails when it has none. |
| `CanonicalGraph.SerializesExactlyWhen` | sdk/src/canonical.ts:154-185 | Inside any ancestors, a container is refused exactly when some walk from it leads back or reaches an unsupported leaf or keys that normalize alike. |
| `CanonicalGraph.AcceptedExactlyWhen` | sdk/src/canonical.ts:154-195 | A document is accepted exactly when it is a record, its version fits, no walk from it leads back, and every object a walk reaches has supported leaves and keys that normalize apart; unreachable objects do not matter. |
| `CanonicalGraph.SerializeValue` | sdk/src/canonical.ts:154-185 | The recursion with a mutable ancestor set terminates, restores the set on every exit, and is the specified serialization. |
| `CanonicalGraph.CanonicalizeV1` | sdk/src/canonical.ts:188-195 | The entry point refuses a scalar or an array at the top and is otherwise the specified document serialization. |
| `Commerce.ContractAccount.Revise` | programs/ppv_commerce/src/state.rs:63-97 | A revision writes the specified new contract and answers the previous version, or writes nothing and gives the specified error. |
| `Commerce.ContractAccount.Sign` | programs/ppv_commerce/src/state.rs:99-144 | A signature writes the specified contract and says whether both are now present, or writes nothing. |
| `Commerce.ContractAccount.Cancel` | programs/ppv_commerce/src/state.rs:146-155 | A cancellation writes the specified contract, or writes nothing and gives the specified error. |
| `Commerce.ContractInvariant` | programs/ppv_commerce/src/state.rs:63-155 | On every run a stored signature names its own party, the current version and both current hashes, the contract is executed exactly when both are present, and the version is one plus the revisions made. |
| `Commerce.RunsGoOn` | programs/ppv_commerce/src/state.rs:54-61 | Parties never change, versions never fall, and an executed or cancelled contract never changes again. |
| `Commerce.StaleVersionIsNeverAccepted` | programs/ppv_commerce/src/state.rs:73-76 | After a successful revision, nothing prepared against an earlier version is ever accepted, however the run goes on. |
| `Binding.VerifyTermsBinding` | sdk/src/commerce/binding.ts:35-93 | The check lists exactly the specified reasons, in order, and binds exactly when there are none. |
| `Binding.BoundExactlyWhen` | sdk/src/commerce/binding.ts:35-93 | For a reachable contract the long check comes to three conditions: executed, same terms hash, same two parties. |
| `Binding.BindingIsPermanent` | sdk/src/commerce/binding.ts:35-93 | Once an escrow agreement and a contract are bound, they stay bound over every continuation of both programs. |
| `Paging.SignatureHistory` | indexer/src/replay.ts:51-83 | For every page size, and while newer signatures arrive in front, the read ends with the list as it stood at the first call, oldest first, cut at the signature asked for; it gives up exactly when a check sees too many. |

## Left out

- Accounts as bytes: bumps, `schema_version`, reserved space, rent and lamports, the vault's own creation and the account decoders of the SDK; Anchor's ownership and type checks appear as guards of a step.
- Mint decimals, freeze authority and delegates of the token program: a transfer is an exact balance move with owner, mint, balance and overflow checks.
- SHA-256 and program-derived addresses: injective constructors in `Keys`; receipt ids are an arbitrary injective function of chain coordinates and action; event discriminators are distinct eight-byte strings.
- Addresses are values of a datatype, not strings; `EventBytes` ties the ones an event names to 32 bytes and base58 text through a book that knows them. That an empty string is falsy in JavaScript has no counterpart.
- Receipts are assumed to carry the fields the indexer casts without checking (`proof`, `proofIndex`, `milestone`, `milestoneIndex`, `amount`); `Receipts.BuiltReceiptsAreWellFormed` shows that built ones do.
- `localeCompare` on receipt ids is the order of their characters: ids are lower-case hexadecimal text.
- JavaScript's stable `sort` is a stable insertion function; its `Map` is `Sequences.Table`; an error is a value and its message is not modelled.
- The indexer's `TypeError` on malformed JavaScript values and the paths in canonicalization messages; property descriptors, symbols and sparse arrays of canonical documents.
- Unicode normalization is any function that is idempotent and leaves ASCII text alone (`CanonicalForm.IsNormalizer`); the two facts are used where named.
- Reputation events are reduced to type and time, all that the seal fold reads; the pattern a transaction signature must match, name-service snapshots and credential metadata are not modelled.
- `P` is assumed prime in `Curve`; every other number-theoretic fact is proved.
- `ppv_commerce` events and the decoders for them; contract expiry is bounded as the program bounds it.
- Paging: page size at least 1; an empty `until` or `before` string, which JavaScript treats as absent, is excluded because signatures are not empty.
- HTTP transport, retries, instruction builders, invoice composition and the table of guards in `lifecycle_model.rs`: nothing there spans several operations.
