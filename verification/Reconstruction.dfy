/**
 Rebuilds one agreement's history from a bag of receipts, or refuses it. The
 functions here say what comes out; Indexer.dfy computes it with loops, and
 Histories.dfy says what coming out means.
 */
module Reconstruction {
  import opened Wrappers
  import opened Keys
  import opened EscrowState
  import opened Receipts
  import opened Sequences
  import opened ReceiptOrder

  type Collection = Table<string, Receipt>
  type Proofs = Table<Pubkey, ProofRecord>
  type Tranches = Table<Pubkey, MilestoneRecord>
  type Exits = map<AgreementState, Receipt>

  datatype ProofRecord = ProofRecord(
    proof: Pubkey,
    proofIndex: nat,
    submitter: Pubkey,
    agreementState: AgreementState,
    status: ProofStatus,
    decidedBy: Option<Pubkey>,
    receiptId: string,
    occurredAt: int,
    slot: int
  )

  datatype MilestoneRecord = MilestoneRecord(
    milestone: Pubkey,
    milestoneIndex: nat,
    amount: nat,
    state: MilestoneState,
    destination: Option<Pubkey>,
    slot: int
  )

  /** Where an agreement got to, as far as its money is concerned. */
  datatype Ending = PaidToSeller | ReturnedToBuyer | Abandoned | StillOpen

  datatype Lifecycle = Lifecycle(
    agreement: Pubkey,
    agreementId: nat,
    buyer: Pubkey,
    seller: Pubkey,
    mint: Pubkey,
    state: AgreementState,
    fundedAmount: Option<nat>,
    settledAmount: Option<nat>,
    refundedAmount: Option<nat>,
    settlementDestination: Option<Pubkey>,
    outcome: Ending,
    lastSlot: int,
    proofs: seq<ProofRecord>,
    milestones: seq<MilestoneRecord>,
    receipts: seq<Receipt>
  )

  function OrZero(n: Option<nat>): nat {
    if n.Some? then n.value else 0
  }

  function OrNobody(k: Option<Pubkey>): Pubkey {
    if k.Some? then k.value else Default
  }

  function Else<T>(first: Option<T>, second: Option<T>): Option<T> {
    if first.Some? then first else second
  }

  // ---- Deduplication ----

  /** One receipt per id, the last one delivered; an id that comes back with another action is refused. */
  function Collected(receipts: seq<Receipt>): (c: Result<Collection, ReceiptError>)
    ensures c.Ok? ==> c.value.Valid() && forall id :: id in c.value.at ==> c.value.at[id].receiptId == id
  {
    if receipts == [] then Ok(Table([], map[]))
    else
      var sofar :- Collected(receipts[..|receipts| - 1]);
      var r := receipts[|receipts| - 1];
      if r.receiptId in sofar.at && sofar.at[r.receiptId].fact.action != r.fact.action then Err(ReplayedAction)
      else Ok(sofar.Put(r.receiptId, r))
  }

  function Select(s: seq<Receipt>, kind: Kind): seq<Receipt> {
    if s == [] then []
    else
      var before := Select(s[..|s| - 1], kind);
      if s[|s| - 1].kind == kind then before + [s[|s| - 1]] else before
  }

  /** What is left of a collection when some receipts are deleted from it. */
  function Deleted(c: Collection, gone: seq<Receipt>): (left: Collection)
    requires c.Valid()
    ensures left.Valid()
  {
    if gone == [] then c else Deleted(c, gone[..|gone| - 1]).Remove(gone[|gone| - 1].receiptId)
  }

  // ---- The path of transitions ----

  predicate OneAgreement(moves: seq<Receipt>) {
    forall r :: r in moves ==> r.fact.agreement == moves[0].fact.agreement
  }

  predicate IsRoot(r: Receipt) {
    r.fact.previousState.None?
  }

  function Roots(moves: seq<Receipt>): seq<Receipt> {
    if moves == [] then []
    else
      var before := Roots(moves[..|moves| - 1]);
      if IsRoot(moves[|moves| - 1]) then before + [moves[|moves| - 1]] else before
  }

  /** The transition that leaves each state; two of them leaving the same state are refused. */
  function ExitsOf(moves: seq<Receipt>): Result<Exits, ReceiptError> {
    if moves == [] then Ok(map[])
    else
      var sofar :- ExitsOf(moves[..|moves| - 1]);
      var r := moves[|moves| - 1];
      if IsRoot(r) then Ok(sofar)
      else
        var from := r.fact.previousState.value;
        if from in sofar && sofar[from].receiptId != r.receiptId then Err(Forked) else Ok(sofar[from := r])
  }

  function StatesOn(path: seq<Receipt>): set<AgreementState> {
    set r | r in path :: r.fact.newState
  }

  /** Follows the exits from the end of a path until there is none, and refuses what is left over. */
  function Walk(exits: Exits, path: seq<Receipt>): Result<seq<Receipt>, ReceiptError>
    requires path != []
    decreases exits.Keys
  {
    var last := path[|path| - 1];
    var state := last.fact.newState;
    if state !in exits then (if exits == map[] then Ok(path) else Err(Orphan))
    else
      var next := exits[state];
      if next.slot < last.slot then Err(SlotRegression)
      else if next.fact.newState in StatesOn(path) then Err(Revisited)
      else Walk(exits - {state}, path + [next])
  }

  function PathOf(moves: seq<Receipt>): Result<seq<Receipt>, ReceiptError> {
    if !OneAgreement(moves) then Err(ManyAgreements)
    else if |Roots(moves)| == 0 then Err(MissingCreation)
    else if |Roots(moves)| > 1 then Err(ManyCreations)
    else
      var exits :- ExitsOf(moves);
      Walk(exits, [Roots(moves)[0]])
  }

  // ---- Placing annotations ----

  /** The last transition that had already happened, or -1 when none had. */
  function Home(path: seq<Receipt>, note: Receipt): int {
    if path == [] then -1
    else if path[|path| - 1].slot <= note.slot then |path| - 1
    else Home(path[..|path| - 1], note)
  }

  predicate AllPlaced(path: seq<Receipt>, notes: seq<Receipt>) {
    forall i :: 0 <= i < |notes| ==> Home(path, notes[i]) >= 0
  }

  function NotesAt(path: seq<Receipt>, notes: seq<Receipt>, home: int): seq<Receipt> {
    if notes == [] then []
    else
      var before := NotesAt(path, notes[..|notes| - 1], home);
      if Home(path, notes[|notes| - 1]) == home then before + [notes[|notes| - 1]] else before
  }

  /** The first n transitions, each followed by the annotations that belong to it. */
  function Interleaved(path: seq<Receipt>, notes: seq<Receipt>, n: nat): seq<Receipt>
    requires n <= |path|
  {
    if n == 0 then []
    else Interleaved(path, notes, n - 1) + [path[n - 1]] + NotesAt(path, notes, n - 1)
  }

  // ---- Money ----

  function FirstWith(s: seq<Receipt>, action: ReceiptAction): Option<Receipt> {
    if s == [] then None
    else
      var before := FirstWith(s[..|s| - 1], action);
      if before.Some? then before else if s[|s| - 1].fact.action == action then Some(s[|s| - 1]) else None
  }

  /** The total of one kind of payment; None when there was no such payment. */
  function PaidOut(s: seq<Receipt>, action: ReceiptAction): Option<nat> {
    if s == [] then None
    else
      var before := PaidOut(s[..|s| - 1], action);
      var r := s[|s| - 1];
      if r.fact.action == action then Some(OrZero(before) + OrZero(r.fact.amount)) else before
  }

  function CheckMoney(funded: Option<Receipt>, settled: Option<Receipt>, refunded: Option<Receipt>,
                      settledTotal: Option<nat>, refundedTotal: Option<nat>): Outcome<ReceiptError>
  {
    if settledTotal.Some? && funded.None? then Fail(SettlementWithoutFunding)
    else if settled.Some? && funded.Some? && settledTotal != funded.value.fact.amount then Fail(SettlementMismatch)
    else if settled.Some? && refunded.Some? then Fail(SettledAndRefunded)
    else if refundedTotal.Some? && funded.None? then Fail(RefundWithoutFunding)
    else if refunded.Some? && funded.Some?
            && Some(OrZero(refundedTotal) + OrZero(settledTotal)) != funded.value.fact.amount then Fail(RefundMismatch)
    else Pass
  }

  function Assignments(notes: seq<Receipt>): seq<Receipt> {
    if notes == [] then []
    else
      var before := Assignments(notes[..|notes| - 1]);
      if notes[|notes| - 1].fact.action == COUNTERPARTY_ASSIGNED then before + [notes[|notes| - 1]] else before
  }

  // ---- Evidence ----

  function Submission(r: Receipt): ProofRecord {
    ProofRecord(OrNobody(r.fact.proof), OrZero(r.fact.proofIndex), r.fact.actor, r.fact.newState,
                ProofStatus.Submitted, None, r.receiptId, r.occurredAt, r.slot)
  }

  function Submissions(notes: seq<Receipt>): (t: Proofs)
    ensures t.Valid()
  {
    if notes == [] then Table([], map[])
    else
      var sofar := Submissions(notes[..|notes| - 1]);
      var r := notes[|notes| - 1];
      if r.fact.action == PROOF_SUBMITTED then sofar.Put(OrNobody(r.fact.proof), Submission(r)) else sofar
  }

  predicate IsDecision(r: Receipt) {
    r.fact.action == PROOF_APPROVED || r.fact.action == PROOF_REJECTED
  }

  function Ruled(p: ProofRecord, r: Receipt): ProofRecord {
    var status := if r.fact.action == PROOF_APPROVED then ProofStatus.Approved else Rejected;
    p.(status := status, decidedBy := Some(r.fact.actor))
  }

  function Decide(t: Proofs, r: Receipt): (d: Result<Proofs, ReceiptError>)
    requires t.Valid()
    ensures d.Ok? ==> d.value.Valid()
  {
    var proof := OrNobody(r.fact.proof);
    if !IsDecision(r) then Ok(t)
    else if proof !in t.at || t.at[proof].decidedBy.Some? then Err(BadDecision)
    else
      Ok(t.Put(proof, Ruled(t.at[proof], r)))
  }

  function Decided(t: Proofs, notes: seq<Receipt>): (d: Result<Proofs, ReceiptError>)
    requires t.Valid()
    ensures d.Ok? ==> d.value.Valid()
  {
    if notes == [] then Ok(t)
    else
      var sofar :- Decided(t, notes[..|notes| - 1]);
      Decide(sofar, notes[|notes| - 1])
  }

  function ProofRecords(notes: seq<Receipt>): Result<seq<ProofRecord>, ReceiptError> {
    var t :- Decided(Submissions(notes), notes);
    Ok(t.Values())
  }

  // ---- Milestones ----

  function Creation(r: Receipt): MilestoneRecord {
    MilestoneRecord(OrNobody(r.fact.milestone), OrZero(r.fact.milestoneIndex), OrZero(r.fact.amount), Pending, None,
                    r.slot)
  }

  function Creations(notes: seq<Receipt>): (t: Tranches)
    ensures t.Valid()
  {
    if notes == [] then Table([], map[])
    else
      var sofar := Creations(notes[..|notes| - 1]);
      var r := notes[|notes| - 1];
      if r.fact.action == MILESTONE_CREATED then sofar.Put(OrNobody(r.fact.milestone), Creation(r)) else sofar
  }

  function StepTaken(m: MilestoneRecord, r: Receipt): MilestoneRecord {
    match r.fact.action
    case MILESTONE_SUBMITTED => m.(state := MilestoneState.Submitted)
    case MILESTONE_APPROVED => m.(state := MilestoneState.Approved)
    case MILESTONE_REJECTED => m.(state := Pending)
    case MILESTONE_SETTLED => m.(state := MilestoneState.Settled, destination := r.fact.destination)
    case _ => m
  }

  function TakeStep(t: Tranches, r: Receipt): (d: Result<Tranches, ReceiptError>)
    requires t.Valid()
    ensures d.Ok? ==> d.value.Valid()
  {
    if r.fact.milestone.None? then Ok(t)
    else
      var milestone := r.fact.milestone.value;
      if milestone !in t.at then (if r.fact.action == MILESTONE_CREATED then Ok(t) else Err(UnknownMilestone))
      else Ok(t.Put(milestone, StepTaken(t.at[milestone], r)))
  }

  function StepsTaken(t: Tranches, notes: seq<Receipt>): (d: Result<Tranches, ReceiptError>)
    requires t.Valid()
    ensures d.Ok? ==> d.value.Valid()
  {
    if notes == [] then Ok(t)
    else
      var sofar :- StepsTaken(t, notes[..|notes| - 1]);
      TakeStep(sofar, notes[|notes| - 1])
  }

  /** Sorting by index is stable: a record goes after those with its own index. */
  function InsertByIndex(m: MilestoneRecord, s: seq<MilestoneRecord>): seq<MilestoneRecord> {
    if s == [] then [m]
    else if m.milestoneIndex < s[0].milestoneIndex then [m] + s
    else [s[0]] + InsertByIndex(m, s[1..])
  }

  function SortedByIndex(s: seq<MilestoneRecord>): seq<MilestoneRecord> {
    if s == [] then [] else InsertByIndex(s[|s| - 1], SortedByIndex(s[..|s| - 1]))
  }

  function MilestoneRecords(notes: seq<Receipt>): Result<seq<MilestoneRecord>, ReceiptError> {
    var t :- StepsTaken(Creations(notes), notes);
    Ok(SortedByIndex(t.Values()))
  }

  function ScheduledTotal(milestones: seq<MilestoneRecord>): nat {
    if milestones == [] then 0
    else ScheduledTotal(milestones[..|milestones| - 1]) + milestones[|milestones| - 1].amount
  }

  function FindProof(proofs: seq<ProofRecord>, proof: Pubkey): Option<ProofRecord> {
    if proofs == [] then None
    else if proofs[0].proof == proof then Some(proofs[0])
    else FindProof(proofs[1..], proof)
  }

  function CheckSchedule(milestones: seq<MilestoneRecord>, funded: Option<Receipt>): Outcome<ReceiptError> {
    if milestones != [] && funded.Some? && Some(ScheduledTotal(milestones)) != funded.value.fact.amount
    then Fail(ScheduleMismatch)
    else Pass
  }

  function CheckCitation(proofs: seq<ProofRecord>, settled: Option<Receipt>): Outcome<ReceiptError> {
    if settled.None? || settled.value.fact.proof.None? then Pass
    else
      var cited := FindProof(proofs, settled.value.fact.proof.value);
      if cited.None? then Fail(UnknownCitation)
      else if cited.value.status != ProofStatus.Approved then Fail(UnapprovedCitation)
      else Pass
  }

  function EndingOf(state: AgreementState): Ending {
    match state
    case Settled => PaidToSeller
    case Refunded => ReturnedToBuyer
    case Cancelled => Abandoned
    case _ => StillOpen
  }

  function DestinationOf(r: Option<Receipt>): Option<Pubkey> {
    if r.Some? then r.value.fact.destination else None
  }

  // ---- Putting it together ----

  function Assemble(path: seq<Receipt>, annotations: seq<Receipt>): Result<Lifecycle, ReceiptError>
    requires path != []
  {
    var notes := Sorted(annotations);
    :- Need(AllPlaced(path, notes), EarlyAnnotation);
    var created := path[0];
    var last := path[|path| - 1];
    var funded := FirstWith(path, AGREEMENT_FUNDED);
    var settled := FirstWith(path, SETTLEMENT_EXECUTED);
    var refunded := FirstWith(path, REFUND_EXECUTED);
    var settledTotal := PaidOut(path + annotations, SETTLEMENT_EXECUTED);
    var refundedTotal := PaidOut(path + annotations, REFUND_EXECUTED);
    :- CheckMoney(funded, settled, refunded, settledTotal, refundedTotal);
    var payees := Assignments(notes);
    :- Need(|payees| <= 1, ManyPayees);
    var proofs :- ProofRecords(notes);
    var milestones :- MilestoneRecords(notes);
    :- CheckSchedule(milestones, funded);
    :- CheckCitation(proofs, settled);
    Ok(Lifecycle(
         created.fact.agreement,
         created.fact.agreementId,
         created.fact.buyer,
         if payees == [] then created.fact.seller else payees[0].fact.seller,
         OrNobody(created.fact.mint),
         last.fact.newState,
         if funded.Some? then funded.value.fact.amount else None,
         settledTotal,
         refundedTotal,
         Else(DestinationOf(settled), DestinationOf(refunded)),
         EndingOf(last.fact.newState),
         last.slot,
         proofs,
         milestones,
         Interleaved(path, notes, |path|)))
  }

  function Reconstruct(receipts: seq<Receipt>): Result<Lifecycle, ReceiptError> {
    if receipts == [] then Err(NoReceipts)
    else
      var byId :- Collected(receipts);
      var annotations := Select(byId.Values(), Annotation);
      var path :- PathOf(Deleted(byId, annotations).Values());
      PathIsNeverEmpty(Deleted(byId, annotations).Values());
      Assemble(path, annotations)
  }

  lemma {:induction false} WalkNeverShrinks(exits: Exits, path: seq<Receipt>)
    requires path != [] && Walk(exits, path).Ok?
    ensures Walk(exits, path).value != []
    decreases exits.Keys
  {
    var state := path[|path| - 1].fact.newState;
    if state in exits {
      WalkNeverShrinks(exits - {state}, path + [exits[state]]);
    }
  }

  lemma PathIsNeverEmpty(moves: seq<Receipt>)
    ensures PathOf(moves).Ok? ==> PathOf(moves).value != []
  {
    if PathOf(moves).Ok? {
      WalkNeverShrinks(ExitsOf(moves).value, [Roots(moves)[0]]);
    }
  }
}
