/**
 From the bytes of an event back to the event, and from the bytes of a run back to
 the account. The program lays the fields of a struct out in the order it declares
 them; the decoder reads them by name in an order of its own source. Here the two
 orders meet.
 */
module EventBytes {
  import opened Wrappers
  import opened Bytes
  import opened Keys
  import opened EscrowState
  import opened EscrowEvents
  import opened EscrowKernel
  import opened KernelNumbers
  import opened NumberTheory
  import opened Receipts
  import opened Sequences
  import opened Reconstruction
  import opened Replay
  import opened EventWire

  // ---- Fields ----

  /** A field of an event with what it means. */
  datatype Field =
    | Key(key: Pubkey)
    | MaybeKey(maybe: Option<Pubkey>)
    | Digest(digest: Hash)
    | Amount(amount: nat)
    | Count(count: nat)
    | Time(time: int)
    | Choice(choice: nat)

  /** How addresses are spelled: their 32 bytes, and whom the base58 text of 32 bytes belongs to. */
  datatype Book = Book(bytesOf: Pubkey -> seq<Byte>, keyOf: string -> Pubkey)

  ghost predicate Knows(book: Book, k: Pubkey) {
    |book.bytesOf(k)| == 32 && book.keyOf(Base58.Encoded(book.bytesOf(k))) == k
  }

  /** A value of the field's type in the program, with a time a JavaScript number can hold. */
  ghost predicate Wireable(book: Book, f: Field) {
    match f
    case Key(k) => Knows(book, k)
    case MaybeKey(o) => o.Some? ==> Knows(book, o.value)
    case Digest(h) => h < Pow(256, 32)
    case Amount(n) => n < TWO_TO_64
    case Count(n) => n < 0x1_0000_0000
    case Time(t) => -MAX_SAFE <= t <= MAX_SAFE
    case Choice(i) => i < 256
  }

  predicate OfKind(f: Field, kind: EventWire.Kind) {
    match f
    case Key(_) => kind == KeyField
    case MaybeKey(_) => kind == MaybeKeyField
    case Digest(_) => kind == HashField
    case Amount(_) => kind == AmountField
    case Count(_) => kind == CountField
    case Time(_) => kind == TimeField
    case Choice(i) => kind.ChoiceField? && i < kind.size
  }

  function Held(book: Book, f: Field): Raw {
    match f
    case Key(k) => RawKey(book.bytesOf(k))
    case MaybeKey(None) => RawMaybeKey(None)
    case MaybeKey(Some(k)) => RawMaybeKey(Some(book.bytesOf(k)))
    case Digest(h) => RawHash(BytesOf(h, 32))
    case Amount(n) => RawAmount(n)
    case Count(n) => RawCount(n)
    case Time(t) => RawTime(t)
    case Choice(i) => RawChoice(i)
  }

  /** The position of a hexadecimal digit. */
  function DigitAt(c: char): nat {
    if '0' <= c <= '9' then (c - '0') as nat else if 'a' <= c <= 'f' then 10 + (c - 'a') as nat else 0
  }

  function FromHex(text: string): seq<Byte> {
    if |text| < 2 then [] else [(16 * DigitAt(text[0]) + DigitAt(text[1])) % 256] + FromHex(text[2..])
  }

  lemma TwoDigits(byte: Byte)
    ensures (16 * DigitAt(HEX[byte / 16]) + DigitAt(HEX[byte % 16])) % 256 == byte
  {
    DigitAtIs(byte / 16);
    DigitAtIs(byte % 16);
    hide DigitAt;
  }

  lemma {:induction false} FromHexOfText(bytes: seq<Byte>)
    ensures FromHex(HexText(bytes)) == bytes
  {
    hide FromHex, HexText;
    if bytes == [] {
      NoHex();
    } else {
      FirstByteOfText(bytes);
      FromHexOfText(bytes[1..]);
      assert bytes == [bytes[0]] + bytes[1..];
    }
  }

  lemma NoHex()
    ensures FromHex(HexText([])) == []
  {
  }

  lemma FirstByteOfText(bytes: seq<Byte>)
    requires bytes != []
    ensures FromHex(HexText(bytes)) == [bytes[0]] + FromHex(HexText(bytes[1..]))
  {
    hide DigitAt, HexText, FromHex;
    HexTextBegins(bytes);
    FromHexBegins(HexText(bytes));
    TwoDigits(bytes[0]);
  }

  lemma FromHexBegins(text: string)
    requires |text| >= 2
    ensures FromHex(text) == [(16 * DigitAt(text[0]) + DigitAt(text[1])) % 256] + FromHex(text[2..])
  {
  }

  lemma HexTextBegins(bytes: seq<Byte>)
    requires bytes != []
    ensures
      var text := HexText(bytes);
      && |text| >= 2 && text[0] == HEX[bytes[0] / 16] && text[1] == HEX[bytes[0] % 16]
      && text[2..] == HexText(bytes[1..])
  {
  }

  lemma DigitAtIs(d: nat)
    requires d < 16
    ensures DigitAt(HEX[d]) == d
  {
    assert d == 0 || d == 1 || d == 2 || d == 3 || d == 4 || d == 5 || d == 6 || d == 7 || d == 8 || d == 9 || d == 10
           || d == 11 || d == 12 || d == 13 || d == 14 || d == 15;
  }

  /** What a shown field means. */
  function Meant(book: Book, s: Shown): Field {
    match s
    case ShownKey(address) => Key(book.keyOf(address))
    case ShownMaybeKey(None) => MaybeKey(None)
    case ShownMaybeKey(Some(address)) => MaybeKey(Some(book.keyOf(address)))
    case ShownHash(hex) => Digest(LittleEndian(FromHex(hex)))
    case ShownAmount(n) => Amount(n)
    case ShownCount(n) => Count(n)
    case ShownTime(t) => Time(t)
    case ShownChoice(i) => Choice(i)
  }

  lemma FieldComesBack(book: Book, f: Field, kind: EventWire.Kind)
    requires Wireable(book, f) && OfKind(f, kind)
    ensures Fits(Held(book, f), kind) && Safe(Held(book, f)) && Meant(book, Show(Held(book, f))) == f
  {
    hide Base58.Encoded, HexText, FromHex, LittleEndian, BytesOf;
    if f.Digest? {
      NumberOfBytes(f.digest, 32);
      FromHexOfText(BytesOf(f.digest, 32));
    }
  }

  // ---- The program's order ----

  function StateIndex(s: AgreementState): nat {
    match s
    case Open => 0
    case Funded => 1
    case Completed => 2
    case Settled => 3
    case Cancelled => 4
    case Disputed => 5
    case Refunded => 6
  }

  function TypeIndex(t: AgreementType): nat {
    match t
    case Escrow => 0
    case Invoice => 1
    case Contract => 2
    case MilestoneContract => 3
    case Bounty => 4
    case ProofOnly => 5
  }

  function StepIndex(s: MilestoneState): nat {
    match s
    case Pending => 0
    case Submitted => 1
    case Approved => 2
    case Settled => 3
  }

  function OutcomeIndex(o: DisputeOutcome): nat {
    if o == SellerPaid then 0 else 1
  }

  function State(s: AgreementState): Field {
    Choice(StateIndex(s))
  }

  function Step(s: MilestoneState): Field {
    Choice(StepIndex(s))
  }

  /** The fields of an event as the program's structs list them. */
  function Declared(e: Event): seq<Field> {
    match e
    case AgreementOpened(agreement, id, creator, counterparty, agreementType, mint, vault, amount, terms, to, at) =>
      [Key(agreement), Amount(id), Key(creator), Key(counterparty), Choice(TypeIndex(agreementType)), Key(mint),
       Key(vault), Amount(amount), Digest(terms), State(to), Time(at)]
    case AgreementFunded(agreement, creator, counterparty, amount, mint, vault, from, to, at) =>
      [Key(agreement), Key(creator), Key(counterparty), Amount(amount), Key(mint), Key(vault), State(from), State(to),
       Time(at)]
    case WorkCompleted(agreement, creator, counterparty, actor, from, to, at) =>
      [Key(agreement), Key(creator), Key(counterparty), Key(actor), State(from), State(to), Time(at)]
    case SettlementExecuted(agreement, buyer, seller, amount, mint, destination, proof, from, to, at) =>
      [Key(agreement), Key(buyer), Key(seller), Amount(amount), Key(mint), Key(destination), MaybeKey(proof),
       State(from), State(to), Time(at)]
    case ProofSubmitted(agreement, proof, core, creator, counterparty, submitter, index, content, metadata, state,
                        at) =>
      [Key(agreement), Key(proof), Key(core), Key(creator), Key(counterparty), Key(submitter), Count(index),
       Digest(content), Digest(metadata), State(state), Time(at)]
    case ProofApproved(agreement, proof, core, creator, counterparty, submitter, decidedBy, index, state, at) =>
      [Key(agreement), Key(proof), Key(core), Key(creator), Key(counterparty), Key(submitter), Key(decidedBy),
       Count(index), State(state), Time(at)]
    case ProofRejected(agreement, proof, core, creator, counterparty, submitter, decidedBy, index, state, at) =>
      [Key(agreement), Key(proof), Key(core), Key(creator), Key(counterparty), Key(submitter), Key(decidedBy),
       Count(index), State(state), Time(at)]
    case AgreementAbandoned(agreement, creator, counterparty, cancelledBy, from, to, at) =>
      [Key(agreement), Key(creator), Key(counterparty), Key(cancelledBy), State(from), State(to), Time(at)]
    case DisputeOpened(agreement, creator, counterparty, openedBy, reason, from, to, at) =>
      [Key(agreement), Key(creator), Key(counterparty), Key(openedBy), Digest(reason), State(from), State(to), Time(at)]
    case DisputeResolved(agreement, creator, counterparty, resolvedBy, beneficiary, outcome, openedBy, to, at) =>
      [Key(agreement), Key(creator), Key(counterparty), Key(resolvedBy), Key(beneficiary),
       Choice(OutcomeIndex(outcome)), Key(openedBy), State(to), Time(at)]
    case RefundExecuted(agreement, buyer, seller, refundedBy, amount, mint, destination, from, to, at) =>
      [Key(agreement), Key(buyer), Key(seller), Key(refundedBy), Amount(amount), Key(mint), Key(destination),
       State(from), State(to), Time(at)]
    case MilestoneCreated(agreement, milestone, creator, counterparty, index, amount, terms, state, at) =>
      [Key(agreement), Key(milestone), Key(creator), Key(counterparty), Count(index), Amount(amount), Digest(terms),
       State(state), Time(at)]
    case MilestoneSubmitted(agreement, milestone, creator, counterparty, index, from, to, state, at) =>
      [Key(agreement), Key(milestone), Key(creator), Key(counterparty), Count(index), Step(from), Step(to),
       State(state), Time(at)]
    case MilestoneApproved(agreement, milestone, creator, counterparty, index, from, to, state, at) =>
      [Key(agreement), Key(milestone), Key(creator), Key(counterparty), Count(index), Step(from), Step(to),
       State(state), Time(at)]
    case MilestoneRejected(agreement, milestone, creator, counterparty, index, from, to, state, at) =>
      [Key(agreement), Key(milestone), Key(creator), Key(counterparty), Count(index), Step(from), Step(to),
       State(state), Time(at)]
    case MilestoneSettled(agreement, milestone, creator, counterparty, index, amount, destination, proof, from, to,
                          state, at) =>
      [Key(agreement), Key(milestone), Key(creator), Key(counterparty), Count(index), Amount(amount), Key(destination),
       MaybeKey(proof), Step(from), Step(to), State(state), Time(at)]
    case CounterpartyAssigned(agreement, creator, counterparty, state, at) =>
      [Key(agreement), Key(creator), Key(counterparty), State(state), Time(at)]
  }

  // ---- The decoder's order ----

  // The i-th field of an event, as a value of the type the decoder expects there.
  function KeyAt(f: seq<Field>, i: nat): Pubkey {
    if i < |f| && f[i].Key? then f[i].key else Default
  }

  function MaybeKeyAt(f: seq<Field>, i: nat): Option<Pubkey> {
    if i < |f| && f[i].MaybeKey? then f[i].maybe else None
  }

  function DigestAt(f: seq<Field>, i: nat): Hash {
    if i < |f| && f[i].Digest? then f[i].digest else 0
  }

  function AmountAt(f: seq<Field>, i: nat): nat {
    if i < |f| && f[i].Amount? then f[i].amount else 0
  }

  function CountAt(f: seq<Field>, i: nat): nat {
    if i < |f| && f[i].Count? then f[i].count else 0
  }

  function TimeAt(f: seq<Field>, i: nat): int {
    if i < |f| && f[i].Time? then f[i].time else 0
  }

  function ChoiceAt(f: seq<Field>, i: nat): nat {
    if i < |f| && f[i].Choice? then f[i].choice else 0
  }

  const STATES: seq<AgreementState> := [Open, Funded, Completed, AgreementState.Settled, Cancelled, Disputed, Refunded]
  const TYPES: seq<AgreementType> := [Escrow, Invoice, Contract, MilestoneContract, Bounty, ProofOnly]
  const STEPS: seq<MilestoneState> :=
    [MilestoneState.Pending, MilestoneState.Submitted, MilestoneState.Approved, MilestoneState.Settled]
  const OUTCOMES: seq<DisputeOutcome> := [SellerPaid, BuyerRefunded]

  function StateAt(f: seq<Field>, i: nat): AgreementState {
    if ChoiceAt(f, i) < 7 then STATES[ChoiceAt(f, i)] else Open
  }

  function TypeAt(f: seq<Field>, i: nat): AgreementType {
    if ChoiceAt(f, i) < 6 then TYPES[ChoiceAt(f, i)] else Escrow
  }

  function StepAt(f: seq<Field>, i: nat): MilestoneState {
    if ChoiceAt(f, i) < 4 then STEPS[ChoiceAt(f, i)] else MilestoneState.Pending
  }

  function OutcomeAt(f: seq<Field>, i: nat): DisputeOutcome {
    if ChoiceAt(f, i) < 2 then OUTCOMES[ChoiceAt(f, i)] else SellerPaid
  }

  /** The event whose fields the decoder reads under these names. */
  function Named(name: ReceiptAction, f: seq<Field>): Event {
    match name
    case AGREEMENT_OPENED =>
      AgreementOpened(agreement := KeyAt(f, 0), agreementId := AmountAt(f, 1), creator := KeyAt(f, 2),
                      counterparty := KeyAt(f, 3), agreementType := TypeAt(f, 4), mint := KeyAt(f, 5),
                      vault := KeyAt(f, 6), amount := AmountAt(f, 7), termsHash := DigestAt(f, 8),
                      newState := StateAt(f, 9), timestamp := TimeAt(f, 10))
    case AGREEMENT_FUNDED =>
      AgreementFunded(agreement := KeyAt(f, 0), creator := KeyAt(f, 1), counterparty := KeyAt(f, 2),
                      amount := AmountAt(f, 3), mint := KeyAt(f, 4), vault := KeyAt(f, 5),
                      previousState := StateAt(f, 6), newState := StateAt(f, 7), timestamp := TimeAt(f, 8))
    case WORK_COMPLETED =>
      WorkCompleted(agreement := KeyAt(f, 0), creator := KeyAt(f, 1), counterparty := KeyAt(f, 2),
                    actor := KeyAt(f, 3), previousState := StateAt(f, 4), newState := StateAt(f, 5),
                    timestamp := TimeAt(f, 6))
    case SETTLEMENT_EXECUTED =>
      SettlementExecuted(agreement := KeyAt(f, 0), buyer := KeyAt(f, 1), seller := KeyAt(f, 2),
                         amount := AmountAt(f, 3), mint := KeyAt(f, 4), destination := KeyAt(f, 5),
                         settlementProof := MaybeKeyAt(f, 6), previousState := StateAt(f, 7),
                         newState := StateAt(f, 8), timestamp := TimeAt(f, 9))
    case PROOF_SUBMITTED =>
      ProofSubmitted(agreement := KeyAt(f, 0), proof := KeyAt(f, 1), coreProof := KeyAt(f, 2),
                     creator := KeyAt(f, 3), counterparty := KeyAt(f, 4), submitter := KeyAt(f, 5),
                     proofIndex := CountAt(f, 6), contentHash := DigestAt(f, 7), metadataHash := DigestAt(f, 8),
                     agreementState := StateAt(f, 9), timestamp := TimeAt(f, 10))
    case PROOF_APPROVED =>
      ProofApproved(agreement := KeyAt(f, 0), proof := KeyAt(f, 1), coreProof := KeyAt(f, 2),
                    creator := KeyAt(f, 3), counterparty := KeyAt(f, 4), submitter := KeyAt(f, 5),
                    decidedBy := KeyAt(f, 6), proofIndex := CountAt(f, 7), agreementState := StateAt(f, 8),
                    timestamp := TimeAt(f, 9))
    case PROOF_REJECTED =>
      ProofRejected(agreement := KeyAt(f, 0), proof := KeyAt(f, 1), coreProof := KeyAt(f, 2),
                    creator := KeyAt(f, 3), counterparty := KeyAt(f, 4), submitter := KeyAt(f, 5),
                    decidedBy := KeyAt(f, 6), proofIndex := CountAt(f, 7), agreementState := StateAt(f, 8),
                    timestamp := TimeAt(f, 9))
    case AGREEMENT_ABANDONED =>
      AgreementAbandoned(agreement := KeyAt(f, 0), creator := KeyAt(f, 1), counterparty := KeyAt(f, 2),
                         cancelledBy := KeyAt(f, 3), previousState := StateAt(f, 4), newState := StateAt(f, 5),
                         timestamp := TimeAt(f, 6))
    case DISPUTE_OPENED =>
      DisputeOpened(agreement := KeyAt(f, 0), creator := KeyAt(f, 1), counterparty := KeyAt(f, 2),
                    openedBy := KeyAt(f, 3), reasonHash := DigestAt(f, 4), previousState := StateAt(f, 5),
                    newState := StateAt(f, 6), timestamp := TimeAt(f, 7))
    case DISPUTE_RESOLVED =>
      DisputeResolved(agreement := KeyAt(f, 0), creator := KeyAt(f, 1), counterparty := KeyAt(f, 2),
                      resolvedBy := KeyAt(f, 3), beneficiary := KeyAt(f, 4), outcome := OutcomeAt(f, 5),
                      openedBy := KeyAt(f, 6), resultingState := StateAt(f, 7), timestamp := TimeAt(f, 8))
    case REFUND_EXECUTED =>
      RefundExecuted(agreement := KeyAt(f, 0), buyer := KeyAt(f, 1), seller := KeyAt(f, 2),
                     refundedBy := KeyAt(f, 3), amount := AmountAt(f, 4), mint := KeyAt(f, 5),
                     destination := KeyAt(f, 6), previousState := StateAt(f, 7), newState := StateAt(f, 8),
                     timestamp := TimeAt(f, 9))
    case MILESTONE_CREATED =>
      MilestoneCreated(agreement := KeyAt(f, 0), milestone := KeyAt(f, 1), creator := KeyAt(f, 2),
                       counterparty := KeyAt(f, 3), milestoneIndex := CountAt(f, 4), amount := AmountAt(f, 5),
                       termsHash := DigestAt(f, 6), agreementState := StateAt(f, 7), timestamp := TimeAt(f, 8))
    case MILESTONE_SUBMITTED =>
      MilestoneSubmitted(agreement := KeyAt(f, 0), milestone := KeyAt(f, 1), creator := KeyAt(f, 2),
                         counterparty := KeyAt(f, 3), milestoneIndex := CountAt(f, 4), previousStep := StepAt(f, 5),
                         newStep := StepAt(f, 6), agreementState := StateAt(f, 7), timestamp := TimeAt(f, 8))
    case MILESTONE_APPROVED =>
      MilestoneApproved(agreement := KeyAt(f, 0), milestone := KeyAt(f, 1), creator := KeyAt(f, 2),
                        counterparty := KeyAt(f, 3), milestoneIndex := CountAt(f, 4), previousStep := StepAt(f, 5),
                        newStep := StepAt(f, 6), agreementState := StateAt(f, 7), timestamp := TimeAt(f, 8))
    case MILESTONE_REJECTED =>
      MilestoneRejected(agreement := KeyAt(f, 0), milestone := KeyAt(f, 1), creator := KeyAt(f, 2),
                        counterparty := KeyAt(f, 3), milestoneIndex := CountAt(f, 4), previousStep := StepAt(f, 5),
                        newStep := StepAt(f, 6), agreementState := StateAt(f, 7), timestamp := TimeAt(f, 8))
    case MILESTONE_SETTLED =>
      MilestoneSettled(agreement := KeyAt(f, 0), milestone := KeyAt(f, 1), creator := KeyAt(f, 2),
                       counterparty := KeyAt(f, 3), milestoneIndex := CountAt(f, 4), amount := AmountAt(f, 5),
                       destination := KeyAt(f, 6), settlementProof := MaybeKeyAt(f, 7),
                       previousStep := StepAt(f, 8), newStep := StepAt(f, 9), agreementState := StateAt(f, 10),
                       timestamp := TimeAt(f, 11))
    case COUNTERPARTY_ASSIGNED =>
      CounterpartyAssigned(agreement := KeyAt(f, 0), creator := KeyAt(f, 1), counterparty := KeyAt(f, 2),
                           agreementState := StateAt(f, 3), timestamp := TimeAt(f, 4))
  }

  // ---- The two orders meet ----

  /** The fields of an event are of the kinds its layout lists. */
  predicate LaidOut(e: Event) {
    var fields, kinds := Declared(e), Layout(ActionOf(e));
    |fields| == |kinds| && forall i :: 0 <= i < |fields| ==> OfKind(fields[i], kinds[i])
  }

  /** Reading the fields by name gives the event back. */
  predicate ReadsBack(e: Event) {
    Named(ActionOf(e), Declared(e)) == e
  }

  lemma OpeningLaidOut(e: Event)
    requires e.AgreementOpened? || e.AgreementFunded? || e.WorkCompleted?
    ensures LaidOut(e)
  {
  }

  lemma OpeningReadsBack(e: Event)
    requires e.AgreementOpened? || e.AgreementFunded? || e.WorkCompleted?
    ensures ReadsBack(e)
  {
  }

  lemma ClosingLaidOut(e: Event)
    requires e.AgreementAbandoned? || e.CounterpartyAssigned? || e.SettlementExecuted?
    ensures LaidOut(e)
  {
  }

  lemma ClosingReadsBack(e: Event)
    requires e.AgreementAbandoned? || e.CounterpartyAssigned? || e.SettlementExecuted?
    ensures ReadsBack(e)
  {
  }

  lemma DisputeLaidOut(e: Event)
    requires e.RefundExecuted? || e.DisputeOpened? || e.DisputeResolved?
    ensures LaidOut(e)
  {
  }

  lemma DisputeReadsBack(e: Event)
    requires e.RefundExecuted? || e.DisputeOpened? || e.DisputeResolved?
    ensures ReadsBack(e)
  {
  }

  lemma EvidenceLaidOut(e: Event)
    requires e.ProofSubmitted? || e.ProofApproved? || e.ProofRejected?
    ensures LaidOut(e)
  {
  }

  lemma EvidenceReadsBack(e: Event)
    requires e.ProofSubmitted? || e.ProofApproved? || e.ProofRejected?
    ensures ReadsBack(e)
  {
  }

  lemma StepLaidOut(e: Event)
    requires e.MilestoneSubmitted? || e.MilestoneApproved? || e.MilestoneRejected?
    ensures LaidOut(e)
  {
  }

  lemma SubmittedReadsBack(e: Event)
    requires e.MilestoneSubmitted?
    ensures ReadsBack(e)
  {
  }

  lemma DecidedReadsBack(e: Event)
    requires e.MilestoneApproved? || e.MilestoneRejected?
    ensures ReadsBack(e)
  {
  }

  lemma TrancheLaidOut(e: Event)
    requires e.MilestoneCreated? || e.MilestoneSettled?
    ensures LaidOut(e)
  {
  }

  lemma TrancheReadsBack(e: Event)
    requires e.MilestoneCreated? || e.MilestoneSettled?
    ensures ReadsBack(e)
  {
  }

  lemma OrdersMeet(e: Event)
    ensures LaidOut(e) && ReadsBack(e)
  {
    hide LaidOut, ReadsBack;
    if e.AgreementOpened? || e.AgreementFunded? || e.WorkCompleted? {
      OpeningLaidOut(e);
      OpeningReadsBack(e);
    } else if e.AgreementAbandoned? || e.CounterpartyAssigned? || e.SettlementExecuted? {
      ClosingLaidOut(e);
      ClosingReadsBack(e);
    } else if e.RefundExecuted? || e.DisputeOpened? || e.DisputeResolved? {
      DisputeLaidOut(e);
      DisputeReadsBack(e);
    } else if e.ProofSubmitted? || e.ProofApproved? || e.ProofRejected? {
      EvidenceLaidOut(e);
      EvidenceReadsBack(e);
    } else if e.MilestoneSubmitted? || e.MilestoneApproved? || e.MilestoneRejected? {
      StepLaidOut(e);
      if e.MilestoneSubmitted? {
        SubmittedReadsBack(e);
      } else {
        DecidedReadsBack(e);
      }
    } else {
      TrancheLaidOut(e);
      TrancheReadsBack(e);
    }
  }

  // ---- Bytes and back ----

  ghost predicate WireableEvent(book: Book, e: Event) {
    forall i :: 0 <= i < |Declared(e)| ==> Wireable(book, Declared(e)[i])
  }

  /** An event as the program emits it. */
  function BytesOfEvent(disc: Discriminators, book: Book, e: Event): seq<Byte> {
    Wire(disc, ActionOf(e), HeldAll(book, Declared(e)))
  }

  function HeldAll(book: Book, fields: seq<Field>): (raws: seq<Raw>)
    ensures |raws| == |fields| && forall i :: 0 <= i < |raws| ==> raws[i] == Held(book, fields[i])
  {
    seq(|fields|, i requires 0 <= i < |fields| => Held(book, fields[i]))
  }

  function MeantAll(book: Book, shown: seq<Shown>): (fields: seq<Field>)
    ensures |fields| == |shown| && forall i :: 0 <= i < |fields| ==> fields[i] == Meant(book, shown[i])
  {
    seq(|shown|, i requires 0 <= i < |shown| => Meant(book, shown[i]))
  }

  /** The event a piece of data decodes to, if it is one of ours and not corrupt. */
  function EventOf(disc: Discriminators, book: Book, data: seq<Byte>): Option<Event> {
    match DecodedData(disc, data)
    case Decoded(name, shown) => Some(Named(name, MeantAll(book, shown)))
    case _ => None
  }

  lemma FieldsComeBack(book: Book, e: Event)
    requires WireableEvent(book, e)
    ensures
      var raws := HeldAll(book, Declared(e));
      FitsAll(raws, Layout(ActionOf(e))) && AllSafe(raws) && MeantAll(book, ShowAll(raws)) == Declared(e)
  {
    OrdersMeet(e);
    var fields, kinds := Declared(e), Layout(ActionOf(e));
    assert |fields| == |kinds| && forall i :: 0 <= i < |fields| ==> OfKind(fields[i], kinds[i]);
    hide Declared, Layout, ActionOf, Wireable, OfKind, Held, Meant, Fits, Safe, Show, ReadsBack;
    forall i | 0 <= i < |fields|
      ensures Fits(Held(book, fields[i]), kinds[i]) && Safe(Held(book, fields[i]))
      ensures Meant(book, Show(Held(book, fields[i]))) == fields[i]
    {
      FieldComesBack(book, fields[i], kinds[i]);
    }
  }

  /** What the program lays out the decoder reads back, name by name, for each of the seventeen events. */
  lemma EventComesBack(disc: Discriminators, book: Book, e: Event)
    requires AreDiscriminators(disc) && WireableEvent(book, e)
    ensures EventOf(disc, book, BytesOfEvent(disc, book, e)) == Some(e)
  {
    hide Declared, Layout, ActionOf, AreDiscriminators, WireableEvent, DecodedData, Wire, FitsAll;
    hide AllSafe, ShowAll, Named;
    FieldsComeBack(book, e);
    OrdersMeet(e);
    DecodingInvertsLayout(disc, ActionOf(e), HeldAll(book, Declared(e)));
  }

  // ---- From the bytes of a run to the account ----

  /** What an indexer fetches: the data of an event, and where on chain it was found. */
  datatype Parcel = Parcel(
    data: seq<Byte>,
    programId: string,
    transactionSignature: string,
    slot: int,
    instructionIndex: int,
    innerInstructionIndex: Option<int>,
    blockTime: Option<int>
  )

  function Packed(disc: Discriminators, book: Book, envelope: Envelope): Parcel {
    Parcel(BytesOfEvent(disc, book, envelope.event), envelope.programId, envelope.transactionSignature, envelope.slot,
           envelope.instructionIndex, envelope.innerInstructionIndex, envelope.blockTime)
  }

  /** The envelope around a decoded event. */
  function Opened(disc: Discriminators, book: Book, p: Parcel): Option<Envelope> {
    match EventOf(disc, book, p.data)
    case Some(e) =>
      Some(Envelope(e, p.programId, p.transactionSignature, p.slot, p.instructionIndex, p.innerInstructionIndex,
                    p.blockTime))
    case None => None
  }

  lemma PackedIsOpened(disc: Discriminators, book: Book, envelope: Envelope)
    requires AreDiscriminators(disc) && WireableEvent(book, envelope.event)
    ensures Opened(disc, book, Packed(disc, book, envelope)) == Some(envelope)
  {
    hide EventOf, BytesOfEvent, WireableEvent, AreDiscriminators;
    EventComesBack(disc, book, envelope.event);
  }

  // ---- What reachability says of fields ----

  /** What is asked of an event: its addresses are known, its digests are 32 bytes, and its time is safe. */
  ghost predicate Spelled(book: Book, e: Event) {
    forall i :: 0 <= i < |Declared(e)| ==>
      Declared(e)[i].Amount? || Declared(e)[i].Count? || Declared(e)[i].Choice? || Wireable(book, Declared(e)[i])
  }

  /** A number of a field fits its wire type. */
  predicate NumberFits(f: Field) {
    && (f.Amount? ==> f.amount < TWO_TO_64)
    && (f.Count? ==> f.count < 0x1_0000_0000)
    && (f.Choice? ==> f.choice < 256)
  }

  ghost predicate FieldsFit(e: Event) {
    forall i :: 0 <= i < |Declared(e)| ==> NumberFits(Declared(e)[i])
  }

  lemma MoneyFieldsFit(e: Event)
    requires NumbersFit(e) && (e.AgreementOpened? || e.AgreementFunded? || e.SettlementExecuted? || e.RefundExecuted?)
    ensures FieldsFit(e)
  {
  }

  lemma ProofFieldsFit(e: Event)
    requires NumbersFit(e) && IsProofEvent(e)
    ensures FieldsFit(e)
  {
  }

  lemma StepFieldsFit(e: Event)
    requires NumbersFit(e) && IsStepEvent(e)
    ensures FieldsFit(e)
  {
  }

  lemma TrancheFieldsFit(e: Event)
    requires NumbersFit(e) && (e.MilestoneCreated? || e.MilestoneSettled?)
    ensures FieldsFit(e)
  {
  }

  lemma PlainFieldsFit(e: Event)
    requires e.WorkCompleted? || e.AgreementAbandoned? || e.CounterpartyAssigned? || e.DisputeOpened?
             || e.DisputeResolved?
    ensures FieldsFit(e)
  {
  }

  lemma NumbersFitFields(e: Event)
    requires NumbersFit(e)
    ensures FieldsFit(e)
  {
    hide NumbersFit, FieldsFit;
    if IsProofEvent(e) {
      ProofFieldsFit(e);
    } else if IsStepEvent(e) {
      StepFieldsFit(e);
    } else if e.MilestoneCreated? || e.MilestoneSettled? {
      TrancheFieldsFit(e);
    } else if e.AgreementOpened? || e.AgreementFunded? || e.SettlementExecuted? || e.RefundExecuted? {
      MoneyFieldsFit(e);
    } else {
      PlainFieldsFit(e);
    }
  }

  lemma SpelledIsWireable(book: Book, e: Event)
    requires Spelled(book, e) && NumbersFit(e)
    ensures WireableEvent(book, e)
  {
    NumbersFitFields(e);
    hide Declared, NumbersFit, Knows;
  }

  /** Every event a run emits can be laid out as bytes. */
  lemma TraceIsWireable(start: Ledger, ticks: seq<Tick>, key: Pubkey, book: Book, envelopes: seq<Envelope>)
    requires Genesis(start) && Carried(envelopes, Trace(start, ticks, key))
    requires forall i :: 0 <= i < |envelopes| ==> Spelled(book, envelopes[i].event)
    ensures forall i :: 0 <= i < |envelopes| ==> WireableEvent(book, envelopes[i].event)
  {
    TraceFits(start, ticks, key);
    var events := Trace(start, ticks, key);
    assert |envelopes| == |events| && forall i :: 0 <= i < |envelopes| ==> envelopes[i].event == events[i];
    hide Genesis, Trace, Carried, Spelled, WireableEvent, NumbersFit, NumbersSound, Run;
    forall i | 0 <= i < |envelopes| ensures WireableEvent(book, envelopes[i].event) {
      assert events[i] in events;
      SpelledIsWireable(book, envelopes[i].event);
    }
  }

  /**
   The whole way. A run's events are laid out as bytes, found on chain, decoded,
   turned into receipts, shuffled and repeated: what the reconstruction says of the
   agreement is its account, the states of its tranches exactly when its steps read
   right. Amounts and indices fit their wire types because the run is one of the
   program.
   */
  lemma BytesRebuildAccount(start: Ledger, ticks: seq<Tick>, key: Pubkey, idOf: IdFunction, disc: Discriminators,
                            book: Book, envelopes: seq<Envelope>, parcels: seq<Parcel>, bag: seq<Receipt>)
    requires Genesis(start) && key in Run(start, ticks).agreements && InjectiveIds(idOf) && AreDiscriminators(disc)
    requires Carried(envelopes, Trace(start, ticks, key)) && |parcels| == |envelopes|
    requires forall i :: 0 <= i < |parcels| ==>
               parcels[i] == Packed(disc, book, envelopes[i]) && Spelled(book, envelopes[i].event)
    ensures forall i :: 0 <= i < |parcels| ==>
              && Opened(disc, book, parcels[i]).Some?
              && EscrowReceiptFromEvent(idOf, Opened(disc, book, parcels[i]).value).Ok?
    ensures
      var rs := seq(|parcels|, i requires 0 <= i < |parcels| =>
                      EscrowReceiptFromEvent(idOf, Opened(disc, book, parcels[i]).value).value);
      SameElements(bag, rs) ==>
        && Reconstruct(bag).Ok?
        && Matches(Reconstruct(bag).value, Run(start, ticks), key)
        && (TrancheStatesMatch(Reconstruct(bag).value.milestones, Run(start, ticks), key) <==> StepsReadRight(rs))
        && StatesAsRead(Reconstruct(bag).value.milestones, rs)
  {
    hide Genesis, Run, Trace, Carried, InjectiveIds, AreDiscriminators, WireableEvent, Packed;
    hide Opened, Reconstruct, Matches;
    hide StepsReadRight, StatesAsRead, TrancheStatesMatch, EscrowReceiptFromEvent, SameElements, Spelled;
    TraceIsWireable(start, ticks, key, book, envelopes);
    forall i | 0 <= i < |parcels| ensures Opened(disc, book, parcels[i]) == Some(envelopes[i]) {
      PackedIsOpened(disc, book, envelopes[i]);
    }
    ReplayIsComplete(start, ticks, key, idOf, envelopes, bag);
    var rs := seq(|parcels|, i requires 0 <= i < |parcels| =>
                    EscrowReceiptFromEvent(idOf, Opened(disc, book, parcels[i]).value).value);
    assert rs == ReceiptsOf(idOf, envelopes);
  }
}
