/**
 The two promises of the reconstruction: what it accepts is one sound history,
 and what it answers depends on nothing but the set of receipts.
 */
module Lifecycles {
  import opened Wrappers
  import opened Receipts
  import opened Sequences
  import opened ReceiptOrder
  import opened Reconstruction
  import opened Histories

  // ---- Placing annotations ----

  predicate Ascending(s: seq<Receipt>) {
    forall i, j :: 0 <= i < j < |s| ==> s[i].slot <= s[j].slot
  }

  lemma {:induction false} HomeIsLast(path: seq<Receipt>, note: Receipt)
    ensures -1 <= Home(path, note) < |path|
    ensures Home(path, note) >= 0 ==> path[Home(path, note)].slot <= note.slot
    ensures forall i :: 0 <= i < |path| && Home(path, note) < i ==> note.slot < path[i].slot
  {
    if path != [] {
      HomeIsLast(path[..|path| - 1], note);
    }
  }

  lemma {:induction false} NothingToPlace(path: seq<Receipt>, n: nat)
    requires n <= |path|
    ensures Interleaved(path, [], n) == path[..n]
  {
    if n > 0 {
      NothingToPlace(path, n - 1);
    }
  }

  function Count(s: seq<Receipt>, r: Receipt): nat {
    multiset(s)[r]
  }

  lemma CountOfJoin(s: seq<Receipt>, one: Receipt, t: seq<Receipt>, r: Receipt)
    ensures Count(s + [one] + t, r) == Count(s, r) + (if one == r then 1 else 0) + Count(t, r)
  {
  }

  lemma OneMoreHere(path: seq<Receipt>, notes: seq<Receipt>, home: int, r: Receipt)
    requires notes != []
    ensures
      var last := notes[|notes| - 1];
      Count(NotesAt(path, notes, home), r)
      == Count(NotesAt(path, notes[..|notes| - 1], home), r) + (if Home(path, last) == home && last == r then 1 else 0)
  {
  }

  /** Each annotation lands in exactly one place. */
  lemma {:induction false} OneMorePlaced(path: seq<Receipt>, notes: seq<Receipt>, n: nat, r: Receipt)
    requires n <= |path| && notes != []
    ensures
      var last := notes[|notes| - 1];
      Count(Interleaved(path, notes, n), r)
      == Count(Interleaved(path, notes[..|notes| - 1], n), r)
         + (if 0 <= Home(path, last) < n && last == r then 1 else 0)
  {
    hide Home, NotesAt, Count;
    if n > 0 {
      var init := notes[..|notes| - 1];
      OneMorePlaced(path, notes, n - 1, r);
      OneMoreHere(path, notes, n - 1, r);
      CountOfJoin(Interleaved(path, notes, n - 1), path[n - 1], NotesAt(path, notes, n - 1), r);
      CountOfJoin(Interleaved(path, init, n - 1), path[n - 1], NotesAt(path, init, n - 1), r);
    }
  }

  lemma {:induction false} InterleavingCounts(path: seq<Receipt>, notes: seq<Receipt>, r: Receipt)
    requires AllPlaced(path, notes)
    ensures Count(Interleaved(path, notes, |path|), r) == Count(path, r) + Count(notes, r)
  {
    if notes == [] {
      NothingToPlace(path, |path|);
      assert path[..|path|] == path;
    } else {
      var init := notes[..|notes| - 1];
      assert notes == init + [notes[|notes| - 1]];
      forall i | 0 <= i < |init| ensures Home(path, init[i]) >= 0 {
        assert init[i] == notes[i];
      }
      InterleavingCounts(path, init, r);
      OneMorePlaced(path, notes, |path|, r);
      HomeIsLast(path, notes[|notes| - 1]);
    }
  }

  lemma InterleavingPermutes(path: seq<Receipt>, notes: seq<Receipt>)
    requires AllPlaced(path, notes)
    ensures multiset(Interleaved(path, notes, |path|)) == multiset(path) + multiset(notes)
  {
    var list := Interleaved(path, notes, |path|);
    forall r ensures multiset(list)[r] == (multiset(path) + multiset(notes))[r] {
      InterleavingCounts(path, notes, r);
    }
  }

  lemma {:induction false} NotesAtHome(path: seq<Receipt>, notes: seq<Receipt>, home: int)
    ensures forall r :: r in NotesAt(path, notes, home) ==> r in notes && Home(path, r) == home
    ensures Ascending(notes) ==> Ascending(NotesAt(path, notes, home))
  {
    if notes != [] {
      var init := notes[..|notes| - 1];
      assert notes == init + [notes[|notes| - 1]];
      NotesAtHome(path, init, home);
      assert Ascending(notes) ==> forall r :: r in init ==> r.slot <= notes[|notes| - 1].slot;
    }
  }

  lemma {:induction false} InterleavingAscends(path: seq<Receipt>, notes: seq<Receipt>, n: nat)
    requires n <= |path| && Ascending(path) && Ascending(notes)
    ensures Ascending(Interleaved(path, notes, n))
    ensures n < |path| ==> forall r :: r in Interleaved(path, notes, n) ==> r.slot <= path[n].slot
  {
    if n > 0 {
      var before := Interleaved(path, notes, n - 1);
      var here := NotesAt(path, notes, n - 1);
      InterleavingAscends(path, notes, n - 1);
      NotesAtHome(path, notes, n - 1);
      forall r | r in here
        ensures path[n - 1].slot <= r.slot && (n < |path| ==> r.slot <= path[n].slot)
      {
        HomeIsLast(path, r);
      }
      JoinAscends(before, path[n - 1], here);
    }
  }

  lemma JoinAscends(before: seq<Receipt>, r: Receipt, after: seq<Receipt>)
    requires Ascending(before) && Ascending(after)
    requires forall x :: x in before ==> x.slot <= r.slot
    requires forall x :: x in after ==> r.slot <= x.slot
    ensures Ascending(before + [r] + after)
  {
    assert forall i :: 0 <= i < |before| ==> before[i] in before;
    assert forall i :: 0 <= i < |after| ==> after[i] in after;
  }

  lemma {:induction false} SelectOfJoin(s: seq<Receipt>, t: seq<Receipt>, kind: Kind)
    ensures Select(s + t, kind) == Select(s, kind) + Select(t, kind)
  {
    if t == [] {
      assert s + t == s;
    } else {
      assert (s + t)[..|s + t| - 1] == s + t[..|t| - 1];
      SelectOfJoin(s, t[..|t| - 1], kind);
    }
  }

  lemma {:induction false} SelectNone(s: seq<Receipt>, kind: Kind)
    requires forall r :: r in s ==> r.kind != kind
    ensures Select(s, kind) == []
  {
    if s != [] {
      SelectNone(s[..|s| - 1], kind);
    }
  }

  lemma NoMoveAmongNotes(path: seq<Receipt>, notes: seq<Receipt>, home: int)
    requires forall r :: r in notes ==> r.kind == Annotation
    ensures Select(NotesAt(path, notes, home), Transition) == []
  {
    NotesAtHome(path, notes, home);
    hide NotesAt, Home, Select;
    SelectNone(NotesAt(path, notes, home), Transition);
  }

  lemma OneMoveMore(before: seq<Receipt>, move: Receipt, here: seq<Receipt>)
    requires move.kind == Transition && Select(here, Transition) == []
    ensures Select(before + [move] + here, Transition) == Select(before, Transition) + [move]
  {
    SelectOfJoin(before + [move], here, Transition);
    assert (before + [move])[..|before|] == before;
  }

  /** The transitions of the interleaving are the path again. */
  lemma {:induction false} InterleavingKeepsPath(path: seq<Receipt>, notes: seq<Receipt>, n: nat)
    requires n <= |path|
    requires forall r :: r in path ==> r.kind == Transition
    requires forall r :: r in notes ==> r.kind == Annotation
    ensures Select(Interleaved(path, notes, n), Transition) == path[..n]
  {
    if n > 0 {
      hide Select, NotesAt;
      InterleavingKeepsPath(path, notes, n - 1);
      NoMoveAmongNotes(path, notes, n - 1);
      OneMoveMore(Interleaved(path, notes, n - 1), path[n - 1], NotesAt(path, notes, n - 1));
      assert path[..n] == path[..n - 1] + [path[n - 1]];
    }
  }

  // ---- Payments ----

  function Added(a: Option<nat>, b: Option<nat>): Option<nat> {
    if a.None? then b else if b.None? then a else Some(a.value + b.value)
  }

  lemma {:induction false} PaidOutOfJoin(s: seq<Receipt>, t: seq<Receipt>, action: ReceiptAction)
    ensures PaidOut(s + t, action) == Added(PaidOut(s, action), PaidOut(t, action))
  {
    if t == [] {
      assert s + t == s;
    } else {
      assert (s + t)[..|s + t| - 1] == s + t[..|t| - 1];
      PaidOutOfJoin(s, t[..|t| - 1], action);
    }
  }

  lemma TakenOut(s: seq<Receipt>, t: seq<Receipt>) returns (front: seq<Receipt>, back: seq<Receipt>)
    requires multiset(s) == multiset(t) && s != []
    ensures t == front + [s[|s| - 1]] + back
    ensures multiset(s[..|s| - 1]) == multiset(front + back)
  {
    var r := s[|s| - 1];
    var init := s[..|s| - 1];
    assert s == init + [r];
    assert r in multiset(t);
    var i :| 0 <= i < |t| && t[i] == r;
    front, back := t[..i], t[i + 1..];
    assert t == front + [r] + back;
    SameWithout(init, front, back, r);
  }

  lemma SameWithout(init: seq<Receipt>, front: seq<Receipt>, back: seq<Receipt>, r: Receipt)
    requires multiset(init + [r]) == multiset(front + [r] + back)
    ensures multiset(init) == multiset(front + back)
  {
    assert multiset(init + [r]) == multiset(init) + multiset{r};
    assert multiset(front + [r] + back) == multiset(front) + multiset{r} + multiset(back);
    assert multiset(front + back) == multiset(front) + multiset(back);
    forall x ensures multiset(init)[x] == multiset(front + back)[x] {
      assert multiset(init + [r])[x] == multiset(front + [r] + back)[x];
    }
  }

  lemma {:induction false} PaidOutPermutes(s: seq<Receipt>, t: seq<Receipt>, action: ReceiptAction)
    requires multiset(s) == multiset(t)
    ensures PaidOut(s, action) == PaidOut(t, action)
  {
    if s == [] {
      assert |multiset(t)| == 0;
    } else {
      var front, back := TakenOut(s, t);
      var init, one := s[..|s| - 1], [s[|s| - 1]];
      assert s == init + one;
      PaidOutPermutes(init, front + back, action);
      hide PaidOut;
      PaidOutOfJoin(front, back, action);
      PaidOutOfJoin(front + one, back, action);
      PaidOutOfJoin(front, one, action);
      PaidOutOfJoin(init, one, action);
    }
  }

  lemma {:induction false} FirstWithIs(s: seq<Receipt>, action: ReceiptAction)
    ensures FirstWith(s, action).Some? <==> exists r :: r in s && r.fact.action == action
    ensures FirstWith(s, action).Some? ==>
              FirstWith(s, action).value in s && FirstWith(s, action).value.fact.action == action
  {
    if s != [] {
      assert s == s[..|s| - 1] + [s[|s| - 1]];
      FirstWithIs(s[..|s| - 1], action);
    }
  }

  // ---- Soundness ----

  /** What the collected receipts of an accepted bag look like, split and put in order. */
  ghost predicate Arranged(kept: seq<Receipt>, path: seq<Receipt>, annotations: seq<Receipt>) {
    && DistinctIds(kept) && DistinctIds(path) && DistinctIds(annotations)
    && IsHistory(path)
    && SameElements(path, Select(kept, Transition))
    && annotations == Select(kept, Annotation)
    && multiset(path) + multiset(annotations) == multiset(kept)
  }

  lemma HistoryIsDistinct(path: seq<Receipt>, s: seq<Receipt>)
    requires IsHistory(path) && SameElements(path, s) && DistinctIds(s)
    ensures DistinctIds(path) && multiset(path) == multiset(s)
  {
    forall i, j | 0 <= i < j < |path| ensures path[i].receiptId != path[j].receiptId {
      assert path[i] in s && path[j] in s && path[i] != path[j];
    }
    DistinctPermutation(path, s);
  }

  /** An accepted bag, taken apart. */
  lemma AcceptedBag(receipts: seq<Receipt>) returns (kept: seq<Receipt>, path: seq<Receipt>, annotations: seq<Receipt>)
    requires Reconstruct(receipts).Ok?
    ensures Collected(receipts).Ok? && kept == Collected(receipts).value.Values()
    ensures Arranged(kept, path, annotations)
    ensures Reconstruct(receipts) == Assemble(path, annotations)
  {
    var c := Collected(receipts).value;
    kept := c.Values();
    annotations := Select(kept, Annotation);
    var moves := Deleted(c, annotations).Values();
    path := PathOf(moves).value;
    ValuesOfCollection(c);
    SelectKeeps(kept, Annotation);
    SelectKeeps(kept, Transition);
    SelectSplits(kept);
    MovesOf(c);
    PathExactlyWhen(moves, path);
    HistoryIsDistinct(path, Select(kept, Transition));
    PathIsNeverEmpty(moves);
  }

  lemma InOrderAscends(s: seq<Receipt>)
    requires InOrder(s)
    ensures Ascending(s)
  {
  }

  lemma HistoryAscends(path: seq<Receipt>, i: nat, j: nat)
    requires IsPath(path) && i <= j < |path|
    ensures path[i].slot <= path[j].slot
  {
    if i < j {
      HistoryAscends(path, i, j - 1);
    }
  }

  /** What an assembled lifecycle says about the path it was assembled from. */
  lemma AssembledFrom(path: seq<Receipt>, annotations: seq<Receipt>)
    requires path != [] && Assemble(path, annotations).Ok?
    ensures
      var life := Assemble(path, annotations).value;
      var notes := Sorted(annotations);
      && AllPlaced(path, notes) && life.receipts == Interleaved(path, notes, |path|)
      && life.state == path[|path| - 1].fact.newState && life.lastSlot == path[|path| - 1].slot
      && life.agreement == path[0].fact.agreement && life.buyer == path[0].fact.buyer
      && life.settledAmount == PaidOut(path + annotations, SETTLEMENT_EXECUTED)
      && life.refundedAmount == PaidOut(path + annotations, REFUND_EXECUTED)
  {
    hide Sorted, AllPlaced, Interleaved, PaidOut, ProofRecords, MilestoneRecords, FirstWith;
  }

  lemma AssembledMoney(path: seq<Receipt>, annotations: seq<Receipt>)
    requires path != [] && Assemble(path, annotations).Ok?
    ensures
      var life := Assemble(path, annotations).value;
      var funded := FirstWith(path, AGREEMENT_FUNDED);
      && life.fundedAmount == (if funded.Some? then funded.value.fact.amount else None)
      && CheckMoney(funded, FirstWith(path, SETTLEMENT_EXECUTED), FirstWith(path, REFUND_EXECUTED),
                    life.settledAmount, life.refundedAmount).Pass?
  {
    hide Sorted, AllPlaced, Interleaved, PaidOut, ProofRecords, MilestoneRecords, FirstWith;
  }

  /** The list of an accepted bag, taken apart again. */
  lemma ListOfAccepted(kept: seq<Receipt>, path: seq<Receipt>, annotations: seq<Receipt>)
    requires Arranged(kept, path, annotations) && AllPlaced(path, Sorted(annotations))
    ensures
      var list := Interleaved(path, Sorted(annotations), |path|);
      && Select(list, Transition) == path
      && multiset(list) == multiset(path + annotations) && multiset(list) == multiset(kept)
      && Ascending(list)
  {
    hide Sorted, AllPlaced, Interleaved, IsRoot, OneAgreement;
    var notes := Sorted(annotations);
    SelectKeeps(kept, Annotation);
    SelectKeeps(kept, Transition);
    SortedPermutes(annotations);
    SortedIsInOrder(annotations);
    InOrderAscends(notes);
    forall i, j | 0 <= i < j < |path| ensures path[i].slot <= path[j].slot {
      HistoryAscends(path, i, j);
    }
    InterleavingPermutes(path, notes);
    InterleavingAscends(path, notes, |path|);
    InterleavingKeepsPath(path, notes, |path|);
    assert path[..|path|] == path;
  }

  /**
   Every accepted bag is listed as a permutation of its deduplicated receipts,
   in slot order, and the transitions in the list are one simple path from the
   creation receipt to the reported state.
   */
  lemma ReconstructionIsSound(receipts: seq<Receipt>)
    requires Reconstruct(receipts).Ok?
    ensures Collected(receipts).Ok?
    ensures
      var life := Reconstruct(receipts).value;
      var path := Select(life.receipts, Transition);
      && multiset(life.receipts) == multiset(Collected(receipts).value.Values())
      && Ascending(life.receipts)
      && IsHistory(path)
      && life.state == path[|path| - 1].fact.newState && life.lastSlot == path[|path| - 1].slot
      && life.agreement == path[0].fact.agreement && life.buyer == path[0].fact.buyer
  {
    var kept, path, annotations := AcceptedBag(receipts);
    hide Reconstruct, Assemble, Collected, AllPlaced;
    AssembledFrom(path, annotations);
    ListOfAccepted(kept, path, annotations);
  }

  /** The delivered receipts that count: the last one of each id. */
  lemma KeptAre(receipts: seq<Receipt>)
    requires Collected(receipts).Ok?
    ensures
      forall r :: r in Collected(receipts).value.Values() <==> exists i :: LastOfId(receipts, i) && receipts[i] == r
  {
    var c := Collected(receipts).value;
    CollectedExactlyWhen(receipts);
    ValuesOfCollection(c);
    forall r | r in c.Values() ensures exists i :: LastOfId(receipts, i) && receipts[i] == r {
      var i := SomeIsLastOfId(receipts, r);
    }
  }

  /** A transition of this kind counts. */
  ghost predicate Moves(receipts: seq<Receipt>, action: ReceiptAction) {
    exists i :: LastOfId(receipts, i) && receipts[i].kind == Transition && receipts[i].fact.action == action
  }

  /** No refund that counts moved anything. */
  ghost predicate RefundsNothing(receipts: seq<Receipt>) {
    forall i :: LastOfId(receipts, i) && receipts[i].fact.action == REFUND_EXECUTED ==>
        OrZero(receipts[i].fact.amount) == 0
  }

  lemma {:induction false} NothingPaidExactlyWhen(s: seq<Receipt>, action: ReceiptAction)
    ensures OrZero(PaidOut(s, action)) == 0 <==>
            forall r :: r in s && r.fact.action == action ==> OrZero(r.fact.amount) == 0
  {
    if s != [] {
      assert s == s[..|s| - 1] + [s[|s| - 1]];
      NothingPaidExactlyWhen(s[..|s| - 1], action);
    }
  }

  lemma MovesOnPath(receipts: seq<Receipt>, kept: seq<Receipt>, path: seq<Receipt>, action: ReceiptAction)
    requires Collected(receipts).Ok? && kept == Collected(receipts).value.Values()
    requires SameElements(path, Select(kept, Transition))
    ensures Moves(receipts, action) <==> FirstWith(path, action).Some?
  {
    KeptAre(receipts);
    SelectKeeps(kept, Transition);
    FirstWithIs(path, action);
    hide Collected, Select, FirstWith, LastOfId;
    if Moves(receipts, action) {
      var i :| LastOfId(receipts, i) && receipts[i].kind == Transition && receipts[i].fact.action == action;
      assert receipts[i] in kept;
      assert receipts[i] in path;
    }
    if r :| r in path && r.fact.action == action {
      assert r in kept;
    }
  }

  lemma RefundsOnList(receipts: seq<Receipt>, kept: seq<Receipt>, list: seq<Receipt>)
    requires Collected(receipts).Ok? && kept == Collected(receipts).value.Values() && multiset(list) == multiset(kept)
    ensures OrZero(PaidOut(list, REFUND_EXECUTED)) == 0 <==> RefundsNothing(receipts)
  {
    KeptAre(receipts);
    SameElementsOfPermutation(list, kept);
    NothingPaidExactlyWhen(list, REFUND_EXECUTED);
    hide Collected, PaidOut, LastOfId;
  }

  /**
   How the payments of an accepted bag relate to its funding. A history that ends
   by a refund has returned and paid exactly what was funded. One that ends by a
   settlement has settled exactly what was funded, so its payments add up exactly
   when no delivered refund that counts moved anything.
   */
  lemma PaymentsAddUp(receipts: seq<Receipt>)
    requires Reconstruct(receipts).Ok?
    ensures
      var life := Reconstruct(receipts).value;
      var settles, refunds := Moves(receipts, SETTLEMENT_EXECUTED), Moves(receipts, REFUND_EXECUTED);
      var paid := OrZero(life.settledAmount) + OrZero(life.refundedAmount);
      && !(settles && refunds)
      && (life.settledAmount.Some? || life.refundedAmount.Some? ==> Moves(receipts, AGREEMENT_FUNDED))
      && (settles || refunds ==> life.fundedAmount.Some?)
      && (refunds ==> paid == life.fundedAmount.value)
      && (settles ==> life.settledAmount == life.fundedAmount)
      && (settles ==> (paid == life.fundedAmount.value <==> RefundsNothing(receipts)))
      && life.settledAmount == PaidOut(life.receipts, SETTLEMENT_EXECUTED)
      && life.refundedAmount == PaidOut(life.receipts, REFUND_EXECUTED)
  {
    var kept, path, annotations := AcceptedBag(receipts);
    var life := Reconstruct(receipts).value;
    hide Reconstruct, Assemble, Collected, AllPlaced, PaidOut, FirstWith, IsHistory, Moves, RefundsNothing, Select;
    AssembledFrom(path, annotations);
    AssembledMoney(path, annotations);
    ListOfAccepted(kept, path, annotations);
    MovesOnPath(receipts, kept, path, SETTLEMENT_EXECUTED);
    MovesOnPath(receipts, kept, path, REFUND_EXECUTED);
    MovesOnPath(receipts, kept, path, AGREEMENT_FUNDED);
    PaidOutPermutes(path + annotations, life.receipts, SETTLEMENT_EXECUTED);
    PaidOutPermutes(path + annotations, life.receipts, REFUND_EXECUTED);
    PaymentIsPaid(path, annotations, SETTLEMENT_EXECUTED);
    PaymentIsPaid(path, annotations, REFUND_EXECUTED);
    RefundsOnList(receipts, kept, life.receipts);
  }

  lemma {:induction false} PaidOutExactlyWhen(s: seq<Receipt>, action: ReceiptAction)
    ensures PaidOut(s, action).Some? <==> exists r :: r in s && r.fact.action == action
  {
    if s != [] {
      assert s == s[..|s| - 1] + [s[|s| - 1]];
      PaidOutExactlyWhen(s[..|s| - 1], action);
    }
  }

  lemma PaymentIsPaid(path: seq<Receipt>, annotations: seq<Receipt>, action: ReceiptAction)
    ensures FirstWith(path, action).Some? ==> PaidOut(path + annotations, action).Some?
  {
    FirstWithIs(path, action);
    PaidOutExactlyWhen(path + annotations, action);
  }

  // ---- Order independence ----

  lemma PathDependsOnElements(moves: seq<Receipt>, again: seq<Receipt>)
    requires DistinctIds(moves) && DistinctIds(again) && SameElements(moves, again)
    ensures PathOf(moves) == PathOf(again)
  {
    RootsAre(moves);
    RootsAre(again);
    assert SameElements(Roots(moves), Roots(again));
    DistinctPermutation(Roots(moves), Roots(again));
    ExitsExactlyWhen(moves);
    ExitsExactlyWhen(again);
    if OneAgreement(moves) {
      AgreementDependsOnElements(moves, again);
    } else {
      AgreementDependsOnElements(again, moves);
    }
    if |Roots(moves)| == 1 {
      assert Roots(again)[0] in Roots(moves);
      if ExitsOf(moves).Ok? {
        SameExits(moves, again, ExitsOf(moves).value, ExitsOf(again).value);
      } else {
        ForkIsTheOnlyFault(moves);
        ForkIsTheOnlyFault(again);
      }
    }
  }

  lemma AgreementDependsOnElements(moves: seq<Receipt>, again: seq<Receipt>)
    requires SameElements(moves, again)
    ensures OneAgreement(moves) ==> OneAgreement(again)
  {
    if again != [] {
      assert again[0] in moves;
    }
  }

  lemma SameExits(moves: seq<Receipt>, again: seq<Receipt>, exits: Exits, exits': Exits)
    requires SameElements(moves, again) && AreExits(exits, moves) && AreExits(exits', again)
    ensures exits == exits'
  {
    forall s | s in exits ensures s in exits' && exits'[s] == exits[s] {
      assert exits[s] in again;
    }
    forall s | s in exits' ensures s in exits {
      assert exits'[s] in moves;
    }
  }

  lemma {:induction false} ForkIsTheOnlyFault(moves: seq<Receipt>)
    ensures ExitsOf(moves).Err? ==> ExitsOf(moves) == Err(Forked)
  {
    if moves != [] {
      ForkIsTheOnlyFault(moves[..|moves| - 1]);
    }
  }

  /** Nothing of a bag shows in the answer but the receipt it keeps for each id. */
  lemma OnlyTheKeptMatter(receipts: seq<Receipt>, again: seq<Receipt>)
    requires SameContents(Collected(receipts), Collected(again))
    ensures Reconstruct(receipts) == Reconstruct(again)
  {
    CollectedExactlyWhen(receipts);
    CollectedExactlyWhen(again);
    assert receipts != [] ==> receipts[0] in receipts;
    assert again != [] ==> again[0] in again;
    if Collected(receipts).Ok? {
      ValuesOfCollection(Collected(receipts).value);
      ValuesOfCollection(Collected(again).value);
      SameSetSameAnswer(Collected(receipts).value, Collected(again).value);
    }
  }

  /** All of that does show: accepted bags with the same answer keep the same receipts. */
  lemma SameAnswerSameKept(receipts: seq<Receipt>, again: seq<Receipt>)
    requires Reconstruct(receipts).Ok? && Reconstruct(receipts) == Reconstruct(again)
    ensures SameContents(Collected(receipts), Collected(again))
  {
    ReconstructionIsSound(receipts);
    ReconstructionIsSound(again);
    var c, d := Collected(receipts).value, Collected(again).value;
    hide Reconstruct, Collected;
    SameElementsOfPermutation(c.Values(), d.Values());
    ValuesOfCollection(c);
    ValuesOfCollection(d);
    forall id | id in c.at ensures id in d.at && d.at[id] == c.at[id] {
      assert c.at[id] in c.Values();
    }
    forall id | id in d.at ensures id in c.at {
      assert d.at[id] in d.Values();
    }
  }

  /**
   Neither the order of a bag nor its repetitions show in the answer when equal
   ids mean equal receipts: the same lifecycle in the same list order, or the same
   refusal.
   */
  lemma OnlyTheSetMatters(receipts: seq<Receipt>, again: seq<Receipt>)
    requires OneReceiptPerId(receipts) && SameElements(receipts, again)
    ensures Reconstruct(receipts) == Reconstruct(again)
  {
    SameKept(receipts, again);
    OnlyTheKeptMatter(receipts, again);
  }

  /**
   For an accepted bag that condition is exact: with two contents under one id, some
   reordering is answered differently.
   */
  lemma AnswerIsOrderlessExactlyWhen(receipts: seq<Receipt>)
    requires Reconstruct(receipts).Ok?
    ensures
      var orderless := forall t :: multiset(t) == multiset(receipts) ==> Reconstruct(t) == Reconstruct(receipts);
      orderless <==> OneReceiptPerId(receipts)
  {
    hide Reconstruct, OneReceiptPerId, SameContents, SameActions;
    CollectionIsOrderlessExactlyWhen(receipts);
    AcceptedMeansCollected(receipts);
    if OneReceiptPerId(receipts) {
      forall t | multiset(t) == multiset(receipts) ensures Reconstruct(t) == Reconstruct(receipts) {
        SameElementsOfPermutation(receipts, t);
        OnlyTheSetMatters(receipts, t);
      }
    } else {
      var t :| multiset(t) == multiset(receipts) && !SameContents(Collected(receipts), Collected(t));
      if Reconstruct(t) == Reconstruct(receipts) {
        SameAnswerSameKept(receipts, t);
      }
    }
  }

  lemma AcceptedMeansCollected(receipts: seq<Receipt>)
    requires Reconstruct(receipts).Ok?
    ensures Collected(receipts).Ok? && SameActions(receipts)
  {
    CollectedExactlyWhen(receipts);
  }

  lemma SameSetSameAnswer(c: Collection, d: Collection)
    requires c.Valid() && forall id :: id in c.at ==> c.at[id].receiptId == id
    requires d.Valid() && forall id :: id in d.at ==> d.at[id].receiptId == id
    requires SameElements(c.Values(), d.Values())
    ensures
      var notes, notes' := Select(c.Values(), Annotation), Select(d.Values(), Annotation);
      var path, path' := PathOf(Deleted(c, notes).Values()), PathOf(Deleted(d, notes').Values());
      && path == path'
      && (path.Ok? ==> path.value != [] && Assemble(path.value, notes) == Assemble(path.value, notes'))
  {
    var notes, notes' := Select(c.Values(), Annotation), Select(d.Values(), Annotation);
    var moves, moves' := Deleted(c, notes).Values(), Deleted(d, notes').Values();
    ValuesOfCollection(c);
    ValuesOfCollection(d);
    SelectKeeps(c.Values(), Annotation);
    SelectKeeps(d.Values(), Annotation);
    SelectKeeps(c.Values(), Transition);
    SelectKeeps(d.Values(), Transition);
    MovesOf(c);
    MovesOf(d);
    PathDependsOnElements(moves, moves');
    PathIsNeverEmpty(moves);
    if PathOf(moves).Ok? {
      AssemblyDependsOnElements(PathOf(moves).value, notes, notes');
    }
  }

  lemma AssemblyDependsOnElements(path: seq<Receipt>, annotations: seq<Receipt>, again: seq<Receipt>)
    requires path != [] && DistinctIds(annotations) && DistinctIds(again) && SameElements(annotations, again)
    ensures Assemble(path, annotations) == Assemble(path, again)
  {
    SortedDependsOnElements(annotations, again);
    DistinctPermutation(annotations, again);
    assert multiset(path + annotations) == multiset(path + again);
    PaidOutPermutes(path + annotations, path + again, SETTLEMENT_EXECUTED);
    PaidOutPermutes(path + annotations, path + again, REFUND_EXECUTED);
  }
}
