/** What the reconstruction means: which receipts it keeps, which paths it accepts, and in what order it lists them. */
module Histories {
  import opened Wrappers
  import opened Receipts
  import opened Sequences
  import opened ReceiptOrder
  import opened Reconstruction

  // ---- Deduplication ----

  ghost predicate SameActions(receipts: seq<Receipt>) {
    forall r, s :: r in receipts && s in receipts && r.receiptId == s.receiptId ==> r.fact.action == s.fact.action
  }

  /** Equal ids mean equal receipts. */
  ghost predicate OneReceiptPerId(receipts: seq<Receipt>) {
    forall r, s :: r in receipts && s in receipts && r.receiptId == s.receiptId ==> r == s
  }

  predicate FirstOfId(receipts: seq<Receipt>, i: int) {
    0 <= i < |receipts| && forall j :: 0 <= j < i ==> receipts[j].receiptId != receipts[i].receiptId
  }

  predicate LastOfId(receipts: seq<Receipt>, i: int) {
    0 <= i < |receipts| && forall j :: i < j < |receipts| ==> receipts[j].receiptId != receipts[i].receiptId
  }

  /** The collection holds receipts of the bag only, and for every id of the bag the last one that came. */
  ghost predicate Collects(c: Collection, receipts: seq<Receipt>) {
    && (forall i :: LastOfId(receipts, i) ==>
          receipts[i].receiptId in c.at && c.at[receipts[i].receiptId] == receipts[i])
    && (forall id :: id in c.at ==> c.at[id] in receipts && c.at[id].receiptId == id)
    && (forall r :: r in receipts ==> r.receiptId in c.at)
  }

  /** A bag is refused for a replay exactly when one of its ids comes with two actions. */
  lemma {:induction false} CollectedExactlyWhen(receipts: seq<Receipt>)
    ensures Collected(receipts).Ok? <==> SameActions(receipts)
    ensures Collected(receipts).Ok? ==> Collects(Collected(receipts).value, receipts)
  {
    if receipts != [] {
      var init := receipts[..|receipts| - 1];
      var last := receipts[|receipts| - 1];
      CollectedExactlyWhen(init);
      assert receipts == init + [last];
      if Collected(init).Ok? {
        CollectOne(Collected(init).value, init, last);
      } else {
        assert !SameActions(receipts);
      }
    }
  }

  lemma CollectOne(c: Collection, init: seq<Receipt>, last: Receipt)
    requires c.Valid() && Collects(c, init) && SameActions(init)
    ensures
      var clash := last.receiptId in c.at && c.at[last.receiptId].fact.action != last.fact.action;
      clash <==> !SameActions(init + [last])
    ensures Collects(c.Put(last.receiptId, last), init + [last])
  {
    CollectsMore(c, init, last);
    hide Collects;
    var receipts := init + [last];
    if last.receiptId in c.at {
      HeldIsFromTheBag(c, init, last.receiptId);
      assert c.at[last.receiptId] in receipts && last in receipts;
    }
    forall r | r in init && r.receiptId == last.receiptId
      ensures last.receiptId in c.at && r.fact.action == c.at[last.receiptId].fact.action
    {
      OneOfIdIsHeld(c, init, r);
    }
  }

  lemma HeldIsFromTheBag(c: Collection, receipts: seq<Receipt>, id: string)
    requires Collects(c, receipts) && id in c.at
    ensures c.at[id] in receipts && c.at[id].receiptId == id
  {
  }

  lemma OneOfIdIsHeld(c: Collection, receipts: seq<Receipt>, r: Receipt)
    requires Collects(c, receipts) && SameActions(receipts) && r in receipts
    ensures r.receiptId in c.at && c.at[r.receiptId].fact.action == r.fact.action
  {
    HeldIsFromTheBag(c, receipts, r.receiptId);
  }

  lemma CollectsMore(c: Collection, init: seq<Receipt>, last: Receipt)
    requires c.Valid() && Collects(c, init)
    ensures Collects(c.Put(last.receiptId, last), init + [last])
  {
    var receipts := init + [last];
    forall i | LastOfId(receipts, i) && i < |init|
      ensures LastOfId(init, i) && receipts[i].receiptId != last.receiptId
    {
      assert receipts[|init|] == last;
      assert forall j :: i < j < |init| ==> receipts[j] == init[j];
    }
  }

  lemma {:induction false} SomeIsLastOfId(receipts: seq<Receipt>, r: Receipt) returns (i: int)
    requires r in receipts
    ensures LastOfId(receipts, i) && receipts[i].receiptId == r.receiptId
  {
    var init, last := receipts[..|receipts| - 1], receipts[|receipts| - 1];
    if last.receiptId == r.receiptId {
      i := |receipts| - 1;
    } else {
      assert receipts == init + [last];
      i := SomeIsLastOfId(init, r);
    }
  }

  /** Both collections kept, and neither refused: the same receipt for each id. */
  predicate SameContents<E(==)>(a: Result<Collection, E>, b: Result<Collection, E>) {
    if a.Ok? && b.Ok? then a.value.at == b.value.at else a == b
  }

  /** Whatever the order and repetition, only the receipts kept for each id can differ. */
  lemma SameKept(receipts: seq<Receipt>, again: seq<Receipt>)
    requires OneReceiptPerId(receipts) && SameElements(receipts, again)
    ensures SameContents(Collected(receipts), Collected(again))
  {
    CollectedExactlyWhen(receipts);
    CollectedExactlyWhen(again);
    var c, d := Collected(receipts).value, Collected(again).value;
    forall id | id in c.at ensures id in d.at && d.at[id] == c.at[id] {
      assert c.at[id] in again;
    }
    forall id | id in d.at ensures id in c.at {
      assert d.at[id] in receipts;
    }
  }

  /** A reordering of a bag: any receipt of it may be the one that comes last. */
  function LastMoved(receipts: seq<Receipt>, i: nat): (moved: seq<Receipt>)
    requires i < |receipts|
    ensures multiset(moved) == multiset(receipts)
  {
    assert receipts == receipts[..i] + [receipts[i]] + receipts[i + 1..];
    receipts[..i] + receipts[i + 1..] + [receipts[i]]
  }

  /**
   Exactly when the order of a bag does not show in what is kept of it: when equal
   ids mean equal receipts, or when the bag is refused in every order.
   */
  lemma CollectionIsOrderlessExactlyWhen(receipts: seq<Receipt>)
    ensures
      var orderless := forall t :: multiset(t) == multiset(receipts) ==>
                                     SameContents(Collected(receipts), Collected(t));
      orderless <==> OneReceiptPerId(receipts) || !SameActions(receipts)
  {
    CollectedExactlyWhen(receipts);
    if OneReceiptPerId(receipts) || !SameActions(receipts) {
      forall t | multiset(t) == multiset(receipts) ensures SameContents(Collected(receipts), Collected(t)) {
        SameElementsOfPermutation(receipts, t);
        CollectedExactlyWhen(t);
        OnlyReplays(receipts);
        OnlyReplays(t);
        if OneReceiptPerId(receipts) {
          SameKept(receipts, t);
        }
      }
    } else {
      var r, s :| r in receipts && s in receipts && r.receiptId == s.receiptId && r != s;
      var kept := Collected(receipts).value.at[r.receiptId];
      var other := if kept == r then s else r;
      var i :| 0 <= i < |receipts| && receipts[i] == other;
      var t := LastMoved(receipts, i);
      assert LastOfId(t, |t| - 1) && t[|t| - 1] == other;
      CollectedExactlyWhen(t);
      assert !SameContents(Collected(receipts), Collected(t));
    }
  }

  lemma SameElementsOfPermutation(s: seq<Receipt>, t: seq<Receipt>)
    requires multiset(s) == multiset(t)
    ensures SameElements(s, t)
  {
    assert forall x :: x in s <==> x in multiset(s);
    assert forall x :: x in t <==> x in multiset(t);
  }

  lemma {:induction false} OnlyReplays(s: seq<Receipt>)
    ensures Collected(s).Err? ==> Collected(s).error == ReplayedAction
  {
    if s != [] {
      OnlyReplays(s[..|s| - 1]);
    }
  }

  lemma ValuesOfCollection(c: Collection)
    requires c.Valid() && forall id :: id in c.at ==> c.at[id].receiptId == id
    ensures DistinctIds(c.Values())
    ensures forall r: Receipt :: r in c.Values() <==> r.receiptId in c.at && c.at[r.receiptId] == r
  {
    var s := c.Values();
    forall r: Receipt | r.receiptId in c.at && c.at[r.receiptId] == r ensures r in s {
      var i :| 0 <= i < |c.keys| && c.keys[i] == r.receiptId;
      assert s[i] == r;
    }
    forall r | r in s ensures r.receiptId in c.at && c.at[r.receiptId] == r {
      var i :| 0 <= i < |s| && s[i] == r;
      assert c.keys[i] in c.keys;
    }
    forall i, j | 0 <= i < j < |s| ensures s[i].receiptId != s[j].receiptId {
      assert c.keys[i] in c.keys && c.keys[j] in c.keys;
    }
  }

  /** When equal ids mean equal receipts, collecting only removes repetitions. */
  lemma CollectedKeepsAll(receipts: seq<Receipt>)
    requires OneReceiptPerId(receipts)
    ensures Collected(receipts).Ok?
    ensures SameElements(Collected(receipts).value.Values(), receipts)
  {
    CollectedExactlyWhen(receipts);
    ValuesOfCollection(Collected(receipts).value);
  }

  lemma {:induction false} SelectKeeps(s: seq<Receipt>, kind: Kind)
    ensures forall r :: r in Select(s, kind) <==> r in s && r.kind == kind
    ensures DistinctIds(s) ==> DistinctIds(Select(s, kind))
  {
    if s != [] {
      assert s == s[..|s| - 1] + [s[|s| - 1]];
      SelectKeeps(s[..|s| - 1], kind);
      assert DistinctIds(s) ==> forall r :: r in s[..|s| - 1] ==> r.receiptId != s[|s| - 1].receiptId;
    }
  }

  lemma {:induction false} SelectSplits(s: seq<Receipt>)
    ensures multiset(s) == multiset(Select(s, Transition)) + multiset(Select(s, Annotation))
  {
    if s != [] {
      assert s == s[..|s| - 1] + [s[|s| - 1]];
      SelectSplits(s[..|s| - 1]);
    }
  }

  lemma {:induction false} DeletedLeaves(c: Collection, gone: seq<Receipt>)
    requires c.Valid()
    ensures forall id :: id in Deleted(c, gone).at <==>
                         id in c.at && !(exists r :: r in gone && r.receiptId == id)
    ensures forall id :: id in Deleted(c, gone).at ==> Deleted(c, gone).at[id] == c.at[id]
  {
    if gone != [] {
      DeletedLeaves(c, gone[..|gone| - 1]);
      assert gone == gone[..|gone| - 1] + [gone[|gone| - 1]];
    }
  }

  /** Deleting the annotations leaves the transitions. */
  lemma MovesOf(c: Collection)
    requires c.Valid() && forall id :: id in c.at ==> c.at[id].receiptId == id
    ensures
      var moves := Deleted(c, Select(c.Values(), Annotation)).Values();
      && DistinctIds(moves)
      && SameElements(moves, Select(c.Values(), Transition))
  {
    var notes := Select(c.Values(), Annotation);
    SelectKeeps(c.Values(), Annotation);
    SelectKeeps(c.Values(), Transition);
    ValuesOfCollection(c);
    DeletedLeaves(c, notes);
    ValuesOfCollection(Deleted(c, notes));
  }

  // ---- Paths ----

  /** A simple path from creation on, never going back in slots. */
  ghost predicate IsPath(path: seq<Receipt>) {
    && path != [] && IsRoot(path[0])
    && (forall i :: 0 < i < |path| ==> path[i].fact.previousState == Some(path[i - 1].fact.newState))
    && (forall i :: 0 < i < |path| ==> path[i - 1].slot <= path[i].slot)
    && (forall i, j :: 0 <= i < j < |path| ==> path[i].fact.newState != path[j].fact.newState)
  }

  /** The path of one agreement. */
  ghost predicate IsHistory(path: seq<Receipt>) {
    IsPath(path) && OneAgreement(path)
  }

  lemma {:induction false} RootsAre(moves: seq<Receipt>)
    ensures forall r :: r in Roots(moves) <==> r in moves && IsRoot(r)
    ensures DistinctIds(moves) ==> DistinctIds(Roots(moves))
  {
    if moves != [] {
      assert moves == moves[..|moves| - 1] + [moves[|moves| - 1]];
      RootsAre(moves[..|moves| - 1]);
      assert DistinctIds(moves) ==>
          forall r :: r in moves[..|moves| - 1] ==> r.receiptId != moves[|moves| - 1].receiptId;
    }
  }

  ghost predicate NoFork(moves: seq<Receipt>) {
    forall r, s :: r in moves && s in moves && !IsRoot(r) && r.fact.previousState == s.fact.previousState ==> r == s
  }

  ghost predicate AreExits(exits: Exits, moves: seq<Receipt>) {
    && (forall r :: r in moves && !IsRoot(r) ==>
          r.fact.previousState.value in exits && exits[r.fact.previousState.value] == r)
    && (forall s :: s in exits ==>
          exits[s] in moves && exits[s].fact.previousState == Some(s))
  }

  lemma {:induction false} ExitsExactlyWhen(moves: seq<Receipt>)
    requires DistinctIds(moves)
    ensures ExitsOf(moves).Ok? <==> NoFork(moves)
    ensures ExitsOf(moves).Ok? ==> AreExits(ExitsOf(moves).value, moves)
  {
    if moves != [] {
      var init := moves[..|moves| - 1];
      var last := moves[|moves| - 1];
      assert moves == init + [last];
      ExitsExactlyWhen(init);
      assert forall r :: r in init ==> r.receiptId != last.receiptId;
      if ExitsOf(init).Ok? {
        OneMoreExit(ExitsOf(init).value, init, last);
      } else {
        assert forall r :: r in init ==> r in moves;
        assert !NoFork(moves);
      }
    }
  }

  lemma OneMoreExit(exits: Exits, init: seq<Receipt>, last: Receipt)
    requires AreExits(exits, init) && NoFork(init)
    requires forall r :: r in init ==> r.receiptId != last.receiptId
    ensures IsRoot(last) ==> NoFork(init + [last]) && AreExits(exits, init + [last])
    ensures !IsRoot(last) && last.fact.previousState.value !in exits ==>
              NoFork(init + [last]) && AreExits(exits[last.fact.previousState.value := last], init + [last])
    ensures !IsRoot(last) && last.fact.previousState.value in exits ==>
              !NoFork(init + [last]) && exits[last.fact.previousState.value].receiptId != last.receiptId
  {
    var moves := init + [last];
    assert last in moves;
    if !IsRoot(last) && last.fact.previousState.value in exits {
      assert exits[last.fact.previousState.value] in moves;
    }
  }

  // ---- Following the exits ----

  lemma ExitsWithout(exits: Exits, last: Receipt)
    requires last.fact.newState in exits
    ensures
      var state := last.fact.newState;
      forall r :: r in exits.Values <==> r == exits[state] || r in (exits - {state}).Values
  {
    var state := last.fact.newState;
    var rest := exits - {state};
    forall r | r in exits.Values ensures r == exits[state] || r in rest.Values {
      var s :| s in exits && exits[s] == r;
      assert s != state ==> rest[s] == r;
    }
  }

  lemma {:induction false} WalkIsSound(exits: Exits, path: seq<Receipt>)
    requires IsPath(path) && Walk(exits, path).Ok?
    requires forall s :: s in exits ==> exits[s].fact.previousState == Some(s)
    ensures
      var full := Walk(exits, path).value;
      path <= full && IsPath(full) && forall r :: r in full <==> r in path || r in exits.Values
    decreases exits.Keys
  {
    assert path != [];
    hide IsPath, StatesOn;
    var state := path[|path| - 1].fact.newState;
    if state in exits {
      var next, rest := exits[state], exits - {state};
      ExtendPath(path, next);
      WalkIsSound(rest, path + [next]);
      ExitsWithout(exits, path[|path| - 1]);
    }
  }

  lemma ExtendPath(path: seq<Receipt>, next: Receipt)
    requires IsPath(path) && next.fact.previousState == Some(path[|path| - 1].fact.newState)
    requires path[|path| - 1].slot <= next.slot && next.fact.newState !in StatesOn(path)
    ensures IsPath(path + [next])
  {
    forall i | 0 <= i < |path| ensures path[i].fact.newState != next.fact.newState {
      assert path[i] in path;
    }
    hide StatesOn;
    var longer := path + [next];
    forall i | 0 < i < |longer|
      ensures longer[i].fact.previousState == Some(longer[i - 1].fact.newState) && longer[i - 1].slot <= longer[i].slot
    {
      assert longer[i - 1] == path[i - 1];
    }
    forall i, j | 0 <= i < j < |longer| ensures longer[i].fact.newState != longer[j].fact.newState {
      assert longer[i] == path[i];
    }
  }

  /** The exits that remain after the first k receipts of a history. */
  ghost predicate ExitsFrom(exits: Exits, full: seq<Receipt>, k: nat) {
    && (forall i :: 0 < i < |full| && k <= i ==>
          full[i].fact.previousState.Some? && full[i].fact.previousState.value in exits
          && exits[full[i].fact.previousState.value] == full[i])
    && (forall s :: s in exits ==> exists i :: 0 < i < |full| && k <= i && full[i].fact.previousState == Some(s))
  }

  lemma NextOnPath(exits: Exits, full: seq<Receipt>, k: nat)
    requires IsPath(full) && 0 < k < |full| && ExitsFrom(exits, full, k)
    ensures
      var last, next := full[k - 1], full[k];
      && last.fact.newState in exits && exits[last.fact.newState] == next
      && last.slot <= next.slot && next.fact.newState !in StatesOn(full[..k])
      && next.fact.previousState == Some(last.fact.newState)
  {
  }

  lemma OneExitFewer(exits: Exits, full: seq<Receipt>, k: nat)
    requires IsPath(full) && 0 < k < |full| && ExitsFrom(exits, full, k)
    ensures ExitsFrom(exits - {full[k - 1].fact.newState}, full, k + 1)
  {
    var rest := exits - {full[k - 1].fact.newState};
    forall i | 0 < i < |full| && k + 1 <= i
      ensures full[i].fact.previousState.Some? && full[i].fact.previousState.value in rest
      ensures rest[full[i].fact.previousState.value] == full[i]
    {
      assert full[i].fact.previousState == Some(full[i - 1].fact.newState);
      assert full[i - 1].fact.newState != full[k - 1].fact.newState;
    }
    forall s | s in rest ensures exists i :: 0 < i < |full| && k + 1 <= i && full[i].fact.previousState == Some(s) {
      var i :| 0 < i < |full| && k <= i && full[i].fact.previousState == Some(s);
      assert full[k].fact.previousState == Some(full[k - 1].fact.newState);
    }
  }

  lemma {:induction false} WalkIsComplete(exits: Exits, full: seq<Receipt>, k: nat)
    requires IsPath(full) && 0 < k <= |full| && ExitsFrom(exits, full, k)
    ensures Walk(exits, full[..k]) == Ok(full)
    decreases |full| - k
  {
    if k == |full| {
      assert full[..k] == full;
      assert exits == map[];
    } else {
      hide IsPath, ExitsFrom, StatesOn;
      NextOnPath(exits, full, k);
      OneExitFewer(exits, full, k);
      assert full[..k] + [full[k]] == full[..k + 1];
      WalkIsComplete(exits - {full[k - 1].fact.newState}, full, k + 1);
    }
  }

  /**
   The transitions are accepted exactly when some arrangement of them is one
   simple path from creation, and that arrangement is what comes out: there is
   no second one.
   */
  lemma PathExactlyWhen(moves: seq<Receipt>, path: seq<Receipt>)
    requires DistinctIds(moves)
    ensures PathOf(moves) == Ok(path) <==> IsHistory(path) && SameElements(path, moves)
  {
    if PathOf(moves) == Ok(path) {
      AcceptedPathIsHistory(moves, path);
    }
    if IsHistory(path) && SameElements(path, moves) {
      HistoryIsAccepted(moves, path);
    }
  }

  lemma AcceptedPathIsHistory(moves: seq<Receipt>, path: seq<Receipt>)
    requires DistinctIds(moves) && PathOf(moves) == Ok(path)
    ensures IsHistory(path) && SameElements(path, moves)
  {
    var root := Roots(moves)[0];
    var exits := ExitsOf(moves).value;
    RootsAre(moves);
    ExitsExactlyWhen(moves);
    assert root in Roots(moves);
    WalkIsSound(exits, [root]);
    ExitsAndRootAreAll(moves, exits, root, path);
    assert path[0] in path;
  }

  lemma ExitsAndRootAreAll(moves: seq<Receipt>, exits: Exits, root: Receipt, path: seq<Receipt>)
    requires AreExits(exits, moves) && Roots(moves) == [root]
    requires forall r :: r in path <==> r in [root] || r in exits.Values
    ensures SameElements(path, moves)
  {
    RootsAre(moves);
    assert root in Roots(moves);
    forall r | r in path ensures r in moves {
      if r != root {
        assert r in exits.Values;
      }
    }
    forall r | r in moves ensures r in path {
      if IsRoot(r) {
        assert r in Roots(moves);
      } else {
        assert exits[r.fact.previousState.value] == r;
        assert r in exits.Values;
      }
    }
  }

  /** A simple path begins once. */
  lemma OneRoot(moves: seq<Receipt>, path: seq<Receipt>)
    requires DistinctIds(moves) && IsPath(path) && SameElements(path, moves)
    ensures Roots(moves) == [path[0]]
  {
    RootsAre(moves);
    assert path[0] in moves;
    forall i | 0 < i < |path| ensures !IsRoot(path[i]) {
      assert path[i].fact.previousState == Some(path[i - 1].fact.newState);
    }
    forall r | r in moves && IsRoot(r) ensures r == path[0] {
      assert r in path;
    }
    OnlyRoot(Roots(moves), path[0]);
  }

  /** And it leaves each state once. */
  lemma OneExitEach(moves: seq<Receipt>, path: seq<Receipt>)
    requires IsPath(path) && SameElements(path, moves)
    ensures NoFork(moves)
  {
    forall r, s | r in moves && s in moves && !IsRoot(r) && r.fact.previousState == s.fact.previousState
      ensures r == s
    {
      var i :| 0 <= i < |path| && path[i] == r;
      var j :| 0 <= j < |path| && path[j] == s;
      assert path[i - 1].fact.newState == path[j - 1].fact.newState;
    }
  }

  lemma ExitsFollowPath(exits: Exits, moves: seq<Receipt>, path: seq<Receipt>)
    requires IsPath(path) && SameElements(path, moves) && AreExits(exits, moves)
    ensures ExitsFrom(exits, path, 1)
  {
    forall i | 0 < i < |path|
      ensures path[i].fact.previousState.Some? && path[i].fact.previousState.value in exits
      ensures exits[path[i].fact.previousState.value] == path[i]
    {
      assert path[i].fact.previousState == Some(path[i - 1].fact.newState);
      assert path[i] in moves;
    }
    forall s | s in exits ensures exists i :: 0 < i < |path| && 1 <= i && path[i].fact.previousState == Some(s) {
      assert exits[s] in path;
      var i :| 0 <= i < |path| && path[i] == exits[s];
    }
  }

  lemma PathIsOneAgreement(moves: seq<Receipt>, path: seq<Receipt>)
    requires OneAgreement(path) && SameElements(path, moves)
    ensures OneAgreement(moves)
  {
    forall i | 0 <= i < |moves| ensures moves[i] in path {
    }
  }

  lemma HistoryIsAccepted(moves: seq<Receipt>, path: seq<Receipt>)
    requires DistinctIds(moves) && IsHistory(path) && SameElements(path, moves)
    ensures PathOf(moves) == Ok(path)
  {
    assert IsPath(path) && OneAgreement(path) && path != [];
    hide Roots, ExitsOf, Walk, IsHistory, IsPath, SameElements, OneAgreement, AreExits, ExitsFrom, DistinctIds, NoFork;
    PathIsOneAgreement(moves, path);
    OneRoot(moves, path);
    OneExitEach(moves, path);
    ExitsExactlyWhen(moves);
    var exits := ExitsOf(moves).value;
    ExitsFollowPath(exits, moves, path);
    WalkIsComplete(exits, path, 1);
    assert path[..1] == [path[0]];
  }

  lemma OnlyRoot(roots: seq<Receipt>, root: Receipt)
    requires DistinctIds(roots) && root in roots && forall r :: r in roots ==> r == root
    ensures roots == [root]
  {
    forall i | 0 <= i < |roots| ensures roots[i] == root {
      assert roots[i] in roots;
    }
    assert |roots| > 1 ==> roots[0].receiptId != roots[1].receiptId;
  }
}
