/** The store an indexer feeds with events as they are delivered, and the lifecycles it projects. */
module Projections {
  import opened Wrappers
  import opened Keys
  import opened EscrowEvents
  import opened EscrowKernel
  import opened Receipts
  import opened Sequences
  import opened ReceiptOrder
  import opened Reconstruction
  import opened Records
  import opened Histories
  import opened Lifecycles
  import opened Indexer
  import opened Replay

  datatype StoreError = ReplayedContent | BadReceipt(error: ReceiptError)

  function OfAgreement(s: seq<Receipt>, agreement: Pubkey): seq<Receipt> {
    if s == [] then []
    else
      var before := OfAgreement(s[..|s| - 1], agreement);
      if s[|s| - 1].fact.agreement == agreement then before + [s[|s| - 1]] else before
  }

  /** What adding a receipt comes to: the first one of an id stays, and one that contradicts it is refused. */
  function Admitted(c: Collection, r: Receipt): (d: Result<Collection, StoreError>)
    requires c.Valid()
    ensures d.Ok? ==> d.value.Valid()
  {
    if r.receiptId !in c.at then Ok(c.Put(r.receiptId, r))
    else if c.at[r.receiptId].fact.action != r.fact.action || c.at[r.receiptId].fact.agreement != r.fact.agreement
    then Err(ReplayedContent)
    else Ok(c)
  }

  function AllAdmitted(c: Collection, rs: seq<Receipt>): (d: Result<Collection, StoreError>)
    requires c.Valid()
    ensures d.Ok? ==> d.value.Valid()
  {
    if rs == [] then Ok(c)
    else
      var sofar :- AllAdmitted(c, rs[..|rs| - 1]);
      Admitted(sofar, rs[|rs| - 1])
  }

  /** An event is built into a receipt and that receipt admitted. */
  function EventAdmitted(c: Collection, idOf: IdFunction, envelope: Envelope): (d: Result<Collection, StoreError>)
    requires c.Valid()
    ensures d.Ok? ==> d.value.Valid()
  {
    match EscrowReceiptFromEvent(idOf, envelope)
    case Ok(receipt) => Admitted(c, receipt)
    case Err(e) => Err(BadReceipt(e))
  }

  function EventsAdmitted(c: Collection, idOf: IdFunction, envelopes: seq<Envelope>)
    : (d: Result<Collection, StoreError>)
    requires c.Valid()
    ensures d.Ok? ==> d.value.Valid()
  {
    if envelopes == [] then Ok(c)
    else
      var sofar :- EventsAdmitted(c, idOf, envelopes[..|envelopes| - 1]);
      EventAdmitted(sofar, idOf, envelopes[|envelopes| - 1])
  }

  class ReceiptStore {
    var receipts: Collection

    ghost predicate Valid()
      reads this
    {
      receipts.Valid() && forall id :: id in receipts.at ==> receipts.at[id].receiptId == id
    }

    constructor ()
      ensures Valid() && receipts == Table([], map[])
    {
      receipts := Table([], map[]);
    }

    /** Says whether the receipt was new; a refused one leaves the store as it was. */
    method Add(receipt: Receipt) returns (r: Result<bool, StoreError>)
      requires Valid()
      modifies this
      ensures Valid()
      ensures r.Ok? == Admitted(old(receipts), receipt).Ok?
      ensures receipts == if r.Ok? then Admitted(old(receipts), receipt).value else old(receipts)
      ensures r.Ok? ==> r.value == (receipt.receiptId !in old(receipts.at))
      ensures r.Err? ==> r.error == ReplayedContent
    {
      if receipt.receiptId in receipts.at {
        var existing := receipts.at[receipt.receiptId];
        if existing.fact.action != receipt.fact.action || existing.fact.agreement != receipt.fact.agreement {
          return Err(ReplayedContent);
        }
        return Ok(false);
      }
      receipts := receipts.Put(receipt.receiptId, receipt);
      return Ok(true);
    }

    method AddEvent(idOf: IdFunction, envelope: Envelope) returns (r: Result<bool, StoreError>)
      requires Valid()
      modifies this
      ensures Valid()
      ensures match EventAdmitted(old(receipts), idOf, envelope)
              case Ok(c) => receipts == c && r == Ok(|receipts.keys| > |old(receipts.keys)|)
              case Err(e) => receipts == old(receipts) && r == Err(e)
    {
      var receipt := EscrowReceiptFromEvent(idOf, envelope);
      if receipt.Err? {
        return Err(BadReceipt(receipt.error));
      }
      r := Add(receipt.value);
    }

    /** Adds until something is refused; what came before the refusal stays. */
    method AddEvents(idOf: IdFunction, envelopes: seq<Envelope>) returns (r: Result<nat, StoreError>)
      requires Valid()
      modifies this
      ensures Valid()
      ensures r.Ok? <==> EventsAdmitted(old(receipts), idOf, envelopes).Ok?
      ensures r.Ok? ==> Ok(receipts) == EventsAdmitted(old(receipts), idOf, envelopes)
      ensures r.Ok? ==> r.value == |receipts.keys| - |old(receipts.keys)|
      ensures r.Err? ==> exists i :: 0 <= i < |envelopes|
                                     && EventsAdmitted(old(receipts), idOf, envelopes[..i]) == Ok(receipts)
                                     && EventAdmitted(receipts, idOf, envelopes[i]) == Err(r.error)
    {
      hide EventAdmitted;
      var added := 0;
      for i := 0 to |envelopes|
        invariant Valid() && EventsAdmitted(old(receipts), idOf, envelopes[..i]) == Ok(receipts)
        invariant added == |receipts.keys| - |old(receipts.keys)|
      {
        assert envelopes[..i + 1][..i] == envelopes[..i];
        ghost var before := receipts;
        AdmissionAddsOne(before, idOf, envelopes[i]);
        var one := AddEvent(idOf, envelopes[i]);
        if one.Err? {
          AdmissionStops(old(receipts), idOf, envelopes, i + 1);
          return Err(one.error);
        }
        if one.value {
          added := added + 1;
        }
      }
      assert envelopes[..|envelopes|] == envelopes;
      return Ok(added);
    }

    method ForAgreement(agreement: Pubkey) returns (found: seq<Receipt>)
      requires Valid()
      ensures found == OfAgreement(receipts.Values(), agreement)
    {
      found := OfAgreement(receipts.Values(), agreement);
    }

    method ProjectAgreement(agreement: Pubkey) returns (r: Result<Lifecycle, ReceiptError>)
      requires Valid()
      ensures r == Reconstruct(OfAgreement(receipts.Values(), agreement))
    {
      var found := ForAgreement(agreement);
      r := ReconstructAgreementLifecycle(found);
    }

    /** Groups the receipts by agreement and rebuilds each group; one bad group refuses the whole projection. */
    method Project() returns (r: Result<map<Pubkey, Lifecycle>, ReceiptError>)
      requires Valid()
      ensures r.Err? ==> exists key :: OfAgreement(receipts.Values(), key) != []
                                       && Reconstruct(OfAgreement(receipts.Values(), key)) == Err(r.error)
      ensures r.Ok? ==> forall key :: key in r.value <==> OfAgreement(receipts.Values(), key) != []
      ensures r.Ok? ==> forall key :: key in r.value ==>
                                        Reconstruct(OfAgreement(receipts.Values(), key)) == Ok(r.value[key])
    {
      hide Reconstruct, OfAgreement;
      var all := receipts.Values();
      var grouped := Group(all);
      var projections: map<Pubkey, Lifecycle> := map[];
      for i := 0 to |grouped.keys|
        invariant forall key :: key in projections <==> key in grouped.keys[..i]
        invariant forall key :: key in projections ==> Reconstruct(OfAgreement(all, key)) == Ok(projections[key])
      {
        var key := grouped.keys[i];
        assert key in grouped.keys;
        var life := ReconstructAgreementLifecycle(grouped.at[key]);
        if life.Err? {
          return Err(life.error);
        }
        projections := projections[key := life.value];
      }
      return Ok(projections);
    }
  }

  /** One bucket for each agreement that has a receipt. */
  method Group(all: seq<Receipt>) returns (grouped: Table<Pubkey, seq<Receipt>>)
    ensures grouped.Valid()
    ensures forall key :: key in grouped.at <==> OfAgreement(all, key) != []
    ensures forall key :: key in grouped.at ==> grouped.at[key] == OfAgreement(all, key)
  {
    grouped := Table([], map[]);
    for i := 0 to |all|
      invariant grouped.Valid()
      invariant forall key :: key in grouped.at <==> OfAgreement(all[..i], key) != []
      invariant forall key :: key in grouped.at ==> grouped.at[key] == OfAgreement(all[..i], key)
    {
      assert all[..i + 1][..i] == all[..i];
      var key := all[i].fact.agreement;
      var bucket := if key in grouped.at then grouped.at[key] else [];
      grouped := grouped.Put(key, bucket + [all[i]]);
    }
    assert all[..|all|] == all;
  }

  lemma AdmissionAddsOne(c: Collection, idOf: IdFunction, envelope: Envelope)
    requires c.Valid()
    ensures
      var d := EventAdmitted(c, idOf, envelope);
      d.Ok? ==> |c.keys| <= |d.value.keys| <= |c.keys| + 1
  {
    hide EscrowReceiptFromEvent;
  }

  lemma {:induction false} AdmissionStops(c: Collection, idOf: IdFunction, s: seq<Envelope>, n: nat)
    requires c.Valid() && n <= |s| && EventsAdmitted(c, idOf, s[..n]).Err?
    ensures EventsAdmitted(c, idOf, s).Err?
  {
    hide EventAdmitted;
    if n < |s| {
      assert s[..|s| - 1][..n] == s[..n];
      AdmissionStops(c, idOf, s[..|s| - 1], n);
    } else {
      assert s[..n] == s;
    }
  }

  /** Events that build are admitted as their receipts are. */
  lemma {:induction false} EventsAreTheirReceipts(c: Collection, idOf: IdFunction, envelopes: seq<Envelope>)
    requires c.Valid() && forall i :: 0 <= i < |envelopes| ==> EscrowReceiptFromEvent(idOf, envelopes[i]).Ok?
    ensures EventsAdmitted(c, idOf, envelopes) == AllAdmitted(c, ReceiptsOf(idOf, envelopes))
  {
    if envelopes != [] {
      var init := envelopes[..|envelopes| - 1];
      assert ReceiptsOf(idOf, envelopes)[..|envelopes| - 1] == ReceiptsOf(idOf, init);
      hide EscrowReceiptFromEvent, Admitted;
      EventsAreTheirReceipts(c, idOf, init);
    }
  }

  // ---- What the store converges on ----

  lemma {:induction false} OfAgreementKeeps(s: seq<Receipt>, agreement: Pubkey)
    ensures forall r :: r in OfAgreement(s, agreement) <==> r in s && r.fact.agreement == agreement
  {
    if s != [] {
      assert s == s[..|s| - 1] + [s[|s| - 1]];
      OfAgreementKeeps(s[..|s| - 1], agreement);
    }
  }

  /** Two receipts of one id that the store would not take for the same. */
  ghost predicate Clashes(rs: seq<Receipt>) {
    exists r, s :: r in rs && s in rs && r.receiptId == s.receiptId
                   && (r.fact.action != s.fact.action || r.fact.agreement != s.fact.agreement)
  }

  ghost predicate HoldsFirsts(c: Collection, rs: seq<Receipt>) {
    forall i :: FirstOfId(rs, i) ==> rs[i].receiptId in c.at && c.at[rs[i].receiptId] == rs[i]
  }

  ghost predicate HoldsMembers(c: Collection, rs: seq<Receipt>) {
    && (forall id :: id in c.at ==> c.at[id] in rs && c.at[id].receiptId == id)
    && (forall r :: r in rs ==> r.receiptId in c.at)
  }

  /** The collection holds receipts of the delivery only, and for every id of it the first one that came. */
  ghost predicate HoldsFirst(c: Collection, rs: seq<Receipt>) {
    HoldsFirsts(c, rs) && HoldsMembers(c, rs)
  }

  /**
   A store refuses a delivery exactly when it clashes with itself, and otherwise holds
   the first receipt of each id.
   */
  lemma {:induction false} StoreHoldsExactly(rs: seq<Receipt>)
    ensures AllAdmitted(Table([], map[]), rs).Ok? <==> !Clashes(rs)
    ensures AllAdmitted(Table([], map[]), rs).Ok? ==> HoldsFirst(AllAdmitted(Table([], map[]), rs).value, rs)
    ensures AllAdmitted(Table([], map[]), rs).Err? ==> AllAdmitted(Table([], map[]), rs) == Err(ReplayedContent)
  {
    if rs != [] {
      var init, last := rs[..|rs| - 1], rs[|rs| - 1];
      assert rs == init + [last];
      StoreHoldsExactly(init);
      if Clashes(init) {
        var r, s :| r in init && s in init && r.receiptId == s.receiptId
                    && (r.fact.action != s.fact.action || r.fact.agreement != s.fact.agreement);
        assert r in rs && s in rs;
      } else {
        HoldsOneMore(AllAdmitted(Table([], map[]), init).value, init, last);
      }
    }
  }

  lemma FirstOfNext(init: seq<Receipt>, last: Receipt, i: int)
    requires FirstOfId(init + [last], i)
    ensures
      if i < |init| then FirstOfId(init, i) && (init + [last])[i] == init[i]
      else (init + [last])[i] == last && forall r :: r in init ==> r.receiptId != last.receiptId
  {
    var rs := init + [last];
    assert forall j :: 0 <= j < |init| ==> rs[j] == init[j];
  }

  lemma AdmittedHoldsFirst(c: Collection, init: seq<Receipt>, last: Receipt)
    requires c.Valid() && HoldsFirst(c, init) && Admitted(c, last).Ok?
    ensures HoldsFirst(Admitted(c, last).value, init + [last])
  {
    HoldsFirstsNext(c, init, last);
    HoldsMembersNext(c, init, last);
  }

  lemma HoldsOneMore(c: Collection, init: seq<Receipt>, last: Receipt)
    requires c.Valid() && HoldsFirst(c, init) && !Clashes(init)
    ensures Admitted(c, last).Ok? <==> !Clashes(init + [last])
    ensures Admitted(c, last).Ok? ==> HoldsFirst(Admitted(c, last).value, init + [last])
  {
    hide Clashes, HoldsFirsts, HoldsMembers, Admitted;
    ClashesNext(c, init, last);
    if Admitted(c, last).Ok? {
      AdmittedHoldsFirst(c, init, last);
    }
  }

  lemma HoldsFirstsNext(c: Collection, init: seq<Receipt>, last: Receipt)
    requires c.Valid() && HoldsFirst(c, init) && Admitted(c, last).Ok?
    ensures HoldsFirsts(Admitted(c, last).value, init + [last])
  {
    forall i | 0 <= i < |init + [last]| && FirstOfId(init + [last], i)
      ensures
        var r := (init + [last])[i];
        r.receiptId in Admitted(c, last).value.at && Admitted(c, last).value.at[r.receiptId] == r
    {
      FirstOfNext(init, last, i);
      hide FirstOfId;
    }
  }

  lemma HoldsMembersNext(c: Collection, init: seq<Receipt>, last: Receipt)
    requires c.Valid() && HoldsFirst(c, init) && Admitted(c, last).Ok?
    ensures HoldsMembers(Admitted(c, last).value, init + [last])
  {
    hide HoldsFirsts;
    var rs := init + [last];
    assert last in rs && forall r :: r in init ==> r in rs;
  }

  lemma ClashesNext(c: Collection, init: seq<Receipt>, last: Receipt)
    requires c.Valid() && HoldsFirst(c, init) && !Clashes(init)
    ensures Admitted(c, last).Ok? <==> !Clashes(init + [last])
  {
    var rs := init + [last];
    hide FirstOfId;
    assert last in rs && forall r :: r in init ==> r in rs;
    if last.receiptId in c.at {
      assert c.at[last.receiptId] in init && c.at[last.receiptId] in rs;
    }
  }

  /** A reordering of a delivery: any receipt of it may be the one that comes first. */
  function FirstMoved<T>(rs: seq<T>, i: nat): (moved: seq<T>)
    requires i < |rs|
    ensures multiset(moved) == multiset(rs)
  {
    assert rs == rs[..i] + [rs[i]] + rs[i + 1..];
    [rs[i]] + rs[..i] + rs[i + 1..]
  }

  /**
   Exactly when a store converges: every order of a delivery leaves the same
   contents, or is refused alike, when equal ids mean equal receipts or when two
   receipts of one id clash. Two contents that differ in anything but action and
   agreement do neither.
   */
  lemma StoreIsOrderlessExactlyWhen(rs: seq<Receipt>)
    ensures
      var empty: Collection := Table([], map[]);
      var orderless := forall t :: multiset(t) == multiset(rs) ==>
                                     SameContents(AllAdmitted(empty, rs), AllAdmitted(empty, t));
      orderless <==> OneReceiptPerId(rs) || Clashes(rs)
  {
    hide AllAdmitted, HoldsFirst;
    var empty: Collection := Table([], map[]);
    StoreHoldsExactly(rs);
    if OneReceiptPerId(rs) || Clashes(rs) {
      forall t | multiset(t) == multiset(rs) ensures SameContents(AllAdmitted(empty, rs), AllAdmitted(empty, t)) {
        SameElementsOfPermutation(rs, t);
        StoreHoldsExactly(t);
        if OneReceiptPerId(rs) {
          SameHeld(rs, t);
        }
      }
    } else {
      var t := OtherFirst(rs);
    }
  }

  /** Two contents under one id: some order holds another one than this order does. */
  lemma OtherFirst(rs: seq<Receipt>) returns (t: seq<Receipt>)
    requires !OneReceiptPerId(rs) && !Clashes(rs)
    ensures multiset(t) == multiset(rs)
    ensures !SameContents(AllAdmitted(Table([], map[]), rs), AllAdmitted(Table([], map[]), t))
  {
    StoreHoldsExactly(rs);
    var r, s :| r in rs && s in rs && r.receiptId == s.receiptId && r != s;
    var held := AllAdmitted(Table([], map[]), rs).value.at[r.receiptId];
    var other := if held == r then s else r;
    var i :| 0 <= i < |rs| && rs[i] == other;
    t := FirstMoved(rs, i);
    assert FirstOfId(t, 0) && t[0] == other;
    StoreHoldsExactly(t);
  }

  lemma HeldAlike(c: Collection, d: Collection, rs: seq<Receipt>, again: seq<Receipt>)
    requires HoldsMembers(c, rs) && HoldsMembers(d, again) && SameElements(rs, again) && OneReceiptPerId(rs)
    ensures c.at == d.at
  {
    forall id | id in c.at ensures id in d.at && d.at[id] == c.at[id] {
      assert c.at[id] in again;
    }
    forall id | id in d.at ensures id in c.at {
      assert d.at[id] in rs;
    }
  }

  /** With one receipt for each id, neither order nor repetition shows in what a store holds. */
  lemma SameHeld(rs: seq<Receipt>, again: seq<Receipt>)
    requires OneReceiptPerId(rs) && SameElements(rs, again)
    ensures SameContents(AllAdmitted(Table([], map[]), rs), AllAdmitted(Table([], map[]), again))
    ensures AllAdmitted(Table([], map[]), rs).Ok?
  {
    StoreHoldsExactly(rs);
    StoreHoldsExactly(again);
    HeldAlike(AllAdmitted(Table([], map[]), rs).value, AllAdmitted(Table([], map[]), again).value, rs, again);
  }

  /** With one receipt for each id, a store holds exactly what was delivered. */
  lemma HeldOnce(rs: seq<Receipt>)
    requires OneReceiptPerId(rs)
    ensures AllAdmitted(Table([], map[]), rs).Ok?
    ensures
      var c := AllAdmitted(Table([], map[]), rs).value;
      && (forall id :: id in c.at ==> c.at[id] in rs && c.at[id].receiptId == id)
      && (forall r :: r in rs ==> r.receiptId in c.at && c.at[r.receiptId] == r)
  {
    StoreHoldsExactly(rs);
  }

  /**
   What a store holds decides what it projects: two deliveries that leave the same
   contents project every agreement the same. With one receipt for each id, that is
   as if the agreement alone had been delivered.
   */
  lemma StoreConverges(rs: seq<Receipt>, again: seq<Receipt>, agreement: Pubkey)
    requires AllAdmitted(Table([], map[]), rs).Ok?
    requires SameContents(AllAdmitted(Table([], map[]), rs), AllAdmitted(Table([], map[]), again))
    ensures AllAdmitted(Table([], map[]), again).Ok?
    ensures
      var here := OfAgreement(AllAdmitted(Table([], map[]), rs).value.Values(), agreement);
      var there := OfAgreement(AllAdmitted(Table([], map[]), again).value.Values(), agreement);
      && Reconstruct(here) == Reconstruct(there)
      && (OneReceiptPerId(rs) ==> Reconstruct(here) == Reconstruct(OfAgreement(rs, agreement)))
  {
    StoreHoldsExactly(rs);
    StoreHoldsExactly(again);
    var c, d := AllAdmitted(Table([], map[]), rs).value, AllAdmitted(Table([], map[]), again).value;
    ContentsProjectAlike(c, d, agreement);
    if OneReceiptPerId(rs) {
      HeldOnce(rs);
      ValuesOfCollection(c);
      OfAgreementKeeps(c.Values(), agreement);
      OfAgreementKeeps(rs, agreement);
      hide OfAgreement, AllAdmitted, Reconstruct, HoldsFirst;
      OnlyTheSetMatters(OfAgreement(c.Values(), agreement), OfAgreement(rs, agreement));
    }
  }

  /** Equal contents project every agreement alike, in whatever order they came to be held. */
  lemma ContentsProjectAlike(c: Collection, d: Collection, agreement: Pubkey)
    requires c.Valid() && d.Valid() && c.at == d.at && forall id :: id in c.at ==> c.at[id].receiptId == id
    ensures Reconstruct(OfAgreement(c.Values(), agreement)) == Reconstruct(OfAgreement(d.Values(), agreement))
  {
    ValuesOfCollection(c);
    ValuesOfCollection(d);
    OfAgreementKeeps(c.Values(), agreement);
    OfAgreementKeeps(d.Values(), agreement);
    hide OfAgreement, Reconstruct;
    OnlyTheSetMatters(OfAgreement(c.Values(), agreement), OfAgreement(d.Values(), agreement));
  }

  // ---- The store against the chain ----

  predicate Builds(idOf: IdFunction, envelope: Envelope) {
    EscrowReceiptFromEvent(idOf, envelope).Ok?
  }

  /** The store after a delivery of which every refusal was survived: a refused event leaves it as it was. */
  function Fed(c: Collection, idOf: IdFunction, delivered: seq<Envelope>): (d: Collection)
    requires c.Valid()
    ensures d.Valid()
  {
    if delivered == [] then c
    else
      var sofar := Fed(c, idOf, delivered[..|delivered| - 1]);
      match EventAdmitted(sofar, idOf, delivered[|delivered| - 1])
      case Ok(d) => d
      case Err(_) => sofar
  }

  /** A delivery that met no refusal is fed as it is added. */
  lemma {:induction false} FedIsAdmitted(c: Collection, idOf: IdFunction, delivered: seq<Envelope>)
    requires c.Valid() && EventsAdmitted(c, idOf, delivered).Ok?
    ensures Fed(c, idOf, delivered) == EventsAdmitted(c, idOf, delivered).value
  {
    hide EventAdmitted;
    if delivered != [] {
      FedIsAdmitted(c, idOf, delivered[..|delivered| - 1]);
    }
  }

  /** The receipts of the events that build, in the order they came. */
  function Built(idOf: IdFunction, delivered: seq<Envelope>): seq<Receipt> {
    if delivered == [] then []
    else
      var before := Built(idOf, delivered[..|delivered| - 1]);
      match EscrowReceiptFromEvent(idOf, delivered[|delivered| - 1])
      case Ok(r) => before + [r]
      case Err(_) => before
  }

  lemma {:induction false} BuiltAre(idOf: IdFunction, delivered: seq<Envelope>)
    ensures forall r :: r in Built(idOf, delivered)
                        <==> exists e :: e in delivered && EscrowReceiptFromEvent(idOf, e) == Ok(r)
  {
    if delivered != [] {
      hide EscrowReceiptFromEvent;
      var init, last := delivered[..|delivered| - 1], delivered[|delivered| - 1];
      assert delivered == init + [last];
      BuiltAre(idOf, init);
    }
  }

  lemma {:induction false} BuiltBegins(idOf: IdFunction, delivered: seq<Envelope>)
    requires delivered != [] && Builds(idOf, delivered[0])
    ensures Built(idOf, delivered) != []
    ensures Built(idOf, delivered)[0] == EscrowReceiptFromEvent(idOf, delivered[0]).value
  {
    hide EscrowReceiptFromEvent;
    if |delivered| > 1 {
      BuiltBegins(idOf, delivered[..|delivered| - 1]);
    }
  }

  lemma RefusedAddsNothing(c: Collection, init: seq<Receipt>, last: Receipt)
    requires c.Valid() && HoldsFirst(c, init) && Admitted(c, last).Err?
    ensures HoldsFirst(c, init + [last])
  {
    var rs := init + [last];
    assert last in rs && forall r :: r in init ==> r in rs;
    assert c.at[last.receiptId] in init;
    forall i | FirstOfId(rs, i) ensures rs[i].receiptId in c.at && c.at[rs[i].receiptId] == rs[i] {
      FirstOfNext(init, last, i);
      hide FirstOfId;
    }
  }

  /** A store that survives refusals holds, for each id, the first receipt that was built, and nothing else. */
  lemma {:induction false} FedHoldsFirst(idOf: IdFunction, delivered: seq<Envelope>)
    ensures HoldsFirst(Fed(Table([], map[]), idOf, delivered), Built(idOf, delivered))
  {
    if delivered != [] {
      hide HoldsFirst, EscrowReceiptFromEvent, Admitted;
      var init, last := delivered[..|delivered| - 1], delivered[|delivered| - 1];
      FedHoldsFirst(idOf, init);
      var c, rs := Fed(Table([], map[]), idOf, init), Built(idOf, init);
      if Builds(idOf, last) {
        var r := EscrowReceiptFromEvent(idOf, last).value;
        if Admitted(c, r).Ok? {
          AdmittedHoldsFirst(c, rs, r);
        } else {
          RefusedAddsNothing(c, rs, r);
        }
      }
    } else {
      NothingIsHeld();
    }
  }

  lemma NothingIsHeld()
    ensures HoldsFirst(Table([], map[]), [])
  {
  }

  /**
   Exactly when order shows in a store that survives refusals: every order of a
   delivery leaves the same contents when the events that build never build two
   receipts of one id. A clash is no excuse here: the one refused is the one that
   came later.
   */
  lemma FedIsOrderlessExactlyWhen(idOf: IdFunction, delivered: seq<Envelope>)
    ensures
      var empty: Collection := Table([], map[]);
      var orderless := forall t :: multiset(t) == multiset(delivered) ==>
                                     Fed(empty, idOf, t).at == Fed(empty, idOf, delivered).at;
      orderless <==> OneReceiptPerId(Built(idOf, delivered))
  {
    hide Fed, Built, HoldsFirst;
    var empty: Collection := Table([], map[]);
    if OneReceiptPerId(Built(idOf, delivered)) {
      forall t | multiset(t) == multiset(delivered) ensures Fed(empty, idOf, t).at == Fed(empty, idOf, delivered).at {
        assert forall e :: e in delivered <==> e in multiset(delivered);
        assert forall e :: e in t <==> e in multiset(t);
        FedAlike(idOf, delivered, t);
      }
    } else {
      var t := OtherFedFirst(idOf, delivered);
    }
  }

  /** With one receipt for each id built, neither order nor repetition shows in what the store holds. */
  lemma FedAlike(idOf: IdFunction, delivered: seq<Envelope>, again: seq<Envelope>)
    requires OneReceiptPerId(Built(idOf, delivered)) && SameElements(delivered, again)
    ensures Fed(Table([], map[]), idOf, again).at == Fed(Table([], map[]), idOf, delivered).at
  {
    BuiltOfSame(idOf, delivered, again);
    FedHoldsFirst(idOf, delivered);
    FedHoldsFirst(idOf, again);
    hide Fed, Built, HoldsFirsts;
    HeldAlike(Fed(Table([], map[]), idOf, delivered), Fed(Table([], map[]), idOf, again), Built(idOf, delivered),
              Built(idOf, again));
  }

  lemma BuiltOfSame(idOf: IdFunction, delivered: seq<Envelope>, again: seq<Envelope>)
    requires SameElements(delivered, again)
    ensures SameElements(Built(idOf, delivered), Built(idOf, again))
  {
    BuiltAre(idOf, delivered);
    BuiltAre(idOf, again);
    hide Built, EscrowReceiptFromEvent;
  }

  /** So neither shows in what it projects. */
  lemma FedProjectsAlike(idOf: IdFunction, delivered: seq<Envelope>, again: seq<Envelope>, agreement: Pubkey)
    requires OneReceiptPerId(Built(idOf, delivered)) && SameElements(delivered, again)
    ensures Reconstruct(OfAgreement(Fed(Table([], map[]), idOf, delivered).Values(), agreement))
            == Reconstruct(OfAgreement(Fed(Table([], map[]), idOf, again).Values(), agreement))
  {
    FedAlike(idOf, delivered, again);
    FedHoldsFirst(idOf, delivered);
    hide Fed, Built, HoldsFirsts, Reconstruct, OfAgreement;
    ContentsProjectAlike(Fed(Table([], map[]), idOf, delivered), Fed(Table([], map[]), idOf, again), agreement);
  }

  lemma OtherFedFirst(idOf: IdFunction, delivered: seq<Envelope>) returns (t: seq<Envelope>)
    requires !OneReceiptPerId(Built(idOf, delivered))
    ensures multiset(t) == multiset(delivered)
    ensures Fed(Table([], map[]), idOf, t).at != Fed(Table([], map[]), idOf, delivered).at
  {
    hide Fed, Built, EscrowReceiptFromEvent, HoldsMembers;
    var rs := Built(idOf, delivered);
    var r, s :| r in rs && s in rs && r.receiptId == s.receiptId && r != s;
    var held := Fed(Table([], map[]), idOf, delivered).at;
    var other := if r.receiptId in held && held[r.receiptId] == r then s else r;
    BuiltAre(idOf, delivered);
    var e :| e in delivered && EscrowReceiptFromEvent(idOf, e) == Ok(other);
    var i :| 0 <= i < |delivered| && delivered[i] == e;
    t := FirstMoved(delivered, i);
    BuiltBegins(idOf, t);
    FedHoldsFirst(idOf, t);
    assert FirstOfId(Built(idOf, t), 0);
  }

  /** What a fed store holds was delivered, and something is held for every event that builds. */
  ghost predicate HoldsDelivered(c: Collection, idOf: IdFunction, delivered: seq<Envelope>) {
    && (forall id :: id in c.at ==>
          exists e :: e in delivered && Builds(idOf, e) && IdOf(idOf, e) == id
                      && EscrowReceiptFromEvent(idOf, e) == Ok(c.at[id]))
    && (forall e :: e in delivered && Builds(idOf, e) ==> IdOf(idOf, e) in c.at)
  }

  lemma FedHoldsDelivered(idOf: IdFunction, delivered: seq<Envelope>)
    ensures HoldsDelivered(Fed(Table([], map[]), idOf, delivered), idOf, delivered)
  {
    FedHoldsFirst(idOf, delivered);
    BuiltAre(idOf, delivered);
    var c := Fed(Table([], map[]), idOf, delivered);
    hide Fed, Built, HoldsFirsts, EscrowReceiptFromEvent, IdOf;
    forall id | id in c.at
      ensures exists e :: e in delivered && Builds(idOf, e) && IdOf(idOf, e) == id
                          && EscrowReceiptFromEvent(idOf, e) == Ok(c.at[id])
    {
      var e :| e in delivered && EscrowReceiptFromEvent(idOf, e) == Ok(c.at[id]);
      BuiltId(idOf, e);
    }
    forall e | e in delivered && Builds(idOf, e) ensures IdOf(idOf, e) in c.at {
      BuiltId(idOf, e);
      assert EscrowReceiptFromEvent(idOf, e).value in Built(idOf, delivered);
    }
  }

  lemma BuiltId(idOf: IdFunction, envelope: Envelope)
    ensures Builds(idOf, envelope) ==> EscrowReceiptFromEvent(idOf, envelope).value.receiptId == IdOf(idOf, envelope)
  {
  }

  /** One event, reported with its block time or without, or with another. */
  predicate SameDelivery(e: Envelope, f: Envelope) {
    e.(blockTime := f.blockTime) == f
  }

  /**
   What the indexer was told of one agreement is what the chain carried: every
   event of it that builds is one of the envelopes, whatever block time it came
   with, and so is every event at the coordinates of one. Each envelope came at
   least once. Nothing is asked of anything else that was delivered.
   */
  ghost predicate Reported(idOf: IdFunction, delivered: seq<Envelope>, envelopes: seq<Envelope>, key: Pubkey) {
    && (forall e :: e in delivered && Builds(idOf, e)
                    && (e.event.agreement == key || exists f :: f in envelopes && IdOf(idOf, f) == IdOf(idOf, e)) ==>
          exists f :: f in envelopes && SameDelivery(e, f))
    && (forall f :: f in envelopes ==> exists e :: e in delivered && Builds(idOf, e) && SameDelivery(e, f))
  }

  /** An envelope with the time its kept receipt has. */
  function AsKept(c: Collection, idOf: IdFunction, f: Envelope): Envelope {
    if IdOf(idOf, f) in c.at then f.(blockTime := Some(c.at[IdOf(idOf, f)].occurredAt)) else f
  }

  lemma SameDeliverySameReceipt(idOf: IdFunction, e: Envelope, f: Envelope)
    requires SameDelivery(e, f) && Builds(idOf, e)
    ensures
      var r := EscrowReceiptFromEvent(idOf, e).value;
      && IdOf(idOf, e) == IdOf(idOf, f) && r.receiptId == IdOf(idOf, f)
      && EscrowReceiptFromEvent(idOf, f.(blockTime := Some(r.occurredAt))) == Ok(r)
      && 0 <= r.occurredAt <= MAX_UNIX_SECONDS
  {
    hide FactOf;
  }

  /** The store keeps one receipt for each envelope, and it is the envelope's own up to its time. */
  lemma KeptOf(c: Collection, idOf: IdFunction, delivered: seq<Envelope>, envelopes: seq<Envelope>, key: Pubkey, i: nat)
    requires HoldsDelivered(c, idOf, delivered) && Reported(idOf, delivered, envelopes, key) && i < |envelopes|
    requires forall j, k :: 0 <= j < k < |envelopes| ==> IdOf(idOf, envelopes[j]) != IdOf(idOf, envelopes[k])
    ensures
      var f := envelopes[i];
      && IdOf(idOf, f) in c.at
      && EscrowReceiptFromEvent(idOf, AsKept(c, idOf, f)) == Ok(c.at[IdOf(idOf, f)])
      && 0 <= c.at[IdOf(idOf, f)].occurredAt <= MAX_UNIX_SECONDS
  {
    hide EscrowReceiptFromEvent, IdOf, SameDelivery;
    var f := envelopes[i];
    assert f in envelopes;
    var e :| e in delivered && Builds(idOf, e) && SameDelivery(e, f);
    SameDeliverySameReceipt(idOf, e, f);
    var id := IdOf(idOf, f);
    var kept :| kept in delivered && Builds(idOf, kept) && IdOf(idOf, kept) == id
                && EscrowReceiptFromEvent(idOf, kept) == Ok(c.at[id]);
    var g :| g in envelopes && SameDelivery(kept, g);
    SameDeliverySameReceipt(idOf, kept, g);
    assert g == f;
  }

  /** The envelopes of an agreement as the store keeps them. */
  ghost predicate KeptAs(c: Collection, idOf: IdFunction, envelopes: seq<Envelope>, kept: seq<Envelope>, key: Pubkey) {
    && |kept| == |envelopes|
    && forall i :: 0 <= i < |kept| ==>
         && kept[i] == AsKept(c, idOf, envelopes[i]) && kept[i].event.agreement == key
         && IdOf(idOf, envelopes[i]) in c.at
         && EscrowReceiptFromEvent(idOf, kept[i]) == Ok(c.at[IdOf(idOf, envelopes[i])])
  }

  lemma FoundIsKept(c: Collection, idOf: IdFunction, delivered: seq<Envelope>, envelopes: seq<Envelope>, key: Pubkey,
                    kept: seq<Envelope>, r: Receipt) returns (i: nat)
    requires HoldsDelivered(c, idOf, delivered) && Reported(idOf, delivered, envelopes, key)
    requires KeptAs(c, idOf, envelopes, kept, key)
    requires r.receiptId in c.at && c.at[r.receiptId] == r && r.fact.agreement == key
    ensures i < |kept| && EscrowReceiptFromEvent(idOf, kept[i]) == Ok(r)
  {
    hide EscrowReceiptFromEvent, IdOf, AsKept, SameDelivery;
    var e :| e in delivered && Builds(idOf, e) && IdOf(idOf, e) == r.receiptId
             && EscrowReceiptFromEvent(idOf, e) == Ok(c.at[r.receiptId]);
    BuiltReceiptsAreWellFormed(idOf, e);
    var f := TheEnvelope(idOf, delivered, envelopes, key, e);
    SameDeliverySameReceipt(idOf, e, f);
    i :| 0 <= i < |envelopes| && envelopes[i] == f;
  }

  lemma TheEnvelope(idOf: IdFunction, delivered: seq<Envelope>, envelopes: seq<Envelope>, key: Pubkey, e: Envelope)
    returns (f: Envelope)
    requires Reported(idOf, delivered, envelopes, key)
    requires e in delivered && Builds(idOf, e) && e.event.agreement == key
    ensures f in envelopes && SameDelivery(e, f)
  {
    hide Builds, IdOf, SameDelivery;
    f :| f in envelopes && SameDelivery(e, f);
  }

  lemma KeptIsFound(c: Collection, idOf: IdFunction, envelopes: seq<Envelope>, key: Pubkey, kept: seq<Envelope>, i: nat)
    requires forall id :: id in c.at ==> c.at[id].receiptId == id
    requires KeptAs(c, idOf, envelopes, kept, key) && i < |kept|
    ensures
      var r := ReceiptsOf(idOf, kept)[i];
      r.receiptId in c.at && c.at[r.receiptId] == r && r.fact.agreement == key
  {
    hide EscrowReceiptFromEvent, IdOf, AsKept;
    BuiltReceiptsAreWellFormed(idOf, kept[i]);
  }

  lemma KeptBuild(c: Collection, idOf: IdFunction, envelopes: seq<Envelope>, kept: seq<Envelope>, key: Pubkey)
    requires KeptAs(c, idOf, envelopes, kept, key)
    ensures forall i :: 0 <= i < |kept| ==> EscrowReceiptFromEvent(idOf, kept[i]).Ok?
  {
    hide EscrowReceiptFromEvent, IdOf, AsKept;
  }

  lemma BagIsKept(c: Collection, idOf: IdFunction, delivered: seq<Envelope>, envelopes: seq<Envelope>, key: Pubkey,
                  kept: seq<Envelope>)
    requires c.Valid() && (forall id :: id in c.at ==> c.at[id].receiptId == id)
    requires HoldsDelivered(c, idOf, delivered) && Reported(idOf, delivered, envelopes, key)
    requires KeptAs(c, idOf, envelopes, kept, key)
    ensures forall i :: 0 <= i < |kept| ==> EscrowReceiptFromEvent(idOf, kept[i]).Ok?
    ensures SameElements(OfAgreement(c.Values(), key), ReceiptsOf(idOf, kept))
  {
    KeptBuild(c, idOf, envelopes, kept, key);
    var found, own := OfAgreement(c.Values(), key), ReceiptsOf(idOf, kept);
    OfAgreementKeeps(c.Values(), key);
    ValuesOfCollection(c);
    hide EscrowReceiptFromEvent, OfAgreement, HoldsDelivered, Reported, KeptAs;
    forall r | r in found ensures r in own {
      var i := FoundIsKept(c, idOf, delivered, envelopes, key, kept, r);
      assert own[i] == r;
    }
    forall r | r in own ensures r in found {
      var i :| 0 <= i < |own| && own[i] == r;
      KeptIsFound(c, idOf, envelopes, key, kept, i);
    }
  }

  /** Reading order asks for coordinates and ids, never for times. */
  lemma TimesDoNotShow(rs: seq<Receipt>, again: seq<Receipt>)
    requires |rs| == |again| && forall i :: 0 <= i < |rs| ==> rs[i].(occurredAt := again[i].occurredAt) == again[i]
    ensures StepsReadRight(rs) == StepsReadRight(again)
  {
    forall m, i
      ensures ReadsLast(rs, i, m) == ReadsLast(again, i, m) && LastStepAt(rs, i, m) == LastStepAt(again, i, m)
    {
      assert forall j :: 0 <= j < |rs| ==> IsStepOf(rs[j], m) == IsStepOf(again[j], m);
      hide IsStepOf;
      if 0 <= i < |rs| {
        assert forall j :: 0 <= j < |rs| ==> Precedes(rs[j], rs[i]) == Precedes(again[j], again[i]);
      }
    }
    hide ReadsLast, LastStepAt;
    forall m ensures ReadsRight(rs, m) == ReadsRight(again, m) {
    }
  }

  lemma TimesOfKept(idOf: IdFunction, envelopes: seq<Envelope>, kept: seq<Envelope>)
    requires |kept| == |envelopes|
    requires forall i :: 0 <= i < |kept| ==> kept[i] == envelopes[i].(blockTime := kept[i].blockTime)
    requires forall i :: 0 <= i < |kept| ==> EscrowReceiptFromEvent(idOf, kept[i]).Ok?
    requires forall i :: 0 <= i < |envelopes| ==> EscrowReceiptFromEvent(idOf, envelopes[i]).Ok?
    ensures StepsReadRight(ReceiptsOf(idOf, kept)) == StepsReadRight(ReceiptsOf(idOf, envelopes))
  {
    hide StepsReadRight, FactOf;
    TimesDoNotShow(ReceiptsOf(idOf, kept), ReceiptsOf(idOf, envelopes));
  }

  lemma {:induction false} TraceIsAbout(start: Ledger, ticks: seq<Tick>, key: Pubkey)
    ensures forall e :: e in Trace(start, ticks, key) ==> e.agreement == key
  {
    hide EventsOf, Run;
    if ticks != [] {
      var init := ticks[..|ticks| - 1];
      TraceIsAbout(start, init, key);
      AboutIsAbout(EventsOf(Run(start, init), ticks[|ticks| - 1]), key);
    }
  }

  lemma {:induction false} AboutIsAbout(events: seq<Event>, key: Pubkey)
    ensures forall e :: e in About(events, key) ==> e.agreement == key
  {
    if events != [] {
      AboutIsAbout(events[1..], key);
    }
  }

  /** What the chain carried is still carried with the times the store kept. */
  lemma CarriedAsKept(envelopes: seq<Envelope>, events: seq<Event>, kept: seq<Envelope>)
    requires Carried(envelopes, events) && |kept| == |envelopes|
    requires forall i :: 0 <= i < |kept| ==>
               kept[i] == envelopes[i].(blockTime := kept[i].blockTime) && 0 <= TimeOf(kept[i]) <= MAX_UNIX_SECONDS
    ensures Carried(kept, events)
  {
    hide TimeOf;
    forall i, j | 0 <= i < j < |kept| ensures !SameCoordinates(kept[i], kept[j]) {
      assert !SameCoordinates(envelopes[i], envelopes[j]);
    }
  }

  lemma IdsOfCarried(idOf: IdFunction, envelopes: seq<Envelope>, events: seq<Event>)
    requires InjectiveIds(idOf) && Carried(envelopes, events)
    ensures forall j, k :: 0 <= j < k < |envelopes| ==> IdOf(idOf, envelopes[j]) != IdOf(idOf, envelopes[k])
  {
    forall j, k | 0 <= j < k < |envelopes| ensures IdOf(idOf, envelopes[j]) != IdOf(idOf, envelopes[k]) {
      assert !SameCoordinates(envelopes[j], envelopes[k]);
    }
  }

  /** The envelopes as the store keeps them. */
  lemma KeptEnvelopes(c: Collection, idOf: IdFunction, delivered: seq<Envelope>, envelopes: seq<Envelope>,
                      events: seq<Event>, key: Pubkey) returns (kept: seq<Envelope>)
    requires HoldsDelivered(c, idOf, delivered) && Reported(idOf, delivered, envelopes, key)
    requires InjectiveIds(idOf) && Carried(envelopes, events) && forall e :: e in events ==> e.agreement == key
    ensures KeptAs(c, idOf, envelopes, kept, key) && Carried(kept, events) && |kept| == |envelopes|
    ensures forall i :: 0 <= i < |kept| ==> kept[i] == envelopes[i].(blockTime := kept[i].blockTime)
  {
    IdsOfCarried(idOf, envelopes, events);
    kept := seq(|envelopes|, i requires 0 <= i < |envelopes| => AsKept(c, idOf, envelopes[i]));
    forall i | 0 <= i < |kept|
      ensures
        && kept[i] == AsKept(c, idOf, envelopes[i]) && kept[i].event.agreement == key
        && kept[i] == envelopes[i].(blockTime := kept[i].blockTime) && 0 <= TimeOf(kept[i]) <= MAX_UNIX_SECONDS
        && IdOf(idOf, envelopes[i]) in c.at
        && EscrowReceiptFromEvent(idOf, kept[i]) == Ok(c.at[IdOf(idOf, envelopes[i])])
    {
      assert events[i] in events;
      hide EscrowReceiptFromEvent, IdOf, HoldsDelivered, Reported;
      KeptOf(c, idOf, delivered, envelopes, key, i);
    }
    hide EscrowReceiptFromEvent, IdOf, HoldsDelivered, Reported, Carried, AsKept, TimeOf;
    CarriedAsKept(envelopes, events, kept);
  }

  /**
   The whole indexer against the chain. Whatever was delivered to the store, in any
   order, with any repetition and with block times or without, and whatever of it
   was refused: an agreement that was reported as the chain carried it is projected
   as its account.
   */
  lemma StoreRebuildsAccount(start: Ledger, ticks: seq<Tick>, key: Pubkey, idOf: IdFunction, envelopes: seq<Envelope>,
                             delivered: seq<Envelope>)
    requires Genesis(start) && key in Run(start, ticks).agreements && InjectiveIds(idOf)
    requires Carried(envelopes, Trace(start, ticks, key)) && Reported(idOf, delivered, envelopes, key)
    ensures forall i :: 0 <= i < |envelopes| ==> EscrowReceiptFromEvent(idOf, envelopes[i]).Ok?
    ensures
      var found := OfAgreement(Fed(Table([], map[]), idOf, delivered).Values(), key);
      && Reconstruct(found).Ok? && Matches(Reconstruct(found).value, Run(start, ticks), key)
      && (TrancheStatesMatch(Reconstruct(found).value.milestones, Run(start, ticks), key)
          <==> StepsReadRight(ReceiptsOf(idOf, envelopes)))
  {
    hide Genesis, Run, Trace, InjectiveIds, Carried, Reported, EscrowReceiptFromEvent, OfAgreement, Fed, HoldsDelivered;
    hide Reconstruct, Matches, StepsReadRight, TrancheStatesMatch, KeptAs, IdOf;
    var c := Fed(Table([], map[]), idOf, delivered);
    var events := Trace(start, ticks, key);
    FedHoldsDelivered(idOf, delivered);
    FedIds(c, idOf, delivered);
    TraceIsAbout(start, ticks, key);
    CarriedEventsBuild(idOf, envelopes, events);
    var kept := KeptEnvelopes(c, idOf, delivered, envelopes, events, key);
    BagIsKept(c, idOf, delivered, envelopes, key, kept);
    ReplayIsComplete(start, ticks, key, idOf, kept, OfAgreement(c.Values(), key));
    TimesOfKept(idOf, envelopes, kept);
  }

  lemma FedIds(c: Collection, idOf: IdFunction, delivered: seq<Envelope>)
    requires HoldsDelivered(c, idOf, delivered)
    ensures forall id :: id in c.at ==> c.at[id].receiptId == id
  {
    forall id | id in c.at ensures c.at[id].receiptId == id {
      var e :| e in delivered && Builds(idOf, e) && IdOf(idOf, e) == id
               && EscrowReceiptFromEvent(idOf, e) == Ok(c.at[id]);
      hide EscrowReceiptFromEvent, IdOf;
      BuiltId(idOf, e);
    }
  }
}
