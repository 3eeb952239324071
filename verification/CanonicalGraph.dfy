/**
 Canonicalising an object graph: objects may be shared, and may reach themselves.
 The serialiser walks the graph with the set of objects it is inside of; it always
 stops, refuses exactly the graphs that loop, and otherwise prints what the
 unfolded tree prints.
 */
module CanonicalGraph {
  import opened Wrappers
  import opened CanonicalText
  import opened CanonicalForm

  datatype Ref = Plain(scalar: Scalar) | Node(id: nat)

  datatype Container = ArrayOf(items: seq<Ref>) | RecordOf(fields: seq<(Text, Ref)>)

  type Graph = map<nat, Container>

  predicate Known(g: Graph, ref: Ref) {
    ref.Node? ==> ref.id in g
  }

  predicate KnownItems(g: Graph, items: seq<Ref>) {
    forall i :: 0 <= i < |items| ==> Known(g, items[i])
  }

  predicate KnownFields(g: Graph, fields: seq<(Text, Ref)>) {
    forall i :: 0 <= i < |fields| ==> Known(g, fields[i].1)
  }

  /** Every object an object of the graph refers to is in the graph. */
  predicate Closed(g: Graph) {
    forall id :: id in g ==>
      match g[id]
      case ArrayOf(items) => KnownItems(g, items)
      case RecordOf(fields) => KnownFields(g, fields)
  }

  // ---- What the serialiser comes to ----

  lemma EntriesStayKnown(g: Graph, fields: seq<(Text, Ref)>, nfc: Normalizer)
    requires KnownFields(g, fields) && Entries(fields, nfc).Ok?
    ensures KnownFields(g, Entries(fields, nfc).value) && KnownFields(g, SortedEntries(Entries(fields, nfc).value))
  {
    EntriesExactlyWhen(fields, nfc);
    SortStaysKnown(g, Entries(fields, nfc).value);
  }

  lemma SortStaysKnown(g: Graph, entries: seq<(Text, Ref)>)
    requires KnownFields(g, entries)
    ensures KnownFields(g, SortedEntries(entries))
  {
    SortKeeps(entries);
    var sorted := SortedEntries(entries);
    forall i | 0 <= i < |sorted| ensures Known(g, sorted[i].1) {
      assert sorted[i] in entries;
    }
  }

  function ScalarText(s: Scalar, nfc: Normalizer): Result<Text, CanonicalError> {
    match s
    case Str(t) => Ok(Stringified(nfc(t)))
    case Bool(b) => Ok(if b then TRUE else FALSE)
    case Unsupported => Err(UnsupportedValue)
  }

  function Serialized(g: Graph, ref: Ref, ancestors: set<nat>, nfc: Normalizer): Result<Text, CanonicalError>
    requires Closed(g) && Known(g, ref)
    decreases g.Keys - ancestors, 0, 0
  {
    match ref
    case Plain(s) => ScalarText(s, nfc)
    case Node(id) =>
      if id in ancestors then Err(Cyclic)
      else
        assert id in g.Keys - ancestors;
        match g[id]
        case ArrayOf(items) =>
          var parts :- SerializedItems(g, items, ancestors + {id}, nfc);
          Ok([91] + Joined(parts) + [93])
        case RecordOf(fields) =>
          var entries :- Entries(fields, nfc);
          EntriesStayKnown(g, fields, nfc);
          var parts :- SerializedFields(g, SortedEntries(entries), ancestors + {id}, nfc);
          Ok([123] + Joined(parts) + [125])
  }

  function SerializedItems(g: Graph, items: seq<Ref>, ancestors: set<nat>, nfc: Normalizer)
    : Result<seq<Text>, CanonicalError>
    requires Closed(g) && KnownItems(g, items)
    decreases g.Keys - ancestors, 1, |items|
  {
    if items == [] then Ok([])
    else
      var before :- SerializedItems(g, items[..|items| - 1], ancestors, nfc);
      var last :- Serialized(g, items[|items| - 1], ancestors, nfc);
      Ok(before + [last])
  }

  function SerializedFields(g: Graph, fields: seq<(Text, Ref)>, ancestors: set<nat>, nfc: Normalizer)
    : Result<seq<Text>, CanonicalError>
    requires Closed(g) && KnownFields(g, fields)
    decreases g.Keys - ancestors, 1, |fields|
  {
    if fields == [] then Ok([])
    else
      var before :- SerializedFields(g, fields[..|fields| - 1], ancestors, nfc);
      var last :- Serialized(g, fields[|fields| - 1].1, ancestors, nfc);
      Ok(before + [Stringified(nfc(fields[|fields| - 1].0)) + [COLON] + last])
  }

  const PLAIN_ONE := Plain(Str(VERSION_ONE))

  function SerializedDocument(g: Graph, document: nat, nfc: Normalizer): Result<Text, CanonicalError>
    requires Closed(g) && document in g
  {
    match g[document]
    case ArrayOf(_) => Err(NotARecord)
    case RecordOf(fields) =>
      var entries :- Entries(fields, nfc);
      EntriesStayKnown(g, fields, nfc);
      var versioned :- Versioned(SortedEntries(entries), PLAIN_ONE);
      VersionedStaysKnown(g, SortedEntries(entries));
      var parts :- SerializedFields(g, versioned, {document}, nfc);
      Ok([123] + Joined(parts) + [125])
  }

  lemma VersionedStaysKnown(g: Graph, entries: seq<(Text, Ref)>)
    requires KnownFields(g, entries) && Versioned(entries, PLAIN_ONE).Ok?
    ensures KnownFields(g, Versioned(entries, PLAIN_ONE).value)
  {
    if Find(SPEC_VERSION, entries).None? {
      SortStaysKnown(g, entries + [(SPEC_VERSION, PLAIN_ONE)]);
    }
  }

  // ---- Unfolding ----

  /** The tree a reference stands for, unless it leads back into an object it is inside of. */
  function Unfolded(g: Graph, ref: Ref, ancestors: set<nat>): Result<Value, CanonicalError>
    requires Closed(g) && Known(g, ref)
    decreases g.Keys - ancestors, 0, 0
  {
    match ref
    case Plain(s) => Ok(Leaf(s))
    case Node(id) =>
      if id in ancestors then Err(Cyclic)
      else
        assert id in g.Keys - ancestors;
        match g[id]
        case ArrayOf(items) =>
          var values :- UnfoldedItems(g, items, ancestors + {id});
          Ok(Arr(values))
        case RecordOf(fields) =>
          var values :- UnfoldedFields(g, fields, ancestors + {id});
          Ok(Rec(values))
  }

  function UnfoldedItems(g: Graph, items: seq<Ref>, ancestors: set<nat>): Result<seq<Value>, CanonicalError>
    requires Closed(g) && KnownItems(g, items)
    decreases g.Keys - ancestors, 1, |items|
  {
    if items == [] then Ok([])
    else
      var before :- UnfoldedItems(g, items[..|items| - 1], ancestors);
      var last :- Unfolded(g, items[|items| - 1], ancestors);
      Ok(before + [last])
  }

  function UnfoldedFields(g: Graph, fields: seq<(Text, Ref)>, ancestors: set<nat>)
    : Result<seq<(Text, Value)>, CanonicalError>
    requires Closed(g) && KnownFields(g, fields)
    decreases g.Keys - ancestors, 1, |fields|
  {
    if fields == [] then Ok([])
    else
      var before :- UnfoldedFields(g, fields[..|fields| - 1], ancestors);
      var last :- Unfolded(g, fields[|fields| - 1].1, ancestors);
      Ok(before + [(fields[|fields| - 1].0, last)])
  }

  lemma {:induction false} UnfoldedItemsAre(g: Graph, items: seq<Ref>, ancestors: set<nat>)
    requires Closed(g) && KnownItems(g, items)
    ensures UnfoldedItems(g, items, ancestors).Ok? <==>
            forall i :: 0 <= i < |items| ==> Unfolded(g, items[i], ancestors).Ok?
    ensures UnfoldedItems(g, items, ancestors).Ok? ==>
              && |UnfoldedItems(g, items, ancestors).value| == |items|
              && forall i :: 0 <= i < |items| ==>
                   Unfolded(g, items[i], ancestors) == Ok(UnfoldedItems(g, items, ancestors).value[i])
  {
    hide Unfolded;
    if items != [] {
      UnfoldedItemsAre(g, items[..|items| - 1], ancestors);
    }
  }

  /** A list of entries and the list of their unfolded values. */
  ghost predicate Mirrors(g: Graph, refs: seq<(Text, Ref)>, values: seq<(Text, Value)>, ancestors: set<nat>)
    requires Closed(g)
  {
    && KnownFields(g, refs) && |refs| == |values|
    && forall i :: 0 <= i < |refs| ==>
         refs[i].0 == values[i].0 && Unfolded(g, refs[i].1, ancestors) == Ok(values[i].1)
  }

  lemma {:induction false} UnfoldedFieldsAre(g: Graph, fields: seq<(Text, Ref)>, ancestors: set<nat>)
    requires Closed(g) && KnownFields(g, fields)
    ensures UnfoldedFields(g, fields, ancestors).Ok? <==>
            forall i :: 0 <= i < |fields| ==> Unfolded(g, fields[i].1, ancestors).Ok?
    ensures UnfoldedFields(g, fields, ancestors).Ok? ==>
              Mirrors(g, fields, UnfoldedFields(g, fields, ancestors).value, ancestors)
  {
    hide Unfolded;
    if fields != [] {
      UnfoldedFieldsAre(g, fields[..|fields| - 1], ancestors);
    }
  }

  // ---- Refused exactly when it loops ----

  predicate Refers(g: Graph, from: nat, to: nat) {
    from in g &&
    match g[from]
    case ArrayOf(items) => Node(to) in items
    case RecordOf(fields) => exists i :: 0 <= i < |fields| && fields[i].1 == Node(to)
  }

  predicate IsWalk(g: Graph, walk: seq<nat>, from: nat) {
    && walk != [] && walk[0] == from
    && forall i :: 0 < i < |walk| ==> Refers(g, walk[i - 1], walk[i])
  }

  /** A walk that ends where it has been, or in one of the given objects. */
  predicate LeadsBack(g: Graph, walk: seq<nat>, from: nat, ancestors: set<nat>) {
    IsWalk(g, walk, from) && (walk[|walk| - 1] in ancestors || walk[|walk| - 1] in walk[..|walk| - 1])
  }

  lemma OneStepLonger(g: Graph, walk: seq<nat>, id: nat, child: nat, ancestors: set<nat>)
    requires Refers(g, id, child)
    ensures
      var onward := walk != [] && walk[0] == child && LeadsBack(g, [id] + walk, id, ancestors);
      LeadsBack(g, walk, child, ancestors + {id}) <==> onward
  {
    var longer := [id] + walk;
    if walk != [] {
      assert longer[|longer| - 1] == walk[|walk| - 1];
      assert longer[..|longer| - 1] == [id] + walk[..|walk| - 1];
      if IsWalk(g, walk, child) {
        assert forall i :: 0 < i < |longer| ==> longer[i] == walk[i - 1];
        forall i | 0 < i < |longer| ensures Refers(g, longer[i - 1], longer[i]) {
          if i > 1 {
            assert longer[i] == walk[i - 1] && longer[i - 1] == walk[i - 2];
            assert Refers(g, walk[i - 2], walk[i - 1]);
          }
        }
      }
      if IsWalk(g, longer, id) && walk[0] == child {
        forall i | 0 < i < |walk| ensures Refers(g, walk[i - 1], walk[i]) {
          assert Refers(g, longer[i], longer[i + 1]);
        }
      }
    }
  }

  /** A reference fails to unfold exactly when some walk from it leads back. */
  lemma {:induction false} UnfoldsExactlyWhen(g: Graph, id: nat, ancestors: set<nat>)
    requires Closed(g) && id in g
    ensures Unfolded(g, Node(id), ancestors).Ok? <==> forall walk :: !LeadsBack(g, walk, id, ancestors)
    decreases g.Keys - ancestors
  {
    if id in ancestors {
      assert LeadsBack(g, [id], id, ancestors);
    } else {
      assert id in g.Keys - ancestors;
      forall child | Refers(g, id, child)
        ensures child in g
        ensures Unfolded(g, Node(child), ancestors + {id}).Ok? <==>
                forall walk :: !LeadsBack(g, walk, child, ancestors + {id})
      {
        ChildIsKnown(g, id, child);
        UnfoldsExactlyWhen(g, child, ancestors + {id});
      }
      UnfoldsWithChildren(g, id, ancestors);
      WalksThroughChildren(g, id, ancestors);
    }
  }

  lemma ChildIsKnown(g: Graph, id: nat, child: nat)
    requires Closed(g) && Refers(g, id, child)
    ensures child in g
  {
    match g[id]
    case ArrayOf(items) =>
      var i :| 0 <= i < |items| && items[i] == Node(child);
      assert Known(g, items[i]);
    case RecordOf(fields) =>
      var i :| 0 <= i < |fields| && fields[i].1 == Node(child);
      assert Known(g, fields[i].1);
  }

  lemma UnfoldsWithChildren(g: Graph, id: nat, ancestors: set<nat>)
    requires Closed(g) && id in g && id !in ancestors
    requires forall child :: Refers(g, id, child) ==> child in g
    ensures Unfolded(g, Node(id), ancestors).Ok?
            <==> forall child :: Refers(g, id, child) ==> Unfolded(g, Node(child), ancestors + {id}).Ok?
  {
    match g[id]
    case ArrayOf(items) =>
      UnfoldedItemsAre(g, items, ancestors + {id});
      forall i | 0 <= i < |items| && items[i].Node? ensures Refers(g, id, items[i].id) {
        assert items[i] in items;
      }
    case RecordOf(fields) =>
      UnfoldedFieldsAre(g, fields, ancestors + {id});
      forall i | 0 <= i < |fields| && fields[i].1.Node? ensures Refers(g, id, fields[i].1.id) {
        assert fields[i].1 == Node(fields[i].1.id);
      }
  }

  lemma WalksThroughChildren(g: Graph, id: nat, ancestors: set<nat>)
    requires Closed(g) && id in g && id !in ancestors
    ensures (forall walk :: !LeadsBack(g, walk, id, ancestors))
            <==> forall child, walk :: Refers(g, id, child) ==> !LeadsBack(g, walk, child, ancestors + {id})
  {
    forall child, walk | Refers(g, id, child) && LeadsBack(g, walk, child, ancestors + {id})
      ensures LeadsBack(g, [id] + walk, id, ancestors)
    {
      OneStepLonger(g, walk, id, child, ancestors);
    }
    forall walk | LeadsBack(g, walk, id, ancestors)
      ensures |walk| > 1 && Refers(g, id, walk[1]) && LeadsBack(g, walk[1..], walk[1], ancestors + {id})
    {
      assert |walk| > 1;
      assert Refers(g, walk[0], walk[1]);
      assert [id] + walk[1..] == walk;
      OneStepLonger(g, walk[1..], id, walk[1], ancestors);
    }
  }

  // ---- Otherwise it prints the unfolded tree ----

  function Printed(r: Result<Value, CanonicalError>): Result<Text, CanonicalError> {
    match r
    case Ok(v) => Ok(Print(v))
    case Err(e) => Err(e)
  }

  function PrintedAll(r: Result<seq<Value>, CanonicalError>): Result<seq<Text>, CanonicalError> {
    match r
    case Ok(items) => Ok(PrintedItems(items))
    case Err(e) => Err(e)
  }

  function PrintedEntries(r: Result<seq<(Text, Value)>, CanonicalError>): Result<seq<Text>, CanonicalError> {
    match r
    case Ok(fields) => Ok(PrintedFields(fields))
    case Err(e) => Err(e)
  }

  lemma {:induction false} ItemsAgree(g: Graph, items: seq<Ref>, values: seq<Value>, ancestors: set<nat>, whole: Value,
                                      nfc: Normalizer)
    requires Closed(g) && KnownItems(g, items) && |values| == |items|
    requires forall i :: 0 <= i < |items| ==> Unfolded(g, items[i], ancestors) == Ok(values[i]) && values[i] < whole
    ensures SerializedItems(g, items, ancestors, nfc) == PrintedAll(NormalItems(values, whole, nfc))
    decreases g.Keys - ancestors, 1, |items|
  {
    hide Serialized, Unfolded, Normal, Print;
    if items != [] {
      var n := |items| - 1;
      ItemsAgree(g, items[..n], values[..n], ancestors, whole, nfc);
      SerializesUnfolding(g, items[n], ancestors, nfc);
      if NormalItems(values, whole, nfc).Ok? {
        var before, last := NormalItems(values[..n], whole, nfc).value, Normal(values[n], nfc).value;
        assert PrintedItems(before + [last]) == PrintedItems(before) + [Print(last)];
      }
    }
  }

  lemma {:induction false} FieldsAgree(g: Graph, refs: seq<(Text, Ref)>, values: seq<(Text, Value)>,
                                       ancestors: set<nat>, whole: Value, nfc: Normalizer)
    requires Closed(g) && Mirrors(g, refs, values, ancestors) && PartsOf(values, whole)
    ensures SerializedFields(g, refs, ancestors, nfc) == PrintedEntries(NormalFields(values, whole, nfc))
    decreases g.Keys - ancestors, 1, |refs|
  {
    hide Serialized, Unfolded, Normal, Print, Stringified, PrintedFields, Closed;
    if refs == [] {
      NothingPrinted();
    } else {
      var n := |refs| - 1;
      assert forall e :: e in values[..n] ==> e in values;
      FieldsAgree(g, refs[..n], values[..n], ancestors, whole, nfc);
      SerializesUnfolding(g, refs[n].1, ancestors, nfc);
      LastFieldAgrees(g, refs, values, ancestors, whole, nfc);
    }
  }

  lemma LastFieldAgrees(g: Graph, refs: seq<(Text, Ref)>, values: seq<(Text, Value)>, ancestors: set<nat>,
                        whole: Value, nfc: Normalizer)
    requires Closed(g) && KnownFields(g, refs) && refs != [] && |refs| == |values| && PartsOf(values, whole)
    requires PartsOf(values[..|refs| - 1], whole) && refs[|refs| - 1].0 == values[|refs| - 1].0
    requires
      var n := |refs| - 1;
      && SerializedFields(g, refs[..n], ancestors, nfc) == PrintedEntries(NormalFields(values[..n], whole, nfc))
      && Serialized(g, refs[n].1, ancestors, nfc) == Printed(Normal(values[n].1, nfc))
    ensures SerializedFields(g, refs, ancestors, nfc) == PrintedEntries(NormalFields(values, whole, nfc))
  {
    hide Serialized, Normal, Print, Stringified, PrintedFields, Closed;
    var n := |refs| - 1;
    assert values[n] in values;
    if NormalFields(values, whole, nfc).Ok? {
      PrintedWithLast(NormalFields(values[..n], whole, nfc).value, (nfc(values[n].0), Normal(values[n].1, nfc).value));
    }
  }

  lemma NothingPrinted()
    ensures PrintedFields([]) == []
  {
  }

  lemma PrintedWithLast(before: seq<(Text, Value)>, last: (Text, Value))
    ensures PrintedFields(before + [last]) == PrintedFields(before) + [Stringified(last.0) + [COLON] + Print(last.1)]
  {
    hide Print, Stringified;
  }

  lemma {:induction false} InsertMirrors(g: Graph, e: (Text, Ref), x: (Text, Value), refs: seq<(Text, Ref)>,
                                         values: seq<(Text, Value)>, ancestors: set<nat>)
    requires Closed(g) && Mirrors(g, refs, values, ancestors)
    requires Known(g, e.1) && e.0 == x.0 && Unfolded(g, e.1, ancestors) == Ok(x.1)
    ensures Mirrors(g, InsertEntry(e, refs), InsertEntry(x, values), ancestors)
  {
    hide Unfolded, Below, Closed;
    if refs != [] && !Below(e.0, refs[0].0) {
      InsertMirrors(g, e, x, refs[1..], values[1..], ancestors);
    }
  }

  lemma {:induction false} SortMirrors(g: Graph, refs: seq<(Text, Ref)>, values: seq<(Text, Value)>,
                                       ancestors: set<nat>)
    requires Closed(g) && Mirrors(g, refs, values, ancestors)
    ensures Mirrors(g, SortedEntries(refs), SortedEntries(values), ancestors)
  {
    hide Unfolded, Closed;
    if refs != [] {
      var n := |refs| - 1;
      SortMirrors(g, refs[..n], values[..n], ancestors);
      InsertMirrors(g, refs[n], values[n], SortedEntries(refs[..n]), SortedEntries(values[..n]), ancestors);
    }
  }

  lemma EntriesMirror(g: Graph, fields: seq<(Text, Ref)>, values: seq<(Text, Value)>, ancestors: set<nat>,
                      nfc: Normalizer)
    requires Closed(g) && Mirrors(g, fields, values, ancestors)
    ensures Entries(fields, nfc).Ok? <==> Entries(values, nfc).Ok?
    ensures Entries(fields, nfc).Err? ==> Entries(fields, nfc).error == Entries(values, nfc).error
    ensures Entries(fields, nfc).Ok? ==> Mirrors(g, Entries(fields, nfc).value, Entries(values, nfc).value, ancestors)
  {
    hide Unfolded, Closed, Entries;
    EntriesExactlyWhen(fields, nfc);
    EntriesExactlyWhen(values, nfc);
  }

  lemma {:induction false} ItemsSerialize(g: Graph, items: seq<Ref>, ancestors: set<nat>, nfc: Normalizer)
    requires Closed(g) && KnownItems(g, items)
    ensures SerializedItems(g, items, ancestors, nfc).Ok? <==>
            forall i :: 0 <= i < |items| ==> Serialized(g, items[i], ancestors, nfc).Ok?
  {
    hide Serialized;
    if items != [] {
      ItemsSerialize(g, items[..|items| - 1], ancestors, nfc);
    }
  }

  lemma {:induction false} FieldsSerialize(g: Graph, fields: seq<(Text, Ref)>, ancestors: set<nat>, nfc: Normalizer)
    requires Closed(g) && KnownFields(g, fields)
    ensures SerializedFields(g, fields, ancestors, nfc).Ok? <==>
            forall i :: 0 <= i < |fields| ==> Serialized(g, fields[i].1, ancestors, nfc).Ok?
  {
    hide Serialized;
    if fields != [] {
      FieldsSerialize(g, fields[..|fields| - 1], ancestors, nfc);
    }
  }

  /** What serialising a record's entries says about its own fields. */
  lemma RecordSerializes(g: Graph, fields: seq<(Text, Ref)>, ancestors: set<nat>, nfc: Normalizer)
    requires Closed(g) && KnownFields(g, fields) && Entries(fields, nfc).Ok?
    requires KnownFields(g, SortedEntries(Entries(fields, nfc).value))
    ensures SerializedFields(g, SortedEntries(Entries(fields, nfc).value), ancestors, nfc).Ok? <==>
            forall i :: 0 <= i < |fields| ==> Serialized(g, fields[i].1, ancestors, nfc).Ok?
  {
    hide Serialized, SerializedFields, SortedEntries, Closed;
    var entries := Entries(fields, nfc).value;
    EntriesExactlyWhen(fields, nfc);
    SortKeeps(entries);
    SameEntriesSerialize(g, entries, SortedEntries(entries), ancestors, nfc);
    hide Entries;
    forall i | 0 <= i < |fields| ensures entries[i].1 == fields[i].1 {
    }
  }

  lemma SameEntriesSerialize(g: Graph, entries: seq<(Text, Ref)>, sorted: seq<(Text, Ref)>, ancestors: set<nat>,
                             nfc: Normalizer)
    requires Closed(g) && KnownFields(g, entries) && KnownFields(g, sorted) && SameEntries(sorted, entries)
    ensures SerializedFields(g, sorted, ancestors, nfc).Ok? <==>
            forall i :: 0 <= i < |entries| ==> Serialized(g, entries[i].1, ancestors, nfc).Ok?
  {
    hide Serialized, Closed;
    FieldsSerialize(g, sorted, ancestors, nfc);
    hide SerializedFields;
    forall i | 0 <= i < |entries| ensures exists k :: 0 <= k < |sorted| && sorted[k] == entries[i] {
      assert entries[i] in sorted;
    }
    forall k | 0 <= k < |sorted| ensures exists i :: 0 <= i < |entries| && sorted[k] == entries[i] {
      assert sorted[k] in entries;
    }
  }

  /** A reference that unfolds serialises as its tree does; one that does not is refused. */
  lemma {:induction false} SerializesUnfolding(g: Graph, ref: Ref, ancestors: set<nat>, nfc: Normalizer)
    requires Closed(g) && Known(g, ref)
    ensures
      var tree := Unfolded(g, ref, ancestors);
      var text := Serialized(g, ref, ancestors, nfc);
      if tree.Ok? then text == Printed(Normal(tree.value, nfc)) else text.Err?
    decreases g.Keys - ancestors, 0, 0
  {
    if ref.Node? && ref.id !in ancestors {
      assert ref.id in g.Keys - ancestors;
      if g[ref.id].ArrayOf? {
        SerializesArray(g, ref.id, g[ref.id].items, ancestors, nfc);
      } else {
        SerializesRecord(g, ref.id, g[ref.id].fields, ancestors, nfc);
      }
    }
  }

  lemma {:induction false} SerializesArray(g: Graph, id: nat, items: seq<Ref>, ancestors: set<nat>, nfc: Normalizer)
    requires Closed(g) && id in g && g[id] == ArrayOf(items) && id !in ancestors && id in g.Keys - ancestors
    ensures
      var tree := Unfolded(g, Node(id), ancestors);
      var text := Serialized(g, Node(id), ancestors, nfc);
      if tree.Ok? then text == Printed(Normal(tree.value, nfc)) else text.Err?
    decreases g.Keys - ancestors, 0, 0, 0
  {
    var inside := ancestors + {id};
    if UnfoldedItems(g, items, inside).Ok? {
      UnfoldedItemsAre(g, items, inside);
      var values := UnfoldedItems(g, items, inside).value;
      ItemsAgree(g, items, values, inside, Arr(values), nfc);
      var normal := NormalItems(values, Arr(values), nfc);
      if normal.Ok? {
        PrintOfArray(normal.value);
      }
    } else {
      LoopingArray(g, items, inside, nfc);
    }
  }

  /** An item that does not unfold is refused, and its array with it. */
  lemma {:induction false} LoopingArray(g: Graph, items: seq<Ref>, inside: set<nat>, nfc: Normalizer)
    requires Closed(g) && KnownItems(g, items) && UnfoldedItems(g, items, inside).Err?
    ensures SerializedItems(g, items, inside, nfc).Err?
    decreases g.Keys - inside, 1, |items|
  {
    hide Unfolded, Serialized, Normal, Print;
    UnfoldedItemsAre(g, items, inside);
    var i :| 0 <= i < |items| && Unfolded(g, items[i], inside).Err?;
    SerializesUnfolding(g, items[i], inside, nfc);
    if SerializedItems(g, items, inside, nfc).Ok? {
      ItemsSerialize(g, items, inside, nfc);
    }
  }

  lemma {:induction false} SerializesRecord(g: Graph, id: nat, fields: seq<(Text, Ref)>, ancestors: set<nat>,
                                            nfc: Normalizer)
    requires Closed(g) && id in g && g[id] == RecordOf(fields) && id !in ancestors && id in g.Keys - ancestors
    ensures
      var tree := Unfolded(g, Node(id), ancestors);
      var text := Serialized(g, Node(id), ancestors, nfc);
      if tree.Ok? then text == Printed(Normal(tree.value, nfc)) else text.Err?
    decreases g.Keys - ancestors, 0, 0, 0
  {
    var inside := ancestors + {id};
    UnfoldedFieldsAre(g, fields, inside);
    if UnfoldedFields(g, fields, inside).Ok? {
      var values := UnfoldedFields(g, fields, inside).value;
      EntriesMirror(g, fields, values, inside, nfc);
      if Entries(fields, nfc).Ok? {
        var sorted := SortedEntries(Entries(values, nfc).value);
        SortMirrors(g, Entries(fields, nfc).value, Entries(values, nfc).value, inside);
        SortedEntriesAreParts(values, nfc);
        FieldsAgree(g, SortedEntries(Entries(fields, nfc).value), sorted, inside, Rec(values), nfc);
        var normal := NormalFields(sorted, Rec(values), nfc);
        if normal.Ok? {
          PrintOfRecord(normal.value);
        }
      }
    } else if Entries(fields, nfc).Ok? {
      EntriesStayKnown(g, fields, nfc);
      if SerializedFields(g, SortedEntries(Entries(fields, nfc).value), inside, nfc).Ok? {
        RecordSerializes(g, fields, inside, nfc);
        var i :| 0 <= i < |fields| && Unfolded(g, fields[i].1, inside).Err?;
        SerializesUnfolding(g, fields[i].1, inside, nfc);
        assert false;
      }
    }
  }

  // ---- Documents ----

  lemma {:induction false} FindMirrors(g: Graph, key: Text, refs: seq<(Text, Ref)>, values: seq<(Text, Value)>,
                                        ancestors: set<nat>)
    requires Closed(g) && Mirrors(g, refs, values, ancestors)
    ensures Find(key, refs).Some? <==> Find(key, values).Some?
    ensures Find(key, refs).Some? ==> (Find(key, refs).value == PLAIN_ONE <==> Find(key, values).value == ONE)
  {
    if refs != [] && refs[0].0 != key {
      FindMirrors(g, key, refs[1..], values[1..], ancestors);
    }
  }

  lemma VersionedMirrors(g: Graph, refs: seq<(Text, Ref)>, values: seq<(Text, Value)>, ancestors: set<nat>)
    requires Closed(g) && Mirrors(g, refs, values, ancestors)
    ensures Versioned(refs, PLAIN_ONE).Ok? <==> Versioned(values, ONE).Ok?
    ensures Versioned(refs, PLAIN_ONE).Err? ==> Versioned(refs, PLAIN_ONE).error == Versioned(values, ONE).error
    ensures Versioned(refs, PLAIN_ONE).Ok? ==>
              Mirrors(g, Versioned(refs, PLAIN_ONE).value, Versioned(values, ONE).value, ancestors)
  {
    FindMirrors(g, SPEC_VERSION, refs, values, ancestors);
    if Find(SPEC_VERSION, refs).None? {
      SortMirrors(g, refs + [(SPEC_VERSION, PLAIN_ONE)], values + [(SPEC_VERSION, ONE)], ancestors);
    }
  }

  /** A document that unfolds prints as its tree does, errors included; one that does not is refused. */
  lemma DocumentPrintsItsTree(g: Graph, document: nat, nfc: Normalizer)
    requires Closed(g) && document in g
    ensures
      var tree := Unfolded(g, Node(document), {});
      var text := SerializedDocument(g, document, nfc);
      if tree.Ok? then text == Canonical(tree.value, nfc) else text.Err?
  {
    if g[document].RecordOf? {
      var fields := g[document].fields;
      assert {} + {document} == {document};
      UnfoldedFieldsAre(g, fields, {document});
      if UnfoldedFields(g, fields, {document}).Ok? {
        UnfoldedDocument(g, document, fields, UnfoldedFields(g, fields, {document}).value, nfc);
      } else if SerializedDocument(g, document, nfc).Ok? {
        LoopingDocument(g, document, fields, nfc);
      }
    }
  }

  lemma UnfoldedDocument(g: Graph, document: nat, fields: seq<(Text, Ref)>, values: seq<(Text, Value)>, nfc: Normalizer)
    requires Closed(g) && document in g && g[document] == RecordOf(fields) && Mirrors(g, fields, values, {document})
    ensures SerializedDocument(g, document, nfc) == Canonical(Rec(values), nfc)
  {
    EntriesMirror(g, fields, values, {document}, nfc);
    if Entries(fields, nfc).Ok? {
      var refs, entries := SortedEntries(Entries(fields, nfc).value), SortedEntries(Entries(values, nfc).value);
      SortMirrors(g, Entries(fields, nfc).value, Entries(values, nfc).value, {document});
      VersionedMirrors(g, refs, entries, {document});
      if Versioned(refs, PLAIN_ONE).Ok? {
        var versioned := Versioned(entries, ONE).value;
        FieldsAreParts(versioned);
        FieldsAgree(g, Versioned(refs, PLAIN_ONE).value, versioned, {document}, Rec(versioned), nfc);
        var normal := NormalFields(versioned, Rec(versioned), nfc);
        if normal.Ok? {
          PrintOfRecord(normal.value);
        }
      }
    }
  }

  lemma LoopingDocument(g: Graph, document: nat, fields: seq<(Text, Ref)>, nfc: Normalizer)
    requires Closed(g) && document in g && g[document] == RecordOf(fields)
    requires SerializedDocument(g, document, nfc).Ok?
    ensures forall i :: 0 <= i < |fields| ==> Unfolded(g, fields[i].1, {document}).Ok?
  {
    DocumentSerializes(g, document, fields, nfc);
    hide Serialized, Unfolded, SerializedDocument, Closed, VersionFits;
    forall i | 0 <= i < |fields| ensures Unfolded(g, fields[i].1, {document}).Ok? {
      SerializesUnfolding(g, fields[i].1, {document}, nfc);
    }
  }

  // ---- What is accepted ----

  /** The document's keys normalise apart, and it carries version "1" or none. */
  predicate VersionFits(fields: seq<(Text, Ref)>, nfc: Normalizer) {
    Entries(fields, nfc).Ok? && Versioned(SortedEntries(Entries(fields, nfc).value), PLAIN_ONE).Ok?
  }

  /** A document is accepted when its version fits and each of its fields serialises. */
  lemma DocumentSerializes(g: Graph, document: nat, fields: seq<(Text, Ref)>, nfc: Normalizer)
    requires Closed(g) && document in g && g[document] == RecordOf(fields)
    ensures SerializedDocument(g, document, nfc).Ok? <==>
            && VersionFits(fields, nfc)
            && forall i :: 0 <= i < |fields| ==> Serialized(g, fields[i].1, {document}, nfc).Ok?
  {
    hide Serialized, SerializedFields, Entries, SortedEntries, Versioned;
    if VersionFits(fields, nfc) {
      var sorted := SortedEntries(Entries(fields, nfc).value);
      EntriesStayKnown(g, fields, nfc);
      VersionedStaysKnown(g, sorted);
      RecordSerializes(g, fields, {document}, nfc);
      VersionSerializes(g, sorted, {document}, nfc);
    }
  }

  /** The version that is added always serialises. */
  lemma VersionSerializes(g: Graph, sorted: seq<(Text, Ref)>, ancestors: set<nat>, nfc: Normalizer)
    requires Closed(g) && KnownFields(g, sorted) && Versioned(sorted, PLAIN_ONE).Ok?
    requires KnownFields(g, Versioned(sorted, PLAIN_ONE).value)
    ensures SerializedFields(g, Versioned(sorted, PLAIN_ONE).value, ancestors, nfc).Ok? <==>
            SerializedFields(g, sorted, ancestors, nfc).Ok?
  {
    if Find(SPEC_VERSION, sorted).None? {
      var more := sorted + [(SPEC_VERSION, PLAIN_ONE)];
      assert Serialized(g, PLAIN_ONE, ancestors, nfc).Ok?;
      hide Serialized, SerializedFields, SortedEntries, Closed;
      SortKeeps(more);
      SameEntriesSerialize(g, more, SortedEntries(more), ancestors, nfc);
      FieldsSerialize(g, sorted, ancestors, nfc);
      assert forall i :: 0 <= i < |sorted| ==> more[i] == sorted[i];
      assert more[|sorted|].1 == PLAIN_ONE;
    }
  }

  predicate ValidRef(ref: Ref) {
    ref != Plain(Unsupported)
  }

  /** No unsupported leaf, and no two keys that normalise alike. */
  ghost predicate ValidAt(g: Graph, id: nat, nfc: Normalizer)
    requires id in g
  {
    match g[id]
    case ArrayOf(items) => forall i :: 0 <= i < |items| ==> ValidRef(items[i])
    case RecordOf(fields) => KeysApart(fields, nfc) && forall i :: 0 <= i < |fields| ==> ValidRef(fields[i].1)
  }

  /** A walk at whose end the serialiser gives up: it is back, or at an object that is not valid. */
  ghost predicate EndsBadly(g: Graph, walk: seq<nat>, from: nat, ancestors: set<nat>, nfc: Normalizer) {
    || LeadsBack(g, walk, from, ancestors)
    || (IsWalk(g, walk, from) && walk[|walk| - 1] in g && !ValidAt(g, walk[|walk| - 1], nfc))
  }

  lemma LeafSerializes(g: Graph, ref: Ref, ancestors: set<nat>, nfc: Normalizer)
    requires Closed(g) && ref.Plain?
    ensures Serialized(g, ref, ancestors, nfc).Ok? <==> ValidRef(ref)
  {
  }

  lemma ArrayWithChildren(g: Graph, id: nat, items: seq<Ref>, ancestors: set<nat>, nfc: Normalizer)
    requires Closed(g) && id in g && g[id] == ArrayOf(items) && id !in ancestors
    requires forall child :: Refers(g, id, child) ==> child in g
    ensures Serialized(g, Node(id), ancestors, nfc).Ok? <==>
            && ValidAt(g, id, nfc)
            && forall child :: Refers(g, id, child) ==> Serialized(g, Node(child), ancestors + {id}, nfc).Ok?
  {
    var inside := ancestors + {id};
    ItemsSerialize(g, items, inside, nfc);
    assert Serialized(g, Node(id), ancestors, nfc).Ok? <==> SerializedItems(g, items, inside, nfc).Ok?;
    hide Serialized, SerializedItems, Closed;
    forall i | 0 <= i < |items|
      ensures items[i].Node? ==> Refers(g, id, items[i].id)
      ensures items[i].Plain? ==> (Serialized(g, items[i], inside, nfc).Ok? <==> ValidRef(items[i]))
    {
      assert items[i] in items;
      if items[i].Plain? {
        LeafSerializes(g, items[i], inside, nfc);
      }
    }
  }

  lemma RecordWithChildren(g: Graph, id: nat, fields: seq<(Text, Ref)>, ancestors: set<nat>, nfc: Normalizer)
    requires Closed(g) && id in g && g[id] == RecordOf(fields) && id !in ancestors
    requires forall child :: Refers(g, id, child) ==> child in g
    ensures Serialized(g, Node(id), ancestors, nfc).Ok? <==>
            && ValidAt(g, id, nfc)
            && forall child :: Refers(g, id, child) ==> Serialized(g, Node(child), ancestors + {id}, nfc).Ok?
  {
    var inside := ancestors + {id};
    RecordSerializesInside(g, id, fields, ancestors, nfc);
    EntriesExactlyWhen(fields, nfc);
    hide Serialized, SerializedFields, Closed, Entries;
    forall i | 0 <= i < |fields|
      ensures fields[i].1.Node? ==> Refers(g, id, fields[i].1.id)
      ensures fields[i].1.Plain? ==> (Serialized(g, fields[i].1, inside, nfc).Ok? <==> ValidRef(fields[i].1))
    {
      if fields[i].1.Plain? {
        LeafSerializes(g, fields[i].1, inside, nfc);
      } else {
        assert fields[i].1 == Node(fields[i].1.id);
      }
    }
  }

  lemma RecordSerializesInside(g: Graph, id: nat, fields: seq<(Text, Ref)>, ancestors: set<nat>, nfc: Normalizer)
    requires Closed(g) && id in g && g[id] == RecordOf(fields) && id !in ancestors
    ensures Serialized(g, Node(id), ancestors, nfc).Ok? <==>
            && Entries(fields, nfc).Ok?
            && forall i :: 0 <= i < |fields| ==> Serialized(g, fields[i].1, ancestors + {id}, nfc).Ok?
  {
    if Entries(fields, nfc).Ok? {
      EntriesStayKnown(g, fields, nfc);
      RecordSerializes(g, fields, ancestors + {id}, nfc);
    }
  }

  lemma OneBadStepLonger(g: Graph, walk: seq<nat>, id: nat, child: nat, ancestors: set<nat>, nfc: Normalizer)
    requires Refers(g, id, child)
    ensures
      var onward := walk != [] && walk[0] == child && EndsBadly(g, [id] + walk, id, ancestors, nfc);
      EndsBadly(g, walk, child, ancestors + {id}, nfc) <==> onward
  {
    OneStepLonger(g, walk, id, child, ancestors);
    WalkOneStepLonger(g, walk, id, child);
    hide LeadsBack, IsWalk, ValidAt, Refers;
    assert walk != [] ==> ([id] + walk)[|walk|] == walk[|walk| - 1];
  }

  lemma WalkOneStepLonger(g: Graph, walk: seq<nat>, id: nat, child: nat)
    requires Refers(g, id, child)
    ensures IsWalk(g, walk, child) <==> walk != [] && walk[0] == child && IsWalk(g, [id] + walk, id)
  {
    hide Refers;
    var longer := [id] + walk;
    if IsWalk(g, walk, child) {
      forall i | 0 < i < |longer| ensures Refers(g, longer[i - 1], longer[i]) {
        if i > 1 {
          assert Refers(g, walk[i - 2], walk[i - 1]);
        }
      }
    }
    if walk != [] && walk[0] == child && IsWalk(g, longer, id) {
      forall i | 0 < i < |walk| ensures Refers(g, walk[i - 1], walk[i]) {
        assert Refers(g, longer[i], longer[i + 1]);
      }
    }
  }

  lemma BadWalksThroughChildren(g: Graph, id: nat, ancestors: set<nat>, nfc: Normalizer)
    requires Closed(g) && id in g && id !in ancestors && ValidAt(g, id, nfc)
    ensures (forall walk :: !EndsBadly(g, walk, id, ancestors, nfc))
            <==> forall child, walk :: Refers(g, id, child) ==> !EndsBadly(g, walk, child, ancestors + {id}, nfc)
  {
    forall child, walk | Refers(g, id, child) && EndsBadly(g, walk, child, ancestors + {id}, nfc)
      ensures EndsBadly(g, [id] + walk, id, ancestors, nfc)
    {
      OneBadStepLonger(g, walk, id, child, ancestors, nfc);
    }
    forall walk | EndsBadly(g, walk, id, ancestors, nfc)
      ensures |walk| > 1 && Refers(g, id, walk[1]) && EndsBadly(g, walk[1..], walk[1], ancestors + {id}, nfc)
    {
      assert |walk| > 1;
      assert Refers(g, walk[0], walk[1]);
      assert [id] + walk[1..] == walk;
      OneBadStepLonger(g, walk[1..], id, walk[1], ancestors, nfc);
    }
  }

  /** A reference is refused exactly when some walk from it ends badly. */
  lemma {:induction false} SerializesExactlyWhen(g: Graph, id: nat, ancestors: set<nat>, nfc: Normalizer)
    requires Closed(g) && id in g
    ensures Serialized(g, Node(id), ancestors, nfc).Ok? <==> forall walk :: !EndsBadly(g, walk, id, ancestors, nfc)
    decreases g.Keys - ancestors
  {
    if id in ancestors {
      assert EndsBadly(g, [id], id, ancestors, nfc);
    } else {
      assert id in g.Keys - ancestors;
      forall child | Refers(g, id, child)
        ensures child in g
        ensures Serialized(g, Node(child), ancestors + {id}, nfc).Ok? <==>
                forall walk :: !EndsBadly(g, walk, child, ancestors + {id}, nfc)
      {
        ChildIsKnown(g, id, child);
        SerializesExactlyWhen(g, child, ancestors + {id}, nfc);
      }
      if g[id].ArrayOf? {
        ArrayWithChildren(g, id, g[id].items, ancestors, nfc);
      } else {
        RecordWithChildren(g, id, g[id].fields, ancestors, nfc);
      }
      hide Serialized, ValidAt, Refers, Closed;
      if ValidAt(g, id, nfc) {
        BadWalksThroughChildren(g, id, ancestors, nfc);
      } else {
        assert EndsBadly(g, [id], id, ancestors, nfc);
      }
    }
  }

  /**
   A document is accepted exactly when it is a record, no walk from it leads back,
   every object a walk reaches has supported leaves and keys that normalise apart,
   and its version fits. Sharing is never refused: only looping is. What no walk
   reaches does not matter.
   */
  lemma AcceptedExactlyWhen(g: Graph, document: nat, nfc: Normalizer)
    requires Closed(g) && document in g
    ensures SerializedDocument(g, document, nfc).Ok? <==>
            && g[document].RecordOf? && VersionFits(g[document].fields, nfc)
            && (forall walk :: !LeadsBack(g, walk, document, {}))
            && (forall walk :: IsWalk(g, walk, document) ==>
                  walk[|walk| - 1] in g && ValidAt(g, walk[|walk| - 1], nfc))
  {
    if g[document].RecordOf? {
      var fields := g[document].fields;
      DocumentSerializes(g, document, fields, nfc);
      RecordSerializesInside(g, document, fields, {}, nfc);
      assert {} + {document} == {document};
      SerializesExactlyWhen(g, document, {}, nfc);
      hide Serialized, SerializedDocument, ValidAt, Closed, LeadsBack;
      forall walk | IsWalk(g, walk, document) ensures walk[|walk| - 1] in g {
        WalksStayInside(g, walk, document);
      }
      forall walk ensures EndsBadly(g, walk, document, {}, nfc) <==>
          || LeadsBack(g, walk, document, {})
          || (IsWalk(g, walk, document) && !ValidAt(g, walk[|walk| - 1], nfc))
      {
      }
    }
  }

  lemma WalksStayInside(g: Graph, walk: seq<nat>, from: nat)
    requires Closed(g) && from in g && IsWalk(g, walk, from)
    ensures walk[|walk| - 1] in g
  {
    if |walk| > 1 {
      assert Refers(g, walk[|walk| - 2], walk[|walk| - 1]);
      ChildIsKnown(g, walk[|walk| - 2], walk[|walk| - 1]);
    }
  }

  // ---- The serialiser ----

  /** The objects the serialiser is inside of, added on the way in and deleted on the way out. */
  class Ancestors {
    var members: set<nat>

    constructor (document: nat)
      ensures members == {document}
    {
      members := {document};
    }

    method Add(id: nat)
      modifies this
      ensures members == old(members) + {id}
    {
      members := members + {id};
    }

    method Delete(id: nat)
      modifies this
      ensures members == old(members) - {id}
    {
      members := members - {id};
    }
  }

  method SerializeValue(g: Graph, ref: Ref, ancestors: Ancestors, nfc: Normalizer)
    returns (r: Result<Text, CanonicalError>)
    requires Closed(g) && Known(g, ref)
    modifies ancestors
    ensures ancestors.members == old(ancestors.members)
    ensures r == Serialized(g, ref, old(ancestors.members), nfc)
    decreases g.Keys - ancestors.members, 0
  {
    match ref {
      case Plain(s) =>
        r := ScalarText(s, nfc);
      case Node(id) =>
        if id in ancestors.members {
          return Err(Cyclic);
        }
        assert id in g.Keys - ancestors.members;
        ancestors.Add(id);
        match g[id] {
          case ArrayOf(items) =>
            r := SerializeArray(g, items, ancestors, nfc);
          case RecordOf(fields) =>
            r := SerializeRecord(g, fields, ancestors, nfc);
        }
        ancestors.Delete(id);
    }
  }

  lemma {:induction false} SerializedItemsStop(g: Graph, items: seq<Ref>, ancestors: set<nat>, nfc: Normalizer, n: nat)
    requires Closed(g) && KnownItems(g, items) && n <= |items| && SerializedItems(g, items[..n], ancestors, nfc).Err?
    ensures SerializedItems(g, items, ancestors, nfc) == SerializedItems(g, items[..n], ancestors, nfc)
  {
    hide Serialized;
    if n < |items| {
      assert items[..|items| - 1][..n] == items[..n];
      SerializedItemsStop(g, items[..|items| - 1], ancestors, nfc, n);
    } else {
      assert items[..n] == items;
    }
  }

  lemma {:induction false} SerializedFieldsStop(g: Graph, fields: seq<(Text, Ref)>, ancestors: set<nat>,
                                                nfc: Normalizer, n: nat)
    requires Closed(g) && KnownFields(g, fields) && n <= |fields|
             && SerializedFields(g, fields[..n], ancestors, nfc).Err?
    ensures SerializedFields(g, fields, ancestors, nfc) == SerializedFields(g, fields[..n], ancestors, nfc)
  {
    hide Serialized;
    if n < |fields| {
      assert fields[..|fields| - 1][..n] == fields[..n];
      SerializedFieldsStop(g, fields[..|fields| - 1], ancestors, nfc, n);
    } else {
      assert fields[..n] == fields;
    }
  }

  lemma {:induction false} EntriesStop(fields: seq<(Text, Ref)>, nfc: Normalizer, n: nat)
    requires n <= |fields| && Entries(fields[..n], nfc).Err?
    ensures Entries(fields, nfc) == Entries(fields[..n], nfc)
  {
    if n < |fields| {
      assert fields[..|fields| - 1][..n] == fields[..n];
      EntriesStop(fields[..|fields| - 1], nfc, n);
    } else {
      assert fields[..n] == fields;
    }
  }

  method SerializeArray(g: Graph, items: seq<Ref>, ancestors: Ancestors, nfc: Normalizer)
    returns (r: Result<Text, CanonicalError>)
    requires Closed(g) && KnownItems(g, items)
    modifies ancestors
    ensures ancestors.members == old(ancestors.members)
    ensures
      var parts := SerializedItems(g, items, old(ancestors.members), nfc);
      r == if parts.Ok? then Ok([91] + Joined(parts.value) + [93]) else Err(parts.error)
    decreases g.Keys - ancestors.members, 1
  {
    hide Serialized;
    var parts: seq<Text> := [];
    for index := 0 to |items|
      invariant ancestors.members == old(ancestors.members)
      invariant SerializedItems(g, items[..index], old(ancestors.members), nfc) == Ok(parts)
    {
      assert items[..index + 1][..index] == items[..index];
      var part := SerializeValue(g, items[index], ancestors, nfc);
      if part.Err? {
        SerializedItemsStop(g, items, old(ancestors.members), nfc, index + 1);
        return Err(part.error);
      }
      parts := parts + [part.value];
    }
    assert items[..|items|] == items;
    return Ok([91] + Joined(parts) + [93]);
  }

  /** The record's entries under normalised keys, sorted. */
  method RecordEntries(fields: seq<(Text, Ref)>, nfc: Normalizer) returns (r: Result<seq<(Text, Ref)>, CanonicalError>)
    ensures
      var entries := Entries(fields, nfc);
      r == if entries.Ok? then Ok(SortedEntries(entries.value)) else Err(entries.error)
  {
    var normalized: seq<(Text, Ref)> := [];
    for i := 0 to |fields|
      invariant Entries(fields[..i], nfc) == Ok(normalized)
    {
      assert fields[..i + 1][..i] == fields[..i];
      var normalizedKey := nfc(fields[i].0);
      if normalizedKey in KeysOf(normalized) {
        EntriesStop(fields, nfc, i + 1);
        return Err(KeyCollision);
      }
      normalized := normalized + [(normalizedKey, fields[i].1)];
    }
    assert fields[..|fields|] == fields;
    return Ok(SortedEntries(normalized));
  }

  method SerializeEntries(g: Graph, entries: seq<(Text, Ref)>, ancestors: Ancestors, nfc: Normalizer)
    returns (r: Result<Text, CanonicalError>)
    requires Closed(g) && KnownFields(g, entries)
    modifies ancestors
    ensures ancestors.members == old(ancestors.members)
    ensures
      var parts := SerializedFields(g, entries, old(ancestors.members), nfc);
      r == if parts.Ok? then Ok([123] + Joined(parts.value) + [125]) else Err(parts.error)
    decreases g.Keys - ancestors.members, 1
  {
    hide Serialized;
    var properties: seq<Text> := [];
    for i := 0 to |entries|
      invariant ancestors.members == old(ancestors.members)
      invariant SerializedFields(g, entries[..i], old(ancestors.members), nfc) == Ok(properties)
    {
      assert entries[..i + 1][..i] == entries[..i];
      var part := SerializeValue(g, entries[i].1, ancestors, nfc);
      if part.Err? {
        SerializedFieldsStop(g, entries, old(ancestors.members), nfc, i + 1);
        return Err(part.error);
      }
      properties := properties + [Stringified(nfc(entries[i].0)) + [COLON] + part.value];
    }
    assert entries[..|entries|] == entries;
    return Ok([123] + Joined(properties) + [125]);
  }

  method SerializeRecord(g: Graph, fields: seq<(Text, Ref)>, ancestors: Ancestors, nfc: Normalizer)
    returns (r: Result<Text, CanonicalError>)
    requires Closed(g) && KnownFields(g, fields)
    modifies ancestors
    ensures ancestors.members == old(ancestors.members)
    ensures
      var entries := Entries(fields, nfc);
      if entries.Err? then r == Err(entries.error)
      else
        KnownFields(g, SortedEntries(entries.value))
        && var parts := SerializedFields(g, SortedEntries(entries.value), old(ancestors.members), nfc);
           r == if parts.Ok? then Ok([123] + Joined(parts.value) + [125]) else Err(parts.error)
    decreases g.Keys - ancestors.members, 2
  {
    var entries := RecordEntries(fields, nfc);
    if entries.Err? {
      return Err(entries.error);
    }
    EntriesStayKnown(g, fields, nfc);
    r := SerializeEntries(g, entries.value, ancestors, nfc);
  }

  lemma ScalarIsNoDocument(g: Graph, scalar: Scalar, nfc: Normalizer)
    ensures Closed(g) ==>
              Canonical(Leaf(scalar), nfc) == Err(NotARecord) && Unfolded(g, Plain(scalar), {}) == Ok(Leaf(scalar))
  {
  }

  /** Canonicalises a document, refusing one that is not a record of the graph. */
  method CanonicalizeV1(g: Graph, top: Ref, nfc: Normalizer) returns (r: Result<Text, CanonicalError>)
    requires Closed(g) && Known(g, top)
    ensures top.Plain? ==> r == Err(NotARecord)
    ensures top.Node? ==> r == SerializedDocument(g, top.id, nfc)
    ensures Unfolded(g, top, {}).Ok? ==> r == Canonical(Unfolded(g, top, {}).value, nfc)
  {
    if top.Plain? {
      ScalarIsNoDocument(g, top.scalar, nfc);
      return Err(NotARecord);
    }
    var document := top.id;
    DocumentPrintsItsTree(g, document, nfc);
    hide Unfolded, Canonical;
    if g[document].ArrayOf? {
      return Err(NotARecord);
    }
    var ancestors := new Ancestors(document);
    var fields := g[document].fields;
    var entries := RecordEntries(fields, nfc);
    if entries.Err? {
      return Err(entries.error);
    }
    EntriesStayKnown(g, fields, nfc);
    var versioned := Versioned(entries.value, PLAIN_ONE);
    if versioned.Err? {
      return Err(versioned.error);
    }
    VersionedStaysKnown(g, entries.value);
    r := SerializeEntries(g, versioned.value, ancestors, nfc);
  }
}
